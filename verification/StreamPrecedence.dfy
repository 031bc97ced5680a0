/**
 Which rule a connection is routed by, said of server names alone: an exact name before a wildcard, a longer
 wildcard before a shorter one, any name before none, and the first visited among equals.
 */
module StreamPrecedence {
  import opened Wrappers
  import opened Text
  import opened Hostname
  import opened Ranking
  import opened StreamRoutes
  import opened StreamSelect

  // ------------------------------------------------------------------------------------------
  // The first of the best, by place
  // ------------------------------------------------------------------------------------------

  /** Rule `j` of the `k`-th visit makes an offer, before rule `r` of the `n`-th. */
  ghost predicate OfferAt(board: Board, order: seq<nat>, n: nat, r: nat, k: nat, j: nat)
    requires Within(order, |board|)
  {
    && k < |order| && (k < n || (k == n && j < r))
    && j < |board[order[k]]| && board[order[k]][j].Some?
  }

  /** The offer at place (k, j) is greater than that at (k', j'), or as great and not later. */
  ghost predicate AheadAt(board: Board, order: seq<nat>, k: nat, j: nat, k': nat, j': nat)
    requires Within(order, |board|) && OfferAt(board, order, |order|, 0, k, j)
    requires OfferAt(board, order, |order|, 0, k', j')
  {
    var s, t := board[order[k]][j].value, board[order[k']][j'].value;
    HostLess(t, s) || (s == t && (k < k' || (k == k' && j <= j')))
  }

  ghost predicate FirstGreatest(board: Board, order: seq<nat>, n: nat, r: nat, k: nat, j: nat)
    requires Within(order, |board|)
  {
    && OfferAt(board, order, n, r, k, j)
    && forall k': nat, j': nat :: OfferAt(board, order, n, r, k', j') ==> AheadAt(board, order, k, j, k', j')
  }

  ghost predicate StandsAt(board: Board, order: seq<nat>, n: nat, r: nat, x: Candidate, k: nat)
    requires Within(order, |board|)
  {
    && FirstGreatest(board, order, n, r, k, x.slot.rule)
    && order[k] == x.slot.route && board[order[k]][x.slot.rule] == Some(x.score)
  }

  ghost predicate Greatest(board: Board, order: seq<nat>, n: nat, r: nat, best: Option<Candidate>)
    requires Within(order, |board|)
  {
    match best
    case None => forall k: nat, j: nat :: !OfferAt(board, order, n, r, k, j)
    case Some(x) => exists k: nat :: StandsAt(board, order, n, r, x, k)
  }

  lemma {:induction false} OneMoreOffer(board: Board, order: seq<nat>, n: nat, r: nat, best: Option<Candidate>)
    requires Within(order, |board|) && n < |order| && r < |board[order[n]]| && board[order[n]][r].Some?
    requires Greatest(board, order, n, r, best)
    ensures
      var c := Candidate(Slot(order[n], r), board[order[n]][r].value);
      Greatest(board, order, n, r + 1, if StreamRoutes.Improves(best, c.score) then Some(c) else best)
  {
    var c := Candidate(Slot(order[n], r), board[order[n]][r].value);
    forall k: nat, j: nat
      ensures OfferAt(board, order, n, r + 1, k, j) <==> OfferAt(board, order, n, r, k, j) || (k == n && j == r)
    {
      assert j < r + 1 <==> j < r || j == r;
    }
    if best.Some? {
      var k: nat :| StandsAt(board, order, n, r, best.value, k);
      var j := best.value.slot.rule;
      if HostLess(best.value.score, c.score) {
        forall k': nat, j': nat | OfferAt(board, order, n, r, k', j') ensures AheadAt(board, order, n, r, k', j') {
          assert AheadAt(board, order, k, j, k', j');
        }
        assert StandsAt(board, order, n, r + 1, c, n);
      } else {
        forall k': nat, j': nat | OfferAt(board, order, n, r + 1, k', j') ensures AheadAt(board, order, k, j, k', j') {
          assert OfferAt(board, order, n, r, k', j') || (k' == n && j' == r);
        }
        assert StandsAt(board, order, n, r + 1, best.value, k);
      }
    } else {
      forall k': nat, j': nat | OfferAt(board, order, n, r + 1, k', j') ensures AheadAt(board, order, n, r, k', j') {
        assert !OfferAt(board, order, n, r, k', j');
      }
      assert StandsAt(board, order, n, r + 1, c, n);
    }
  }

  lemma {:induction false} SameOffers(board: Board, order: seq<nat>, n: nat, r: nat, n': nat, r': nat,
                                      best: Option<Candidate>)
    requires Within(order, |board|) && Greatest(board, order, n, r, best)
    requires forall k: nat, j: nat :: OfferAt(board, order, n, r, k, j) <==> OfferAt(board, order, n', r', k, j)
    ensures Greatest(board, order, n', r', best)
  {
    if best.Some? {
      var k: nat :| StandsAt(board, order, n, r, best.value, k);
      assert StandsAt(board, order, n', r', best.value, k);
    }
  }

  /** A rule that makes no offer. */
  lemma {:induction false} NoOffer(board: Board, order: seq<nat>, n: nat, r: nat, best: Option<Candidate>)
    requires Within(order, |board|) && n < |order| && r < |board[order[n]]| && board[order[n]][r].None?
    requires Greatest(board, order, n, r, best)
    ensures Greatest(board, order, n, r + 1, best)
  {
    forall k: nat, j: nat ensures OfferAt(board, order, n, r, k, j) <==> OfferAt(board, order, n, r + 1, k, j) {
      assert j < r + 1 <==> j < r || j == r;
    }
    SameOffers(board, order, n, r, n, r + 1, best);
  }

  /** One rule more of the route that is being visited. */
  lemma {:induction false} RowStep(board: Board, order: seq<nat>, n: nat, r: nat, cs: seq<Candidate>)
    requires Within(order, |board|) && n < |order| && r < |board[order[n]]|
    requires Greatest(board, order, n, r, Best(cs))
    ensures Greatest(board, order, n, r + 1, Best(cs + AsCandidate(board[order[n]][r], Slot(order[n], r))))
  {
    if board[order[n]][r].Some? {
      BestAppend(cs, Candidate(Slot(order[n], r), board[order[n]][r].value));
      OneMoreOffer(board, order, n, r, Best(cs));
    } else {
      NoOffer(board, order, n, r, Best(cs));
      assert cs + [] == cs;
    }
  }

  lemma {:induction false} Reassociate(a: seq<Candidate>, b: seq<Candidate>, c: seq<Candidate>)
    ensures a + (b + c) == (a + b) + c
  {
  }

  lemma {:induction false} BestOfRow(board: Board, order: seq<nat>, n: nat, r: nat, before: seq<Candidate>)
    requires Within(order, |board|) && n < |order| && r <= |board[order[n]]|
    requires Greatest(board, order, n, 0, Best(before))
    ensures Greatest(board, order, n, r, Best(before + RouteOffers(board[order[n]], order[n], r)))
  {
    var offers, i := board[order[n]], order[n];
    if r == 0 {
      assert before + [] == before;
    } else {
      BestOfRow(board, order, n, r - 1, before);
      RowStep(board, order, n, r - 1, before + RouteOffers(offers, i, r - 1));
      Reassociate(before, RouteOffers(offers, i, r - 1), AsCandidate(offers[r - 1], Slot(i, r - 1)));
    }
  }

  lemma {:induction false} BestOfVisits(board: Board, order: seq<nat>, n: nat)
    requires Within(order, |board|) && n <= |order|
    ensures Within(order[..n], |board|) && Greatest(board, order, n, 0, Best(Offers(board, order[..n])))
  {
    if n > 0 {
      BestOfVisits(board, order, n - 1);
      var before := Offers(board, order[..n - 1]);
      BestOfRow(board, order, n - 1, |board[order[n - 1]]|, before);
      assert order[..n][..n - 1] == order[..n - 1];
      SameOffers(board, order, n - 1, |board[order[n - 1]]|, n, 0, Best(Offers(board, order[..n])));
    }
  }

  // ------------------------------------------------------------------------------------------
  // Rules
  // ------------------------------------------------------------------------------------------

  /** The connection meets a match: its port, the TLS mode asked for, and its server name. */
  predicate Meets(m: Match, port: nat, conn: Connection) {
    && (m.port == 0 || m.port == port)
    && (conn.tlsMode.Some? ==> conn.tlsMode.value == m.mode)
    && (m.sniHostname != "" ==>
          conn.serverName.Some? && Hostname.Matches(m.sniHostname, Normalize(conn.serverName.value)))
  }

  predicate IsExact(m: Match) { m.sniHostname != "" && StripWildcard(Normalize(m.sniHostname)).None? }

  /** A wildcard with a suffix of at least `len` bytes. */
  predicate IsWildcard(m: Match, len: nat) {
    && m.sniHostname != "" && StripWildcard(Normalize(m.sniHostname)).Some?
    && len <= |StripWildcard(Normalize(m.sniHostname)).value|
  }

  /** The rule names the server of the connection. */
  ghost predicate NamedExactly(rule: Rule, port: nat, conn: Connection) {
    exists m :: m in rule.matches && Meets(m, port, conn) && IsExact(m)
  }

  ghost predicate NamedByWildcard(rule: Rule, port: nat, conn: Connection, len: nat) {
    exists m :: m in rule.matches && Meets(m, port, conn) && IsWildcard(m, len)
  }

  /** A rule without matches takes every connection that does not ask for termination. */
  ghost predicate Takes(rule: Rule, port: nat, conn: Connection) {
    if rule.matches == [] then conn.tlsMode != Some(Terminate)
    else exists m :: m in rule.matches && Meets(m, port, conn)
  }

  ghost predicate MoreSpecific(a: Rule, b: Rule, port: nat, conn: Connection) {
    if NamedExactly(a, port, conn) || NamedExactly(b, port, conn)
    then NamedExactly(a, port, conn) && !NamedExactly(b, port, conn)
    else exists len: nat :: NamedByWildcard(a, port, conn, len) && !NamedByWildcard(b, port, conn, len)
  }

  lemma {:induction false} MatchScoreTells(m: Match, port: nat, conn: Connection)
    ensures Accepts(m, port, conn) <==> Meets(m, port, conn)
    ensures MatchScore(m).rank <= 2 && (MatchScore(m).rank == 2 <==> IsExact(m))
    ensures IsExact(m) && Meets(m, port, conn) ==> MatchScore(m).length == |Normalize(conn.serverName.value)|
    ensures MatchScore(m).rank == 1 <==> IsWildcard(m, 0)
    ensures MatchScore(m).rank == 1 ==> forall len: nat :: IsWildcard(m, len) <==> len <= MatchScore(m).length
    ensures MatchScore(m).rank == 0 ==> MatchScore(m).length == 0
  {
    if IsExact(m) && Meets(m, port, conn) {
      assert |Lower(Normalize(m.sniHostname))| == |Lower(Normalize(conn.serverName.value))|;
    }
  }

  ghost predicate ScoreTells(rule: Rule, port: nat, conn: Connection, s: HostScore) {
    && s.rank <= 2
    && (s.rank == 2 <==> NamedExactly(rule, port, conn))
    && (s.rank == 2 ==> conn.serverName.Some? && s.length == |Normalize(conn.serverName.value)|)
    && (s.rank == 1 ==> forall len: nat :: NamedByWildcard(rule, port, conn, len) <==> len <= s.length)
    && (s.rank == 0 ==> s.length == 0 && forall len: nat :: !NamedByWildcard(rule, port, conn, len))
  }

  /** The score of a rule that takes the connection is that of one of its matches, and none has more. */
  lemma {:induction false} BestOfMatches(rule: Rule, port: nat, conn: Connection) returns (k: nat)
    requires rule.matches != [] && RuleMatchScore(rule.matches, port, conn).Some?
    ensures k < |rule.matches| && Meets(rule.matches[k], port, conn)
    ensures RuleMatchScore(rule.matches, port, conn).value == MatchScore(rule.matches[k])
    ensures forall m :: m in rule.matches && Meets(m, port, conn) ==>
              !HostLess(RuleMatchScore(rule.matches, port, conn).value, MatchScore(m))
  {
    var scores := MatchScores(rule.matches, port, conn);
    var s := RuleMatchScore(rule.matches, port, conn).value;
    MaxScoreExact(scores);
    k :| 0 <= k < |scores| && scores[k] == Some(s);
    MatchScoreTells(rule.matches[k], port, conn);
    forall m | m in rule.matches && Meets(m, port, conn) ensures !HostLess(s, MatchScore(m)) {
      var i :| 0 <= i < |rule.matches| && rule.matches[i] == m;
      MatchScoreTells(m, port, conn);
      assert scores[i] == Some(MatchScore(m));
    }
  }

  lemma {:induction false} RuleScoreTells(rule: Rule, port: nat, conn: Connection)
    requires RuleMatchScore(rule.matches, port, conn).Some?
    ensures ScoreTells(rule, port, conn, RuleMatchScore(rule.matches, port, conn).value)
  {
    if rule.matches != [] {
      var s := RuleMatchScore(rule.matches, port, conn).value;
      var k := BestOfMatches(rule, port, conn);
      assert rule.matches[k] in rule.matches;
      forall m | m in rule.matches && Meets(m, port, conn)
        ensures IsExact(m) ==> s.rank == 2
        ensures forall len: nat :: IsWildcard(m, len) ==> s.rank == 2 || (s.rank == 1 && len <= s.length)
      {
        MatchScoreTells(m, port, conn);
      }
      MatchScoreTells(rule.matches[k], port, conn);
    }
  }

  lemma {:induction false} ScoredIffTakes(rule: Rule, port: nat, conn: Connection)
    ensures RuleMatchScore(rule.matches, port, conn).Some? <==> Takes(rule, port, conn)
  {
    if rule.matches != [] {
      var scores := MatchScores(rule.matches, port, conn);
      MaxScoreExact(scores);
      if RuleMatchScore(rule.matches, port, conn).Some? {
        var k := BestOfMatches(rule, port, conn);
        assert rule.matches[k] in rule.matches;
      } else {
        forall m | m in rule.matches ensures !Meets(m, port, conn) {
          var i :| 0 <= i < |rule.matches| && rule.matches[i] == m;
          assert scores[i].None?;
          MatchScoreTells(m, port, conn);
        }
      }
    }
  }

  /** The order of scores is the order of server names. */
  lemma {:induction false} RuleOrder(a: Rule, b: Rule, port: nat, conn: Connection, s: HostScore, t: HostScore)
    requires RuleMatchScore(a.matches, port, conn) == Some(s) && RuleMatchScore(b.matches, port, conn) == Some(t)
    ensures HostLess(t, s) <==> MoreSpecific(a, b, port, conn)
    ensures HostLess(s, t) <==> MoreSpecific(b, a, port, conn)
    ensures s == t <==> !MoreSpecific(a, b, port, conn) && !MoreSpecific(b, a, port, conn)
  {
    RuleScoreTells(a, port, conn);
    RuleScoreTells(b, port, conn);
    if s.rank == 1 && HostLess(t, s) {
      assert NamedByWildcard(a, port, conn, s.length) && !NamedByWildcard(b, port, conn, s.length);
    }
    if t.rank == 1 && HostLess(s, t) {
      assert NamedByWildcard(b, port, conn, t.length) && !NamedByWildcard(a, port, conn, t.length);
    }
  }

  // ------------------------------------------------------------------------------------------
  // The answer
  // ------------------------------------------------------------------------------------------

  /** A rule that takes the connection and has a backend for it. */
  ghost predicate Qualifies(c: Config, l: Listener, conn: Connection, resolve: Resolver, x: Slot) {
    && x.route < |c.routes| && x.rule < |c.routes[x.route].rules|
    && Takes(c.routes[x.route].rules[x.rule], l.port, conn)
    && BackendAt(c, x, resolve).Some?
  }

  /** Rule `j` of the `k`-th visit goes before rule `j'` of the `k'`-th. */
  ghost predicate Precedes(c: Config, order: seq<nat>, l: Listener, conn: Connection, resolve: Resolver, k: nat,
                           j: nat, k': nat, j': nat)
    requires k < |order| && k' < |order| && Qualifies(c, l, conn, resolve, Slot(order[k], j))
    requires Qualifies(c, l, conn, resolve, Slot(order[k'], j'))
  {
    var a, b := c.routes[order[k]].rules[j], c.routes[order[k']].rules[j'];
    if MoreSpecific(a, b, l.port, conn) then true
    else if MoreSpecific(b, a, l.port, conn) then false
    else k < k' || (k == k' && j <= j')
  }

  ghost predicate GoesFirst(c: Config, order: seq<nat>, l: Listener, conn: Connection, resolve: Resolver, k: nat,
                            j: nat)
  {
    && k < |order| && Qualifies(c, l, conn, resolve, Slot(order[k], j))
    && forall k': nat, j': nat :: k' < |order| && Qualifies(c, l, conn, resolve, Slot(order[k'], j')) ==>
         Precedes(c, order, l, conn, resolve, k, j, k', j')
  }

  lemma {:induction false} OfferedIffQualifies(c: Config, order: seq<nat>, l: Listener, conn: Connection,
                                               resolve: Resolver, k: nat, j: nat)
    requires Within(order, |c.routes|)
    ensures OfferAt(BoardOf(c, l.port, conn, resolve), order, |order|, 0, k, j) <==>
            k < |order| && Qualifies(c, l, conn, resolve, Slot(order[k], j))
  {
    if k < |order| && j < |c.routes[order[k]].rules| {
      ScoredIffTakes(c.routes[order[k]].rules[j], l.port, conn);
    }
  }

  lemma {:induction false} AheadIffPrecedes(c: Config, order: seq<nat>, l: Listener, conn: Connection,
                                            resolve: Resolver, k: nat, j: nat, k': nat, j': nat)
    requires Within(order, |c.routes|) && k < |order| && k' < |order|
    requires Qualifies(c, l, conn, resolve, Slot(order[k], j)) && Qualifies(c, l, conn, resolve, Slot(order[k'], j'))
    ensures
      var board := BoardOf(c, l.port, conn, resolve);
      && OfferAt(board, order, |order|, 0, k, j) && OfferAt(board, order, |order|, 0, k', j')
      && (AheadAt(board, order, k, j, k', j') <==> Precedes(c, order, l, conn, resolve, k, j, k', j'))
  {
    var board: Board := BoardOf(c, l.port, conn, resolve);
    OfferedIffQualifies(c, order, l, conn, resolve, k, j);
    OfferedIffQualifies(c, order, l, conn, resolve, k', j');
    var s: HostScore, t: HostScore := board[order[k]][j].value, board[order[k']][j'].value;
    RuleOrder(c.routes[order[k]].rules[j], c.routes[order[k']].rules[j'], l.port, conn, s, t);
  }

  lemma {:induction false} FirstIffGoesFirst(c: Config, order: seq<nat>, l: Listener, conn: Connection,
                                             resolve: Resolver, k: nat, j: nat)
    requires Within(order, |c.routes|)
    ensures FirstGreatest(BoardOf(c, l.port, conn, resolve), order, |order|, 0, k, j) <==>
            GoesFirst(c, order, l, conn, resolve, k, j)
  {
    var board := BoardOf(c, l.port, conn, resolve);
    forall k': nat, j': nat
      ensures OfferAt(board, order, |order|, 0, k', j') <==>
              k' < |order| && Qualifies(c, l, conn, resolve, Slot(order[k'], j'))
    {
      OfferedIffQualifies(c, order, l, conn, resolve, k', j');
    }
    if OfferAt(board, order, |order|, 0, k, j) {
      forall k': nat, j': nat | OfferAt(board, order, |order|, 0, k', j')
        ensures AheadAt(board, order, k, j, k', j') <==> Precedes(c, order, l, conn, resolve, k, j, k', j')
      {
        AheadIffPrecedes(c, order, l, conn, resolve, k, j, k', j');
      }
    }
  }

  ghost predicate NoneQualifies(c: Config, order: seq<nat>, l: Listener, conn: Connection, resolve: Resolver) {
    forall k: nat, j: nat :: k < |order| ==> !Qualifies(c, l, conn, resolve, Slot(order[k], j))
  }

  /** A rule goes first on one of the visits of its route. */
  ghost predicate First(c: Config, order: seq<nat>, l: Listener, conn: Connection, resolve: Resolver, x: Slot) {
    exists k: nat :: k < |order| && order[k] == x.route && GoesFirst(c, order, l, conn, resolve, k, x.rule)
  }

  /** The protocols of listeners for a kind of routes. */
  function Protocols(kind: RouteKind): set<string> {
    match kind
    case Tcp => {"TCP", "LISTENER_PROTOCOL_TCP"}
    case Udp => {"UDP", "LISTENER_PROTOCOL_UDP"}
    case Tls => {"TLS", "TLS_PASSTHROUGH", "LISTENER_PROTOCOL_TLS", "LISTENER_PROTOCOL_TLS_PASSTHROUGH"}
    case Http => {}
    case Grpc => {}
  }

  lemma {:induction false} ProtocolsExact(protocol: string, kind: RouteKind)
    ensures ListenerKind(protocol) == Some(kind) <==> protocol in Protocols(kind)
  {
  }

  /** What visiting some routes in some order has to answer: the backend of the rule that goes first, and the
      default only where no rule qualifies. */
  ghost predicate Answered(c: Config, order: seq<nat>, l: Listener, kind: RouteKind, conn: Connection,
                           resolve: Resolver, allowDefault: bool, fallback: Option<nat>, r: Option<Selection>)
    requires Within(order, |c.routes|)
  {
    if l.protocol !in Protocols(kind) then r == None
    else if r.Some? && r.value.Routed? then
      && BackendAt(c, r.value.slot, resolve) == Some(r.value.backend)
      && First(c, order, l, conn, resolve, r.value.slot)
    else
      && r == (if allowDefault && fallback.Some? then Some(DefaultBackend(fallback.value)) else None)
      && NoneQualifies(c, order, l, conn, resolve)
  }

  /** Only the best candidate goes first. */
  lemma {:induction false} GoesFirstOnce(c: Config, order: seq<nat>, l: Listener, conn: Connection, resolve: Resolver,
                                         k: nat, j: nat, k': nat, j': nat)
    requires Within(order, |c.routes|)
    requires GoesFirst(c, order, l, conn, resolve, k, j) && GoesFirst(c, order, l, conn, resolve, k', j')
    ensures k == k' && j == j'
  {
    assert Precedes(c, order, l, conn, resolve, k, j, k', j') && Precedes(c, order, l, conn, resolve, k', j', k, j);
  }

  lemma {:induction false} BestGoesFirst(c: Config, order: seq<nat>, l: Listener, conn: Connection, resolve: Resolver)
    requires Within(order, |c.routes|)
    ensures
      match Best(Offers(BoardOf(c, l.port, conn, resolve), order))
      case None => NoneQualifies(c, order, l, conn, resolve)
      case Some(x) => First(c, order, l, conn, resolve, x.slot)
  {
    var board := BoardOf(c, l.port, conn, resolve);
    BestOfVisits(board, order, |order|);
    assert order[..|order|] == order;
    match Best(Offers(board, order))
    case None =>
      forall k: nat, j: nat | k < |order| ensures !Qualifies(c, l, conn, resolve, Slot(order[k], j)) {
        OfferedIffQualifies(c, order, l, conn, resolve, k, j);
      }
    case Some(x) =>
      var k: nat :| StandsAt(board, order, |order|, 0, x, k);
      FirstIffGoesFirst(c, order, l, conn, resolve, k, x.slot.rule);
  }

  lemma {:induction false} FirstIsBest(c: Config, order: seq<nat>, l: Listener, conn: Connection, resolve: Resolver,
                                       x: Slot)
    requires Within(order, |c.routes|)
    ensures
      var best := Best(Offers(BoardOf(c, l.port, conn, resolve), order));
      First(c, order, l, conn, resolve, x) <==> best.Some? && best.value.slot == x
  {
    BestGoesFirst(c, order, l, conn, resolve);
    if First(c, order, l, conn, resolve, x) {
      var k: nat :| k < |order| && order[k] == x.route && GoesFirst(c, order, l, conn, resolve, k, x.rule);
      var y := Best(Offers(BoardOf(c, l.port, conn, resolve), order)).value.slot;
      var k': nat :| k' < |order| && order[k'] == y.route && GoesFirst(c, order, l, conn, resolve, k', y.rule);
      GoesFirstOnce(c, order, l, conn, resolve, k, x.rule, k', y.rule);
    }
  }

  lemma {:induction false} NoneIsBest(c: Config, order: seq<nat>, l: Listener, conn: Connection, resolve: Resolver)
    requires Within(order, |c.routes|)
    ensures Best(Offers(BoardOf(c, l.port, conn, resolve), order)).None? <==> NoneQualifies(c, order, l, conn, resolve)
  {
    BestGoesFirst(c, order, l, conn, resolve);
    var best := Best(Offers(BoardOf(c, l.port, conn, resolve), order));
    if best.Some? {
      FirstQualifies(c, order, l, conn, resolve, best.value.slot);
    }
  }

  lemma {:induction false} FirstQualifies(c: Config, order: seq<nat>, l: Listener, conn: Connection,
                                          resolve: Resolver, x: Slot)
    requires First(c, order, l, conn, resolve, x)
    ensures !NoneQualifies(c, order, l, conn, resolve)
  {
    var k: nat :| k < |order| && order[k] == x.route && GoesFirst(c, order, l, conn, resolve, k, x.rule);
    assert Qualifies(c, l, conn, resolve, Slot(order[k], x.rule));
  }

  /** The answer of either selection, in terms of server names. */
  lemma {:induction false} GivesExactly(c: Config, order: seq<nat>, l: Listener, kind: RouteKind, conn: Connection,
                                        resolve: Resolver, allowDefault: bool, fallback: Option<nat>,
                                        r: Option<Selection>)
    requires Within(order, |c.routes|)
    ensures Gives(c, order, l, kind, conn, resolve, allowDefault, fallback, r) <==>
            Answered(c, order, l, kind, conn, resolve, allowDefault, fallback, r)
  {
    ProtocolsExact(l.protocol, kind);
    NoneIsBest(c, order, l, conn, resolve);
    if r.Some? && r.value.Routed? {
      FirstIsBest(c, order, l, conn, resolve, r.value.slot);
    }
  }
}
