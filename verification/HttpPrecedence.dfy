/**
 Which rule answers a request, said of host names and matches alone: the order of precedence that both
 selections follow, without scores.
 */
module HttpPrecedence {
  import opened Wrappers
  import opened Text
  import opened Hostname
  import opened Ranking
  import opened HttpRoutes

  // ------------------------------------------------------------------------------------------
  // Host names
  // ------------------------------------------------------------------------------------------

  /** One of the names is the host. */
  ghost predicate NamedExactly(names: seq<string>, host: Option<string>) {
    host.Some? && exists n :: n in names && StripWildcard(n).None? && Normalize(n) == Normalize(host.value)
  }

  /** A wildcard with a suffix of at least `len` bytes that covers the host. */
  predicate WildcardCovers(name: string, host: string, len: nat) {
    && StripWildcard(name).Some?
    && Matches(name, Normalize(host))
    && len <= |Normalize(StripWildcard(name).value)|
  }

  ghost predicate NamedByWildcard(names: seq<string>, host: Option<string>, len: nat) {
    host.Some? && exists n :: n in names && WildcardCovers(n, host.value, len)
  }

  /** No names at all cover every host. */
  ghost predicate Covers(names: seq<string>, host: Option<string>) {
    names == [] || NamedExactly(names, host) || NamedByWildcard(names, host, 0)
  }

  /** The host itself is more specific than a wildcard, a longer wildcard than a shorter one, and any name
      than none. */
  ghost predicate MoreSpecific(a: seq<string>, b: seq<string>, host: Option<string>) {
    if NamedExactly(a, host) || NamedExactly(b, host) then NamedExactly(a, host) && !NamedExactly(b, host)
    else exists len: nat :: NamedByWildcard(a, host, len) && !NamedByWildcard(b, host, len)
  }

  lemma {:induction false} OneHostScore(name: string, host: string)
    ensures StripWildcard(name).None? ==>
      HostScoreOf(name, host) ==
        if Normalize(name) == Normalize(host) then Some(HostScore(2, |Normalize(host)|)) else None
    ensures StripWildcard(name).Some? ==>
      && (HostScoreOf(name, host).Some? <==> WildcardCovers(name, host, 0))
      && (HostScoreOf(name, host).Some? ==> HostScoreOf(name, host).value.rank == 1)
      && forall len: nat :: WildcardCovers(name, host, len) <==>
           HostScoreOf(name, host).Some? && len <= HostScoreOf(name, host).value.length
  {
  }

  /** What the score of some names says about them. */
  ghost predicate ScoreTells(names: seq<string>, host: Option<string>, s: HostScore) {
    && s.rank <= 2
    && (s.rank == 2 <==> NamedExactly(names, host))
    && (s.rank == 2 ==> s.length == |Normalize(host.value)|)
    && (s.rank == 1 ==> forall len: nat :: NamedByWildcard(names, host, len) <==> len <= s.length)
    && (s.rank == 0 ==> names == [] && s.length == 0)
  }

  lemma {:induction false} BestScoreTells(names: seq<string>, host: Option<string>)
    requires BestHostScore(names, host).Some?
    ensures ScoreTells(names, host, BestHostScore(names, host).value)
  {
    if names != [] {
      var scores, s := HostScores(names, host.value), BestHostScore(names, host).value;
      MaxScoreExact(scores);
      forall k | 0 <= k < |names|
        ensures scores[k].Some? ==> scores[k].value.rank in {1, 2} && !HostLess(s, scores[k].value)
      {
        OneHostScore(names[k], host.value);
      }
      var k :| 0 <= k < |scores| && scores[k] == Some(s);
      OneHostScore(names[k], host.value);
      assert names[k] in names;
      if NamedExactly(names, host) {
        ExactScored(names, host.value);
      }
      if s.rank == 1 {
        forall len: nat ensures NamedByWildcard(names, host, len) <==> len <= s.length {
          WildcardsScored(names, host.value, s, k, len);
        }
      }
    }
  }

  lemma {:induction false} ExactScored(names: seq<string>, host: string)
    requires NamedExactly(names, Some(host))
    ensures exists k :: 0 <= k < |names| && HostScores(names, host)[k] == Some(HostScore(2, |Normalize(host)|))
  {
    var n :| n in names && StripWildcard(n).None? && Normalize(n) == Normalize(host);
    var k :| 0 <= k < |names| && names[k] == n;
    assert HostScores(names, host)[k] == Some(HostScore(2, |Normalize(host)|));
  }

  lemma {:induction false} WildcardsScored(names: seq<string>, host: string, s: HostScore, k: nat, len: nat)
    requires k < |names| && HostScores(names, host)[k] == Some(s) && s.rank == 1
    requires forall j :: 0 <= j < |names| && HostScores(names, host)[j].Some? ==>
               !HostLess(s, HostScores(names, host)[j].value)
    ensures NamedByWildcard(names, Some(host), len) <==> len <= s.length
  {
    OneHostScore(names[k], host);
    if len <= s.length {
      assert names[k] in names && WildcardCovers(names[k], host, len);
    }
    if NamedByWildcard(names, Some(host), len) {
      var n :| n in names && WildcardCovers(n, host, len);
      var j :| 0 <= j < |names| && names[j] == n;
      OneHostScore(n, host);
      assert HostScores(names, host)[j] == HostScoreOf(n, host);
    }
  }

  /** Some names have a score exactly when they cover the host. */
  lemma {:induction false} CoversIffScored(names: seq<string>, host: Option<string>)
    ensures BestHostScore(names, host).Some? <==> Covers(names, host)
  {
    if names != [] && host.Some? {
      MaxScoreExact(HostScores(names, host.value));
      if BestHostScore(names, host).Some? {
        BestScoreTells(names, host);
      } else {
        forall n | n in names ensures HostScoreOf(n, host.value).None? {
          var k :| 0 <= k < |names| && names[k] == n;
          assert HostScores(names, host.value)[k].None?;
        }
        forall n | n in names
          ensures !WildcardCovers(n, host.value, 0)
          ensures StripWildcard(n).None? ==> Normalize(n) != Normalize(host.value)
        {
          OneHostScore(n, host.value);
        }
      }
    }
  }

  /** The order of scores is the order of names. */
  lemma {:induction false} HostLessIsSpecific(a: seq<string>, b: seq<string>, host: Option<string>)
    requires BestHostScore(a, host).Some? && BestHostScore(b, host).Some?
    ensures HostLess(BestHostScore(b, host).value, BestHostScore(a, host).value) <==> MoreSpecific(a, b, host)
  {
    var s, t := BestHostScore(a, host).value, BestHostScore(b, host).value;
    BestScoreTells(a, host);
    BestScoreTells(b, host);
    if s.rank < 2 && t.rank < 2 && HostLess(t, s) {
      assert NamedByWildcard(a, host, s.length);
      assert !NamedByWildcard(b, host, s.length);
    }
  }

  // ------------------------------------------------------------------------------------------
  // Matches
  // ------------------------------------------------------------------------------------------

  predicate IsExact(m: Match) { m.path != "" && m.pathType == "Exact" }
  predicate IsRegex(m: Match) { m.path != "" && m.pathType == "RegularExpression" }

  /** A match without a path stands for the prefix "/". */
  function PathText(m: Match): string { if m.path == "" then "/" else m.path }

  /** The path is the prefix or lies below it. */
  predicate Below(prefix: string, path: string)
    requires prefix != ""
  {
    prefix == "/" || path == prefix || (if prefix[|prefix| - 1] == '/' then prefix else prefix + "/") <= path
  }

  /** The request meets a match: its path, its method and, in the generic selection, the headers and the
      query parameters. */
  ghost predicate Meets(mode: Mode, m: Match, q: Query, w: World) {
    && (if IsExact(m) then q.path == m.path
        else if IsRegex(m) then w.regex(m.path, q.path) && (m.compiled || mode == Generic)
        else Below(PathText(m), q.path))
    && (m.method_ != "" ==> Lower(q.method_) == Lower(m.method_))
    && (mode == Generic ==> (forall h :: h in m.headers ==> w.header(h)) && forall p :: p in m.queries ==> w.query(p))
  }

  /** An exact path comes first, then a regular expression, then a prefix; then the longer path, a named
      method and, in the generic selection, more headers and more query parameters. */
  predicate Preferred(mode: Mode, a: Match, b: Match) {
    if IsExact(a) != IsExact(b) then IsExact(a)
    else if IsRegex(a) != IsRegex(b) then IsRegex(a)
    else if |PathText(a)| != |PathText(b)| then |PathText(a)| > |PathText(b)|
    else if (a.method_ != "") != (b.method_ != "") then a.method_ != ""
    else mode == Generic && (|a.headers| > |b.headers| || (|a.headers| == |b.headers| && |a.queries| > |b.queries|))
  }

  lemma {:induction false} AcceptsIffMeets(mode: Mode, m: Match, q: Query, w: World)
    ensures Accepts(mode, m, q, w) <==> Meets(mode, m, q, w)
  {
    if m.path != "" {
      PrefixMatchesSegments(m.path, q.path);
    }
  }

  lemma {:induction false} PreferredIsLess(mode: Mode, a: Match, b: Match)
    ensures RuleLess(MatchScore(mode, b), MatchScore(mode, a)) <==> Preferred(mode, a, b)
  {
  }

  ghost predicate MetBy(mode: Mode, rule: Rule, q: Query, w: World, m: Match) {
    m in rule.matches && Meets(mode, m, q, w)
  }

  /** A rule without matches takes every request. */
  ghost predicate Met(mode: Mode, rule: Rule, q: Query, w: World) {
    rule.matches == [] || exists m :: MetBy(mode, rule, q, w, m)
  }

  /** A match of `a` is met that is preferred to all matches of `b` that are. */
  ghost predicate BetterMatched(mode: Mode, a: Rule, b: Rule, q: Query, w: World) {
    exists m :: MetBy(mode, a, q, w, m) && forall n :: MetBy(mode, b, q, w, n) ==> Preferred(mode, m, n)
  }

  /** The best match of a rule, and that none which is met is preferred to it. */
  lemma {:induction false} BestMatchTells(mode: Mode, rule: Rule, q: Query, w: World)
    requires rule.matches != []
    ensures RuleMatch(mode, rule, q, w).Some? <==> Met(mode, rule, q, w)
    ensures RuleMatch(mode, rule, q, w).Some? ==>
      exists m :: MetBy(mode, rule, q, w, m) && RuleMatch(mode, rule, q, w).value == (PathOf(m), MatchScore(mode, m))
    ensures RuleMatch(mode, rule, q, w).Some? ==>
      forall n :: MetBy(mode, rule, q, w, n) ==> !RuleLess(RuleMatch(mode, rule, q, w).value.1, MatchScore(mode, n))
  {
    var scores := MatchScores(mode, rule.matches, q, w);
    LastBestExact(scores);
    forall k | 0 <= k < |scores| ensures scores[k].Some? <==> MetBy(mode, rule, q, w, rule.matches[k]) {
      AcceptsIffMeets(mode, rule.matches[k], q, w);
    }
    if i :| LastBest(scores) == Some(i) {
      assert MetBy(mode, rule, q, w, rule.matches[i]);
    }
    forall n | MetBy(mode, rule, q, w, n)
      ensures RuleMatch(mode, rule, q, w).Some?
              && !RuleLess(RuleMatch(mode, rule, q, w).value.1, MatchScore(mode, n))
    {
      var k :| 0 <= k < |rule.matches| && rule.matches[k] == n;
      assert scores[k] == Some(MatchScore(mode, n));
    }
  }

  lemma {:induction false} MatchedIffMet(mode: Mode, rule: Rule, q: Query, w: World)
    ensures RuleMatch(mode, rule, q, w).Some? <==> Met(mode, rule, q, w)
  {
    if rule.matches != [] {
      BestMatchTells(mode, rule, q, w);
    }
  }

  lemma {:induction false} NotAboveThenLess(a: RuleScore, b: RuleScore, c: RuleScore)
    requires !RuleLess(b, a) && RuleLess(b, c)
    ensures RuleLess(a, c)
  {
  }

  lemma {:induction false} LessThenNotAbove(a: RuleScore, b: RuleScore, c: RuleScore)
    requires RuleLess(a, b) && !RuleLess(c, b)
    ensures RuleLess(a, c)
  {
  }

  /** The order of rule scores is the order of matches. */
  lemma {:induction false} RuleLessIsPreferred(mode: Mode, a: Rule, b: Rule, q: Query, w: World)
    requires RuleMatch(mode, a, q, w).Some? && RuleMatch(mode, b, q, w).Some?
    ensures RuleLess(RuleMatch(mode, b, q, w).value.1, RuleMatch(mode, a, q, w).value.1) <==>
            BetterMatched(mode, a, b, q, w)
  {
    var s, t := RuleMatch(mode, a, q, w).value.1, RuleMatch(mode, b, q, w).value.1;
    if a.matches != [] {
      BestMatchTells(mode, a, q, w);
      if b.matches == [] {
        var m :| MetBy(mode, a, q, w, m) && s == MatchScore(mode, m);
        assert forall n :: !MetBy(mode, b, q, w, n);
      } else {
        BestMatchTells(mode, b, q, w);
        if RuleLess(t, s) {
          BetterFromLess(mode, a, b, q, w);
        }
        if m :| MetBy(mode, a, q, w, m) && forall n :: MetBy(mode, b, q, w, n) ==> Preferred(mode, m, n) {
          var n :| MetBy(mode, b, q, w, n) && t == MatchScore(mode, n);
          PreferredIsLess(mode, m, n);
          LessThenNotAbove(t, MatchScore(mode, m), s);
        }
      }
    }
  }

  lemma {:induction false} BetterFromLess(mode: Mode, a: Rule, b: Rule, q: Query, w: World)
    requires a.matches != [] && b.matches != []
    requires RuleMatch(mode, a, q, w).Some? && RuleMatch(mode, b, q, w).Some?
    requires RuleLess(RuleMatch(mode, b, q, w).value.1, RuleMatch(mode, a, q, w).value.1)
    ensures BetterMatched(mode, a, b, q, w)
  {
    var s, t := RuleMatch(mode, a, q, w).value.1, RuleMatch(mode, b, q, w).value.1;
    BestMatchTells(mode, a, q, w);
    BestMatchTells(mode, b, q, w);
    var m :| MetBy(mode, a, q, w, m) && s == MatchScore(mode, m);
    forall n | MetBy(mode, b, q, w, n) ensures Preferred(mode, m, n) {
      NotAboveThenLess(MatchScore(mode, n), t, s);
      PreferredIsLess(mode, m, n);
    }
  }

  /** The path that an answer reports: of the matches that are met and to which none that is met is
      preferred, the last. */
  ghost predicate ReportsPath(mode: Mode, rule: Rule, q: Query, w: World, i: nat, path: PathMatch) {
    && i < |rule.matches| && MetBy(mode, rule, q, w, rule.matches[i])
    && (forall n :: MetBy(mode, rule, q, w, n) ==> !Preferred(mode, n, rule.matches[i]))
    && (forall k :: i < k < |rule.matches| && MetBy(mode, rule, q, w, rule.matches[k]) ==>
          Preferred(mode, rule.matches[i], rule.matches[k]))
    && path.path == PathText(rule.matches[i])
    && path.pathType == if rule.matches[i].path == "" then "PathPrefix" else rule.matches[i].pathType
  }

  lemma {:induction false} ReportedPath(mode: Mode, rule: Rule, q: Query, w: World)
    requires RuleMatch(mode, rule, q, w).Some?
    ensures
      var path := RuleMatch(mode, rule, q, w).value.0;
      if rule.matches == [] then path == PathMatch("/", "PathPrefix")
      else exists i :: ReportsPath(mode, rule, q, w, i, path)
  {
    if rule.matches != [] {
      var scores := MatchScores(mode, rule.matches, q, w);
      LastBestExact(scores);
      var i := LastBest(scores).value;
      forall k | 0 <= k < |scores| ensures scores[k].Some? <==> MetBy(mode, rule, q, w, rule.matches[k]) {
        AcceptsIffMeets(mode, rule.matches[k], q, w);
      }
      forall n | MetBy(mode, rule, q, w, n) ensures !Preferred(mode, n, rule.matches[i]) {
        var k :| 0 <= k < |rule.matches| && rule.matches[k] == n;
        assert scores[k] == Some(MatchScore(mode, n));
        PreferredIsLess(mode, n, rule.matches[i]);
      }
      forall k | i < k < |rule.matches| && MetBy(mode, rule, q, w, rule.matches[k])
        ensures Preferred(mode, rule.matches[i], rule.matches[k])
      {
        PreferredIsLess(mode, rule.matches[i], rule.matches[k]);
      }
      assert ReportsPath(mode, rule, q, w, i, RuleMatch(mode, rule, q, w).value.0);
    }
  }

  // ------------------------------------------------------------------------------------------
  // Listeners
  // ------------------------------------------------------------------------------------------

  const HTTP_PROTOCOLS: set<string> :=
    {"HTTP", "HTTPS", "HTTP3", "LISTENER_PROTOCOL_HTTP", "LISTENER_PROTOCOL_HTTPS", "LISTENER_PROTOCOL_HTTP3"}

  /** An HTTP listener on the port of the request; port 0 stands for any. */
  predicate Listens(c: Config, q: Query, l: nat) {
    l < |c.listeners| && c.listeners[l].protocol in HTTP_PROTOCOLS && q.port in {0, c.listeners[l].port}
  }

  /** It also covers the host. */
  ghost predicate Serves(c: Config, q: Query, l: nat) {
    Listens(c, q, l) && Covers(c.listeners[l].hostnames, q.host)
  }

  /** No listener that serves the request is more specific. */
  ghost predicate MostSpecific(c: Config, q: Query, l: nat) {
    && Serves(c, q, l)
    && forall m: nat :: Serves(c, q, m) ==> !MoreSpecific(c.listeners[m].hostnames, c.listeners[l].hostnames, q.host)
  }

  lemma {:induction false} TopIsMostSpecific(c: Config, q: Query, l: nat)
    ensures Top(c, q, l) <==> MostSpecific(c, q, l)
  {
    assert forall m: nat :: Candidate(c, q.port, m) <==> Listens(c, q, m);
    forall m: nat | Listens(c, q, m)
      ensures ScoreFor(c, q.host, m).Some? <==> Covers(c.listeners[m].hostnames, q.host)
    {
      CoversIffScored(c.listeners[m].hostnames, q.host);
    }
    if Serves(c, q, l) {
      forall m: nat | Serves(c, q, m)
        ensures MoreSpecific(c.listeners[m].hostnames, c.listeners[l].hostnames, q.host) <==>
                HostLess(ScoreFor(c, q.host, l).value, ScoreFor(c, q.host, m).value)
      {
        HostLessIsSpecific(c.listeners[m].hostnames, c.listeners[l].hostnames, q.host);
      }
    }
  }

  /** The listener lists the route by namespace and name. */
  predicate Lists(listener: Listener, route: Route) {
    '/' !in route.namespace && route.namespace + "/" + route.name in listener.attachedRoutes
  }

  lemma {:induction false} AttachedIffLists(listener: Listener, route: Route)
    ensures Attached(listener, route.namespace, route.name) <==> Lists(listener, route)
  {
    var full := route.namespace + "/" + route.name;
    if a :| a in listener.attachedRoutes && SplitOnce(a, '/') == Some((route.namespace, route.name)) {
      SplitOnceExact(a, '/', route.namespace, route.name);
    }
    if Lists(listener, route) {
      SplitOnceExact(full, '/', route.namespace, route.name);
    }
  }

  /** The listener through which a route is reached: the last of the most specific ones that lists it. */
  ghost predicate ReachedThrough(c: Config, q: Query, route: Route, l: nat) {
    && MostSpecific(c, q, l) && Lists(c.listeners[l], route)
    && forall m: nat :: MostSpecific(c, q, m) && Lists(c.listeners[m], route) ==> m <= l
  }

  /** Where no HTTP listener is on the port, routes are reached without one. */
  ghost predicate Reached(c: Config, q: Query, route: Route) {
    (exists l: nat :: Listens(c, q, l)) ==> exists l: nat :: ReachedThrough(c, q, route, l)
  }

  lemma {:induction false} ListenerReaches(c: Config, q: Query, route: Route)
    ensures RouteListener(c, q, route).Some? ==> ReachedThrough(c, q, route, RouteListener(c, q, route).value)
    ensures Enforced(c, q.port) && (exists l: nat :: ReachedThrough(c, q, route, l)) ==>
              RouteListener(c, q, route).Some?
    ensures !Enforced(c, q.port) ==> RouteListener(c, q, route) == None
  {
    forall l: nat | l < |c.listeners|
      ensures Top(c, q, l) && Attached(c.listeners[l], route.namespace, route.name) <==>
              MostSpecific(c, q, l) && Lists(c.listeners[l], route)
    {
      TopIsMostSpecific(c, q, l);
      AttachedIffLists(c.listeners[l], route);
    }
  }

  /** The host names of that listener. */
  ghost function ListenerNames(c: Config, q: Query, route: Route): seq<string> {
    match RouteListener(c, q, route)
    case Some(l) => c.listeners[l].hostnames
    case None => []
  }

  lemma {:induction false} ListenerNamesScore(c: Config, q: Query, route: Route)
    ensures BestHostScore(ListenerNames(c, q, route), q.host) == Some(ListenerScore(c, q, route))
  {
  }

  // ------------------------------------------------------------------------------------------
  // The winner
  // ------------------------------------------------------------------------------------------

  /** A rule that can answer: it has a reference with weight or, in the generic selection, a filter that
      answers by itself. */
  ghost predicate CanAnswer(mode: Mode, rule: Rule) {
    (exists r :: r in rule.refs && r.weight > 0) || (mode == Generic && exists f :: f in rule.filters && f.nonBackend)
  }

  lemma {:induction false} TakesPartIffCanAnswer(mode: Mode, rule: Rule, w: World)
    ensures TakesPart(mode, rule, w) <==> CanAnswer(mode, rule)
  {
  }

  /** A rule that the request meets, on a route that it reaches. */
  ghost predicate Qualifies(mode: Mode, c: Config, q: Query, w: World, x: Slot) {
    && x.route < |c.routes| && x.rule < |c.routes[x.route].rules|
    && Reached(c, q, c.routes[x.route]) && Covers(c.routes[x.route].hostnames, q.host)
    && CanAnswer(mode, c.routes[x.route].rules[x.rule])
    && Met(mode, c.routes[x.route].rules[x.rule], q, w)
  }

  /** The order of precedence: the host names of the listener, then those of the route, then the matches,
      then the place. */
  ghost predicate Precedes(mode: Mode, c: Config, q: Query, w: World, x: Slot, y: Slot)
    requires SlotIn(c, x) && SlotIn(c, y)
  {
    var a, b := c.routes[x.route], c.routes[y.route];
    if MoreSpecific(ListenerNames(c, q, a), ListenerNames(c, q, b), q.host) then true
    else if MoreSpecific(ListenerNames(c, q, b), ListenerNames(c, q, a), q.host) then false
    else if MoreSpecific(a.hostnames, b.hostnames, q.host) then true
    else if MoreSpecific(b.hostnames, a.hostnames, q.host) then false
    else if BetterMatched(mode, a.rules[x.rule], b.rules[y.rule], q, w) then true
    else if BetterMatched(mode, b.rules[y.rule], a.rules[x.rule], q, w) then false
    else x.route < y.route || (x.route == y.route && x.rule <= y.rule)
  }

  lemma {:induction false} ScoredIffQualifies(mode: Mode, c: Config, q: Query, w: World, x: Slot)
    ensures Scored(mode, c, q, w, x) <==> Qualifies(mode, c, q, w, x)
  {
    assert forall l: nat :: Candidate(c, q.port, l) <==> Listens(c, q, l);
    if SlotIn(c, x) {
      ListenerReaches(c, q, c.routes[x.route]);
      CoversIffScored(c.routes[x.route].hostnames, q.host);
      MatchedIffMet(mode, c.routes[x.route].rules[x.rule], q, w);
      TakesPartIffCanAnswer(mode, c.routes[x.route].rules[x.rule], w);
    }
  }

  /** Two host scores compare as the names do. */
  lemma {:induction false} HostOrder(a: seq<string>, b: seq<string>, host: Option<string>, s: HostScore, t: HostScore)
    requires BestHostScore(a, host) == Some(s) && BestHostScore(b, host) == Some(t)
    ensures HostLess(t, s) <==> MoreSpecific(a, b, host)
    ensures HostLess(s, t) <==> MoreSpecific(b, a, host)
    ensures s == t <==> !MoreSpecific(a, b, host) && !MoreSpecific(b, a, host)
  {
    HostLessIsSpecific(a, b, host);
    HostLessIsSpecific(b, a, host);
  }

  lemma {:induction false} RuleOrder(mode: Mode, a: Rule, b: Rule, q: Query, w: World, s: RuleScore, t: RuleScore)
    requires RuleMatch(mode, a, q, w).Some? && RuleMatch(mode, b, q, w).Some?
    requires s == RuleMatch(mode, a, q, w).value.1 && t == RuleMatch(mode, b, q, w).value.1
    ensures RuleLess(t, s) <==> BetterMatched(mode, a, b, q, w)
    ensures RuleLess(s, t) <==> BetterMatched(mode, b, a, q, w)
    ensures s == t <==> !BetterMatched(mode, a, b, q, w) && !BetterMatched(mode, b, a, q, w)
  {
    RuleLessIsPreferred(mode, a, b, q, w);
    RuleLessIsPreferred(mode, b, a, q, w);
    assert RuleLess(s, t) || RuleLess(t, s) || s == t;
  }

  lemma {:induction false} Lexicographic(s: Score, t: Score, before: bool)
    ensures (Less(t, s) || (t == s && before)) ==
      (if HostLess(t.listenerHost, s.listenerHost) then true
       else if HostLess(s.listenerHost, t.listenerHost) then false
       else if HostLess(t.routeHost, s.routeHost) then true
       else if HostLess(s.routeHost, t.routeHost) then false
       else if RuleLess(t.rule, s.rule) then true
       else if RuleLess(s.rule, t.rule) then false
       else before)
  {
  }

  lemma {:induction false} BeatsIffPrecedes(mode: Mode, c: Config, q: Query, w: World, x: Slot, y: Slot)
    requires Scored(mode, c, q, w, x) && Scored(mode, c, q, w, y)
    ensures Beats(Matching(mode, c, q, w), x, y) <==> Precedes(mode, c, q, w, x, y)
  {
    var a, b := c.routes[x.route], c.routes[y.route];
    var s, t := ScoreOf(mode, c, q, w, x), ScoreOf(mode, c, q, w, y);
    ListenerNamesScore(c, q, a);
    ListenerNamesScore(c, q, b);
    HostOrder(ListenerNames(c, q, a), ListenerNames(c, q, b), q.host, s.listenerHost, t.listenerHost);
    HostOrder(a.hostnames, b.hostnames, q.host, s.routeHost, t.routeHost);
    RuleOrder(mode, a.rules[x.rule], b.rules[y.rule], q, w, s.rule, t.rule);
    Lexicographic(s, t, x == y || Before(x, y));
  }

  /** Both selections: a rule wins a request exactly when it qualifies and precedes every rule that does. */
  lemma {:induction false} WinsExactly(mode: Mode, c: Config, q: Query, w: World, x: Slot)
    ensures Wins(Matching(mode, c, q, w), x) <==>
      && Qualifies(mode, c, q, w, x)
      && forall y :: Qualifies(mode, c, q, w, y) ==> Precedes(mode, c, q, w, x, y)
  {
    var t := Matching(mode, c, q, w);
    forall y ensures y in t <==> Qualifies(mode, c, q, w, y) {
      ScoredIffQualifies(mode, c, q, w, y);
    }
    if x in t {
      forall y | y in t ensures Beats(t, x, y) <==> Precedes(mode, c, q, w, x, y) {
        BeatsIffPrecedes(mode, c, q, w, x, y);
      }
    }
  }

  /** What a selection has to answer: the rule that precedes all others that qualify, if any does. */
  ghost predicate Answered(mode: Mode, c: Config, q: Query, w: World, r: Option<Slot>) {
    match r
    case Some(x) =>
      && Qualifies(mode, c, q, w, x)
      && forall y :: Qualifies(mode, c, q, w, y) ==> Precedes(mode, c, q, w, x, y)
    case None => forall y :: !Qualifies(mode, c, q, w, y)
  }

  lemma {:induction false} ChosenIsAnswered(mode: Mode, c: Config, q: Query, w: World, r: Option<Slot>)
    ensures Chosen(Matching(mode, c, q, w), r) <==> Answered(mode, c, q, w, r)
  {
    match r
    case Some(x) => WinsExactly(mode, c, q, w, x);
    case None =>
      forall y ensures y in Matching(mode, c, q, w) <==> Qualifies(mode, c, q, w, y) {
        ScoredIffQualifies(mode, c, q, w, y);
      }
  }
}
