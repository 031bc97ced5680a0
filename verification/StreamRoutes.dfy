/** Stream (TCP, UDP, TLS) routes: matching, scores, and the best of a list of candidates. */
module StreamRoutes {
  import opened Wrappers
  import opened Hostname
  import opened Ranking
  import HttpRoutes
  import HttpFastPath

  datatype TlsMode = Passthrough | Terminate

  datatype Match = Match(port: nat, sniHostname: string, mode: TlsMode)

  datatype Rule = Rule(matches: seq<Match>, refs: seq<HttpRoutes.BackendRef>)

  datatype Route = Route(namespace: string, name: string, kind: string, rules: seq<Rule>)

  datatype Listener = Listener(name: string, protocol: string, port: nat, attachedRoutes: seq<string>)

  datatype Config = Config(listeners: seq<Listener>, routes: seq<Route>)

  datatype RouteKind = Tcp | Udp | Tls | Http | Grpc

  /** What a connection brings: its server name, and the TLS mode asked for, if any. */
  datatype Connection = Connection(serverName: Option<string>, tlsMode: Option<TlsMode>)

  /** Backend resolution: the backend that some references with weight lead to, if any is usable. */
  type Resolver = seq<HttpFastPath.CompiledRef> -> Option<nat>

  // ------------------------------------------------------------------------------------------
  // Matching
  // ------------------------------------------------------------------------------------------

  predicate Matches(m: Match, port: nat, serverName: Option<string>) {
    && (m.port == 0 || m.port == port)
    && (m.sniHostname == "" || (serverName.Some? && Hostname.Matches(m.sniHostname, Normalize(serverName.value))))
  }

  function MatchScore(m: Match): HostScore {
    if m.sniHostname == "" then HostScore(0, 0)
    else
      var host := Normalize(m.sniHostname);
      match StripWildcard(host)
      case Some(suffix) => HostScore(1, |suffix|)
      case None => HostScore(2, |host|)
  }

  function MatchScores(matches: seq<Match>, port: nat, conn: Connection): (r: seq<Option<HostScore>>)
    ensures |r| == |matches|
    ensures forall i :: 0 <= i < |r| ==>
              r[i] == if Accepts(matches[i], port, conn) then Some(MatchScore(matches[i])) else None
  {
    seq(|matches|, i requires 0 <= i < |matches| =>
      if Accepts(matches[i], port, conn) then Some(MatchScore(matches[i])) else None)
  }

  predicate Accepts(m: Match, port: nat, conn: Connection) {
    (conn.tlsMode.None? || m.mode == conn.tlsMode.value) && Matches(m, port, conn.serverName)
  }

  function RuleMatchScore(matches: seq<Match>, port: nat, conn: Connection): Option<HostScore> {
    if matches == [] then (if conn.tlsMode == Some(Terminate) then None else Some(HostScore(0, 0)))
    else MaxScore(MatchScores(matches, port, conn))
  }

  /** The kinds the compiled selection understands. */
  function CompiledKind(kind: string): Option<RouteKind> {
    if kind == "ROUTE_KIND_TCP" || kind == "TCPRoute" || kind == "TCP" then Some(Tcp)
    else if kind == "ROUTE_KIND_UDP" || kind == "UDPRoute" || kind == "UDP" then Some(Udp)
    else if kind == "ROUTE_KIND_TLS" || kind == "TLSRoute" || kind == "TLS" then Some(Tls)
    else None
  }

  /** The kinds the scan understands. */
  function ScannedKind(kind: string): Option<RouteKind> {
    if kind == "ROUTE_KIND_TCP" || kind == "TCP" then Some(Tcp)
    else if kind == "ROUTE_KIND_UDP" || kind == "UDP" then Some(Udp)
    else if kind == "ROUTE_KIND_TLS" || kind == "TLS" then Some(Tls)
    else if kind == "ROUTE_KIND_HTTP" || kind == "HTTP" then Some(Http)
    else if kind == "ROUTE_KIND_GRPC" || kind == "GRPC" then Some(Grpc)
    else None
  }

  function ListenerKind(protocol: string): Option<RouteKind> {
    if protocol == "LISTENER_PROTOCOL_TCP" || protocol == "TCP" then Some(Tcp)
    else if protocol == "LISTENER_PROTOCOL_UDP" || protocol == "UDP" then Some(Udp)
    else if protocol == "LISTENER_PROTOCOL_TLS" || protocol == "LISTENER_PROTOCOL_TLS_PASSTHROUGH"
            || protocol == "TLS" || protocol == "TLS_PASSTHROUGH" then Some(Tls)
    else None
  }

  /** The references with weight that lead to a backend; the others are dropped. */
  function CompileRefs(refs: seq<HttpRoutes.BackendRef>): seq<HttpFastPath.CompiledRef> {
    if refs == [] then []
    else
      var r := refs[0];
      (if r.weight > 0 && r.routable && r.cluster.Some?
       then [HttpFastPath.CompiledRef(r.cluster.value, r.weight)] else [])
      + CompileRefs(refs[1..])
  }

  /** Each reference is compiled by itself, in order: it stays exactly when it has weight and leads to a
      backend. */
  lemma {:induction false} CompileRefsExact(a: seq<HttpRoutes.BackendRef>, r: HttpRoutes.BackendRef,
                                            b: seq<HttpRoutes.BackendRef>)
    ensures CompileRefs(a + [r] + b) == CompileRefs(a) + CompileRefs([r]) + CompileRefs(b)
    ensures r.weight > 0 && r.routable && r.cluster.Some? ==>
              CompileRefs([r]) == [HttpFastPath.CompiledRef(r.cluster.value, r.weight)]
    ensures r.weight == 0 || !r.routable || r.cluster.None? ==> CompileRefs([r]) == []
  {
    assert [r][1..] == [];
    if a == [] {
      assert a + [r] + b == [r] + b && ([r] + b)[1..] == b;
    } else {
      assert (a + [r] + b)[1..] == a[1..] + [r] + b;
      CompileRefsExact(a[1..], r, b);
    }
  }

  // ------------------------------------------------------------------------------------------
  // Candidates
  // ------------------------------------------------------------------------------------------

  datatype Candidate = Candidate(slot: Slot, score: HostScore)

  /** The score of a rule that matches and has a backend. */
  function Offer(rule: Rule, port: nat, conn: Connection, resolve: Resolver): Option<HostScore> {
    if resolve(CompileRefs(rule.refs)).Some? then RuleMatchScore(rule.matches, port, conn) else None
  }

  /** The offers of all rules, by route. */
  type Board = seq<seq<Option<HostScore>>>

  function OffersOf(rules: seq<Rule>, port: nat, conn: Connection, resolve: Resolver): (r: seq<Option<HostScore>>)
    ensures |r| == |rules| && forall j :: 0 <= j < |r| ==> r[j] == Offer(rules[j], port, conn, resolve)
  {
    seq(|rules|, j requires 0 <= j < |rules| => Offer(rules[j], port, conn, resolve))
  }

  function BoardOf(c: Config, port: nat, conn: Connection, resolve: Resolver): (r: Board)
    ensures |r| == |c.routes| && forall i :: 0 <= i < |r| ==> r[i] == OffersOf(c.routes[i].rules, port, conn, resolve)
  {
    seq(|c.routes|, i requires 0 <= i < |c.routes| => OffersOf(c.routes[i].rules, port, conn, resolve))
  }

  /** A rule's offer as a candidate, if it makes one. */
  function AsCandidate(offer: Option<HostScore>, slot: Slot): seq<Candidate> {
    if offer.Some? then [Candidate(slot, offer.value)] else []
  }

  /** The candidates among the first `n` rules of route `i`. */
  function RouteOffers(offers: seq<Option<HostScore>>, i: nat, n: nat): seq<Candidate>
    requires n <= |offers|
  {
    if n == 0 then [] else RouteOffers(offers, i, n - 1) + AsCandidate(offers[n - 1], Slot(i, n - 1))
  }

  predicate Within(order: seq<nat>, n: nat) { forall k :: 0 <= k < |order| ==> order[k] < n }

  /** The candidates of the routes of a visit. */
  function Offers(board: Board, order: seq<nat>): seq<Candidate>
    requires Within(order, |board|)
  {
    if order == [] then []
    else
      var i := order[|order| - 1];
      Offers(board, order[..|order| - 1]) + RouteOffers(board[i], i, |board[i]|)
  }

  // ------------------------------------------------------------------------------------------
  // The best candidate
  // ------------------------------------------------------------------------------------------

  /** Whether a score replaces the best one so far: an equal score does not. */
  predicate Improves(best: Option<Candidate>, score: HostScore) {
    best.None? || HostLess(best.value.score, score)
  }

  /** The best of some candidates, the first one among equals. */
  function Best(cs: seq<Candidate>): Option<Candidate> {
    if cs == [] then None
    else
      var rest := Best(cs[..|cs| - 1]);
      var last := cs[|cs| - 1];
      if Improves(rest, last.score) then Some(last) else rest
  }

  lemma {:induction false} BestAppend(cs: seq<Candidate>, c: Candidate)
    ensures Best(cs + [c]) == if Improves(Best(cs), c.score) then Some(c) else Best(cs)
  {
    assert (cs + [c])[..|cs|] == cs;
  }

  /** `cs[p]` is the first of the best candidates. */
  ghost predicate FirstBest(cs: seq<Candidate>, p: nat) {
    && p < |cs|
    && (forall k :: 0 <= k < p ==> HostLess(cs[k].score, cs[p].score))
    && forall k :: 0 <= k < |cs| ==> !HostLess(cs[p].score, cs[k].score)
  }

  lemma {:induction false} BestExact(cs: seq<Candidate>) returns (p: nat)
    requires cs != []
    ensures FirstBest(cs, p) && Best(cs) == Some(cs[p])
  {
    var n := |cs| - 1;
    if n == 0 {
      return 0;
    }
    var q := BestExact(cs[..n]);
    p := if Improves(Best(cs[..n]), cs[n].score) then n else q;
  }
}
