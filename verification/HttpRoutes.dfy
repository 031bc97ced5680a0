/**
 HTTP listeners, routes and rules, the scores that rank them, and what it means for a rule to win
 a request. Nothing here depends on a compiled plan or on an index.
 */
module HttpRoutes {
  import opened Wrappers
  import opened Text
  import opened Hostname
  import opened Ranking

  datatype Listener = Listener(name: string, protocol: string, port: nat, hostnames: seq<string>,
                               attachedRoutes: seq<string>, backendTls: bool)

  /** `compiled` says that the regular expression of the path has been compiled. */
  datatype Match = Match(path: string, pathType: string, method_: string, compiled: bool,
                         headers: seq<string>, queries: seq<string>)

  /** `cluster` is the backend the reference resolves to. `plain` means that neither the reference
      nor its backend's policy asks for filters, sessions or consistent hashing. */
  datatype BackendRef = BackendRef(weight: nat, routable: bool, cluster: Option<nat>, plain: bool)

  datatype Filter = Filter(nonBackend: bool)

  datatype Rule = Rule(matches: seq<Match>, refs: seq<BackendRef>, filters: seq<Filter>,
                       timeouts: bool, retry: bool, session: bool)

  datatype Route = Route(namespace: string, name: string, hostnames: seq<string>, rules: seq<Rule>)

  datatype Config = Config(listeners: seq<Listener>, routes: seq<Route>)

  /** A request, with the port of its host dropped once and its query string dropped. */
  datatype Query = Query(host: Option<string>, port: nat, path: string, method_: string)

  /** What the outside decides: the backends with a selectable endpoint, whether a pattern is a
      regular expression that matches a path, and which header and query conditions hold. */
  datatype World = World(available: set<nat>, regex: (string, string) -> bool,
                         header: string -> bool, query: string -> bool)

  /** The two selections that rank rules: the compiled one and the one it stands in for. */
  datatype Mode = Fast | Generic

  // ------------------------------------------------------------------------------------------
  // Host names
  // ------------------------------------------------------------------------------------------

  const NO_HOST := HostScore(0, 0)

  function HostScoreOf(pattern: string, requestHost: string): Option<HostScore> {
    var host := Normalize(requestHost);
    match StripWildcard(pattern)
    case Some(suffix) => if Matches(pattern, host) then Some(HostScore(1, |Normalize(suffix)|)) else None
    case None => if Normalize(pattern) == host then Some(HostScore(2, |Normalize(pattern)|)) else None
  }

  function HostScores(hostnames: seq<string>, host: string): (r: seq<Option<HostScore>>)
    ensures |r| == |hostnames| && forall i :: 0 <= i < |r| ==> r[i] == HostScoreOf(hostnames[i], host)
  {
    seq(|hostnames|, i requires 0 <= i < |hostnames| => HostScoreOf(hostnames[i], host))
  }

  function BestHostScore(hostnames: seq<string>, host: Option<string>): Option<HostScore> {
    if hostnames == [] then Some(NO_HOST)
    else if host.None? then None
    else MaxScore(HostScores(hostnames, host.value))
  }

  /** A host name scores a host exactly when it covers it and, unless it is a wildcard, is written in
      the same case: matching ignores case, the score of a plain name does not. */
  lemma {:induction false} ScoresExactly(pattern: string, host: string)
    ensures HostScoreOf(pattern, host).Some? <==>
      && Matches(pattern, Normalize(host))
      && (StripWildcard(pattern).Some? || Normalize(pattern) == Normalize(host))
  {
    if StripWildcard(pattern).None? && StripWildcard(Normalize(pattern)).Some? && HostScoreOf(pattern, host).Some? {
      var n := Normalize(host);
      var suffix := StripWildcard(n).value;
      assert n[|n| - |suffix|..] == suffix;
    }
  }

  /** Two plain names that differ in case only: covered, but without a score. */
  lemma {:induction false} CaseDecidesTheScore(pattern: string, host: string)
    requires Plain(pattern) && Plain(host) && StripWildcard(pattern).None?
    requires EqIgnoreCase(pattern, host) && pattern != host
    ensures Matches(pattern, Normalize(host)) && HostScoreOf(pattern, host) == None
  {
    NormalizeFixed(pattern);
    NormalizeFixed(host);
  }

  /** So a route for "Example.com" is a candidate for the host "example.com" and loses it. */
  lemma {:induction false} CaseMattersForTheScore()
    ensures Matches("Example.com", Normalize("example.com")) && HostScoreOf("Example.com", "example.com") == None
  {
    assert "Example.com"[1..] == "example.com"[1..] && "Example.com"[0] != "example.com"[0];
    assert Lower("Example.com") == Lower("example.com");
    CaseDecidesTheScore("Example.com", "example.com");
  }

  /** A request for the very host of a route scores it exactly when that host has no colon and no
      leading bracket left: the host is normalised once too often for an IPv6 literal. */
  lemma {:induction false} OwnHostScores(h: string)
    requires StripWildcard(h).None?
    ensures HostScoreOf(h, Normalize(h)).Some? <==> Plain(Normalize(h))
  {
    NormalizeFixed(Normalize(h));
  }

  /** A route for "[::1]" is not scored by a request for "[::1]", whose host arrives as "::1". */
  lemma {:induction false} LiteralDoesNotScoreItself()
    ensures Normalize("[::1]") == "::1" && HostScoreOf("[::1]", Normalize("[::1]")) == None
  {
    assert "[::1]" == "[" + "::1" + "]" + "";
    NormalizeBracketed("::1", "");
    assert ':' in "::1" && StripWildcard("[::1]") == None;
    OwnHostScores("[::1]");
  }

  // ------------------------------------------------------------------------------------------
  // Listeners
  // ------------------------------------------------------------------------------------------

  predicate IsHttp(protocol: string) {
    || protocol == "LISTENER_PROTOCOL_HTTP"
    || protocol == "LISTENER_PROTOCOL_HTTPS"
    || protocol == "LISTENER_PROTOCOL_HTTP3"
    || protocol == "HTTP"
    || protocol == "HTTPS"
    || protocol == "HTTP3"
  }

  predicate Candidate(c: Config, port: nat, l: nat) {
    l < |c.listeners| && IsHttp(c.listeners[l].protocol) && (port == 0 || c.listeners[l].port == port)
  }

  /** Whether routes have to be attached to a matched listener. */
  ghost predicate Enforced(c: Config, port: nat) { exists l: nat :: Candidate(c, port, l) }

  predicate Attached(listener: Listener, namespace: string, name: string) {
    exists a | a in listener.attachedRoutes :: SplitOnce(a, '/') == Some((namespace, name))
  }

  function ScoreFor(c: Config, host: Option<string>, l: nat): Option<HostScore> {
    if l < |c.listeners| then BestHostScore(c.listeners[l].hostnames, host) else None
  }

  /** A candidate listener that no other candidate listener beats on the request's host. */
  ghost predicate Top(c: Config, q: Query, l: nat) {
    && Candidate(c, q.port, l)
    && ScoreFor(c, q.host, l).Some?
    && forall m: nat :: Candidate(c, q.port, m) && ScoreFor(c, q.host, m).Some? ==>
         !HostLess(ScoreFor(c, q.host, l).value, ScoreFor(c, q.host, m).value)
  }

  /** The last of the first `n` listeners that is best for the host and has the route attached. */
  ghost function ListenerFor(c: Config, q: Query, route: Route, n: nat): (r: Option<nat>)
    requires n <= |c.listeners|
    ensures r.Some? ==> r.value < n && Top(c, q, r.value) && Attached(c.listeners[r.value], route.namespace, route.name)
    ensures forall l: nat :: l < n && Top(c, q, l) && Attached(c.listeners[l], route.namespace, route.name) ==>
              r.Some? && l <= r.value
  {
    if n == 0 then None
    else if Top(c, q, n - 1) && Attached(c.listeners[n - 1], route.namespace, route.name) then Some(n - 1)
    else ListenerFor(c, q, route, n - 1)
  }

  ghost function RouteListener(c: Config, q: Query, route: Route): (r: Option<nat>)
    ensures r.Some? ==> Top(c, q, r.value)
  {
    if Enforced(c, q.port) then ListenerFor(c, q, route, |c.listeners|) else None
  }

  // ------------------------------------------------------------------------------------------
  // Rules
  // ------------------------------------------------------------------------------------------

  datatype PathMatch = PathMatch(path: string, pathType: string)

  const ANY_PATH := PathMatch("/", "PathPrefix")

  function PathOf(m: Match): PathMatch { if m.path == "" then ANY_PATH else PathMatch(m.path, m.pathType) }

  function PathRank(pathType: string): nat {
    if pathType == "Exact" then 3 else if pathType == "RegularExpression" then 2 else 1
  }

  /** The compiled selection is not offered rules with headers or query parameters, and counts none. */
  function MatchScore(mode: Mode, m: Match): RuleScore {
    RuleScore(PathRank(PathOf(m).pathType), |PathOf(m).path|, m.method_ != "",
              if mode.Fast? then 0 else |m.headers|, if mode.Fast? then 0 else |m.queries|)
  }

  predicate StartsWith(s: string, prefix: string) { |prefix| <= |s| && s[..|prefix|] == prefix }

  predicate PrefixMatches(prefix: string, path: string) {
    || prefix == "/"
    || path == prefix
    || (StartsWith(path, prefix)
        && ((prefix != "" && prefix[|prefix| - 1] == '/') || (|path| > |prefix| && path[|prefix|] == '/')))
  }

  /** A prefix matches whole path segments. */
  lemma {:induction false} PrefixMatchesSegments(prefix: string, path: string)
    requires prefix != ""
    ensures PrefixMatches(prefix, path) <==>
            prefix == "/" || path == prefix || (if prefix[|prefix| - 1] == '/' then prefix else prefix + "/") <= path
  {
    if StartsWith(path, prefix) && |path| > |prefix| && path[|prefix|] == '/' {
      assert path[..|prefix| + 1] == prefix + "/";
    }
    if prefix + "/" <= path {
      assert path[..|prefix|] == prefix && path[|prefix|] == '/';
    }
  }

  /** The compiled selection only uses expressions compiled ahead of time. */
  predicate PathMatches(mode: Mode, m: Match, path: string, w: World) {
    if m.path == "" then true
    else if m.pathType == "Exact" then path == m.path
    else if m.pathType == "RegularExpression" then (mode.Generic? || m.compiled) && w.regex(m.path, path)
    else PrefixMatches(m.path, path)
  }

  predicate Accepts(mode: Mode, m: Match, q: Query, w: World) {
    && PathMatches(mode, m, q.path, w)
    && (m.method_ == "" || EqIgnoreCase(m.method_, q.method_))
    && (mode.Generic? ==> (forall h :: h in m.headers ==> w.header(h)) && (forall p :: p in m.queries ==> w.query(p)))
  }

  function MatchScores(mode: Mode, matches: seq<Match>, q: Query, w: World): (r: seq<Option<RuleScore>>)
    ensures |r| == |matches|
    ensures forall i :: 0 <= i < |r| ==>
              r[i] == if Accepts(mode, matches[i], q, w) then Some(MatchScore(mode, matches[i])) else None
  {
    seq(|matches|, i requires 0 <= i < |matches| =>
      if Accepts(mode, matches[i], q, w) then Some(MatchScore(mode, matches[i])) else None)
  }

  /** The best accepting match of a rule, the last one among equals. */
  function BestMatch(mode: Mode, matches: seq<Match>, q: Query, w: World): Option<(PathMatch, RuleScore)> {
    match LastBest(MatchScores(mode, matches, q, w))
    case Some(i) => Some((PathOf(matches[i]), MatchScore(mode, matches[i])))
    case None => None
  }

  function RuleMatch(mode: Mode, rule: Rule, q: Query, w: World): Option<(PathMatch, RuleScore)> {
    if rule.matches == [] then Some((ANY_PATH, RuleScore(0, 0, false, 0, 0)))
    else BestMatch(mode, rule.matches, q, w)
  }

  predicate Positive(rule: Rule) { exists r | r in rule.refs :: r.weight > 0 }

  predicate Selectable(r: BackendRef, w: World) {
    r.weight > 0 && r.routable && r.cluster.Some? && r.cluster.value in w.available
  }

  /** Whether some reference of the rule leads to a backend with a selectable endpoint. */
  predicate HasAvailable(rule: Rule, w: World) { exists r | r in rule.refs :: Selectable(r, w) }

  /** What resolving a rule's references gives: a backend, an error, or nothing at all. */
  datatype Resolution = Selected | Unhealthy | Invalid | Nothing

  function Resolve(rule: Rule, w: World): Resolution {
    if HasAvailable(rule, w) then Selected
    else if exists r | r in rule.refs :: r.weight > 0 && r.routable && r.cluster.Some? then Unhealthy
    else if exists r | r in rule.refs :: r.weight > 0 then Invalid
    else Nothing
  }

  /** Whether a matching rule takes part: the compiled selection wants a reference with weight, the
      other one an outcome of resolution or a filter that answers by itself. */
  predicate TakesPart(mode: Mode, rule: Rule, w: World) {
    match mode
    case Fast => Positive(rule)
    case Generic => !Resolve(rule, w).Nothing? || exists f | f in rule.filters :: f.nonBackend
  }

  // ------------------------------------------------------------------------------------------
  // Winning
  // ------------------------------------------------------------------------------------------

  predicate SlotIn(c: Config, x: Slot) { x.route < |c.routes| && x.rule < |c.routes[x.route].rules| }

  ghost function ListenerScore(c: Config, q: Query, route: Route): HostScore {
    match RouteListener(c, q, route)
    case Some(l) => ScoreFor(c, q.host, l).value
    case None => NO_HOST
  }

  /** Attached where attachment counts, and matching the host. */
  ghost predicate RouteOpen(c: Config, q: Query, route: Route) {
    && (Enforced(c, q.port) ==> RouteListener(c, q, route).Some?)
    && BestHostScore(route.hostnames, q.host).Some?
  }

  ghost predicate Scored(mode: Mode, c: Config, q: Query, w: World, x: Slot) {
    && SlotIn(c, x)
    && RouteOpen(c, q, c.routes[x.route])
    && TakesPart(mode, c.routes[x.route].rules[x.rule], w)
    && RuleMatch(mode, c.routes[x.route].rules[x.rule], q, w).Some?
  }

  ghost function ScoreOf(mode: Mode, c: Config, q: Query, w: World, x: Slot): Score
    requires Scored(mode, c, q, w, x)
  {
    var route := c.routes[x.route];
    Score(ListenerScore(c, q, route), BestHostScore(route.hostnames, q.host).value,
          RuleMatch(mode, route.rules[x.rule], q, w).value.1)
  }

  /** The rules that match, with their scores. */
  ghost function Matching(mode: Mode, c: Config, q: Query, w: World): Table {
    imap x | Scored(mode, c, q, w, x) :: ScoreOf(mode, c, q, w, x)
  }
}
