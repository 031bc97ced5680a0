/**
 The compiled HTTP selection. A plan is built once per snapshot. Selecting visits the candidate
 routes, keeps the best rule so far, and gives up (leaving the request to the generic selection)
 at the first rule it takes that needs backend TLS or has no backend to offer.
 */
module HttpFastPath {
  import opened Wrappers
  import opened Text
  import opened Hostname
  import opened Sorted
  import opened Ranking
  import opened HttpRoutes
  import opened HttpCandidates
  import HttpPrecedence
  import HostnameIndex

  datatype CompiledListener = CompiledListener(name: string, protocol: string, backendTls: bool)
  datatype CompiledMatch = CompiledMatch(source: Match, path: PathMatch, score: RuleScore)
  datatype CompiledRef = CompiledRef(cluster: nat, weight: nat)
  datatype CompiledRule = CompiledRule(ruleIndex: nat, matches: seq<CompiledMatch>, refs: seq<CompiledRef>)
  datatype CompiledRoute = CompiledRoute(routeIndex: nat, name: string, namespace: string, rules: seq<CompiledRule>)

  /** `planIndices` leads from a route to its place in `routes`. */
  datatype Plan = Plan(listeners: seq<CompiledListener>, routes: seq<CompiledRoute>,
                       planIndices: seq<Option<nat>>, safe: bool)

  datatype Request = Request(host: Option<string>, port: nat, path: string, method_: string, isGrpc: bool)

  datatype Answer = Answer(routeName: string, routeNamespace: string, ruleIndex: nat,
                           listenerName: string, listenerProtocol: string, path: PathMatch)

  // ------------------------------------------------------------------------------------------
  // Compiling
  // ------------------------------------------------------------------------------------------

  predicate SafeMatch(m: Match) { m.headers == [] && m.queries == [] }

  /** Nothing about the rule needs more than host, path and method. */
  predicate SafeRule(rule: Rule) {
    && !rule.timeouts && !rule.retry && !rule.session && rule.filters == []
    && (forall m :: m in rule.matches ==> SafeMatch(m))
    && forall r :: r in rule.refs && r.weight > 0 ==> r.plain
  }

  function CompileMatches(matches: seq<Match>): (r: seq<CompiledMatch>)
    ensures |r| == |matches|
    ensures forall i :: 0 <= i < |r| ==>
              r[i] == CompiledMatch(matches[i], PathOf(matches[i]), MatchScore(Fast, matches[i]))
  {
    seq(|matches|, i requires 0 <= i < |matches| =>
      CompiledMatch(matches[i], PathOf(matches[i]), MatchScore(Fast, matches[i])))
  }

  /** The references with weight, unless one of them cannot be compiled. */
  function WeightedRefs(refs: seq<BackendRef>): Option<seq<CompiledRef>> {
    if refs == [] then Some([])
    else
      var rest := WeightedRefs(refs[1..]);
      var first := refs[0];
      if first.weight == 0 then rest
      else if rest.None? || !first.routable || first.cluster.None? then None
      else Some([CompiledRef(first.cluster.value, first.weight)] + rest.value)
  }

  /** Compiling succeeds when every reference with weight leads to a backend, and keeps exactly
      the backends of those references. */
  lemma {:induction false} WeightedRefsExact(refs: seq<BackendRef>)
    ensures WeightedRefs(refs).Some? <==> forall x :: x in refs && x.weight > 0 ==> x.routable && x.cluster.Some?
    ensures WeightedRefs(refs).Some? ==>
      && (WeightedRefs(refs).value != [] <==> exists x :: x in refs && x.weight > 0)
      && (forall x :: x in refs && x.weight > 0 ==> CompiledRef(x.cluster.value, x.weight) in WeightedRefs(refs).value)
      && (forall y :: y in WeightedRefs(refs).value ==>
            y.weight > 0 && BackendRefFor(refs, y))
  {
    if refs != [] {
      WeightedRefsExact(refs[1..]);
      assert forall x :: x in refs <==> x == refs[0] || x in refs[1..];
    }
  }

  ghost predicate BackendRefFor(refs: seq<BackendRef>, y: CompiledRef) {
    exists x :: x in refs && x.weight == y.weight && x.routable && x.cluster == Some(y.cluster)
  }

  function CompileRefs(rule: Rule): Option<seq<CompiledRef>> {
    match WeightedRefs(rule.refs)
    case Some(refs) => if refs == [] then None else Some(refs)
    case None => None
  }

  predicate Eligible(rule: Rule) { SafeRule(rule) && CompileRefs(rule).Some? }

  function CompileRule(rule: Rule, index: nat): CompiledRule
    requires Eligible(rule)
  {
    CompiledRule(index, CompileMatches(rule.matches), CompileRefs(rule).value)
  }

  /** The rule does not stand in the way of selecting through the plan. */
  predicate Harmless(rule: Rule) { SafeRule(rule) && (Positive(rule) ==> CompileRefs(rule).Some?) }

  /** What a rule may not have: anything beyond host, path, method and plain references, or a reference with
      weight that leads to no backend. */
  lemma {:induction false} HarmlessExactly(rule: Rule)
    ensures Harmless(rule) <==>
      && !rule.timeouts && !rule.retry && !rule.session && rule.filters == []
      && (forall m :: m in rule.matches ==> m.headers == [] && m.queries == [])
      && forall r :: r in rule.refs && r.weight > 0 ==> r.plain && r.routable && r.cluster.Some?
  {
    WeightedRefsExact(rule.refs);
  }

  lemma {:induction false} HarmlessEligible(rule: Rule)
    requires Harmless(rule)
    ensures Eligible(rule) <==> Positive(rule)
  {
    WeightedRefsExact(rule.refs);
  }

  /** `compiled` holds exactly the eligible ones of the first `n` rules, in order. */
  ghost predicate RulesCompiled(compiled: seq<CompiledRule>, rules: seq<Rule>, n: nat)
    requires n <= |rules|
  {
    && (forall k :: 0 <= k < |compiled| ==>
          && compiled[k].ruleIndex < n
          && Eligible(rules[compiled[k].ruleIndex])
          && compiled[k] == CompileRule(rules[compiled[k].ruleIndex], compiled[k].ruleIndex))
    && (forall k, l :: 0 <= k < l < |compiled| ==> compiled[k].ruleIndex < compiled[l].ruleIndex)
    && forall j :: 0 <= j < n && Eligible(rules[j]) ==> exists k :: 0 <= k < |compiled| && compiled[k].ruleIndex == j
  }

  ghost predicate RouteCompiled(compiled: CompiledRoute, c: Config) {
    && compiled.routeIndex < |c.routes|
    && compiled.name == c.routes[compiled.routeIndex].name
    && compiled.namespace == c.routes[compiled.routeIndex].namespace
    && RulesCompiled(compiled.rules, c.routes[compiled.routeIndex].rules, |c.routes[compiled.routeIndex].rules|)
  }

  predicate NoneEligible(rules: seq<Rule>) { forall r :: r in rules ==> !Eligible(r) }

  /** The plan's routes are in route order, and `planIndices` finds them. */
  ghost predicate Placed(plan: Plan, c: Config, n: nat)
    requires n <= |c.routes|
  {
    && |plan.planIndices| == |c.routes|
    && (forall p :: 0 <= p < |plan.routes| ==>
          plan.routes[p].routeIndex < n && plan.planIndices[plan.routes[p].routeIndex] == Some(p))
    && (forall p, o :: 0 <= p < o < |plan.routes| ==> plan.routes[p].routeIndex < plan.routes[o].routeIndex)
    && (forall i :: 0 <= i < n && plan.planIndices[i].Some? ==>
          plan.planIndices[i].value < |plan.routes| && plan.routes[plan.planIndices[i].value].routeIndex == i)
    && forall i :: n <= i < |c.routes| ==> plan.planIndices[i] == None
  }

  ghost predicate RoutesCompiled(plan: Plan, c: Config, n: nat)
    requires n <= |c.routes| && Placed(plan, c, n)
  {
    && (forall p :: 0 <= p < |plan.routes| ==> RouteCompiled(plan.routes[p], c) && plan.routes[p].rules != [])
    && forall i :: 0 <= i < n && plan.planIndices[i].None? ==> NoneEligible(c.routes[i].rules)
  }

  ghost predicate ListenersCompiled(plan: Plan, c: Config) {
    && |plan.listeners| == |c.listeners|
    && forall l :: 0 <= l < |c.listeners| ==>
         plan.listeners[l] == CompiledListener(c.listeners[l].name, c.listeners[l].protocol, c.listeners[l].backendTls)
  }

  /** `plan` is the plan of a configuration. */
  ghost predicate PlanFor(plan: Plan, c: Config) {
    && ListenersCompiled(plan, c)
    && Placed(plan, c, |c.routes|)
    && RoutesCompiled(plan, c, |c.routes|)
    && (plan.safe <==> forall x :: SlotIn(c, x) ==> Harmless(c.routes[x.route].rules[x.rule]))
  }

  lemma {:induction false} AddRule(compiled: seq<CompiledRule>, rules: seq<Rule>, j: nat)
    requires j < |rules| && RulesCompiled(compiled, rules, j) && Eligible(rules[j])
    ensures RulesCompiled(compiled + [CompileRule(rules[j], j)], rules, j + 1)
  {
    var next := compiled + [CompileRule(rules[j], j)];
    assert next[|compiled|].ruleIndex == j;
    assert forall k :: 0 <= k < |compiled| ==> next[k] == compiled[k];
  }

  function WithRoute(plan: Plan, route: Route, i: nat, rules: seq<CompiledRule>): Plan
    requires i < |plan.planIndices|
  {
    plan.(planIndices := plan.planIndices[i := Some(|plan.routes|)],
          routes := plan.routes + [CompiledRoute(i, route.name, route.namespace, rules)])
  }

  method CompileRules(rules: seq<Rule>) returns (compiled: seq<CompiledRule>, safe: bool)
    ensures RulesCompiled(compiled, rules, |rules|)
    ensures safe <==> forall j :: 0 <= j < |rules| ==> Harmless(rules[j])
  {
    compiled, safe := [], true;
    for j := 0 to |rules|
      invariant RulesCompiled(compiled, rules, j)
      invariant safe <==> forall i :: 0 <= i < j ==> Harmless(rules[i])
    {
      var rule := rules[j];
      if !SafeRule(rule) {
        safe := false;
      } else {
        var refs := CompileRefs(rule);
        if refs.Some? {
          AddRule(compiled, rules, j);
          compiled := compiled + [CompiledRule(j, CompileMatches(rule.matches), refs.value)];
        } else if Positive(rule) {
          safe := false;
        }
      }
    }
  }

  /** The plan of the first `n` routes. */
  ghost predicate PlanUpTo(plan: Plan, c: Config, n: nat)
    requires n <= |c.routes|
  {
    && ListenersCompiled(plan, c) && Placed(plan, c, n) && RoutesCompiled(plan, c, n)
    && (plan.safe <==> forall x :: SlotIn(c, x) && x.route < n ==> Harmless(c.routes[x.route].rules[x.rule]))
  }

  method CompileRoute(plan: Plan, c: Config, i: nat) returns (next: Plan)
    requires i < |c.routes| && PlanUpTo(plan, c, i)
    ensures PlanUpTo(next, c, i + 1)
  {
    var route := c.routes[i];
    var rules, safe := CompileRules(route.rules);
    SafeRow(c, i, safe);
    next := plan.(safe := plan.safe && safe);
    if rules != [] {
      AddRoute(next, c, i, rules);
      next := WithRoute(next, route, i, rules);
    } else {
      assert NoneEligible(route.rules);
      KeepRoutes(next, c, i);
    }
  }

  method Build(c: Config) returns (plan: Plan)
    ensures PlanFor(plan, c)
  {
    var listeners := seq(|c.listeners|, l requires 0 <= l < |c.listeners| =>
      CompiledListener(c.listeners[l].name, c.listeners[l].protocol, c.listeners[l].backendTls));
    plan := Plan(listeners, [], seq(|c.routes|, _ => None), true);
    for i := 0 to |c.routes|
      invariant PlanUpTo(plan, c, i)
    {
      plan := CompileRoute(plan, c, i);
    }
  }

  lemma {:induction false} SafeRow(c: Config, i: nat, safe: bool)
    requires i < |c.routes|
    requires safe <==> forall j :: 0 <= j < |c.routes[i].rules| ==> Harmless(c.routes[i].rules[j])
    ensures safe <==> forall x :: SlotIn(c, x) && x.route == i ==> Harmless(c.routes[x.route].rules[x.rule])
  {
    if forall x :: SlotIn(c, x) && x.route == i ==> Harmless(c.routes[x.route].rules[x.rule]) {
      forall j | 0 <= j < |c.routes[i].rules| ensures Harmless(c.routes[i].rules[j]) {
        assert SlotIn(c, Slot(i, j));
      }
    }
  }

  lemma {:induction false} AddRoute(plan: Plan, c: Config, i: nat, rules: seq<CompiledRule>)
    requires i < |c.routes| && Placed(plan, c, i) && RoutesCompiled(plan, c, i)
    requires RulesCompiled(rules, c.routes[i].rules, |c.routes[i].rules|) && rules != []
    ensures
      var next := WithRoute(plan, c.routes[i], i, rules);
      Placed(next, c, i + 1) && RoutesCompiled(next, c, i + 1)
  {
  }

  lemma {:induction false} KeepRoutes(plan: Plan, c: Config, i: nat)
    requires i < |c.routes| && Placed(plan, c, i) && RoutesCompiled(plan, c, i)
    requires NoneEligible(c.routes[i].rules)
    ensures Placed(plan, c, i + 1) && RoutesCompiled(plan, c, i + 1)
  {
  }

  // ------------------------------------------------------------------------------------------
  // Selecting
  // ------------------------------------------------------------------------------------------

  function WithoutQuery(path: string): string {
    match SplitOnce(path, '?')
    case Some((before, _)) => before
    case None => path
  }

  /** What stands before the first question mark. */
  lemma {:induction false} WithoutQueryExact(path: string)
    ensures '?' !in WithoutQuery(path)
    ensures WithoutQuery(path) == path || WithoutQuery(path) + "?" <= path
  {
    var split := SplitOnce(path, '?');
    NoSplit(path, '?');
    if split.Some? {
      SplitOnceExact(path, '?', split.value.0, split.value.1);
    }
  }

  function QueryOf(request: Request): Query {
    Query(if request.host.Some? then Some(Normalize(request.host.value)) else None,
          request.port, WithoutQuery(request.path), request.method_)
  }

  /** Port and query string are dropped; the rest of the request is kept. */
  lemma {:induction false} QueryReads(name: string, hostPort: string, path: string, query: string, request: Request)
    requires Plain(name) && '?' !in path
    requires request.host == Some(name + ":" + hostPort) && request.path == path + "?" + query
    ensures QueryOf(request) == Query(Some(name), request.port, path, request.method_)
  {
    NormalizeWithPort(name, hostPort);
    SplitOnceExact(request.path, '?', path, query);
  }

  lemma {:induction false} QueryKeeps(request: Request)
    requires request.host.Some? ==> Plain(request.host.value)
    requires '?' !in request.path
    ensures QueryOf(request) == Query(request.host, request.port, request.path, request.method_)
  {
    if request.host.Some? {
      NormalizeFixed(request.host.value);
    }
    NoSplit(request.path, '?');
  }

  predicate NeedsTls(c: Config, l: Option<nat>) {
    l.Some? && l.value < |c.listeners| && c.listeners[l.value].backendTls
  }

  /** The rules that cannot be answered from the plan. */
  ghost function Blocked(c: Config, q: Query, w: World): iset<Slot> {
    iset x | SlotIn(c, x) && (NeedsTls(c, RouteListener(c, q, c.routes[x.route]))
                              || !HasAvailable(c.routes[x.route].rules[x.rule], w))
  }

  ghost function AnswerAt(mode: Mode, c: Config, q: Query, w: World, x: Slot): Answer
    requires Scored(mode, c, q, w, x)
  {
    var route := c.routes[x.route];
    var l := RouteListener(c, q, route);
    Answer(route.name, route.namespace, x.rule,
           if l.Some? then c.listeners[l.value].name else "",
           if l.Some? then c.listeners[l.value].protocol else "",
           RuleMatch(mode, route.rules[x.rule], q, w).value.0)
  }

  function CompiledScores(matches: seq<CompiledMatch>, q: Query, w: World): (r: seq<Option<RuleScore>>)
    ensures |r| == |matches|
    ensures forall i :: 0 <= i < |r| ==>
              r[i] == if Accepts(Fast, matches[i].source, q, w) then Some(matches[i].score) else None
  {
    seq(|matches|, i requires 0 <= i < |matches| =>
      if Accepts(Fast, matches[i].source, q, w) then Some(matches[i].score) else None)
  }

  function BestCompiled(matches: seq<CompiledMatch>, q: Query, w: World): Option<(PathMatch, RuleScore)> {
    match LastBest(CompiledScores(matches, q, w))
    case Some(i) => Some((matches[i].path, matches[i].score))
    case None => None
  }

  function CompiledRuleMatch(rule: CompiledRule, q: Query, w: World): Option<(PathMatch, RuleScore)> {
    if rule.matches == [] then Some((ANY_PATH, RuleScore(0, 0, false, 0, 0)))
    else BestCompiled(rule.matches, q, w)
  }

  lemma {:induction false} BestCompiledAgrees(matches: seq<Match>, q: Query, w: World)
    ensures BestCompiled(CompileMatches(matches), q, w) == BestMatch(Fast, matches, q, w)
  {
    assert CompiledScores(CompileMatches(matches), q, w) == MatchScores(Fast, matches, q, w);
  }

  predicate AnyAvailable(refs: seq<CompiledRef>, w: World) { exists r | r in refs :: r.cluster in w.available }

  lemma {:induction false} CompiledRuleAgrees(rule: Rule, j: nat, q: Query, w: World)
    requires Eligible(rule)
    ensures CompiledRuleMatch(CompileRule(rule, j), q, w) == RuleMatch(Fast, rule, q, w)
    ensures AnyAvailable(CompileRule(rule, j).refs, w) <==> HasAvailable(rule, w)
  {
    BestCompiledAgrees(rule.matches, q, w);
    WeightedRefsExact(rule.refs);
    var refs := CompileRefs(rule).value;
    if r :| r in refs && r.cluster in w.available {
      assert BackendRefFor(rule.refs, r);
      var x :| x in rule.refs && x.weight == r.weight && x.routable && x.cluster == Some(r.cluster);
      assert Selectable(x, w);
    }
    if x :| x in rule.refs && Selectable(x, w) {
      assert CompiledRef(x.cluster.value, x.weight) in refs;
    }
  }

  lemma {:induction false} HostScoreCovered(hostnames: seq<string>, host: Option<string>)
    requires BestHostScore(hostnames, host).Some?
    ensures HostnameIndex.Accepts(hostnames, if host.Some? then Some(Normalize(host.value)) else None)
  {
    if hostnames != [] {
      MaxScoreExact(HostScores(hostnames, host.value));
      var i :| 0 <= i < |hostnames| && HostScores(hostnames, host.value)[i].Some?;
      var h := hostnames[i];
      ScoresExactly(h, host.value);
    }
  }

  /** The places in the plan of some routes. */
  method PlacesOf(plan: Plan, c: Config, visited: seq<nat>) returns (order: seq<nat>)
    requires Placed(plan, c, |c.routes|)
    requires StrictlyAscending(visited) && forall r :: r in visited ==> r < |c.routes|
    ensures StrictlyAscending(order)
    ensures forall p: nat :: p in order <==> p < |plan.routes| && plan.routes[p].routeIndex in visited
  {
    order := [];
    for k := 0 to |visited|
      invariant StrictlyAscending(order)
      invariant forall p: nat :: p in order <==> p < |plan.routes| && plan.routes[p].routeIndex in visited[..k]
    {
      assert visited[..k + 1] == visited[..k] + [visited[k]];
      assert visited[k] in visited;
      var place := plan.planIndices[visited[k]];
      if place.Some? {
        forall p | p in order ensures p < place.value {
          assert plan.routes[p].routeIndex < visited[k];
        }
        AppendStrictly(order, place.value);
        order := order + [place.value];
      }
    }
    assert visited[..|visited|] == visited;
  }

  /** The places in the plan to visit, in order: all of them, or those the hostname index leads to.
      Either way no route that scores the host is passed over. */
  method CandidateRoutes(plan: Plan, s: Snapshot, host: Option<string>) returns (order: seq<nat>)
    requires Placed(plan, s.config, |s.config.routes|) && (s.ready ==> IndexesBuilt(s))
    ensures StrictlyAscending(order)
    ensures forall k :: 0 <= k < |order| ==> order[k] < |plan.routes|
    ensures forall p: nat ::
              (p < |plan.routes| && BestHostScore(s.config.routes[plan.routes[p].routeIndex].hostnames, host).Some?) ==>
              p in order
  {
    var c := s.config;
    if !s.ready {
      order := seq(|plan.routes|, p => p);
      forall p: nat | p < |plan.routes| ensures p in order {
        assert order[p] == p;
      }
      return;
    }
    var visited := HostnameIndex.CandidateIndices(s.hosts, Hostnames(c.routes), host);
    order := PlacesOf(plan, c, visited);
    assert forall k :: 0 <= k < |order| ==> order[k] in order;
    forall p: nat | p < |plan.routes| && BestHostScore(c.routes[plan.routes[p].routeIndex].hostnames, host).Some?
      ensures p in order
    {
      HostScoreCovered(c.routes[plan.routes[p].routeIndex].hostnames, host);
    }
  }

  /** The best rule so far, with its score and the answer it would give. */
  datatype Best = Best(slot: Slot, score: Score, answer: Answer)

  function SlotOf(best: Option<Best>): Option<Slot> {
    match best
    case Some(b) => Some(b.slot)
    case None => None
  }

  type Answers = imap<Slot, Answer>

  /** What a request asks for: the matching rules with their scores and answers, and the rules that
      cannot be answered from the plan. */
  datatype Goal = Goal(t: Table, blocked: iset<Slot>, answers: Answers)

  ghost function GoalOf(c: Config, q: Query, w: World): Goal {
    Goal(Matching(Fast, c, q, w), Blocked(c, q, w), AllAnswers(Fast, c, q, w))
  }

  ghost function AllAnswers(mode: Mode, c: Config, q: Query, w: World): Answers {
    imap x | Scored(mode, c, q, w, x) :: AnswerAt(mode, c, q, w, x)
  }

  /** What holds when every rule before `bound` has been visited. */
  ghost predicate Visited(g: Goal, bound: Slot, best: Option<Best>) {
    && Passed(g.t, g.blocked, bound, SlotOf(best))
    && (best.Some? ==>
          && best.value.slot in g.t && best.value.score == g.t[best.value.slot]
          && best.value.slot in g.answers && best.value.answer == g.answers[best.value.slot])
  }

  /** What is known of a route before its rules are visited: its listener and its host score. */
  datatype Context = Context(route: CompiledRoute, listener: Option<CompiledListener>,
                             listenerScore: HostScore, hostScore: HostScore)

  function ScoreIn(x: Context, rule: RuleScore): Score { Score(x.listenerScore, x.hostScore, rule) }

  function AnswerIn(x: Context, rule: nat, path: PathMatch): Answer {
    Answer(x.route.name, x.route.namespace, rule,
           if x.listener.Some? then x.listener.value.name else "",
           if x.listener.Some? then x.listener.value.protocol else "", path)
  }

  predicate BlockedIn(x: Context, rule: CompiledRule, w: World) {
    (x.listener.Some? && x.listener.value.backendTls) || !AnyAvailable(rule.refs, w)
  }

  /** The goal says of a compiled rule what its compiled form gives. */
  ghost predicate Rated(g: Goal, x: Context, rule: CompiledRule, q: Query, w: World) {
    var at := Slot(x.route.routeIndex, rule.ruleIndex);
    var matched := CompiledRuleMatch(rule, q, w);
    && (at in g.t <==> matched.Some?)
    && (at in g.t ==> g.t[at] == ScoreIn(x, matched.value.1))
    && (at in g.t ==> at in g.answers && g.answers[at] == AnswerIn(x, rule.ruleIndex, matched.value.0))
    && (at in g.blocked <==> BlockedIn(x, rule, w))
  }

  /** One rule of the innermost loop. */
  method TakeRule(x: Context, rule: CompiledRule, q: Query, w: World, best: Option<Best>, ghost g: Goal)
    returns (next: Option<Best>, proceed: bool)
    requires Visited(g, Slot(x.route.routeIndex, rule.ruleIndex), best)
    requires Rated(g, x, rule, q, w)
    ensures proceed ==> Visited(g, Slot(x.route.routeIndex, rule.ruleIndex + 1), next)
    ensures !proceed ==> Outcome(g.t, g.blocked, None)
  {
    next, proceed := best, true;
    var at := Slot(x.route.routeIndex, rule.ruleIndex);
    PassedStep(g.t, g.blocked, at, SlotOf(best));
    var matched := CompiledRuleMatch(rule, q, w);
    if matched.None? {
      return;
    }
    var score := ScoreIn(x, matched.value.1);
    if best.Some? && (Less(score, best.value.score) || score == best.value.score) {
      return;
    }
    if BlockedIn(x, rule, w) {
      proceed := false;
    } else {
      next := Some(Best(at, score, AnswerIn(x, rule.ruleIndex, matched.value.0)));
    }
  }

  /** The compiled rules of a route are in order and cover its matching rules. */
  ghost predicate Covered(g: Goal, route: CompiledRoute, n: nat) {
    && (forall k :: 0 <= k < |route.rules| ==> route.rules[k].ruleIndex < n)
    && (forall k, l :: 0 <= k < l < |route.rules| ==> route.rules[k].ruleIndex < route.rules[l].ruleIndex)
    && forall at :: at in g.t && at.route == route.routeIndex ==>
         at.rule < n && exists k :: 0 <= k < |route.rules| && route.rules[k].ruleIndex == at.rule
  }

  /** The end of the rules before the `k`-th compiled one. */
  function From(route: CompiledRoute, k: nat): nat
    requires k <= |route.rules|
  {
    if k == 0 then 0 else route.rules[k - 1].ruleIndex + 1
  }

  /** No rule from `from` up to `to` matches. */
  ghost predicate Gap(g: Goal, from: Slot, to: Slot) {
    (from == to || Before(from, to)) && forall y :: y in g.t && Before(y, to) ==> Before(y, from)
  }

  lemma {:induction false} SkipGap(g: Goal, from: Slot, to: Slot, best: Option<Best>)
    requires Gap(g, from, to) && Visited(g, from, best)
    ensures Visited(g, to, best)
  {
    PassedSkip(g.t, g.blocked, from, to, SlotOf(best));
  }

  /** The `k`-th compiled rule is rated, and those between it and the one before do not match. */
  ghost predicate RuleReady(g: Goal, x: Context, q: Query, w: World, k: nat)
    requires k < |x.route.rules|
  {
    && Rated(g, x, x.route.rules[k], q, w)
    && Gap(g, Slot(x.route.routeIndex, From(x.route, k)), Slot(x.route.routeIndex, x.route.rules[k].ruleIndex))
  }

  /** The rules between two compiled ones do not match. */
  lemma {:induction false} RuleGap(g: Goal, route: CompiledRoute, m: nat, k: nat)
    requires Covered(g, route, m) && k <= |route.rules|
    ensures Gap(g, Slot(route.routeIndex, From(route, k)),
                if k < |route.rules| then Slot(route.routeIndex, route.rules[k].ruleIndex)
                else Slot(route.routeIndex + 1, 0))
  {
  }

  method VisitRule(x: Context, k: nat, q: Query, w: World, best: Option<Best>, ghost g: Goal)
    returns (next: Option<Best>, proceed: bool)
    requires k < |x.route.rules| && RuleReady(g, x, q, w, k)
    requires Visited(g, Slot(x.route.routeIndex, From(x.route, k)), best)
    ensures proceed ==> Visited(g, Slot(x.route.routeIndex, From(x.route, k + 1)), next)
    ensures !proceed ==> Outcome(g.t, g.blocked, None)
  {
    SkipGap(g, Slot(x.route.routeIndex, From(x.route, k)), Slot(x.route.routeIndex, x.route.rules[k].ruleIndex), best);
    next, proceed := TakeRule(x, x.route.rules[k], q, w, best, g);
  }

  method VisitRules(x: Context, q: Query, w: World, best: Option<Best>, ghost g: Goal)
    returns (next: Option<Best>, proceed: bool)
    requires Visited(g, Slot(x.route.routeIndex, 0), best)
    requires forall k :: 0 <= k < |x.route.rules| ==> RuleReady(g, x, q, w, k)
    ensures proceed ==> Visited(g, Slot(x.route.routeIndex, From(x.route, |x.route.rules|)), next)
    ensures !proceed ==> Outcome(g.t, g.blocked, None)
  {
    next, proceed := best, true;
    for k := 0 to |x.route.rules|
      invariant proceed && Visited(g, Slot(x.route.routeIndex, From(x.route, k)), next)
    {
      next, proceed := VisitRule(x, k, q, w, next, g);
      if !proceed {
        return;
      }
    }
  }

  // ------------------------------------------------------------------------------------------
  // The compiled form against the configuration
  // ------------------------------------------------------------------------------------------

  function ContextOf(plan: Plan, c: Config, q: Query, p: nat, m: Option<nat>, hostScore: HostScore): Context
    requires p < |plan.routes| && (m.Some? ==> m.value < |plan.listeners| && ScoreFor(c, q.host, m.value).Some?)
  {
    Context(plan.routes[p], if m.Some? then Some(plan.listeners[m.value]) else None,
            if m.Some? then ScoreFor(c, q.host, m.value).value else NO_HOST, hostScore)
  }

  lemma {:induction false} ScoreRated(c: Config, q: Query, w: World, x: Slot)
    requires SlotIn(c, x) && RouteOpen(c, q, c.routes[x.route]) && Positive(c.routes[x.route].rules[x.rule])
    ensures x in Matching(Fast, c, q, w) <==> RuleMatch(Fast, c.routes[x.route].rules[x.rule], q, w).Some?
    ensures x in Matching(Fast, c, q, w) ==>
      Matching(Fast, c, q, w)[x] ==
        Score(ListenerScore(c, q, c.routes[x.route]), BestHostScore(c.routes[x.route].hostnames, q.host).value,
              RuleMatch(Fast, c.routes[x.route].rules[x.rule], q, w).value.1)
  {
  }

  lemma {:induction false} AnswerRated(c: Config, q: Query, w: World, x: Slot)
    requires x in Matching(Fast, c, q, w)
    ensures x in AllAnswers(Fast, c, q, w) && Scored(Fast, c, q, w, x)
    ensures AllAnswers(Fast, c, q, w)[x] == AnswerAt(Fast, c, q, w, x)
  {
  }

  lemma {:induction false} BlockRated(c: Config, q: Query, w: World, x: Slot)
    requires SlotIn(c, x)
    ensures x in Blocked(c, q, w) <==>
            NeedsTls(c, RouteListener(c, q, c.routes[x.route])) || !HasAvailable(c.routes[x.route].rules[x.rule], w)
  {
  }

  lemma {:induction false} EligiblePositive(rule: Rule)
    requires Eligible(rule)
    ensures Positive(rule)
  {
    WeightedRefsExact(rule.refs);
  }

  lemma {:induction false} RuleRated(plan: Plan, c: Config, q: Query, w: World, p: nat, k: nat)
    requires ListenersCompiled(plan, c) && p < |plan.routes| && RouteCompiled(plan.routes[p], c)
    requires k < |plan.routes[p].rules|
    requires RouteOpen(c, q, c.routes[plan.routes[p].routeIndex])
    ensures
      var route := c.routes[plan.routes[p].routeIndex];
      var x := ContextOf(plan, c, q, p, RouteListener(c, q, route), BestHostScore(route.hostnames, q.host).value);
      Rated(GoalOf(c, q, w), x, plan.routes[p].rules[k], q, w)
  {
    var i := plan.routes[p].routeIndex;
    var j := plan.routes[p].rules[k].ruleIndex;
    var rule := c.routes[i].rules[j];
    CompiledRuleAgrees(rule, j, q, w);
    EligiblePositive(rule);
    ScoreRated(c, q, w, Slot(i, j));
    BlockRated(c, q, w, Slot(i, j));
    if Slot(i, j) in Matching(Fast, c, q, w) {
      AnswerRated(c, q, w, Slot(i, j));
    }
  }

  ghost predicate AllHarmless(c: Config) { forall x :: SlotIn(c, x) ==> Harmless(c.routes[x.route].rules[x.rule]) }

  /** A matching rule is in the plan. */
  lemma {:induction false} MatchingIsCompiled(plan: Plan, c: Config, q: Query, w: World, x: Slot) returns (p: nat)
    requires Placed(plan, c, |c.routes|) && RoutesCompiled(plan, c, |c.routes|) && AllHarmless(c)
    requires Scored(Fast, c, q, w, x)
    ensures p < |plan.routes| && plan.routes[p].routeIndex == x.route
    ensures exists k :: 0 <= k < |plan.routes[p].rules| && plan.routes[p].rules[k].ruleIndex == x.rule
  {
    var rules := c.routes[x.route].rules;
    assert SlotIn(c, x);
    HarmlessEligible(rules[x.rule]);
    assert rules[x.rule] in rules;
    p := plan.planIndices[x.route].value;
    assert RouteCompiled(plan.routes[p], c);
  }

  lemma {:induction false} RouteCovered(plan: Plan, c: Config, q: Query, w: World, p: nat)
    requires PlanFor(plan, c) && AllHarmless(c) && p < |plan.routes|
    ensures Covered(GoalOf(c, q, w), plan.routes[p], |c.routes[plan.routes[p].routeIndex].rules|)
  {
    var route := plan.routes[p];
    assert RouteCompiled(route, c);
    forall at | at in Matching(Fast, c, q, w) && at.route == route.routeIndex
      ensures at.rule < |c.routes[at.route].rules|
      ensures exists k :: 0 <= k < |route.rules| && route.rules[k].ruleIndex == at.rule
    {
      var o := MatchingIsCompiled(plan, c, q, w, at);
    }
  }

  lemma {:induction false} RouteClosed(c: Config, q: Query, w: World, i: nat)
    requires i < |c.routes| && !RouteOpen(c, q, c.routes[i])
    ensures Gap(GoalOf(c, q, w), Slot(i, 0), Slot(i + 1, 0))
  {
    assert forall at :: at in Matching(Fast, c, q, w) ==> at.route != i;
  }

  /** All rules of a route are ready, and those after the last compiled one do not match. */
  ghost predicate AllRulesReady(g: Goal, x: Context, q: Query, w: World) {
    && (forall k :: 0 <= k < |x.route.rules| ==> RuleReady(g, x, q, w, k))
    && Gap(g, Slot(x.route.routeIndex, From(x.route, |x.route.rules|)), Slot(x.route.routeIndex + 1, 0))
  }

  /** The goal agrees with the compiled form of a route. */
  ghost predicate RouteReady(g: Goal, plan: Plan, c: Config, q: Query, w: World, p: nat) {
    && p < |plan.routes| && plan.routes[p].routeIndex < |c.routes| && |plan.listeners| == |c.listeners|
    && var i := plan.routes[p].routeIndex;
       var route := c.routes[i];
       if RouteOpen(c, q, route) then
         AllRulesReady(g, ContextOf(plan, c, q, p, RouteListener(c, q, route),
                                    BestHostScore(route.hostnames, q.host).value), q, w)
       else Gap(g, Slot(i, 0), Slot(i + 1, 0))
  }

  lemma {:induction false} RatedRulesReady(g: Goal, x: Context, q: Query, w: World, n: nat)
    requires Covered(g, x.route, n)
    requires forall k :: 0 <= k < |x.route.rules| ==> Rated(g, x, x.route.rules[k], q, w)
    ensures AllRulesReady(g, x, q, w)
  {
    forall k | 0 <= k < |x.route.rules| ensures RuleReady(g, x, q, w, k) {
      RuleGap(g, x.route, n, k);
    }
    RuleGap(g, x.route, n, |x.route.rules|);
  }

  lemma {:induction false} PlanReady(plan: Plan, c: Config, q: Query, w: World, p: nat)
    requires PlanFor(plan, c) && AllHarmless(c) && p < |plan.routes|
    ensures RouteReady(GoalOf(c, q, w), plan, c, q, w, p)
  {
    var i := plan.routes[p].routeIndex;
    var route := c.routes[i];
    if RouteOpen(c, q, route) {
      var x := ContextOf(plan, c, q, p, RouteListener(c, q, route), BestHostScore(route.hostnames, q.host).value);
      RouteCovered(plan, c, q, w, p);
      forall k | 0 <= k < |x.route.rules| ensures Rated(GoalOf(c, q, w), x, x.route.rules[k], q, w) {
        RuleRated(plan, c, q, w, p, k);
      }
      RatedRulesReady(GoalOf(c, q, w), x, q, w, |route.rules|);
    } else {
      RouteClosed(c, q, w, i);
    }
  }

  method VisitOpenRoute(x: Context, q: Query, w: World, best: Option<Best>, ghost g: Goal)
    returns (next: Option<Best>, proceed: bool)
    requires AllRulesReady(g, x, q, w) && Visited(g, Slot(x.route.routeIndex, 0), best)
    ensures proceed ==> Visited(g, Slot(x.route.routeIndex + 1, 0), next)
    ensures !proceed ==> Outcome(g.t, g.blocked, None)
  {
    next, proceed := VisitRules(x, q, w, best, g);
    if proceed {
      var i := x.route.routeIndex;
      SkipGap(g, Slot(i, From(x.route, |x.route.rules|)), Slot(i + 1, 0), next);
    }
  }

  /** All rules of one route; `m` is the listener it is served on. */
  method VisitRoute(plan: Plan, c: Config, q: Query, w: World, p: nat, m: Option<nat>, enforce: bool,
                    best: Option<Best>, ghost g: Goal)
    returns (next: Option<Best>, proceed: bool)
    requires RouteReady(g, plan, c, q, w, p)
    requires (enforce <==> Enforced(c, q.port)) && m == RouteListener(c, q, c.routes[plan.routes[p].routeIndex])
    requires Visited(g, Slot(plan.routes[p].routeIndex, 0), best)
    ensures proceed ==> Visited(g, Slot(plan.routes[p].routeIndex + 1, 0), next)
    ensures !proceed ==> Outcome(g.t, g.blocked, None)
  {
    var i := plan.routes[p].routeIndex;
    var route := c.routes[i];
    var hostScore := BestHostScore(route.hostnames, q.host);
    if (enforce && m.None?) || hostScore.None? {
      SkipGap(g, Slot(i, 0), Slot(i + 1, 0), best);
      return best, true;
    }
    next, proceed := VisitOpenRoute(ContextOf(plan, c, q, p, m, hostScore.value), q, w, best, g);
  }

  /** The routes visited are in order and cover the matching rules. */
  ghost predicate OrderCovers(g: Goal, n: nat, order: seq<nat>) {
    && StrictlyAscending(order)
    && (forall k :: 0 <= k < |order| ==> order[k] < n)
    && forall at :: at in g.t ==> exists k :: 0 <= k < |order| && order[k] == at.route
  }

  /** The end of the routes before the `k`-th visited one. */
  ghost function FromRoute(order: seq<nat>, k: nat): nat
    requires k <= |order|
  {
    if k == 0 then 0 else order[k - 1] + 1
  }

  /** The routes between two visited ones, or after the last one, have no matching rule. */
  ghost predicate OrderGap(g: Goal, n: nat, order: seq<nat>, k: nat) {
    k <= |order| && Gap(g, Slot(FromRoute(order, k), 0), Slot(if k < |order| then order[k] else n, 0))
  }

  lemma {:induction false} OrderGaps(g: Goal, n: nat, order: seq<nat>, k: nat)
    requires OrderCovers(g, n, order) && k <= |order|
    ensures OrderGap(g, n, order, k)
  {
  }

  /** The routes at some places of the plan. */
  ghost function RoutesAt(plan: Plan, order: seq<nat>): (r: seq<nat>)
    requires forall k :: 0 <= k < |order| ==> order[k] < |plan.routes|
    ensures |r| == |order| && forall k :: 0 <= k < |r| ==> r[k] == plan.routes[order[k]].routeIndex
  {
    seq(|order|, k requires 0 <= k < |order| => plan.routes[order[k]].routeIndex)
  }

  lemma {:induction false} CandidatesCover(plan: Plan, c: Config, q: Query, w: World, order: seq<nat>)
    requires PlanFor(plan, c) && AllHarmless(c)
    requires StrictlyAscending(order) && forall k :: 0 <= k < |order| ==> order[k] < |plan.routes|
    requires forall p: nat ::
               (p < |plan.routes| && BestHostScore(c.routes[plan.routes[p].routeIndex].hostnames, q.host).Some?) ==>
               p in order
    ensures OrderCovers(GoalOf(c, q, w), |c.routes|, RoutesAt(plan, order))
  {
    var routes := RoutesAt(plan, order);
    forall at | at in Matching(Fast, c, q, w) ensures exists k :: 0 <= k < |routes| && routes[k] == at.route {
      var p := MatchingIsCompiled(plan, c, q, w, at);
      assert p in order;
      var k :| 0 <= k < |order| && order[k] == p;
      assert routes[k] == at.route;
    }
  }

  /** What selecting through the plan comes to: nothing where the plan may not be used, and else the
      winning rule, unless a rule it takes on the way is blocked. No index and no plan is mentioned. */
  ghost predicate FastOutcome(s: Snapshot, request: Request, w: World, slot: Option<Slot>) {
    if !AllHarmless(s.config) || request.isGrpc || s.fullHeaders || s.sourceIp then slot == None
    else Outcome(Matching(Fast, s.config, QueryOf(request), w), Blocked(s.config, QueryOf(request), w), slot)
  }

  ghost predicate AnswersFor(mode: Mode, c: Config, q: Query, w: World, slot: Option<Slot>, answer: Option<Answer>) {
    match slot
    case None => answer == None
    case Some(x) => Scored(mode, c, q, w, x) && answer == Some(AnswerAt(mode, c, q, w, x))
  }

  lemma {:induction false} GoalBounded(c: Config, q: Query, w: World)
    ensures forall x :: (x in Matching(Fast, c, q, w) || x in Blocked(c, q, w)) ==> Before(x, Slot(|c.routes|, 0))
  {
  }

  method VisitNext(plan: Plan, c: Config, q: Query, w: World, p: nat, m: Option<nat>, enforce: bool,
                   best: Option<Best>, ghost g: Goal, ghost routes: seq<nat>, ghost k: nat)
    returns (next: Option<Best>, proceed: bool)
    requires k < |routes| && OrderGap(g, |c.routes|, routes, k)
    requires RouteReady(g, plan, c, q, w, p) && plan.routes[p].routeIndex == routes[k]
    requires (enforce <==> Enforced(c, q.port)) && m == RouteListener(c, q, c.routes[plan.routes[p].routeIndex])
    requires Visited(g, Slot(FromRoute(routes, k), 0), best)
    ensures proceed ==> Visited(g, Slot(FromRoute(routes, k + 1), 0), next)
    ensures !proceed ==> Outcome(g.t, g.blocked, None)
  {
    SkipGap(g, Slot(FromRoute(routes, k), 0), Slot(routes[k], 0), best);
    next, proceed := VisitRoute(plan, c, q, w, p, m, enforce, best, g);
  }

  method VisitPlace(plan: Plan, s: Snapshot, q: Query, w: World, top: seq<nat>, enforce: bool, p: nat,
                    best: Option<Best>, ghost g: Goal, ghost routes: seq<nat>, ghost k: nat)
    returns (next: Option<Best>, proceed: bool)
    requires s.ready ==> IndexesBuilt(s)
    requires enforce <==> Enforced(s.config, q.port)
    requires StrictlyAscending(top) && forall l: nat :: l in top <==> Top(s.config, q, l)
    requires k < |routes| && OrderGap(g, |s.config.routes|, routes, k)
    requires RouteReady(g, plan, s.config, q, w, p) && plan.routes[p].routeIndex == routes[k]
    requires Visited(g, Slot(FromRoute(routes, k), 0), best)
    ensures proceed ==> Visited(g, Slot(FromRoute(routes, k + 1), 0), next)
    ensures !proceed ==> Outcome(g.t, g.blocked, None)
  {
    var m := RouteListenerMatch(s, q, top, enforce, s.config.routes[plan.routes[p].routeIndex]);
    next, proceed := VisitNext(plan, s.config, q, w, p, m, enforce, best, g, routes, k);
  }

  /** The routes to visit are ready, and no rule between them matches. */
  ghost predicate OrderReady(g: Goal, plan: Plan, c: Config, q: Query, w: World, routes: seq<nat>) {
    && (forall p :: 0 <= p < |plan.routes| ==> RouteReady(g, plan, c, q, w, p))
    && forall k :: 0 <= k <= |routes| ==> OrderGap(g, |c.routes|, routes, k)
  }

  method VisitAll(plan: Plan, s: Snapshot, q: Query, w: World, top: seq<nat>, enforce: bool, order: seq<nat>,
                  ghost g: Goal, ghost routes: seq<nat>)
    returns (best: Option<Best>, proceed: bool)
    requires s.ready ==> IndexesBuilt(s)
    requires enforce <==> Enforced(s.config, q.port)
    requires StrictlyAscending(top) && forall l: nat :: l in top <==> Top(s.config, q, l)
    requires |routes| == |order| && OrderReady(g, plan, s.config, q, w, routes)
    requires forall k :: 0 <= k < |order| ==> order[k] < |plan.routes| && plan.routes[order[k]].routeIndex == routes[k]
    ensures proceed ==> Visited(g, Slot(|s.config.routes|, 0), best)
    ensures !proceed ==> Outcome(g.t, g.blocked, None)
  {
    best, proceed := None, true;
    for k := 0 to |order|
      invariant proceed && Visited(g, Slot(FromRoute(routes, k), 0), best)
    {
      best, proceed := VisitPlace(plan, s, q, w, top, enforce, order[k], best, g, routes, k);
      if !proceed {
        return;
      }
    }
    assert OrderGap(g, |s.config.routes|, routes, |routes|);
    SkipGap(g, Slot(FromRoute(routes, |routes|), 0), Slot(|s.config.routes|, 0), best);
  }

  lemma {:induction false} CandidatesReady(plan: Plan, c: Config, q: Query, w: World, order: seq<nat>)
    requires PlanFor(plan, c) && AllHarmless(c)
    requires StrictlyAscending(order) && forall k :: 0 <= k < |order| ==> order[k] < |plan.routes|
    requires forall p: nat ::
               (p < |plan.routes| && BestHostScore(c.routes[plan.routes[p].routeIndex].hostnames, q.host).Some?) ==>
               p in order
    ensures OrderReady(GoalOf(c, q, w), plan, c, q, w, RoutesAt(plan, order))
  {
    var g, routes := GoalOf(c, q, w), RoutesAt(plan, order);
    CandidatesCover(plan, c, q, w, order);
    forall p | 0 <= p < |plan.routes| ensures RouteReady(g, plan, c, q, w, p) {
      PlanReady(plan, c, q, w, p);
    }
    forall k | 0 <= k <= |routes| ensures OrderGap(g, |c.routes|, routes, k) {
      OrderGaps(g, |c.routes|, routes, k);
    }
  }

  /** When all routes have been visited, the best rule is the outcome. */
  lemma {:induction false} AllVisited(c: Config, q: Query, w: World, best: Option<Best>)
    requires Visited(GoalOf(c, q, w), Slot(|c.routes|, 0), best)
    ensures Outcome(Matching(Fast, c, q, w), Blocked(c, q, w), SlotOf(best))
    ensures AnswersFor(Fast, c, q, w, SlotOf(best), if best.Some? then Some(best.value.answer) else None)
  {
    GoalBounded(c, q, w);
    PassedAll(Matching(Fast, c, q, w), Blocked(c, q, w), Slot(|c.routes|, 0), SlotOf(best));
    if best.Some? {
      AnswerRated(c, q, w, best.value.slot);
    }
  }

  method Select(plan: Plan, s: Snapshot, request: Request, w: World)
    returns (answer: Option<Answer>, slot: Option<Slot>)
    requires PlanFor(plan, s.config) && (s.ready ==> IndexesBuilt(s))
    ensures FastOutcome(s, request, w, slot)
    ensures AnswersFor(Fast, s.config, QueryOf(request), w, slot, answer)
    ensures slot.Some? ==> HttpPrecedence.Answered(Fast, s.config, QueryOf(request), w, slot)
  {
    answer, slot := None, None;
    if !plan.safe || request.isGrpc || s.fullHeaders || s.sourceIp {
      return;
    }
    var q := QueryOf(request);
    var top, enforce := MatchedListeners(s, q);
    var order := CandidateRoutes(plan, s, q.host);
    CandidatesReady(plan, s.config, q, w, order);
    ghost var g := GoalOf(s.config, q, w);
    var best, proceed := VisitAll(plan, s, q, w, top, enforce, order, g, RoutesAt(plan, order));
    if proceed {
      AllVisited(s.config, q, w, best);
      if best.Some? {
        answer, slot := Some(best.value.answer), Some(best.value.slot);
        HttpPrecedence.ChosenIsAnswered(Fast, s.config, q, w, slot);
      }
    }
  }
}
