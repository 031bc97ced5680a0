/**
 The generic HTTP selection, which the compiled one stands in for, and the agreement of the two.
 */
module HttpSelection {
  import opened Wrappers
  import opened Sorted
  import opened Ranking
  import opened HttpRoutes
  import opened HttpCandidates
  import opened HttpFastPath
  import HostnameIndex
  import HttpIndexes
  import HttpPrecedence

  /** Everything that is rebuilt when a configuration arrives. */
  method RebuildIndexes(c: Config, fullHeaders: bool, sourceIp: bool) returns (s: Snapshot, plan: Plan)
    ensures s.config == c && s.ready && IndexesBuilt(s)
    ensures PlanFor(plan, c)
  {
    var ports := HttpIndexes.BuildPortIndex(c.listeners);
    var hosts := HostnameIndex.Build(Hostnames(c.routes));
    var attachments := HttpIndexes.FromListeners(c.listeners);
    plan := Build(c);
    s := Snapshot(c, true, hosts, ports, attachments, fullHeaders, sourceIp);
  }

  // ------------------------------------------------------------------------------------------
  // Selecting
  // ------------------------------------------------------------------------------------------

  /** The generic selection never gives up. */
  ghost function GenericGoal(c: Config, q: Query, w: World): Goal {
    Goal(Matching(Generic, c, q, w), iset{}, AllAnswers(Generic, c, q, w))
  }

  /** What is known of a route before its rules are visited. */
  datatype RouteContext = RouteContext(index: nat, route: Route, listener: Option<Listener>,
                                       listenerScore: HostScore, hostScore: HostScore)

  function GenericAnswer(x: RouteContext, rule: nat, path: PathMatch): Answer {
    Answer(x.route.name, x.route.namespace, rule,
           if x.listener.Some? then x.listener.value.name else "",
           if x.listener.Some? then x.listener.value.protocol else "", path)
  }

  /** The goal says of a rule what matching and resolving it give. */
  ghost predicate RuleMeets(g: Goal, x: RouteContext, j: nat, q: Query, w: World)
    requires j < |x.route.rules|
  {
    var at := Slot(x.index, j);
    var matched := RuleMatch(Generic, x.route.rules[j], q, w);
    && at !in g.blocked
    && (at in g.t <==> matched.Some? && TakesPart(Generic, x.route.rules[j], w))
    && (at in g.t ==> g.t[at] == Score(x.listenerScore, x.hostScore, matched.value.1))
    && (at in g.t ==> at in g.answers && g.answers[at] == GenericAnswer(x, j, matched.value.0))
  }

  method TakeRule(x: RouteContext, j: nat, q: Query, w: World, best: Option<Best>, ghost g: Goal)
    returns (next: Option<Best>)
    requires j < |x.route.rules| && RuleMeets(g, x, j, q, w)
    requires Visited(g, Slot(x.index, j), best)
    ensures Visited(g, Slot(x.index, j + 1), next)
  {
    next := best;
    var rule := x.route.rules[j];
    PassedStep(g.t, g.blocked, Slot(x.index, j), SlotOf(best));
    var matched := RuleMatch(Generic, rule, q, w);
    if matched.None? {
      return;
    }
    if Resolve(rule, w).Nothing? && !exists f | f in rule.filters :: f.nonBackend {
      return;
    }
    var score := Score(x.listenerScore, x.hostScore, matched.value.1);
    if best.Some? && (Less(score, best.value.score) || score == best.value.score) {
      return;
    }
    next := Some(Best(Slot(x.index, j), score, GenericAnswer(x, j, matched.value.0)));
  }

  method RankRules(x: RouteContext, q: Query, w: World, best: Option<Best>, ghost g: Goal) returns (next: Option<Best>)
    requires forall j :: 0 <= j < |x.route.rules| ==> RuleMeets(g, x, j, q, w)
    requires forall at :: at in g.t && at.route == x.index ==> at.rule < |x.route.rules|
    requires Visited(g, Slot(x.index, 0), best)
    ensures Visited(g, Slot(x.index + 1, 0), next)
  {
    next := best;
    for j := 0 to |x.route.rules|
      invariant Visited(g, Slot(x.index, j), next)
    {
      next := TakeRule(x, j, q, w, next, g);
    }
    PassedSkip(g.t, g.blocked, Slot(x.index, |x.route.rules|), Slot(x.index + 1, 0), SlotOf(next));
  }

  function ContextFor(c: Config, q: Query, i: nat, m: Option<nat>, hostScore: HostScore): RouteContext
    requires i < |c.routes| && (m.Some? ==> m.value < |c.listeners| && ScoreFor(c, q.host, m.value).Some?)
  {
    RouteContext(i, c.routes[i], if m.Some? then Some(c.listeners[m.value]) else None,
                 if m.Some? then ScoreFor(c, q.host, m.value).value else NO_HOST, hostScore)
  }

  ghost predicate RouteMeets(g: Goal, c: Config, q: Query, w: World, i: nat)
    requires i < |c.routes|
  {
    var route := c.routes[i];
    && (forall at :: at in g.t && at.route == i ==> RouteOpen(c, q, route) && at.rule < |route.rules|)
    && (RouteOpen(c, q, route) ==>
          var x := ContextFor(c, q, i, RouteListener(c, q, route), BestHostScore(route.hostnames, q.host).value);
          forall j :: 0 <= j < |route.rules| ==> RuleMeets(g, x, j, q, w))
  }

  lemma {:induction false} GoalMeets(c: Config, q: Query, w: World, i: nat)
    requires i < |c.routes|
    ensures RouteMeets(GenericGoal(c, q, w), c, q, w, i)
  {
    var route := c.routes[i];
    if RouteOpen(c, q, route) {
      var x := ContextFor(c, q, i, RouteListener(c, q, route), BestHostScore(route.hostnames, q.host).value);
      forall j | 0 <= j < |route.rules| ensures RuleMeets(GenericGoal(c, q, w), x, j, q, w) {
        assert Scored(Generic, c, q, w, Slot(i, j)) <==>
          RuleMatch(Generic, route.rules[j], q, w).Some? && TakesPart(Generic, route.rules[j], w);
      }
    }
  }

  method RankRoute(s: Snapshot, q: Query, w: World, i: nat, top: seq<nat>, enforce: bool, best: Option<Best>,
                    ghost g: Goal)
    returns (next: Option<Best>)
    requires s.ready ==> IndexesBuilt(s)
    requires enforce <==> Enforced(s.config, q.port)
    requires StrictlyAscending(top) && forall l: nat :: l in top <==> Top(s.config, q, l)
    requires i < |s.config.routes| && RouteMeets(g, s.config, q, w, i)
    requires Visited(g, Slot(i, 0), best)
    ensures Visited(g, Slot(i + 1, 0), next)
  {
    var route := s.config.routes[i];
    var m := RouteListenerMatch(s, q, top, enforce, route);
    var hostScore := BestHostScore(route.hostnames, q.host);
    if (enforce && m.None?) || hostScore.None? {
      PassedSkip(g.t, g.blocked, Slot(i, 0), Slot(i + 1, 0), SlotOf(best));
      return best;
    }
    next := RankRules(ContextFor(s.config, q, i, m, hostScore.value), q, w, best, g);
  }

  /** The routes to visit: all of them, or those the hostname index leads to. */
  method CandidateRoutes(s: Snapshot, host: Option<string>) returns (order: seq<nat>)
    requires s.ready ==> IndexesBuilt(s)
    ensures StrictlyAscending(order) && forall i: nat :: i in order ==> i < |s.config.routes|
    ensures forall i: nat ::
              (i < |s.config.routes| && BestHostScore(s.config.routes[i].hostnames, host).Some?) ==> i in order
  {
    var routes := s.config.routes;
    if !s.ready {
      order := seq(|routes|, i => i);
      forall i: nat | i < |routes| ensures i in order {
        assert order[i] == i;
      }
      return;
    }
    order := HostnameIndex.CandidateIndices(s.hosts, Hostnames(routes), host);
    forall i: nat | i < |routes| && BestHostScore(routes[i].hostnames, host).Some? ensures i in order {
      HostScoreCovered(routes[i].hostnames, host);
    }
  }

  method RankNext(s: Snapshot, q: Query, w: World, top: seq<nat>, enforce: bool, order: seq<nat>, k: nat,
                   best: Option<Best>, ghost g: Goal)
    returns (next: Option<Best>)
    requires s.ready ==> IndexesBuilt(s)
    requires enforce <==> Enforced(s.config, q.port)
    requires StrictlyAscending(top) && forall l: nat :: l in top <==> Top(s.config, q, l)
    requires k < |order| && OrderGap(g, |s.config.routes|, order, k)
    requires order[k] < |s.config.routes| && RouteMeets(g, s.config, q, w, order[k])
    requires Visited(g, Slot(FromRoute(order, k), 0), best)
    ensures Visited(g, Slot(FromRoute(order, k + 1), 0), next)
  {
    SkipGap(g, Slot(FromRoute(order, k), 0), Slot(order[k], 0), best);
    next := RankRoute(s, q, w, order[k], top, enforce, best, g);
  }

  method RankAll(s: Snapshot, q: Query, w: World, top: seq<nat>, enforce: bool, order: seq<nat>, ghost g: Goal)
    returns (best: Option<Best>)
    requires s.ready ==> IndexesBuilt(s)
    requires enforce <==> Enforced(s.config, q.port)
    requires StrictlyAscending(top) && forall l: nat :: l in top <==> Top(s.config, q, l)
    requires forall k :: 0 <= k < |order| ==> order[k] < |s.config.routes|
    requires forall k :: 0 <= k <= |order| ==> OrderGap(g, |s.config.routes|, order, k)
    requires forall i :: 0 <= i < |s.config.routes| ==> RouteMeets(g, s.config, q, w, i)
    ensures Visited(g, Slot(|s.config.routes|, 0), best)
  {
    best := None;
    for k := 0 to |order|
      invariant Visited(g, Slot(FromRoute(order, k), 0), best)
    {
      best := RankNext(s, q, w, top, enforce, order, k, best, g);
    }
    assert OrderGap(g, |s.config.routes|, order, |order|);
    SkipGap(g, Slot(FromRoute(order, |order|), 0), Slot(|s.config.routes|, 0), best);
  }

  lemma {:induction false} VisitCovers(c: Config, q: Query, w: World, order: seq<nat>)
    requires StrictlyAscending(order) && forall i: nat :: i in order ==> i < |c.routes|
    requires forall i: nat :: (i < |c.routes| && BestHostScore(c.routes[i].hostnames, q.host).Some?) ==> i in order
    ensures OrderCovers(GenericGoal(c, q, w), |c.routes|, order)
  {
    assert forall k :: 0 <= k < |order| ==> order[k] in order;
    forall at | at in Matching(Generic, c, q, w) ensures exists k :: 0 <= k < |order| && order[k] == at.route {
      assert at.route in order;
    }
  }

  lemma {:induction false} VisitMeets(c: Config, q: Query, w: World, order: seq<nat>)
    requires StrictlyAscending(order) && forall i: nat :: i in order ==> i < |c.routes|
    requires forall i: nat :: (i < |c.routes| && BestHostScore(c.routes[i].hostnames, q.host).Some?) ==> i in order
    ensures forall k :: 0 <= k < |order| ==> order[k] < |c.routes|
    ensures forall k :: 0 <= k <= |order| ==> OrderGap(GenericGoal(c, q, w), |c.routes|, order, k)
    ensures forall i :: 0 <= i < |c.routes| ==> RouteMeets(GenericGoal(c, q, w), c, q, w, i)
  {
    var g := GenericGoal(c, q, w);
    VisitCovers(c, q, w, order);
    forall k | 0 <= k <= |order| ensures OrderGap(g, |c.routes|, order, k) {
      OrderGaps(g, |c.routes|, order, k);
    }
    forall i | 0 <= i < |c.routes| ensures RouteMeets(g, c, q, w, i) {
      GoalMeets(c, q, w, i);
    }
  }

  /** The generic selection picks the winning rule, if any rule matches. */
  method Select(s: Snapshot, q: Query, w: World) returns (answer: Option<Answer>, slot: Option<Slot>)
    requires s.ready ==> IndexesBuilt(s)
    ensures Chosen(Matching(Generic, s.config, q, w), slot)
    ensures AnswersFor(Generic, s.config, q, w, slot, answer)
    ensures HttpPrecedence.Answered(Generic, s.config, q, w, slot)
  {
    answer, slot := None, None;
    var c := s.config;
    HttpPrecedence.ChosenIsAnswered(Generic, c, q, w, None);
    ghost var g := GenericGoal(c, q, w);
    var top, enforce := MatchedListeners(s, q);
    if enforce && top == [] {
      return;
    }
    var order := CandidateRoutes(s, q.host);
    VisitMeets(c, q, w, order);
    var best := RankAll(s, q, w, top, enforce, order, g);
    assert forall x :: x in g.t ==> Before(x, Slot(|c.routes|, 0));
    if best.Some? {
      answer, slot := Some(best.value.answer), Some(best.value.slot);
      HttpPrecedence.ChosenIsAnswered(Generic, c, q, w, slot);
    }
  }

  // ------------------------------------------------------------------------------------------
  // Agreement
  // ------------------------------------------------------------------------------------------

  /** The regular expressions are compiled, except those that are none. */
  ghost predicate RegexReady(m: Match, w: World) {
    m.pathType == "RegularExpression" ==> m.compiled || forall text :: !w.regex(m.path, text)
  }

  ghost predicate Prepared(c: Config, w: World) {
    forall x :: SlotIn(c, x) ==> forall m :: m in c.routes[x.route].rules[x.rule].matches ==> RegexReady(m, w)
  }

  lemma {:induction false} BestMatchAgrees(matches: seq<Match>, q: Query, w: World)
    requires forall m :: m in matches ==> SafeMatch(m) && RegexReady(m, w)
    ensures BestMatch(Fast, matches, q, w) == BestMatch(Generic, matches, q, w)
  {
    forall i | 0 <= i < |matches|
      ensures MatchScores(Fast, matches, q, w)[i] == MatchScores(Generic, matches, q, w)[i]
    {
      assert matches[i] in matches;
    }
    assert MatchScores(Fast, matches, q, w) == MatchScores(Generic, matches, q, w);
  }

  lemma {:induction false} RuleAgrees(rule: Rule, q: Query, w: World)
    requires Harmless(rule) && forall m :: m in rule.matches ==> RegexReady(m, w)
    ensures RuleMatch(Fast, rule, q, w) == RuleMatch(Generic, rule, q, w)
    ensures TakesPart(Fast, rule, w) <==> TakesPart(Generic, rule, w)
  {
    BestMatchAgrees(rule.matches, q, w);
  }

  lemma {:induction false} SlotAgrees(c: Config, q: Query, w: World, x: Slot)
    requires AllHarmless(c) && Prepared(c, w)
    ensures Scored(Fast, c, q, w, x) <==> Scored(Generic, c, q, w, x)
    ensures Scored(Fast, c, q, w, x) ==>
      && ScoreOf(Fast, c, q, w, x) == ScoreOf(Generic, c, q, w, x)
      && AnswerAt(Fast, c, q, w, x) == AnswerAt(Generic, c, q, w, x)
  {
    if SlotIn(c, x) {
      RuleAgrees(c.routes[x.route].rules[x.rule], q, w);
    }
  }

  /** On a configuration that the plan may serve, both selections rank the same rules alike. */
  lemma {:induction false} MatchingAgrees(c: Config, q: Query, w: World)
    requires AllHarmless(c) && Prepared(c, w)
    ensures Matching(Fast, c, q, w) == Matching(Generic, c, q, w)
  {
    forall x ensures Scored(Fast, c, q, w, x) <==> Scored(Generic, c, q, w, x)
             ensures Scored(Fast, c, q, w, x) ==> ScoreOf(Fast, c, q, w, x) == ScoreOf(Generic, c, q, w, x)
    {
      SlotAgrees(c, q, w, x);
    }
  }

  /** An answer of the compiled selection is the answer of the generic one: the same route, rule,
      listener and path, with a backend to send the request to. */
  lemma {:induction false} FastIsGeneric(s: Snapshot, request: Request, w: World, fast: Option<Slot>,
                                         generic: Option<Slot>, a: Option<Answer>, b: Option<Answer>)
    requires Prepared(s.config, w)
    requires FastOutcome(s, request, w, fast) && AnswersFor(Fast, s.config, QueryOf(request), w, fast, a)
    requires Chosen(Matching(Generic, s.config, QueryOf(request), w), generic)
    requires AnswersFor(Generic, s.config, QueryOf(request), w, generic, b)
    ensures a.Some? ==> a == b && fast == generic
    ensures a.Some? ==> Resolve(s.config.routes[fast.value.route].rules[fast.value.rule], w).Selected?
  {
    if fast.Some? {
      var q := QueryOf(request);
      MatchingAgrees(s.config, q, w);
      ChosenUnique(Matching(Fast, s.config, q, w), fast, generic);
      SlotAgrees(s.config, q, w, fast.value);
      WinnerIsRecord(Matching(Fast, s.config, q, w), fast.value);
      BlockRated(s.config, q, w, fast.value);
    }
  }

  lemma {:induction false} WinnerIsRecord(t: Table, x: Slot)
    requires Wins(t, x)
    ensures Record(t, x)
  {
    forall y | y in t && Before(y, x) ensures Less(t[y], t[x]) {
      assert Beats(t, x, y);
    }
  }

  /** Both selections on one request. */
  method SelectBoth(plan: Plan, s: Snapshot, request: Request, w: World)
    returns (fast: Option<Answer>, generic: Option<Answer>)
    requires PlanFor(plan, s.config) && Prepared(s.config, w) && (s.ready ==> IndexesBuilt(s))
    ensures fast.Some? ==> fast == generic
  {
    ghost var x, y;
    fast, x := HttpFastPath.Select(plan, s, request, w);
    generic, y := Select(s, QueryOf(request), w);
    FastIsGeneric(s, request, w, x, y, fast, generic);
  }

  /** The compiled selection gives the same outcome with its indexes and without them. */
  method SelectUnindexed(plan: Plan, s: Snapshot, request: Request, w: World)
    returns (indexed: Option<Answer>, scanned: Option<Answer>)
    requires PlanFor(plan, s.config) && IndexesBuilt(s)
    ensures indexed == scanned
  {
    ghost var x, y;
    indexed, x := HttpFastPath.Select(plan, s.(ready := true), request, w);
    scanned, y := HttpFastPath.Select(plan, s.(ready := false), request, w);
    var q := QueryOf(request);
    if AllHarmless(s.config) && !request.isGrpc && !s.fullHeaders && !s.sourceIp {
      OutcomeUnique(Matching(Fast, s.config, q, w), Blocked(s.config, q, w), x, y);
    }
  }
}
