/**
 Selecting a stream backend for a listener: once through the compiled plan and the listener's list
 of attached routes, and once by scanning all routes.
 */
module StreamSelect {
  import opened Wrappers
  import opened Ranking
  import opened StreamRoutes
  import HttpFastPath

  // ------------------------------------------------------------------------------------------
  // The routes attached to a listener, by name
  // ------------------------------------------------------------------------------------------

  function FullName(route: Route): string { route.namespace + "/" + route.name }

  /** The routes of a full name among the first `n`. */
  function Named(routes: seq<Route>, name: string, n: nat): seq<nat>
    requires n <= |routes|
  {
    if n == 0 then []
    else Named(routes, name, n - 1) + (if FullName(routes[n - 1]) == name then [n - 1] else [])
  }

  /** The routes of the first `k` attached names, name after name. */
  function AttachedIndices(routes: seq<Route>, attached: seq<string>, k: nat): seq<nat>
    requires k <= |attached|
  {
    if k == 0 then []
    else AttachedIndices(routes, attached, k - 1) + Named(routes, attached[k - 1], |routes|)
  }

  function Own(c: Config, l: Listener): seq<nat> { AttachedIndices(c.routes, l.attachedRoutes, |l.attachedRoutes|) }

  /** What the index holds under a listener name: the last non-empty list of a listener so named. */
  ghost function Entry(c: Config, name: string, n: nat): Option<seq<nat>>
    requires n <= |c.listeners|
  {
    if n == 0 then None
    else if c.listeners[n - 1].name == name && Own(c, c.listeners[n - 1]) != [] then Some(Own(c, c.listeners[n - 1]))
    else Entry(c, name, n - 1)
  }

  type RouteIndex = map<string, seq<nat>>

  function Lookup(idx: RouteIndex, name: string): Option<seq<nat>> { if name in idx then Some(idx[name]) else None }

  function ListAt(idx: RouteIndex, name: string): seq<nat> { if name in idx then idx[name] else [] }

  method IndexRoutes(routes: seq<Route>) returns (idx: RouteIndex)
    ensures forall name :: ListAt(idx, name) == Named(routes, name, |routes|)
  {
    idx := map[];
    for i := 0 to |routes|
      invariant forall name :: ListAt(idx, name) == Named(routes, name, i)
    {
      var name := FullName(routes[i]);
      idx := idx[name := ListAt(idx, name) + [i]];
    }
  }

  method BuildListenerRouteIndex(c: Config) returns (idx: RouteIndex)
    ensures forall name :: Lookup(idx, name) == Entry(c, name, |c.listeners|)
  {
    var routeIndex := IndexRoutes(c.routes);
    idx := map[];
    for i := 0 to |c.listeners|
      invariant forall name :: Lookup(idx, name) == Entry(c, name, i)
    {
      var names := c.listeners[i].attachedRoutes;
      var attached := [];
      for k := 0 to |names|
        invariant attached == AttachedIndices(c.routes, names, k)
      {
        attached := attached + ListAt(routeIndex, names[k]);
      }
      if attached != [] {
        idx := idx[c.listeners[i].name := attached];
      }
    }
  }

  // ------------------------------------------------------------------------------------------
  // The plan
  // ------------------------------------------------------------------------------------------

  datatype CompiledRule = CompiledRule(ruleIndex: nat, refs: seq<HttpFastPath.CompiledRef>)

  type Plan = seq<Option<seq<CompiledRule>>>

  function CompileRules(rules: seq<Rule>, n: nat): seq<CompiledRule>
    requires n <= |rules|
  {
    if n == 0 then []
    else
      var rest := CompileRules(rules, n - 1);
      var refs := CompileRefs(rules[n - 1].refs);
      if refs == [] then rest else rest + [CompiledRule(n - 1, refs)]
  }

  function CompileRoute(route: Route): Option<seq<CompiledRule>> {
    var rules := CompileRules(route.rules, |route.rules|);
    if rules == [] then None else Some(rules)
  }

  ghost predicate PlanFor(plan: Plan, c: Config) {
    |plan| == |c.routes| && forall i {:trigger plan[i]} :: 0 <= i < |plan| ==> plan[i] == CompileRoute(c.routes[i])
  }

  method BuildPlan(c: Config) returns (plan: Plan)
    ensures PlanFor(plan, c)
  {
    plan := seq(|c.routes|, _ => None);
    for i := 0 to |c.routes|
      invariant |plan| == |c.routes|
      invariant forall k :: 0 <= k < i ==> plan[k] == CompileRoute(c.routes[k])
      invariant forall k :: i <= k < |plan| ==> plan[k] == None
    {
      var all := c.routes[i].rules;
      var rules: seq<CompiledRule> := [];
      for j := 0 to |all|
        invariant rules == CompileRules(all, j)
      {
        var refs := CompileRefs(all[j].refs);
        if refs != [] {
          rules := rules + [CompiledRule(j, refs)];
        }
      }
      if rules != [] {
        plan := plan[i := Some(rules)];
      }
    }
  }

  // ------------------------------------------------------------------------------------------
  // Selecting
  // ------------------------------------------------------------------------------------------

  datatype Selection = Routed(slot: Slot, backend: nat) | DefaultBackend(backend: nat)

  predicate CompiledVisits(c: Config, i: nat, kind: RouteKind) {
    i < |c.routes| && CompiledKind(c.routes[i].kind) == Some(kind)
  }

  predicate ScanVisits(c: Config, l: Listener, i: nat, kind: RouteKind) {
    i < |c.routes| && ScannedKind(c.routes[i].kind) == Some(kind) && FullName(c.routes[i]) in l.attachedRoutes
  }

  /** The routes of an index entry that the compiled selection visits, among the first `k`. */
  function CompiledOrder(c: Config, entry: seq<nat>, kind: RouteKind, k: nat): (r: seq<nat>)
    requires k <= |entry|
    ensures Within(r, |c.routes|)
  {
    if k == 0 then []
    else
      CompiledOrder(c, entry, kind, k - 1) + (if CompiledVisits(c, entry[k - 1], kind) then [entry[k - 1]] else [])
  }

  /** The routes that the scan visits, among the first `n`. */
  function ScanOrder(c: Config, l: Listener, kind: RouteKind, n: nat): (r: seq<nat>)
    requires n <= |c.routes|
    ensures Within(r, |c.routes|)
  {
    if n == 0 then []
    else ScanOrder(c, l, kind, n - 1) + (if ScanVisits(c, l, n - 1, kind) then [n - 1] else [])
  }

  ghost function CompiledVisit(c: Config, l: Listener, kind: RouteKind): (r: seq<nat>)
    ensures Within(r, |c.routes|)
  {
    match Entry(c, l.name, |c.listeners|)
    case Some(entry) => CompiledOrder(c, entry, kind, |entry|)
    case None => []
  }

  /** A candidate with the backend it leads to. */
  datatype Found = Found(candidate: Candidate, backend: nat)

  function CandidateOf(best: Option<Found>): Option<Candidate> {
    match best
    case Some(found) => Some(found.candidate)
    case None => None
  }

  /** `best` is the best of some candidates, with the backend of its rule. */
  ghost predicate BestOf(c: Config, resolve: Resolver, best: Option<Found>, cs: seq<Candidate>) {
    && CandidateOf(best) == Best(cs)
    && (best.Some? ==>
          && best.value.candidate.slot.route < |c.routes|
          && best.value.candidate.slot.rule < |c.routes[best.value.candidate.slot.route].rules|
          && resolve(CompileRefs(c.routes[best.value.candidate.slot.route].rules[best.value.candidate.slot.rule].refs))
             == Some(best.value.backend))
  }

  /** Visiting one more rule. */
  method TakeRule(c: Config, i: nat, j: nat, refs: seq<HttpFastPath.CompiledRef>, port: nat, conn: Connection,
                  resolve: Resolver, best: Option<Found>, ghost cs: seq<Candidate>)
    returns (next: Option<Found>, ghost now: seq<Candidate>)
    requires i < |c.routes| && j < |c.routes[i].rules| && refs == CompileRefs(c.routes[i].rules[j].refs)
    requires BestOf(c, resolve, best, cs)
    ensures now == cs + AsCandidate(Offer(c.routes[i].rules[j], port, conn, resolve), Slot(i, j))
    ensures BestOf(c, resolve, next, now)
  {
    next, now := best, cs + AsCandidate(Offer(c.routes[i].rules[j], port, conn, resolve), Slot(i, j));
    assert cs + [] == cs;
    var score := RuleMatchScore(c.routes[i].rules[j].matches, port, conn);
    if score.None? {
      return;
    }
    var candidate := Candidate(Slot(i, j), score.value);
    BestAppend(cs, candidate);
    if best.Some? && (HostLess(score.value, best.value.candidate.score) || score.value == best.value.candidate.score) {
      return;
    }
    var backend := resolve(refs);
    if backend.Some? {
      next := Some(Found(candidate, backend.value));
    }
  }

  lemma {:induction false} Grows(a: seq<Candidate>, b: seq<Candidate>, c: seq<Candidate>)
    ensures a + b + c == a + (b + c)
  {
  }

  /** The candidates of compiled rules of route `i`. */
  ghost function CompiledOffers(rules: seq<CompiledRule>, offers: seq<Option<HostScore>>, i: nat): seq<Candidate>
    requires forall m :: 0 <= m < |rules| ==> rules[m].ruleIndex < |offers|
  {
    if rules == [] then []
    else
      var last := rules[|rules| - 1];
      CompiledOffers(rules[..|rules| - 1], offers, i) + AsCandidate(offers[last.ruleIndex], Slot(i, last.ruleIndex))
  }

  lemma {:induction false} CompiledRulesExact(rules: seq<Rule>, n: nat)
    requires n <= |rules|
    ensures forall m :: 0 <= m < |CompileRules(rules, n)| ==>
              CompileRules(rules, n)[m].ruleIndex < n
              && CompileRules(rules, n)[m].refs == CompileRefs(rules[CompileRules(rules, n)[m].ruleIndex].refs)
  {
    if n > 0 {
      CompiledRulesExact(rules, n - 1);
    }
  }

  /** Leaving out the rules without a backend leaves out no candidate. */
  lemma {:induction false} CompiledOffersExact(rules: seq<Rule>, offers: seq<Option<HostScore>>, i: nat, n: nat)
    requires n <= |rules| && |offers| == |rules|
    requires forall j :: 0 <= j < |rules| && CompileRefs(rules[j].refs) == [] ==> offers[j] == None
    requires forall m :: 0 <= m < |CompileRules(rules, n)| ==> CompileRules(rules, n)[m].ruleIndex < |rules|
    ensures CompiledOffers(CompileRules(rules, n), offers, i) == RouteOffers(offers, i, n)
  {
    if n > 0 {
      CompiledRulesExact(rules, n - 1);
      CompiledOffersExact(rules, offers, i, n - 1);
      var refs := CompileRefs(rules[n - 1].refs);
      if refs != [] {
        var now := CompileRules(rules, n);
        assert now[..|now| - 1] == CompileRules(rules, n - 1);
      }
    }
  }

  lemma {:induction false} NoBackendNoOffer(rules: seq<Rule>, port: nat, conn: Connection, resolve: Resolver)
    requires resolve([]) == None
    ensures forall j :: 0 <= j < |rules| && CompileRefs(rules[j].refs) == [] ==>
              OffersOf(rules, port, conn, resolve)[j] == None
  {
  }

  method SelectCompiledRoute(c: Config, i: nat, rules: seq<CompiledRule>, port: nat, conn: Connection,
                             resolve: Resolver, best: Option<Found>, ghost cs: seq<Candidate>,
                             ghost offers: seq<Option<HostScore>>)
    returns (next: Option<Found>)
    requires i < |c.routes| && offers == OffersOf(c.routes[i].rules, port, conn, resolve)
    requires forall m :: 0 <= m < |rules| ==>
               rules[m].ruleIndex < |offers| && rules[m].refs == CompileRefs(c.routes[i].rules[rules[m].ruleIndex].refs)
    requires BestOf(c, resolve, best, cs)
    ensures BestOf(c, resolve, next, cs + CompiledOffers(rules, offers, i))
  {
    next := best;
    ghost var now := cs;
    for k := 0 to |rules|
      invariant now == cs + CompiledOffers(rules[..k], offers, i)
      invariant BestOf(c, resolve, next, now)
    {
      ghost var x := AsCandidate(offers[rules[k].ruleIndex], Slot(i, rules[k].ruleIndex));
      Grows(cs, CompiledOffers(rules[..k], offers, i), x);
      assert rules[..k + 1][..k] == rules[..k];
      next, now := TakeRule(c, i, rules[k].ruleIndex, rules[k].refs, port, conn, resolve, next, now);
    }
    assert rules[..|rules|] == rules;
  }

  method VisitCompiledRoute(c: Config, plan: Plan, i: nat, port: nat, conn: Connection, resolve: Resolver,
                            best: Option<Found>, ghost cs: seq<Candidate>)
    returns (next: Option<Found>)
    requires i < |c.routes| && PlanFor(plan, c) && resolve([]) == None
    requires BestOf(c, resolve, best, cs)
    ensures
      var offers := OffersOf(c.routes[i].rules, port, conn, resolve);
      BestOf(c, resolve, next, cs + RouteOffers(offers, i, |offers|))
  {
    ghost var all := c.routes[i].rules;
    ghost var offers := OffersOf(all, port, conn, resolve);
    NoBackendNoOffer(all, port, conn, resolve);
    CompiledRulesExact(all, |all|);
    CompiledOffersExact(all, offers, i, |all|);
    if plan[i].Some? {
      next := SelectCompiledRoute(c, i, plan[i].value, port, conn, resolve, best, cs, offers);
    } else {
      assert cs + [] == cs;
      next := best;
    }
  }

  lemma {:induction false} OffersStep(board: Board, order: seq<nat>, i: nat)
    requires Within(order, |board|) && i < |board|
    ensures Within(order + [i], |board|)
    ensures Offers(board, order + [i]) == Offers(board, order) + RouteOffers(board[i], i, |board[i]|)
  {
    assert (order + [i])[..|order|] == order;
  }

  lemma {:induction false} CompiledStep(c: Config, entry: seq<nat>, kind: RouteKind, k: nat, board: Board)
    requires k < |entry| && |board| == |c.routes|
    ensures
      var i := entry[k];
      var before := Offers(board, CompiledOrder(c, entry, kind, k));
      Offers(board, CompiledOrder(c, entry, kind, k + 1)) ==
        if CompiledVisits(c, i, kind) then before + RouteOffers(board[i], i, |board[i]|) else before
  {
    var order := CompiledOrder(c, entry, kind, k);
    if CompiledVisits(c, entry[k], kind) {
      OffersStep(board, order, entry[k]);
    } else {
      assert CompiledOrder(c, entry, kind, k + 1) == order;
    }
  }

  lemma {:induction false} ScanStep(c: Config, l: Listener, kind: RouteKind, i: nat, board: Board)
    requires i < |c.routes| && |board| == |c.routes|
    ensures
      var before := Offers(board, ScanOrder(c, l, kind, i));
      Offers(board, ScanOrder(c, l, kind, i + 1)) ==
        if ScanVisits(c, l, i, kind) then before + RouteOffers(board[i], i, |board[i]|) else before
  {
    var order := ScanOrder(c, l, kind, i);
    if ScanVisits(c, l, i, kind) {
      OffersStep(board, order, i);
    } else {
      assert ScanOrder(c, l, kind, i + 1) == order;
    }
  }

  method VisitEntry(c: Config, plan: Plan, i: nat, kind: RouteKind, port: nat, conn: Connection, resolve: Resolver,
                    best: Option<Found>, ghost cs: seq<Candidate>, ghost board: Board)
    returns (next: Option<Found>, ghost now: seq<Candidate>)
    requires PlanFor(plan, c) && resolve([]) == None && board == BoardOf(c, port, conn, resolve)
    requires BestOf(c, resolve, best, cs)
    ensures BestOf(c, resolve, next, now)
    ensures now == if CompiledVisits(c, i, kind) then cs + RouteOffers(board[i], i, |board[i]|) else cs
  {
    next, now := best, cs;
    if CompiledVisits(c, i, kind) {
      next := VisitCompiledRoute(c, plan, i, port, conn, resolve, best, cs);
      now := cs + RouteOffers(board[i], i, |board[i]|);
    }
  }

  method SelectFrom(c: Config, plan: Plan, entry: seq<nat>, kind: RouteKind, port: nat, conn: Connection,
                    resolve: Resolver)
    returns (best: Option<Found>)
    requires PlanFor(plan, c) && resolve([]) == None
    ensures BestOf(c, resolve, best, Offers(BoardOf(c, port, conn, resolve), CompiledOrder(c, entry, kind, |entry|)))
  {
    best := None;
    ghost var board := BoardOf(c, port, conn, resolve);
    ghost var cs: seq<Candidate> := [];
    for k := 0 to |entry|
      invariant cs == Offers(board, CompiledOrder(c, entry, kind, k))
      invariant BestOf(c, resolve, best, cs)
    {
      CompiledStep(c, entry, kind, k, board);
      best, cs := VisitEntry(c, plan, entry[k], kind, port, conn, resolve, best, cs, board);
    }
  }

  method SelectCompiled(c: Config, plan: Plan, idx: RouteIndex, l: Listener, kind: RouteKind, conn: Connection,
                        resolve: Resolver)
    returns (best: Option<Found>)
    requires PlanFor(plan, c) && Lookup(idx, l.name) == Entry(c, l.name, |c.listeners|)
    requires resolve([]) == None
    ensures BestOf(c, resolve, best, Offers(BoardOf(c, l.port, conn, resolve), CompiledVisit(c, l, kind)))
  {
    if l.name !in idx {
      return None;
    }
    best := SelectFrom(c, plan, idx[l.name], kind, l.port, conn, resolve);
  }

  method TakeScannedRule(c: Config, i: nat, j: nat, port: nat, conn: Connection, resolve: Resolver,
                         best: Option<Found>, ghost cs: seq<Candidate>)
    returns (next: Option<Found>, ghost now: seq<Candidate>)
    requires i < |c.routes| && j < |c.routes[i].rules| && BestOf(c, resolve, best, cs)
    ensures now == cs + AsCandidate(Offer(c.routes[i].rules[j], port, conn, resolve), Slot(i, j))
    ensures BestOf(c, resolve, next, now)
  {
    next, now := TakeRule(c, i, j, CompileRefs(c.routes[i].rules[j].refs), port, conn, resolve, best, cs);
  }

  method SelectScannedRoute(c: Config, i: nat, port: nat, conn: Connection, resolve: Resolver, best: Option<Found>,
                            ghost cs: seq<Candidate>)
    returns (next: Option<Found>)
    requires i < |c.routes| && BestOf(c, resolve, best, cs)
    ensures
      var offers := OffersOf(c.routes[i].rules, port, conn, resolve);
      BestOf(c, resolve, next, cs + RouteOffers(offers, i, |offers|))
  {
    var rules := c.routes[i].rules;
    ghost var offers := OffersOf(rules, port, conn, resolve);
    next := best;
    ghost var now := cs;
    for j := 0 to |rules|
      invariant now == cs + RouteOffers(offers, i, j)
      invariant BestOf(c, resolve, next, now)
    {
      Grows(cs, RouteOffers(offers, i, j), AsCandidate(offers[j], Slot(i, j)));
      next, now := TakeScannedRule(c, i, j, port, conn, resolve, next, now);
    }
  }

  method VisitScanned(c: Config, l: Listener, i: nat, kind: RouteKind, conn: Connection, resolve: Resolver,
                      best: Option<Found>, ghost cs: seq<Candidate>, ghost board: Board)
    returns (next: Option<Found>, ghost now: seq<Candidate>)
    requires board == BoardOf(c, l.port, conn, resolve) && BestOf(c, resolve, best, cs)
    ensures BestOf(c, resolve, next, now)
    ensures now == if ScanVisits(c, l, i, kind) then cs + RouteOffers(board[i], i, |board[i]|) else cs
  {
    next, now := best, cs;
    if ScanVisits(c, l, i, kind) {
      next := SelectScannedRoute(c, i, l.port, conn, resolve, best, cs);
      now := cs + RouteOffers(board[i], i, |board[i]|);
    }
  }

  method SelectScanned(c: Config, l: Listener, kind: RouteKind, conn: Connection, resolve: Resolver)
    returns (best: Option<Found>)
    ensures BestOf(c, resolve, best, Offers(BoardOf(c, l.port, conn, resolve), ScanOrder(c, l, kind, |c.routes|)))
  {
    best := None;
    ghost var board := BoardOf(c, l.port, conn, resolve);
    ghost var cs: seq<Candidate> := [];
    for i := 0 to |c.routes|
      invariant cs == Offers(board, ScanOrder(c, l, kind, i))
      invariant BestOf(c, resolve, best, cs)
    {
      ScanStep(c, l, kind, i, board);
      best, cs := VisitScanned(c, l, i, kind, conn, resolve, best, cs, board);
    }
  }

  /** The backend a rule leads to. */
  ghost function BackendAt(c: Config, x: Slot, resolve: Resolver): Option<nat> {
    if x.route < |c.routes| && x.rule < |c.routes[x.route].rules|
    then resolve(CompileRefs(c.routes[x.route].rules[x.rule].refs))
    else None
  }

  /** What visiting some routes in some order comes to for a connection. */
  ghost predicate Gives(c: Config, order: seq<nat>, l: Listener, kind: RouteKind, conn: Connection, resolve: Resolver,
                        allowDefault: bool, fallback: Option<nat>, r: Option<Selection>)
    requires Within(order, |c.routes|)
  {
    if ListenerKind(l.protocol) != Some(kind) then r == None
    else
      match Best(Offers(BoardOf(c, l.port, conn, resolve), order))
      case Some(x) =>
        && r.Some? && r.value.Routed? && r.value.slot == x.slot
        && BackendAt(c, x.slot, resolve) == Some(r.value.backend)
      case None => r == if allowDefault && fallback.Some? then Some(DefaultBackend(fallback.value)) else None
  }

  /** `fallback` is the default backend of the listener, if it has one. */
  method SelectForListener(c: Config, ready: bool, plan: Plan, idx: RouteIndex, l: Listener, kind: RouteKind,
                           conn: Connection, resolve: Resolver, allowDefault: bool, fallback: Option<nat>)
    returns (r: Option<Selection>)
    requires ready ==> PlanFor(plan, c) && Lookup(idx, l.name) == Entry(c, l.name, |c.listeners|)
    requires resolve([]) == None
    ensures Gives(c, if ready then CompiledVisit(c, l, kind) else ScanOrder(c, l, kind, |c.routes|),
                  l, kind, conn, resolve, allowDefault, fallback, r)
  {
    if ListenerKind(l.protocol) != Some(kind) {
      return None;
    }
    var best: Option<Found>;
    if ready {
      best := SelectCompiled(c, plan, idx, l, kind, conn, resolve);
    } else {
      best := SelectScanned(c, l, kind, conn, resolve);
    }
    if best.Some? {
      return Some(Routed(best.value.candidate.slot, best.value.backend));
    }
    r := if allowDefault && fallback.Some? then Some(DefaultBackend(fallback.value)) else None;
  }
}
