/** When the compiled stream selection and the scan agree. */
module StreamAgreement {
  import opened Wrappers
  import opened Sorted
  import opened Ranking
  import opened StreamRoutes
  import opened StreamSelect
  import HttpRoutes
  import HttpFastPath

  // ------------------------------------------------------------------------------------------
  // Candidates as a set
  // ------------------------------------------------------------------------------------------

  ghost predicate Offered(board: Board, x: Candidate) {
    x.slot.route < |board| && x.slot.rule < |board[x.slot.route]| && board[x.slot.route][x.slot.rule] == Some(x.score)
  }

  lemma {:induction false} RouteOffersExact(offers: seq<Option<HostScore>>, i: nat, n: nat)
    requires n <= |offers|
    ensures forall x :: x in RouteOffers(offers, i, n) <==>
              x.slot.route == i && x.slot.rule < n && offers[x.slot.rule] == Some(x.score)
  {
    if n > 0 {
      RouteOffersExact(offers, i, n - 1);
      var before, last := RouteOffers(offers, i, n - 1), AsCandidate(offers[n - 1], Slot(i, n - 1));
      assert forall x :: x in before + last <==> x in before || x in last;
    }
  }

  lemma {:induction false} OffersExact(board: Board, order: seq<nat>)
    requires Within(order, |board|)
    ensures forall x :: x in Offers(board, order) <==> x.slot.route in order && Offered(board, x)
  {
    if order != [] {
      var n := |order| - 1;
      var i := order[n];
      OffersExact(board, order[..n]);
      RouteOffersExact(board[i], i, |board[i]|);
      var before, last := Offers(board, order[..n]), RouteOffers(board[i], i, |board[i]|);
      assert order == order[..n] + [i];
      assert forall x :: x in before + last <==> x in before || x in last;
    }
  }

  lemma {:induction false} ScanOrderExact(c: Config, l: Listener, kind: RouteKind, n: nat)
    requires n <= |c.routes|
    ensures StrictlyAscending(ScanOrder(c, l, kind, n))
    ensures forall i: nat :: i in ScanOrder(c, l, kind, n) <==> i < n && ScanVisits(c, l, i, kind)
  {
    if n > 0 {
      ScanOrderExact(c, l, kind, n - 1);
      AppendStrictly(ScanOrder(c, l, kind, n - 1), n - 1);
      if !ScanVisits(c, l, n - 1, kind) {
        assert ScanOrder(c, l, kind, n) == ScanOrder(c, l, kind, n - 1);
      }
    }
  }

  // ------------------------------------------------------------------------------------------
  // Agreement on every board
  // ------------------------------------------------------------------------------------------

  /** A route visited for the first time comes after all routes visited before. */
  ghost predicate FirstsInOrder(visit: seq<nat>) {
    visit == [] || (
      var before, last := visit[..|visit| - 1], visit[|visit| - 1];
      FirstsInOrder(before) && (last in before || forall j :: j in before ==> j < last))
  }

  /** The visit without repetitions. */
  function Firsts(visit: seq<nat>): (r: seq<nat>)
    ensures forall i :: i in r <==> i in visit
  {
    if visit == [] then []
    else
      var n := |visit| - 1;
      assert visit == visit[..n] + [visit[n]];
      if visit[n] in visit[..n] then Firsts(visit[..n]) else Firsts(visit[..n]) + [visit[n]]
  }

  lemma {:induction false} FirstsAscend(visit: seq<nat>)
    requires FirstsInOrder(visit)
    ensures StrictlyAscending(Firsts(visit))
  {
    if visit != [] {
      var n := |visit| - 1;
      FirstsAscend(visit[..n]);
      if visit[n] !in visit[..n] {
        AppendStrictly(Firsts(visit[..n]), visit[n]);
      }
    }
  }

  /** What is added does no better than what is there. */
  lemma {:induction false} NothingNew(cs: seq<Candidate>, ds: seq<Candidate>)
    requires forall x :: x in ds ==> x in cs
    ensures Best(cs + ds) == Best(cs)
  {
    if ds == [] {
      assert cs + ds == cs;
    } else {
      var n := |ds| - 1;
      assert ds == ds[..n] + [ds[n]];
      assert ds[n] in cs;
      NothingNew(cs, ds[..n]);
      assert cs + ds == cs + ds[..n] + [ds[n]];
      BestAppend(cs + ds[..n], ds[n]);
      var p := BestExact(cs);
      var k :| 0 <= k < |cs| && cs[k] == ds[n];
      assert !HostLess(cs[p].score, cs[k].score);
    }
  }

  lemma {:induction false} BestExtends(a: seq<Candidate>, b: seq<Candidate>, ds: seq<Candidate>)
    requires Best(a) == Best(b)
    ensures Best(a + ds) == Best(b + ds)
  {
    if ds == [] {
      assert a + ds == a && b + ds == b;
    } else {
      var n := |ds| - 1;
      BestExtends(a, b, ds[..n]);
      assert a + ds == a + ds[..n] + [ds[n]] && b + ds == b + ds[..n] + [ds[n]];
      BestAppend(a + ds[..n], ds[n]);
      BestAppend(b + ds[..n], ds[n]);
    }
  }

  lemma {:induction false} VisitedAgain(board: Board, visit: seq<nat>, i: nat)
    requires Within(visit, |board|) && i in visit && i < |board|
    ensures Best(Offers(board, visit) + RouteOffers(board[i], i, |board[i]|)) == Best(Offers(board, visit))
  {
    OffersExact(board, visit);
    RouteOffersExact(board[i], i, |board[i]|);
    NothingNew(Offers(board, visit), RouteOffers(board[i], i, |board[i]|));
  }

  lemma {:induction false} WithinMembers(visit: seq<nat>, part: seq<nat>, n: nat)
    requires Within(visit, n) && forall i :: i in part ==> i in visit
    ensures Within(part, n)
  {
    assert forall k :: 0 <= k < |part| ==> part[k] in part;
  }

  /** Visiting a route again changes nothing. */
  lemma {:induction false} RepetitionsDoNotMatter(board: Board, visit: seq<nat>)
    requires Within(visit, |board|)
    ensures Within(Firsts(visit), |board|)
    ensures Best(Offers(board, visit)) == Best(Offers(board, Firsts(visit)))
  {
    WithinMembers(visit, Firsts(visit), |board|);
    if visit != [] {
      var before, i := visit[..|visit| - 1], visit[|visit| - 1];
      RepetitionsDoNotMatter(board, before);
      if i in before {
        VisitedAgain(board, before, i);
      } else {
        OffersStep(board, Firsts(before), i);
        BestExtends(Offers(board, before), Offers(board, Firsts(before)), RouteOffers(board[i], i, |board[i]|));
      }
    }
  }

  /** One visit has the routes of the other, and sees them first in ascending order. */
  ghost predicate Aligned(visit: seq<nat>, scan: seq<nat>) {
    FirstsInOrder(visit) && forall i :: i in visit <==> i in scan
  }

  lemma {:induction false} AlignedVisitsAgree(board: Board, visit: seq<nat>, scan: seq<nat>)
    requires Within(visit, |board|) && Within(scan, |board|) && StrictlyAscending(scan) && Aligned(visit, scan)
    ensures Best(Offers(board, visit)) == Best(Offers(board, scan))
  {
    FirstsAscend(visit);
    AscendingUnique(Firsts(visit), scan);
    RepetitionsDoNotMatter(board, visit);
  }

  /** The first marked route of a visit. */
  function FirstIn(visit: seq<nat>, marks: set<nat>): (r: Option<nat>)
    ensures r.Some? ==> r.value in visit && r.value in marks
    ensures r.None? ==> forall i :: i in visit ==> i !in marks
  {
    if visit == [] then None
    else
      var n := |visit| - 1;
      var before := FirstIn(visit[..n], marks);
      assert visit == visit[..n] + [visit[n]];
      if before.Some? then before else if visit[n] in marks then Some(visit[n]) else None
  }

  lemma {:induction false} FirstInPrefix(visit: seq<nat>, k: nat, marks: set<nat>)
    requires k <= |visit| && FirstIn(visit[..k], marks).Some?
    ensures FirstIn(visit, marks) == FirstIn(visit[..k], marks)
  {
    if k == |visit| {
      assert visit[..k] == visit;
    } else {
      var n := |visit| - 1;
      assert visit[..n][..k] == visit[..k];
      FirstInPrefix(visit[..n], k, marks);
    }
  }

  /** Of two routes, the first one visited. */
  lemma {:induction false} FirstOfTwo(visit: seq<nat>, p: nat, other: nat)
    requires p < |visit| && other !in visit[..p]
    ensures FirstIn(visit, {visit[p], other}) == Some(visit[p])
  {
    var marks := {visit[p], other};
    var upto := visit[..p + 1];
    assert upto[..p] == visit[..p] && upto[p] == visit[p];
    assert FirstIn(upto, marks) == Some(visit[p]);
    FirstInPrefix(visit, p + 1, marks);
  }

  /** The first marked route is the same, whatever is marked. */
  ghost predicate SameFirsts(visit: seq<nat>, scan: seq<nat>) {
    forall marks {:trigger FirstIn(visit, marks)} :: FirstIn(visit, marks) == FirstIn(scan, marks)
  }

  lemma {:induction false} SameFirstsSameRoutes(visit: seq<nat>, scan: seq<nat>, i: nat)
    requires SameFirsts(visit, scan)
    ensures i in visit <==> i in scan
  {
    assert FirstIn(visit, {i}) == FirstIn(scan, {i});
    assert i in {i};
  }

  /** A route visited before another is the smaller one. */
  lemma {:induction false} EarlierIsSmaller(visit: seq<nat>, scan: seq<nat>, p: nat, later: nat)
    requires StrictlyAscending(scan) && SameFirsts(visit, scan)
    requires p < |visit| && later in visit && later !in visit[..p + 1]
    ensures visit[p] < later
  {
    var early := visit[p];
    assert visit[..p + 1] == visit[..p] + [early];
    FirstOfTwo(visit, p, later);
    SameFirstsSameRoutes(visit, scan, later);
    var k :| 0 <= k < |scan| && scan[k] == later;
    assert {later, early} == {early, later};
    assert FirstIn(visit, {early, later}) == FirstIn(scan, {early, later});
    if early !in scan[..k] {
      FirstOfTwo(scan, k, early);
    }
  }

  lemma {:induction false} SameFirstsInOrder(visit: seq<nat>, scan: seq<nat>, k: nat)
    requires StrictlyAscending(scan) && SameFirsts(visit, scan) && k <= |visit|
    ensures FirstsInOrder(visit[..k])
  {
    if k > 0 {
      SameFirstsInOrder(visit, scan, k - 1);
      var before, last := visit[..k - 1], visit[k - 1];
      assert visit[..k][..k - 1] == before;
      if last !in before {
        forall j | j in before ensures j < last {
          var p :| 0 <= p < k - 1 && before[p] == j;
          assert visit[..p + 1] == before[..p + 1];
          EarlierIsSmaller(visit, scan, p, last);
        }
      }
    }
  }

  lemma {:induction false} SameFirstsAligned(visit: seq<nat>, scan: seq<nat>)
    requires StrictlyAscending(scan) && SameFirsts(visit, scan)
    ensures Aligned(visit, scan)
  {
    forall i: nat ensures i in visit <==> i in scan {
      SameFirstsSameRoutes(visit, scan, i);
    }
    SameFirstsInOrder(visit, scan, |visit|);
    assert visit[..|visit|] == visit;
  }

  /** A board on which the marked routes make one and the same offer and the others none. */
  function Marked(n: nat, marks: set<nat>): (r: Board)
    ensures |r| == n && forall i :: 0 <= i < n ==> r[i] == if i in marks then [Some(HostScore(0, 0))] else []
  {
    seq(n, i requires 0 <= i < n => if i in marks then [Some(HostScore(0, 0))] else [])
  }

  function PlainCandidate(route: Option<nat>): Option<Candidate> {
    match route
    case Some(i) => Some(Candidate(Slot(i, 0), HostScore(0, 0)))
    case None => None
  }

  lemma {:induction false} MarkedOffers(board: Board, i: nat)
    requires i < |board|
    ensures board[i] == [Some(HostScore(0, 0))] ==>
              RouteOffers(board[i], i, |board[i]|) == [Candidate(Slot(i, 0), HostScore(0, 0))]
    ensures board[i] == [] ==> RouteOffers(board[i], i, |board[i]|) == []
  {
    if board[i] != [] {
      assert RouteOffers(board[i], i, 0) == [];
    }
  }

  lemma {:induction false} MarkedBest(n: nat, marks: set<nat>, order: seq<nat>)
    requires Within(order, n)
    ensures Best(Offers(Marked(n, marks), order)) == PlainCandidate(FirstIn(order, marks))
  {
    if order != [] {
      var before, i := order[..|order| - 1], order[|order| - 1];
      var offers := Offers(Marked(n, marks), before);
      MarkedBest(n, marks, before);
      MarkedOffers(Marked(n, marks), i);
      BestAppend(offers, Candidate(Slot(i, 0), HostScore(0, 0)));
      assert offers + [] == offers;
    }
  }

  ghost predicate AgreeOn(board: Board, visit: seq<nat>, scan: seq<nat>)
    requires Within(visit, |board|) && Within(scan, |board|)
  {
    Best(Offers(board, visit)) == Best(Offers(board, scan))
  }

  /** A visit finds the rule that an ascending visit finds, whatever the rules offer, if and only if
      it has the same routes and sees each new one after all others so far. */
  lemma {:induction false} AgreeIff(n: nat, visit: seq<nat>, scan: seq<nat>)
    requires Within(visit, n) && Within(scan, n) && StrictlyAscending(scan)
    ensures (forall board: Board :: |board| == n ==> AgreeOn(board, visit, scan)) <==> Aligned(visit, scan)
  {
    if Aligned(visit, scan) {
      forall board: Board | |board| == n ensures AgreeOn(board, visit, scan) {
        AlignedVisitsAgree(board, visit, scan);
      }
    }
    if forall board: Board :: |board| == n ==> AgreeOn(board, visit, scan) {
      forall marks ensures FirstIn(visit, marks) == FirstIn(scan, marks) {
        assert AgreeOn(Marked(n, marks), visit, scan);
        MarkedBest(n, marks, visit);
        MarkedBest(n, marks, scan);
      }
      SameFirstsAligned(visit, scan);
    }
  }

  // ------------------------------------------------------------------------------------------
  // The visits depend on names, kinds and attachments only
  // ------------------------------------------------------------------------------------------

  /** The configuration with other rules. */
  function WithRules(c: Config, rules: seq<seq<Rule>>): (d: Config)
    requires |rules| == |c.routes|
    ensures d.listeners == c.listeners && |d.routes| == |c.routes|
    ensures forall i :: 0 <= i < |c.routes| ==> d.routes[i] == c.routes[i].(rules := rules[i])
  {
    Config(c.listeners, seq(|c.routes|, i requires 0 <= i < |c.routes| => c.routes[i].(rules := rules[i])))
  }

  lemma {:induction false} SameNamed(c: Config, rules: seq<seq<Rule>>, name: string, n: nat)
    requires |rules| == |c.routes| && n <= |c.routes|
    ensures Named(WithRules(c, rules).routes, name, n) == Named(c.routes, name, n)
  {
    if n > 0 {
      SameNamed(c, rules, name, n - 1);
    }
  }

  lemma {:induction false} SameAttached(c: Config, rules: seq<seq<Rule>>, attached: seq<string>, k: nat)
    requires |rules| == |c.routes| && k <= |attached|
    ensures AttachedIndices(WithRules(c, rules).routes, attached, k) == AttachedIndices(c.routes, attached, k)
  {
    if k > 0 {
      SameAttached(c, rules, attached, k - 1);
      SameNamed(c, rules, attached[k - 1], |c.routes|);
    }
  }

  lemma {:induction false} SameEntry(c: Config, rules: seq<seq<Rule>>, name: string, n: nat)
    requires |rules| == |c.routes| && n <= |c.listeners|
    ensures Entry(WithRules(c, rules), name, n) == Entry(c, name, n)
  {
    if n > 0 {
      SameEntry(c, rules, name, n - 1);
      var attached := c.listeners[n - 1].attachedRoutes;
      SameAttached(c, rules, attached, |attached|);
    }
  }

  lemma {:induction false} SameCompiledOrder(c: Config, rules: seq<seq<Rule>>, entry: seq<nat>, kind: RouteKind, k: nat)
    requires |rules| == |c.routes| && k <= |entry|
    ensures CompiledOrder(WithRules(c, rules), entry, kind, k) == CompiledOrder(c, entry, kind, k)
  {
    if k > 0 {
      SameCompiledOrder(c, rules, entry, kind, k - 1);
    }
  }

  lemma {:induction false} SameScanOrder(c: Config, rules: seq<seq<Rule>>, l: Listener, kind: RouteKind, n: nat)
    requires |rules| == |c.routes| && n <= |c.routes|
    ensures ScanOrder(WithRules(c, rules), l, kind, n) == ScanOrder(c, l, kind, n)
  {
    if n > 0 {
      SameScanOrder(c, rules, l, kind, n - 1);
    }
  }

  lemma {:induction false} SameVisits(c: Config, rules: seq<seq<Rule>>, l: Listener, kind: RouteKind)
    requires |rules| == |c.routes|
    ensures CompiledVisit(WithRules(c, rules), l, kind) == CompiledVisit(c, l, kind)
    ensures ScanOrder(WithRules(c, rules), l, kind, |c.routes|) == ScanOrder(c, l, kind, |c.routes|)
  {
    SameScanOrder(c, rules, l, kind, |c.routes|);
    SameEntry(c, rules, l.name, |c.listeners|);
    match Entry(c, l.name, |c.listeners|)
    case Some(entry) => SameCompiledOrder(c, rules, entry, kind, |entry|);
    case None =>
  }

  // ------------------------------------------------------------------------------------------
  // Agreement for every connection
  // ------------------------------------------------------------------------------------------

  /** Compiled selection and scan give one answer, backend and default included. */
  ghost predicate SameAnswers(c: Config, l: Listener, kind: RouteKind, conn: Connection, resolve: Resolver,
                              allowDefault: bool, fallback: Option<nat>)
  {
    forall r, t ::
      && Gives(c, CompiledVisit(c, l, kind), l, kind, conn, resolve, allowDefault, fallback, r)
      && Gives(c, ScanOrder(c, l, kind, |c.routes|), l, kind, conn, resolve, allowDefault, fallback, t)
      ==> r == t
  }

  /** They do so whatever the rules of the routes, the connection and the backends. */
  ghost predicate AlwaysAgree(c: Config, l: Listener, kind: RouteKind) {
    forall rules, conn, resolve: Resolver, allowDefault, fallback :: |rules| == |c.routes| && resolve([]) == None ==>
      SameAnswers(WithRules(c, rules), l, kind, conn, resolve, allowDefault, fallback)
  }

  lemma {:induction false} AlignedAnswersAgree(c: Config, l: Listener, kind: RouteKind, conn: Connection,
                                               resolve: Resolver, allowDefault: bool, fallback: Option<nat>)
    requires Aligned(CompiledVisit(c, l, kind), ScanOrder(c, l, kind, |c.routes|))
    ensures SameAnswers(c, l, kind, conn, resolve, allowDefault, fallback)
  {
    ScanOrderExact(c, l, kind, |c.routes|);
    AlignedVisitsAgree(BoardOf(c, l.port, conn, resolve), CompiledVisit(c, l, kind), ScanOrder(c, l, kind, |c.routes|));
  }

  /** A rule that matches every connection. */
  const CATCH_ALL := Rule([], [HttpRoutes.BackendRef(1, true, Some(0), true)])

  function FirstCluster(refs: seq<HttpFastPath.CompiledRef>): Option<nat> {
    if refs == [] then None else Some(refs[0].cluster)
  }

  const ANYONE := Connection(None, None)

  lemma {:induction false} CatchAllOffers(port: nat)
    ensures OffersOf([CATCH_ALL], port, ANYONE, FirstCluster) == [Some(HostScore(0, 0))]
    ensures FirstCluster(CompileRefs(CATCH_ALL.refs)) == Some(0)
  {
    assert CompileRefs(CATCH_ALL.refs) == [HttpFastPath.CompiledRef(0, 1)] + CompileRefs([]);
  }

  /** The marked routes match every connection, the others none. */
  function MarkedRules(n: nat, marks: set<nat>): (r: seq<seq<Rule>>)
    ensures |r| == n && forall i :: 0 <= i < n ==> r[i] == if i in marks then [CATCH_ALL] else []
  {
    seq(n, i requires 0 <= i < n => if i in marks then [CATCH_ALL] else [])
  }

  lemma {:induction false} MarkedRulesOffer(c: Config, port: nat, marks: set<nat>)
    ensures BoardOf(WithRules(c, MarkedRules(|c.routes|, marks)), port, ANYONE, FirstCluster)
         == Marked(|c.routes|, marks)
  {
    CatchAllOffers(port);
  }

  function PlainAnswer(route: Option<nat>): Option<Selection> {
    match route
    case Some(i) => Some(Routed(Slot(i, 0), 0))
    case None => None
  }

  /** On such rules a visit finds its first marked route. */
  lemma {:induction false} MarkedAnswer(c: Config, l: Listener, kind: RouteKind, marks: set<nat>, order: seq<nat>)
    requires ListenerKind(l.protocol) == Some(kind) && Within(order, |c.routes|)
    ensures Gives(WithRules(c, MarkedRules(|c.routes|, marks)), order, l, kind, ANYONE, FirstCluster, false, None,
                  PlainAnswer(FirstIn(order, marks)))
  {
    MarkedRulesOffer(c, l.port, marks);
    MarkedBest(|c.routes|, marks, order);
    CatchAllOffers(l.port);
    assert forall i :: i in order ==> i < |c.routes|;
  }

  lemma {:induction false} AlignedAlwaysAgrees(c: Config, l: Listener, kind: RouteKind)
    requires Aligned(CompiledVisit(c, l, kind), ScanOrder(c, l, kind, |c.routes|))
    ensures AlwaysAgree(c, l, kind)
  {
    forall rules, conn, resolve: Resolver, allowDefault, fallback | |rules| == |c.routes| && resolve([]) == None
      ensures SameAnswers(WithRules(c, rules), l, kind, conn, resolve, allowDefault, fallback)
    {
      SameVisits(c, rules, l, kind);
      AlignedAnswersAgree(WithRules(c, rules), l, kind, conn, resolve, allowDefault, fallback);
    }
  }

  lemma {:induction false} AgreeFor(c: Config, l: Listener, kind: RouteKind, rules: seq<seq<Rule>>, conn: Connection,
                                    resolve: Resolver)
    requires AlwaysAgree(c, l, kind) && |rules| == |c.routes| && resolve([]) == None
    ensures SameAnswers(WithRules(c, rules), l, kind, conn, resolve, false, None)
  {
  }

  lemma {:induction false} OneAnswer(c: Config, visit: seq<nat>, scan: seq<nat>, l: Listener, kind: RouteKind,
                                     r: Option<Selection>, t: Option<Selection>)
    requires visit == CompiledVisit(c, l, kind) && scan == ScanOrder(c, l, kind, |c.routes|)
    requires SameAnswers(c, l, kind, ANYONE, FirstCluster, false, None)
    requires Gives(c, visit, l, kind, ANYONE, FirstCluster, false, None, r)
    requires Gives(c, scan, l, kind, ANYONE, FirstCluster, false, None, t)
    ensures r == t
  {
  }

  lemma {:induction false} AlwaysAgreeSameFirst(c: Config, l: Listener, kind: RouteKind, marks: set<nat>)
    requires ListenerKind(l.protocol) == Some(kind) && AlwaysAgree(c, l, kind)
    ensures FirstIn(CompiledVisit(c, l, kind), marks) == FirstIn(ScanOrder(c, l, kind, |c.routes|), marks)
  {
    var d := WithRules(c, MarkedRules(|c.routes|, marks));
    var visit, scan := CompiledVisit(c, l, kind), ScanOrder(c, l, kind, |c.routes|);
    SameVisits(c, MarkedRules(|c.routes|, marks), l, kind);
    AgreeFor(c, l, kind, MarkedRules(|c.routes|, marks), ANYONE, FirstCluster);
    MarkedAnswer(c, l, kind, marks, visit);
    MarkedAnswer(c, l, kind, marks, scan);
    OneAnswer(d, visit, scan, l, kind, PlainAnswer(FirstIn(visit, marks)), PlainAnswer(FirstIn(scan, marks)));
  }

  lemma {:induction false} AlwaysAgreeAligned(c: Config, l: Listener, kind: RouteKind)
    requires ListenerKind(l.protocol) == Some(kind) && AlwaysAgree(c, l, kind)
    ensures Aligned(CompiledVisit(c, l, kind), ScanOrder(c, l, kind, |c.routes|))
  {
    forall marks
      ensures FirstIn(CompiledVisit(c, l, kind), marks) == FirstIn(ScanOrder(c, l, kind, |c.routes|), marks)
    {
      AlwaysAgreeSameFirst(c, l, kind, marks);
    }
    ScanOrderExact(c, l, kind, |c.routes|);
    SameFirstsAligned(CompiledVisit(c, l, kind), ScanOrder(c, l, kind, |c.routes|));
  }

  lemma {:induction false} AlwaysAgreeIffAligned(c: Config, l: Listener, kind: RouteKind)
    requires ListenerKind(l.protocol) == Some(kind)
    ensures AlwaysAgree(c, l, kind) <==> Aligned(CompiledVisit(c, l, kind), ScanOrder(c, l, kind, |c.routes|))
  {
    if AlwaysAgree(c, l, kind) {
      AlwaysAgreeAligned(c, l, kind);
    } else if Aligned(CompiledVisit(c, l, kind), ScanOrder(c, l, kind, |c.routes|)) {
      AlignedAlwaysAgrees(c, l, kind);
    }
  }

  lemma {:induction false} OtherKindAgrees(c: Config, l: Listener, kind: RouteKind)
    requires ListenerKind(l.protocol) != Some(kind)
    ensures AlwaysAgree(c, l, kind)
  {
    forall rules, conn, resolve: Resolver, allowDefault, fallback | |rules| == |c.routes| && resolve([]) == None
      ensures SameAnswers(WithRules(c, rules), l, kind, conn, resolve, allowDefault, fallback)
    {
    }
  }

  /** The exact condition, on the names, kinds and attachments of a configuration alone: both give
      the same answer for all rules, connections and backends if and only if the listener is of
      another kind, or the routes of its index entry that the compiled selection visits are the
      attached routes of the kind, and each new one comes after all visited before. */
  lemma {:induction false} SelectionsAgreeIff(c: Config, l: Listener, kind: RouteKind)
    ensures AlwaysAgree(c, l, kind) <==>
            || ListenerKind(l.protocol) != Some(kind)
            || (&& FirstsInOrder(CompiledVisit(c, l, kind))
                && forall i: nat :: i in CompiledVisit(c, l, kind) <==> ScanVisits(c, l, i, kind))
  {
    if ListenerKind(l.protocol) == Some(kind) {
      AlwaysAgreeIffAligned(c, l, kind);
      ScanOrderExact(c, l, kind, |c.routes|);
    } else {
      OtherKindAgrees(c, l, kind);
    }
  }

  // ------------------------------------------------------------------------------------------
  // A condition on the attachments of one listener
  // ------------------------------------------------------------------------------------------

  lemma {:induction false} NamedExact(routes: seq<Route>, name: string, n: nat)
    requires n <= |routes|
    ensures forall i: nat :: i in Named(routes, name, n) <==> i < n && FullName(routes[i]) == name
  {
    if n > 0 {
      NamedExact(routes, name, n - 1);
    }
  }

  lemma {:induction false} AttachedExact(routes: seq<Route>, attached: seq<string>, k: nat)
    requires k <= |attached|
    ensures forall i: nat ::
              i in AttachedIndices(routes, attached, k) <==> i < |routes| && FullName(routes[i]) in attached[..k]
  {
    if k > 0 {
      AttachedExact(routes, attached, k - 1);
      NamedExact(routes, attached[k - 1], |routes|);
      assert attached[..k] == attached[..k - 1] + [attached[k - 1]];
    }
  }

  lemma {:induction false} CompiledOrderExact(c: Config, entry: seq<nat>, kind: RouteKind, k: nat)
    requires k <= |entry|
    ensures forall i: nat :: i in CompiledOrder(c, entry, kind, k) <==> i in entry[..k] && CompiledVisits(c, i, kind)
    ensures FirstsInOrder(entry[..k]) ==> FirstsInOrder(CompiledOrder(c, entry, kind, k))
  {
    if k > 0 {
      CompiledOrderExact(c, entry, kind, k - 1);
      assert entry[..k] == entry[..k - 1] + [entry[k - 1]] && entry[..k][..k - 1] == entry[..k - 1];
      var before := CompiledOrder(c, entry, kind, k - 1);
      assert (before + [entry[k - 1]])[..|before|] == before && before + [] == before;
    }
  }

  /** The index holds the listener's own routes under its name. */
  ghost predicate OwnsEntry(c: Config, l: Listener) {
    Entry(c, l.name, |c.listeners|) == if Own(c, l) == [] then None else Some(Own(c, l))
  }

  lemma {:induction false} UniqueNameOwnsEntry(c: Config, k: nat, n: nat)
    requires k < |c.listeners| && n <= |c.listeners|
    requires forall m :: 0 <= m < |c.listeners| && m != k ==> c.listeners[m].name != c.listeners[k].name
    ensures
      var own := Own(c, c.listeners[k]);
      Entry(c, c.listeners[k].name, n) == if k < n && own != [] then Some(own) else None
  {
    if n > 0 {
      UniqueNameOwnsEntry(c, k, n - 1);
    }
  }

  /** The listener owns its entry, a route attached for the first time comes after all those attached
      before, and none has a kind that only the compiled selection understands. */
  ghost predicate InOrder(c: Config, l: Listener, kind: RouteKind) {
    && OwnsEntry(c, l)
    && FirstsInOrder(Own(c, l))
    && forall i :: i in Own(c, l) && CompiledVisits(c, i, kind) ==> ScannedKind(c.routes[i].kind) == Some(kind)
  }

  /** A kind for which there are stream listeners is understood by the compiled selection. */
  lemma {:induction false} ScannedKindsCompile(protocol: string, spelling: string)
    requires ListenerKind(protocol).Some? && ScannedKind(spelling) == ListenerKind(protocol)
    ensures CompiledKind(spelling) == ScannedKind(spelling)
  {
  }

  lemma {:induction false} OwnExact(c: Config, l: Listener, kind: RouteKind, i: nat)
    requires InOrder(c, l, kind) && ListenerKind(l.protocol) == Some(kind)
    ensures i in Own(c, l) && CompiledVisits(c, i, kind) <==> ScanVisits(c, l, i, kind)
  {
    AttachedExact(c.routes, l.attachedRoutes, |l.attachedRoutes|);
    assert l.attachedRoutes[..|l.attachedRoutes|] == l.attachedRoutes;
    if ScanVisits(c, l, i, kind) {
      ScannedKindsCompile(l.protocol, c.routes[i].kind);
    }
  }

  /** Such a listener gets the same answer from both, whatever the rules, connection and backends. */
  lemma {:induction false} InOrderAgrees(c: Config, l: Listener, kind: RouteKind)
    requires InOrder(c, l, kind)
    ensures AlwaysAgree(c, l, kind)
  {
    var own := Own(c, l);
    CompiledOrderExact(c, own, kind, |own|);
    assert own[..|own|] == own;
    if ListenerKind(l.protocol) == Some(kind) {
      forall i: nat ensures i in CompiledVisit(c, l, kind) <==> ScanVisits(c, l, i, kind) {
        OwnExact(c, l, kind, i);
      }
    }
    SelectionsAgreeIff(c, l, kind);
  }

  // ------------------------------------------------------------------------------------------
  // Disagreement
  // ------------------------------------------------------------------------------------------

  function Plain(name: string, kind: string): Route { Route("n", name, kind, [CATCH_ALL]) }

  function FirstNats(n: nat): (r: set<nat>)
    ensures forall i: nat :: i in r <==> i < n
  {
    if n == 0 then {} else FirstNats(n - 1) + {n - 1}
  }

  function FirstOf(order: seq<nat>): Option<nat> { if order == [] then None else Some(order[0]) }

  /** Where every route matches every connection, the first route visited is found. */
  lemma {:induction false} FoundFirst(c: Config, order: seq<nat>, port: nat)
    requires forall i :: 0 <= i < |c.routes| ==> c.routes[i].rules == [CATCH_ALL]
    requires Within(order, |c.routes|)
    ensures Best(Offers(BoardOf(c, port, ANYONE, FirstCluster), order)) == PlainCandidate(FirstOf(order))
  {
    var n := |c.routes|;
    var marks := FirstNats(n);
    CatchAllOffers(port);
    assert BoardOf(c, port, ANYONE, FirstCluster) == Marked(n, marks);
    MarkedBest(n, marks, order);
    if order != [] {
      assert order[..1][..0] == [] && order[..1][0] == order[0];
      assert FirstIn(order[..1], marks) == Some(order[0]);
      FirstInPrefix(order, 1, marks);
    }
  }

  /** The answers of the compiled selection and of the scan on a TCP listener. */
  ghost predicate Answers(c: Config, l: Listener, compiled: Option<nat>, scanned: Option<nat>) {
    && Gives(c, CompiledVisit(c, l, Tcp), l, Tcp, ANYONE, FirstCluster, false, None, PlainAnswer(compiled))
    && Gives(c, ScanOrder(c, l, Tcp, |c.routes|), l, Tcp, ANYONE, FirstCluster, false, None, PlainAnswer(scanned))
  }

  lemma {:induction false} FirstAnswered(c: Config, l: Listener, order: seq<nat>)
    requires ListenerKind(l.protocol) == Some(Tcp) && Within(order, |c.routes|)
    requires forall i :: 0 <= i < |c.routes| ==> c.routes[i].rules == [CATCH_ALL]
    ensures Gives(c, order, l, Tcp, ANYONE, FirstCluster, false, None, PlainAnswer(FirstOf(order)))
  {
    FoundFirst(c, order, l.port);
    CatchAllOffers(l.port);
  }

  lemma {:induction false} AnswersFirst(c: Config, l: Listener)
    requires ListenerKind(l.protocol) == Some(Tcp)
    requires forall i :: 0 <= i < |c.routes| ==> c.routes[i].rules == [CATCH_ALL]
    ensures Answers(c, l, FirstOf(CompiledVisit(c, l, Tcp)), FirstOf(ScanOrder(c, l, Tcp, |c.routes|)))
  {
    FirstAnswered(c, l, CompiledVisit(c, l, Tcp));
    FirstAnswered(c, l, ScanOrder(c, l, Tcp, |c.routes|));
  }

  /** Two routes of equal rank, attached in the other order. */
  lemma {:induction false} AttachmentOrderDisagrees()
    ensures
      var l := Listener("l", "TCP", 1, ["n/b", "n/a"]);
      var c := Config([l], [Plain("a", "TCP"), Plain("b", "TCP")]);
      Answers(c, l, Some(1), Some(0))
  {
    var l := Listener("l", "TCP", 1, ["n/b", "n/a"]);
    var c := Config([l], [Plain("a", "TCP"), Plain("b", "TCP")]);
    ReversedVisits(c, l);
    AnswersFirst(c, l);
  }

  lemma {:induction false} ReversedVisits(c: Config, l: Listener)
    requires l == Listener("l", "TCP", 1, ["n/b", "n/a"])
    requires c == Config([l], [Plain("a", "TCP"), Plain("b", "TCP")])
    ensures CompiledVisit(c, l, Tcp) == [1, 0] && ScanOrder(c, l, Tcp, 2) == [0, 1]
  {
    TwoRoutes(c.routes);
    assert AttachedIndices(c.routes, l.attachedRoutes, 0) == [];
    assert AttachedIndices(c.routes, l.attachedRoutes, 1) == [1];
    assert Own(c, l) == [1, 0];
    assert CompiledVisit(c, l, Tcp) == [1, 0] by {
      assert CompiledOrder(c, [1, 0], Tcp, 0) == [] && CompiledOrder(c, [1, 0], Tcp, 1) == [1];
    }
    assert ScanOrder(c, l, Tcp, 2) == [0, 1] by {
      assert ScanOrder(c, l, Tcp, 0) == [] && ScanOrder(c, l, Tcp, 1) == [0];
    }
  }

  lemma {:induction false} TwoRoutes(routes: seq<Route>)
    requires routes == [Plain("a", "TCP"), Plain("b", "TCP")]
    ensures FullName(routes[0]) == "n/a" && FullName(routes[1]) == "n/b"
    ensures Named(routes, "n/a", 2) == [0] && Named(routes, "n/b", 2) == [1]
  {
    assert FullName(routes[0]) == "n/a" && FullName(routes[1]) == "n/b" && "n/a"[2] != "n/b"[2];
    assert Named(routes, "n/b", 0) == [] && Named(routes, "n/b", 1) == [];
    assert Named(routes, "n/a", 0) == [] && Named(routes, "n/a", 1) == [0];
  }

  /** A route whose kind is spelled in the long form. */
  lemma {:induction false} KindSpellingDisagrees()
    ensures
      var l := Listener("l", "TCP", 1, ["n/a"]);
      var c := Config([l], [Plain("a", "TCPRoute")]);
      Answers(c, l, Some(0), None)
  {
    var l := Listener("l", "TCP", 1, ["n/a"]);
    var c := Config([l], [Plain("a", "TCPRoute")]);
    LongKindVisits(c, l);
    AnswersFirst(c, l);
  }

  lemma {:induction false} LongKindVisits(c: Config, l: Listener)
    requires l == Listener("l", "TCP", 1, ["n/a"]) && c == Config([l], [Plain("a", "TCPRoute")])
    ensures CompiledVisit(c, l, Tcp) == [0] && ScanOrder(c, l, Tcp, 1) == []
  {
    assert FullName(c.routes[0]) == "n/a";
    assert Named(c.routes, "n/a", 0) == [] && Named(c.routes, "n/a", 1) == [0];
    assert AttachedIndices(c.routes, l.attachedRoutes, 0) == [];
    assert Own(c, l) == [0];
    assert CompiledOrder(c, [0], Tcp, 0) == [];
    assert ScanOrder(c, l, Tcp, 0) == [];
  }

  /** Two listeners of one name: the index keeps the routes of the last one. */
  lemma {:induction false} SharedNameDisagrees()
    ensures
      var l := Listener("l", "TCP", 1, ["n/a"]);
      var c := Config([l, Listener("l", "TCP", 2, ["n/b"])], [Plain("a", "TCP"), Plain("b", "TCP")]);
      Answers(c, l, Some(1), Some(0))
  {
    var l := Listener("l", "TCP", 1, ["n/a"]);
    var other := Listener("l", "TCP", 2, ["n/b"]);
    var c := Config([l, other], [Plain("a", "TCP"), Plain("b", "TCP")]);
    SharedVisits(c, l, other);
    AnswersFirst(c, l);
  }

  lemma {:induction false} SharedVisits(c: Config, l: Listener, other: Listener)
    requires l == Listener("l", "TCP", 1, ["n/a"]) && other == Listener("l", "TCP", 2, ["n/b"])
    requires c == Config([l, other], [Plain("a", "TCP"), Plain("b", "TCP")])
    ensures CompiledVisit(c, l, Tcp) == [1] && ScanOrder(c, l, Tcp, 2) == [0]
  {
    TwoRoutes(c.routes);
    assert AttachedIndices(c.routes, other.attachedRoutes, 0) == [];
    assert Own(c, other) == [1];
    assert Entry(c, "l", 2) == Some([1]);
    assert CompiledOrder(c, [1], Tcp, 0) == [];
    assert "n/b" !in l.attachedRoutes;
    assert ScanOrder(c, l, Tcp, 0) == [] && ScanOrder(c, l, Tcp, 1) == [0];
  }
}
