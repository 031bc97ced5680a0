/**
 Picking the best rule: scores in lexicographic order, rules placed by route and position, and one
 pass that keeps the best rule so far.
 */
module Ranking {
  import opened Wrappers

  datatype HostScore = HostScore(rank: nat, length: nat)

  /** The compiled selection has no header and query counts; its scores carry zeros there. */
  datatype RuleScore = RuleScore(pathRank: nat, pathLength: nat, methodSpecified: bool, headers: nat, queries: nat)

  datatype Score = Score(listenerHost: HostScore, routeHost: HostScore, rule: RuleScore)

  predicate HostLess(a: HostScore, b: HostScore) {
    a.rank < b.rank || (a.rank == b.rank && a.length < b.length)
  }

  predicate RuleLess(a: RuleScore, b: RuleScore) {
    a.pathRank < b.pathRank || (a.pathRank == b.pathRank &&
    (a.pathLength < b.pathLength || (a.pathLength == b.pathLength &&
    ((!a.methodSpecified && b.methodSpecified) || (a.methodSpecified == b.methodSpecified &&
    (a.headers < b.headers || (a.headers == b.headers && a.queries < b.queries)))))))
  }

  predicate Less(a: Score, b: Score) {
    HostLess(a.listenerHost, b.listenerHost) || (a.listenerHost == b.listenerHost &&
    (HostLess(a.routeHost, b.routeHost) || (a.routeHost == b.routeHost && RuleLess(a.rule, b.rule))))
  }

  /** The greatest of some host scores. */
  function MaxScore(scores: seq<Option<HostScore>>): Option<HostScore> {
    if scores == [] then None
    else
      var rest := MaxScore(scores[1..]);
      if scores[0].Some? && (rest.None? || HostLess(rest.value, scores[0].value)) then scores[0] else rest
  }

  lemma {:induction false} MaxScoreExact(scores: seq<Option<HostScore>>)
    ensures
      match MaxScore(scores)
      case None => forall k :: 0 <= k < |scores| ==> scores[k].None?
      case Some(r) =>
        && Some(r) in scores
        && forall k :: 0 <= k < |scores| && scores[k].Some? ==> !HostLess(r, scores[k].value)
  {
    if scores != [] {
      MaxScoreExact(scores[1..]);
      assert scores == [scores[0]] + scores[1..];
    }
  }

  /** The place of the greatest score, the last one among equals. */
  function LastBest(scores: seq<Option<RuleScore>>): (r: Option<nat>)
    ensures r.Some? ==> r.value < |scores| && scores[r.value].Some?
  {
    if scores == [] then None
    else
      var n := |scores| - 1;
      var rest := LastBest(scores[..n]);
      if scores[n].Some? && (rest.None? || !RuleLess(scores[n].value, scores[rest.value].value)) then Some(n) else rest
  }

  lemma {:induction false} LastBestExact(scores: seq<Option<RuleScore>>)
    ensures
      match LastBest(scores)
      case None => forall k :: 0 <= k < |scores| ==> scores[k].None?
      case Some(i) =>
        forall k :: 0 <= k < |scores| && scores[k].Some? ==>
          RuleLess(scores[k].value, scores[i].value) || (scores[k] == scores[i] && k <= i)
  {
    if scores != [] {
      LastBestExact(scores[..|scores| - 1]);
    }
  }

  /** The place of a rule in the route list. */
  datatype Slot = Slot(route: nat, rule: nat)

  predicate Before(a: Slot, b: Slot) { a.route < b.route || (a.route == b.route && a.rule < b.rule) }

  /** The rules that match a request, with their scores. */
  type Table = imap<Slot, Score>

  /** `x` is ahead of `y`: a greater score, or the same score at an earlier place. */
  ghost predicate Beats(t: Table, x: Slot, y: Slot)
    requires x in t && y in t
  {
    Less(t[y], t[x]) || (t[y] == t[x] && (x == y || Before(x, y)))
  }

  /** The greatest score; ties go to the lowest route, then to the earliest rule. */
  ghost predicate Wins(t: Table, x: Slot) {
    x in t && forall y :: y in t ==> Beats(t, x, y)
  }

  ghost predicate Chosen(t: Table, r: Option<Slot>) {
    match r
    case Some(x) => Wins(t, x)
    case None => forall y :: y !in t
  }

  lemma {:induction false} ChosenUnique(t: Table, r: Option<Slot>, u: Option<Slot>)
    requires Chosen(t, r) && Chosen(t, u)
    ensures r == u
  {
    if r.Some? && u.Some? {
      assert Beats(t, r.value, u.value) && Beats(t, u.value, r.value);
    }
  }

  // ------------------------------------------------------------------------------------------
  // One pass
  // ------------------------------------------------------------------------------------------

  /** `best` wins among the rules before `bound`. */
  ghost predicate BestBefore(t: Table, bound: Slot, best: Option<Slot>) {
    match best
    case Some(x) => x in t && Before(x, bound) && forall y :: y in t && Before(y, bound) ==> Beats(t, x, y)
    case None => forall y :: y in t ==> !Before(y, bound)
  }

  /** Whether a rule replaces the best one so far: an equal score does not. */
  ghost predicate Improves(t: Table, best: Option<Slot>, x: Slot)
    requires x in t && (best.Some? ==> best.value in t)
  {
    best.None? || Less(t[best.value], t[x])
  }

  lemma {:induction false} BestStep(t: Table, x: Slot, best: Option<Slot>)
    requires BestBefore(t, x, best)
    ensures BestBefore(t, Slot(x.route, x.rule + 1), if x in t && Improves(t, best, x) then Some(x) else best)
  {
    assert forall y :: Before(y, Slot(x.route, x.rule + 1)) <==> Before(y, x) || y == x;
  }

  /** Passing over places that hold no matching rule. */
  lemma {:induction false} BestSkip(t: Table, bound: Slot, to: Slot, best: Option<Slot>)
    requires BestBefore(t, bound, best)
    requires bound == to || Before(bound, to)
    requires forall y :: y in t && Before(y, to) ==> Before(y, bound)
    ensures BestBefore(t, to, best)
  {
  }

  // ------------------------------------------------------------------------------------------
  // A pass that gives up
  // ------------------------------------------------------------------------------------------

  /** A rule that replaces the best one when the pass reaches it. */
  ghost predicate Record(t: Table, x: Slot) {
    x in t && forall y :: y in t && Before(y, x) ==> Less(t[y], t[x])
  }

  lemma {:induction false} ImprovesIsRecord(t: Table, x: Slot, best: Option<Slot>)
    requires x in t && BestBefore(t, x, best)
    ensures Improves(t, best, x) <==> Record(t, x)
  {
  }

  /** No rule before `bound` was blocked when the pass took it. */
  ghost predicate ClearBefore(t: Table, blocked: iset<Slot>, bound: Slot) {
    forall x {:trigger x in blocked} :: x in blocked && Before(x, bound) ==> !Record(t, x)
  }

  /** The outcome of a pass that gives up at the first blocked rule it takes. */
  ghost predicate Outcome(t: Table, blocked: iset<Slot>, r: Option<Slot>) {
    match r
    case Some(x) => Wins(t, x) && forall y {:trigger y in blocked} :: y in blocked ==> !Record(t, y)
    case None => (forall y :: y !in t) || exists y :: y in blocked && Record(t, y)
  }

  lemma {:induction false} OutcomeUnique(t: Table, blocked: iset<Slot>, r: Option<Slot>, u: Option<Slot>)
    requires Outcome(t, blocked, r) && Outcome(t, blocked, u)
    ensures r == u
  {
    if r.Some? && u.Some? {
      assert Beats(t, r.value, u.value) && Beats(t, u.value, r.value);
    }
  }

  /** What holds when every rule before `bound` has been visited without giving up. */
  ghost predicate Passed(t: Table, blocked: iset<Slot>, bound: Slot, best: Option<Slot>) {
    BestBefore(t, bound, best) && ClearBefore(t, blocked, bound)
  }

  lemma {:induction false} PassedSkip(t: Table, blocked: iset<Slot>, bound: Slot, to: Slot, best: Option<Slot>)
    requires Passed(t, blocked, bound, best)
    requires bound == to || Before(bound, to)
    requires forall y :: y in t && Before(y, to) ==> Before(y, bound)
    ensures Passed(t, blocked, to, best)
  {
    BestSkip(t, bound, to, best);
  }

  /** A rule that does not match, or does not improve on the best one, changes nothing; one that
      does is a record, and replaces it unless it is blocked. */
  lemma {:induction false} PassedStep(t: Table, blocked: iset<Slot>, x: Slot, best: Option<Slot>)
    requires Passed(t, blocked, x, best)
    ensures
      var next := Slot(x.route, x.rule + 1);
      if x !in t || !Improves(t, best, x) then Passed(t, blocked, next, best)
      else if x in blocked then Outcome(t, blocked, None)
      else Passed(t, blocked, next, Some(x))
  {
    BestStep(t, x, best);
    if x in t {
      ImprovesIsRecord(t, x, best);
    }
  }

  lemma {:induction false} PassedAll(t: Table, blocked: iset<Slot>, end: Slot, best: Option<Slot>)
    requires Passed(t, blocked, end, best)
    requires forall x :: (x in t || x in blocked) ==> Before(x, end)
    ensures Outcome(t, blocked, best)
  {
  }
}
