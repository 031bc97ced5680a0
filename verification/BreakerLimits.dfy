/**
 Limit changes of the circuit breaker: from which states every run that does not lower a backend's
 limit stays within that limit. A limit of zero switches the breaker off.
 */
module BreakerLimits {
  import opened CircuitBreaker

  function Live(s: State, key: string): int { Sum(s.requests, LivePermits(key)) }

  /** No action of the run lowers the limit of a backend. */
  ghost predicate NeverLowered(s: State, actions: seq<Action>, key: string) {
    actions == [] || (
      var before := actions[..|actions| - 1];
      NeverLowered(s, before, key) && LimitFor(Run(s, before), key) <= LimitFor(Run(s, actions), key))
  }

  /** A request that has read a higher limit and may still create a semaphore with it. */
  ghost predicate PendingAbove(s: State, key: string) {
    exists r :: 0 <= r < |s.requests| && Above(s, key, r)
  }

  ghost predicate Above(s: State, key: string, r: nat)
    requires r < |s.requests|
  {
    s.requests[r].key == key && Pending(s.requests[r].phase) && s.requests[r].phase.limit > LimitFor(s, key)
  }

  /** The semaphore in the map has at most the configured capacity, and a pending request with a
      higher limit finds a semaphore that can no longer be removed. */
  ghost predicate WithinLimit(s: State, key: string) {
    && (key in s.entries ==> s.entries[key] < |s.sems| && s.sems[s.entries[key]].capacity <= LimitFor(s, key))
    && (PendingAbove(s, key) ==> Stale(s, key))
  }

  // ------------------------------------------------------------------------------------------
  // Runs that only start and advance requests
  // ------------------------------------------------------------------------------------------

  predicate Moves(actions: seq<Action>) { forall a :: a in actions ==> a.Begin? || a.Advance? }

  lemma {:induction false} RunConcat(s: State, a: seq<Action>, b: seq<Action>)
    ensures Run(s, a + b) == Run(Run(s, a), b)
  {
    if b == [] {
      assert a + b == a;
    } else {
      assert (a + b)[..|a + b| - 1] == a + b[..|b| - 1];
      RunConcat(s, a, b[..|b| - 1]);
    }
  }

  lemma {:induction false} MovesKeepLimits(s: State, actions: seq<Action>)
    requires Moves(actions)
    ensures Run(s, actions).limits == s.limits && Run(s, actions).defaultLimit == s.defaultLimit
  {
    if actions != [] {
      var before := Run(s, actions[..|actions| - 1]);
      var a := actions[|actions| - 1];
      assert a in actions;
      MovesKeepLimits(s, actions[..|actions| - 1]);
      if a.Advance? && a.r < |before.requests| {
        AdvanceMovesOnly(before, a.r);
      }
    }
  }

  lemma {:induction false} MovesNeverLower(s: State, actions: seq<Action>, key: string)
    requires Moves(actions)
    ensures NeverLowered(s, actions, key)
  {
    if actions != [] {
      MovesKeepLimits(s, actions);
      MovesKeepLimits(s, actions[..|actions| - 1]);
      MovesNeverLower(s, actions[..|actions| - 1], key);
    }
  }

  /** One action first. */
  lemma {:induction false} RunFirst(s: State, a: Action, rest: seq<Action>)
    ensures Run(s, [a] + rest) == Run(Step(s, a), rest)
  {
    assert [a][..0] == [];
    assert Run(s, [a]) == Step(s, a);
    RunConcat(s, [a], rest);
  }

  // ------------------------------------------------------------------------------------------
  // Staying within the limit
  // ------------------------------------------------------------------------------------------

  lemma {:induction false} AdvanceKeepsNonePending(s: State, r: nat, key: string)
    requires Inv(s) && r < |s.requests| && WithinLimit(s, key) && !PendingAbove(s, key)
    ensures WithinLimit(AdvanceStep(s, r), key) && !PendingAbove(AdvanceStep(s, r), key)
  {
    var s' := AdvanceStep(s, r);
    AdvanceMovesOnly(s, r);
    AdvanceEntries(s, r);
    StepKeepsCapacities(s, r);
    StepKeepsInv(s, Advance(r));
    assert LimitFor(s', key) == LimitFor(s, key);
    forall q | 0 <= q < |s'.requests| ensures !Above(s', key, q) {
      assert !Above(s, key, q);
    }
    if key in s'.entries && s.requests[r].phase.Inserting? && s.requests[r].key == key {
      assert !Above(s, key, r);
    }
  }

  lemma {:induction false} BeginKeepsWithin(s: State, name: string, key: string)
    requires Inv(s) && WithinLimit(s, key) && !PendingAbove(s, key)
    ensures WithinLimit(BeginStep(s, name), key) && !PendingAbove(BeginStep(s, name), key)
  {
    var s' := BeginStep(s, name);
    forall q | 0 <= q < |s'.requests| ensures !Above(s', key, q) {
      if q < |s.requests| {
        assert !Above(s, key, q);
      }
    }
  }

  lemma {:induction false} SettingKeepsWithin(s: State, s': State, key: string)
    requires WithinLimit(s, key) && s' == s.(limits := s'.limits) && LimitFor(s, key) <= LimitFor(s', key)
    ensures WithinLimit(s', key)
  {
    if q :| 0 <= q < |s'.requests| && Above(s', key, q) {
      assert Above(s, key, q);
    }
  }

  lemma {:induction false} StepKeepsWithin(s: State, a: Action, key: string)
    requires Inv(s) && WithinLimit(s, key) && LimitFor(s, key) <= LimitFor(Step(s, a), key)
    ensures WithinLimit(Step(s, a), key)
  {
    if a.SetLimit? || a.SetAllLimits? {
      SettingKeepsWithin(s, Step(s, a), key);
    } else if PendingAbove(s, key) {
      MovesKeepLimits(s, [a]);
      RunFirst(s, a, []);
      assert [a] + [] == [a] && Run(Step(s, a), []) == Step(s, a);
      StepKeepsStale(s, a, key);
    } else {
      match a
      case Begin(name) => BeginKeepsWithin(s, name, key);
      case Advance(r) =>
        if r < |s.requests| {
          AdvanceKeepsNonePending(s, r, key);
        }
    }
  }

  lemma {:induction false} RunKeepsWithin(s: State, actions: seq<Action>, key: string)
    requires Inv(s) && WithinLimit(s, key) && NeverLowered(s, actions, key)
    ensures Inv(Run(s, actions)) && WithinLimit(Run(s, actions), key)
  {
    if actions != [] {
      var before, last := actions[..|actions| - 1], actions[|actions| - 1];
      RunKeepsWithin(s, before, key);
      StepKeepsInv(Run(s, before), last);
      StepKeepsWithin(Run(s, before), last, key);
    }
  }

  /** From such a state no run that does not lower the backend's limit exceeds it. */
  lemma {:induction false} ConfiguredLimitHolds(s: State, actions: seq<Action>, key: string)
    requires Inv(s) && WithinLimit(s, key) && NeverLowered(s, actions, key)
    ensures Live(Run(s, actions), key) <= LimitFor(Run(s, actions), key)
  {
    RunKeepsWithin(s, actions, key);
    EntryPermits(Run(s, actions), key);
  }

  // ------------------------------------------------------------------------------------------
  // Filling a semaphore
  // ------------------------------------------------------------------------------------------

  lemma {:induction false} AdmitOne(s: State, key: string)
    requires Inv(s) && key != "" && LimitFor(s, key) > 0
    requires key in s.entries && s.entries[key] < |s.sems| && s.sems[s.entries[key]].available > 0
    ensures
      var n := |s.requests|;
      var s' := Run(s, [Begin(key), Advance(n), Advance(n), Advance(n)]);
      && Inv(s') && s'.entries == s.entries && s'.limits == s.limits && s'.defaultLimit == s.defaultLimit
      && |s'.sems| == |s.sems|
      && s'.sems[s.entries[key]].capacity == s.sems[s.entries[key]].capacity
      && s'.sems[s.entries[key]].available == s.sems[s.entries[key]].available - 1
  {
    var n, i, limit := |s.requests|, s.entries[key], LimitFor(s, key);
    var s1 := BeginStep(s, key);
    var s2 := At(Adjust(s1, i, 1, 0), n, Looked(i, limit));
    var s3 := At(Adjust(s2, i, 1, 0), n, Trying(i, limit));
    var s4 := At(Adjust(s3, i, 0, -1), n, Acquired(i, limit));
    assert s2 == Step(s1, Advance(n)) && s3 == Step(s2, Advance(n)) && s4 == Step(s3, Advance(n));
    StepKeepsInv(s, Begin(key));
    StepKeepsInv(s1, Advance(n));
    StepKeepsInv(s2, Advance(n));
    StepKeepsInv(s3, Advance(n));
    FourSteps(s, Begin(key), Advance(n), Advance(n), Advance(n));
  }

  lemma {:induction false} FourSteps(s: State, a: Action, b: Action, c: Action, d: Action)
    ensures Run(s, [a, b, c, d]) == Step(Step(Step(Step(s, a), b), c), d)
  {
    assert [a][..0] == [] && [a, b][..1] == [a] && [a, b, c][..2] == [a, b] && [a, b, c, d][..3] == [a, b, c];
    assert Run(s, [a]) == Step(s, a);
    assert Run(s, [a, b]) == Step(Run(s, [a]), b);
    assert Run(s, [a, b, c]) == Step(Run(s, [a, b]), c);
  }

  /** New requests take every free permit, whatever the limit says. */
  lemma {:induction false} Fill(s: State, key: string) returns (actions: seq<Action>)
    requires Inv(s) && key != "" && LimitFor(s, key) > 0 && key in s.entries && s.entries[key] < |s.sems|
    ensures Moves(actions) && Live(Run(s, actions), key) == s.sems[s.entries[key]].capacity
    decreases s.sems[s.entries[key]].available
  {
    EntryPermits(s, key);
    if s.sems[s.entries[key]].available == 0 {
      assert Run(s, []) == s;
      return [];
    }
    var n := |s.requests|;
    var first := [Begin(key), Advance(n), Advance(n), Advance(n)];
    AdmitOne(s, key);
    var s1 := Run(s, first);
    assert LimitFor(s1, key) == LimitFor(s, key);
    var rest := Fill(s1, key);
    RunConcat(s, first, rest);
    assert Live(Run(s, first + rest), key) == s1.sems[s1.entries[key]].capacity == s.sems[s.entries[key]].capacity;
    actions := first + rest;
  }

  // ------------------------------------------------------------------------------------------
  // Removing a semaphore
  // ------------------------------------------------------------------------------------------

  /** The request owns a handle. */
  predicate Owns(p: Phase) {
    p.Looked? || p.Trying? || p.Acquired? || p.Counted? || p.Holding? || p.Refused? || p.RefusalCounted? || p.Released?
  }

  /** How many steps a request has left at most. */
  function StepsLeft(p: Phase): nat {
    match p
    case Searching(_) => 11
    case Inserting(_) => 10
    case Looked(_, _) => 9
    case Trying(_, _) => 8
    case Acquired(_, _) => 7
    case Counted(_, _) => 6
    case Holding(_, _) => 5
    case Refused(_) => 5
    case RefusalCounted(_) => 4
    case Released(_, _) => 4
    case Uncounting(_) => 3
    case Cleaning(_) => 2
    case Unguarded => 0
    case Finished => 0
  }

  lemma {:induction false} AcquireGoesOn(s: State, r: nat)
    requires r < |s.requests| && Acquiring(s.requests[r].phase)
    ensures
      var s' := AcquireStep(s, r, s.requests[r].key, s.requests[r].phase);
      |s'.requests| == |s.requests| && StepsLeft(s'.requests[r].phase) < StepsLeft(s.requests[r].phase)
  {
  }

  lemma {:induction false} DropGoesOn(s: State, r: nat)
    requires r < |s.requests| && !Acquiring(s.requests[r].phase) && StepsLeft(s.requests[r].phase) > 0
    ensures
      var s' := DropStep(s, r, s.requests[r].key, s.requests[r].phase);
      |s'.requests| == |s.requests| && StepsLeft(s'.requests[r].phase) < StepsLeft(s.requests[r].phase)
  {
  }

  lemma {:induction false} AdvanceGoesOn(s: State, r: nat)
    requires r < |s.requests| && StepsLeft(s.requests[r].phase) > 0
    ensures |AdvanceStep(s, r).requests| == |s.requests|
    ensures StepsLeft(AdvanceStep(s, r).requests[r].phase) < StepsLeft(s.requests[r].phase)
  {
    if Acquiring(s.requests[r].phase) {
      AcquireGoesOn(s, r);
    } else {
      DropGoesOn(s, r);
    }
  }

  /** `s'` has the map, the capacities, the limits and all requests of `s` but `r`. */
  ghost predicate SameButFor(s: State, s': State, r: nat) {
    && Inv(s') && s'.entries == s.entries && s'.limits == s.limits && s'.defaultLimit == s.defaultLimit
    && |s'.sems| == |s.sems| && (forall i :: 0 <= i < |s.sems| ==> s'.sems[i].capacity == s.sems[i].capacity)
    && |s'.requests| == |s.requests| && r < |s.requests|
    && (forall q :: 0 <= q < |s.requests| && q != r ==> s'.requests[q] == s.requests[q])
    && s'.requests[r].key == s.requests[r].key
  }

  /** Advancing a request that creates nothing and removes nothing. */
  lemma {:induction false} AdvanceQuietly(s: State, r: nat)
    requires Inv(s) && r < |s.requests|
    requires s.requests[r].phase.Inserting? ==> s.requests[r].key in s.entries
    requires s.requests[r].phase.Cleaning? ==> !CleanupRemoves(s, s.requests[r].key, s.requests[r].phase.limit)
    ensures SameButFor(s, AdvanceStep(s, r), r)
  {
    AdvanceMovesOnly(s, r);
    AdvanceEntries(s, r);
    StepKeepsCapacities(s, r);
    StepKeepsInv(s, Advance(r));
    AdvanceCreates(s, r);
  }

  lemma {:induction false} AdvanceCreates(s: State, r: nat)
    requires r < |s.requests|
    requires s.requests[r].phase.Inserting? ==> s.requests[r].key in s.entries
    ensures |AdvanceStep(s, r).sems| == |s.sems|
  {
  }

  /** A request gives up its handles. */
  lemma {:induction false} LetGo(s: State, r: nat) returns (actions: seq<Action>)
    requires Inv(s) && r < |s.requests|
    ensures Moves(actions) && SameButFor(s, Run(s, actions), r) && !Owns(Run(s, actions).requests[r].phase)
    ensures !Owns(s.requests[r].phase) ==> actions == []
    decreases StepsLeft(s.requests[r].phase)
  {
    if !Owns(s.requests[r].phase) {
      assert Run(s, []) == s;
      return [];
    }
    AdvanceQuietly(s, r);
    AdvanceGoesOn(s, r);
    var rest := LetGo(AdvanceStep(s, r), r);
    RunFirst(s, Advance(r), rest);
    actions := [Advance(r)] + rest;
  }

  /** `s'` has the map, the capacities and the limits of `s`, and of every request that owns no
      handle, and of `keep`, the same phase. */
  ghost predicate Drained(s: State, s': State, keep: nat, n: nat) {
    && Inv(s') && s'.entries == s.entries && s'.limits == s.limits && s'.defaultLimit == s.defaultLimit
    && |s'.sems| == |s.sems| && (forall i :: 0 <= i < |s.sems| ==> s'.sems[i].capacity == s.sems[i].capacity)
    && |s'.requests| == |s.requests|
    && (forall q :: 0 <= q < |s.requests| && (q == keep || !Owns(s.requests[q].phase)) ==>
          s'.requests[q] == s.requests[q])
    && (forall q :: 0 <= q < n && q < |s.requests| && q != keep ==> !Owns(s'.requests[q].phase))
  }

  /** All requests but one give up their handles. */
  lemma {:induction false} Drain(s: State, keep: nat, n: nat) returns (actions: seq<Action>)
    requires Inv(s) && n <= |s.requests|
    ensures Moves(actions) && Drained(s, Run(s, actions), keep, n)
  {
    if n == 0 {
      assert Run(s, []) == s;
      return [];
    }
    var before := Drain(s, keep, n - 1);
    if n - 1 == keep {
      return before;
    }
    var last := LetGo(Run(s, before), n - 1);
    RunConcat(s, before, last);
    if last == [] {
      assert before + last == before;
    }
    actions := before + last;
  }

  /** `r` is the only request that may own a handle on the backend's semaphore, and remembers its
      capacity as the limit. */
  ghost predicate LastOwner(s: State, key: string, r: nat) {
    && Inv(s) && r < |s.requests| && s.requests[r].key == key && key in s.entries && s.entries[key] < |s.sems|
    && RemembersLimit(s.requests[r].phase) && s.requests[r].phase.limit == s.sems[s.entries[key]].capacity
    && forall q :: 0 <= q < |s.requests| && q != r ==> !RefersTo(s.requests[q].phase, s.entries[key])
  }

  /** The last owner gets its permit. */
  lemma {:induction false} LastOwnerIsAdmitted(s: State, key: string, r: nat)
    requires LastOwner(s, key, r) && s.requests[r].phase.Trying?
    ensures s.requests[r].phase.sem == s.entries[key] && s.sems[s.entries[key]].available > 0
  {
    var i := s.entries[key];
    assert RefersTo(s.requests[r].phase, s.requests[r].phase.sem);
    SumZero(s.requests, Permits(i));
  }

  lemma {:induction false} LastOwnerGoesOn(s: State, key: string, r: nat)
    requires LastOwner(s, key, r) && !s.requests[r].phase.Cleaning?
    ensures LastOwner(AdvanceStep(s, r), key, r) && SameButFor(s, AdvanceStep(s, r), r)
  {
    AdvanceQuietly(s, r);
    if s.requests[r].phase.Trying? {
      LastOwnerIsAdmitted(s, key, r);
    }
    if Acquiring(s.requests[r].phase) {
      AcquireRemembers(s, r);
    } else {
      DropRemembers(s, r);
    }
  }

  lemma {:induction false} AcquireRemembers(s: State, r: nat)
    requires r < |s.requests| && Acquiring(s.requests[r].phase)
    requires s.requests[r].phase.Trying? ==>
               s.requests[r].phase.sem < |s.sems| && s.sems[s.requests[r].phase.sem].available > 0
    ensures
      var s' := AcquireStep(s, r, s.requests[r].key, s.requests[r].phase);
      && |s'.requests| == |s.requests| && RemembersLimit(s'.requests[r].phase)
      && s'.requests[r].phase.limit == s.requests[r].phase.limit
  {
  }

  lemma {:induction false} DropRemembers(s: State, r: nat)
    requires r < |s.requests| && !Acquiring(s.requests[r].phase)
    requires RemembersLimit(s.requests[r].phase) && !s.requests[r].phase.Cleaning?
    ensures
      var s' := DropStep(s, r, s.requests[r].key, s.requests[r].phase);
      && |s'.requests| == |s.requests| && RemembersLimit(s'.requests[r].phase)
      && s'.requests[r].phase.limit == s.requests[r].phase.limit
  {
  }

  /** What removing the semaphore leaves alone. */
  ghost predicate RemovedFor(s: State, s': State, key: string, r: nat) {
    && Inv(s') && key !in s'.entries && s'.limits == s.limits && s'.defaultLimit == s.defaultLimit
    && |s'.requests| == |s.requests|
    && forall q :: 0 <= q < |s.requests| && q != r ==> s'.requests[q] == s.requests[q]
  }

  lemma {:induction false} LastOwnerRemoves(s: State, key: string, r: nat)
    requires LastOwner(s, key, r) && s.requests[r].phase.Cleaning?
    ensures RemovedFor(s, AdvanceStep(s, r), key, r)
  {
    CleanupRemovesExactly(s, key, s.requests[r].phase.limit);
    AdvanceMovesOnly(s, r);
    AdvanceEntries(s, r);
    StepKeepsInv(s, Advance(r));
  }

  /** The last owner takes the semaphore out of the map. */
  lemma {:induction false} DriveOut(s: State, key: string, r: nat) returns (actions: seq<Action>)
    requires LastOwner(s, key, r)
    ensures Moves(actions) && RemovedFor(s, Run(s, actions), key, r)
    decreases StepsLeft(s.requests[r].phase)
  {
    var s1 := AdvanceStep(s, r);
    if s.requests[r].phase.Cleaning? {
      LastOwnerRemoves(s, key, r);
      RunFirst(s, Advance(r), []);
      assert [Advance(r)] + [] == [Advance(r)] && Run(s1, []) == s1;
      return [Advance(r)];
    }
    LastOwnerGoesOn(s, key, r);
    AdvanceGoesOn(s, r);
    var rest := DriveOut(s1, key, r);
    RunFirst(s, Advance(r), rest);
    actions := [Advance(r)] + rest;
  }

  // ------------------------------------------------------------------------------------------
  // Exceeding the limit
  // ------------------------------------------------------------------------------------------

  /** Without a semaphore in the map, a pending request creates one with the limit it has read. */
  lemma {:induction false} Create(s: State, key: string, p: nat) returns (actions: seq<Action>)
    requires Inv(s) && key !in s.entries && p < |s.requests|
    requires s.requests[p].key == key && Pending(s.requests[p].phase)
    ensures Moves(actions)
    ensures
      var s' := Run(s, actions);
      && Inv(s') && s'.limits == s.limits && s'.defaultLimit == s.defaultLimit
      && key in s'.entries && s'.entries[key] < |s'.sems|
      && s'.sems[s'.entries[key]].capacity == s.requests[p].phase.limit
    decreases StepsLeft(s.requests[p].phase)
  {
    var s1 := Step(s, Advance(p));
    StepKeepsInv(s, Advance(p));
    if s.requests[p].phase.Inserting? {
      RunFirst(s, Advance(p), []);
      assert [Advance(p)] + [] == [Advance(p)] && Run(s1, []) == s1;
      return [Advance(p)];
    }
    var rest := Create(s1, key, p);
    RunFirst(s, Advance(p), rest);
    actions := [Advance(p)] + rest;
  }

  /** Some request remembers the capacity of the semaphore, once one more has begun if need be. */
  lemma {:induction false} Remember(s: State, key: string) returns (actions: seq<Action>, r: nat)
    requires Inv(s) && key != "" && LimitFor(s, key) > 0
    requires key in s.entries && s.entries[key] < |s.sems| && !Stale(s, key)
    ensures Moves(actions)
    ensures
      var s' := Run(s, actions);
      && Inv(s') && s'.entries == s.entries && s'.sems == s.sems && s'.limits == s.limits
      && s'.defaultLimit == s.defaultLimit
      && s.requests <= s'.requests && r < |s'.requests| && s'.requests[r].key == key
      && RemembersLimit(s'.requests[r].phase) && s'.requests[r].phase.limit == s.sems[s.entries[key]].capacity
  {
    if LimitFor(s, key) == s.sems[s.entries[key]].capacity {
      StepKeepsInv(s, Begin(key));
      RunFirst(s, Begin(key), []);
      assert [Begin(key)] + [] == [Begin(key)] && Run(Step(s, Begin(key)), []) == Step(s, Begin(key));
      return [Begin(key)], |s.requests|;
    }
    assert Run(s, []) == s;
    actions := [];
    r :| 0 <= r < |s.requests| && s.requests[r].key == key && RemembersLimit(s.requests[r].phase)
         && s.requests[r].phase.limit == s.sems[s.entries[key]].capacity;
  }

  /** Once drained, the one request kept is the last owner. */
  lemma {:induction false} DrainedLeavesOne(s: State, s': State, key: string, r: nat)
    requires Inv(s) && r < |s.requests| && s.requests[r].key == key && key in s.entries && s.entries[key] < |s.sems|
    requires RemembersLimit(s.requests[r].phase) && s.requests[r].phase.limit == s.sems[s.entries[key]].capacity
    requires Drained(s, s', r, |s.requests|)
    ensures LastOwner(s', key, r)
  {
    forall q | 0 <= q < |s'.requests| && q != r ensures !RefersTo(s'.requests[q].phase, s'.entries[key]) {
      assert !Owns(s'.requests[q].phase);
    }
  }

  /** A request that remembers the capacity outlives all others and removes the semaphore. */
  lemma {:induction false} RemoveLast(s: State, key: string, r: nat) returns (actions: seq<Action>)
    requires Inv(s) && r < |s.requests| && s.requests[r].key == key && key in s.entries && s.entries[key] < |s.sems|
    requires RemembersLimit(s.requests[r].phase) && s.requests[r].phase.limit == s.sems[s.entries[key]].capacity
    ensures Moves(actions)
    ensures
      var s' := Run(s, actions);
      && Inv(s') && key !in s'.entries && s'.limits == s.limits && s'.defaultLimit == s.defaultLimit
      && |s'.requests| == |s.requests|
      && forall q :: 0 <= q < |s.requests| && q != r && !Owns(s.requests[q].phase) ==> s'.requests[q] == s.requests[q]
  {
    var first := Drain(s, r, |s.requests|);
    var s1 := Run(s, first);
    DrainedLeavesOne(s, s1, key, r);
    var last := DriveOut(s1, key, r);
    RunConcat(s, first, last);
    actions := first + last;
  }

  /** A semaphore that is not stale can be removed while a pending request waits. */
  lemma {:induction false} Remove(s: State, key: string, p: nat) returns (actions: seq<Action>)
    requires Inv(s) && key != "" && LimitFor(s, key) > 0
    requires key in s.entries && s.entries[key] < |s.sems| && !Stale(s, key)
    requires p < |s.requests| && Pending(s.requests[p].phase)
    requires s.requests[p].phase.limit != s.sems[s.entries[key]].capacity
    ensures Moves(actions)
    ensures
      var s' := Run(s, actions);
      && Inv(s') && key !in s'.entries && s'.limits == s.limits && s'.defaultLimit == s.defaultLimit
      && p < |s'.requests| && s'.requests[p] == s.requests[p]
  {
    var first, r := Remember(s, key);
    var s1 := Run(s, first);
    assert s1.requests[p] == s.requests[p];
    var last := RemoveLast(s1, key, r);
    RunConcat(s, first, last);
    actions := first + last;
  }

  /** From every other state some run that leaves all limits alone exceeds it. */
  lemma {:induction false} Exceed(s: State, key: string) returns (actions: seq<Action>)
    requires Inv(s) && key != "" && LimitFor(s, key) > 0 && !WithinLimit(s, key)
    ensures Moves(actions) && Live(Run(s, actions), key) > LimitFor(Run(s, actions), key)
  {
    EntryPermits(s, key);
    if key in s.entries && s.sems[s.entries[key]].capacity > LimitFor(s, key) {
      actions := Fill(s, key);
      MovesKeepLimits(s, actions);
      return;
    }
    var p :| 0 <= p < |s.requests| && Above(s, key, p);
    var first: seq<Action> := [];
    assert Run(s, []) == s;
    if key in s.entries {
      first := Remove(s, key, p);
    }
    var s1 := Run(s, first);
    var second := Create(s1, key, p);
    var s2 := Run(s1, second);
    var third := Fill(s2, key);
    RunConcat(s, first, second);
    RunConcat(s, first + second, third);
    actions := first + second + third;
    MovesKeepLimits(s, actions);
  }

  /** The exact condition: every run that does not lower a backend's limit stays within it if and
      only if the semaphore in the map is no larger and no pending request can create a larger one. */
  lemma {:induction false} StaysWithinLimitIff(s: State, key: string)
    requires Inv(s) && key != "" && LimitFor(s, key) > 0
    ensures WithinLimit(s, key) <==>
      forall actions :: NeverLowered(s, actions, key) ==> Live(Run(s, actions), key) <= LimitFor(Run(s, actions), key)
  {
    if WithinLimit(s, key) {
      forall actions | NeverLowered(s, actions, key)
        ensures Live(Run(s, actions), key) <= LimitFor(Run(s, actions), key)
      {
        ConfiguredLimitHolds(s, actions, key);
      }
    } else {
      var actions := Exceed(s, key);
      MovesNeverLower(s, actions, key);
    }
  }

  /** The first request of a backend creates a semaphore with the limit of that moment. */
  lemma {:induction false} FirstRequest(limit: nat, key: string) returns (actions: seq<Action>)
    requires limit > 0 && key != ""
    ensures
      var s := Run(Init(limit), actions);
      Inv(s) && key in s.entries && s.entries[key] < |s.sems| && s.sems[s.entries[key]].capacity == limit
  {
    var s := Step(Init(limit), Begin(key));
    RunKeepsInv(limit, []);
    StepKeepsInv(Init(limit), Begin(key));
    var rest := Create(s, key, 0);
    RunFirst(Init(limit), Begin(key), rest);
    actions := [Begin(key)] + rest;
  }

  /** Lowering the limit of a backend in use: the old limit can still be used in full. */
  lemma {:induction false} LoweredLimitExceeded(high: nat, low: nat, key: string)
    requires 0 < low < high && key != ""
    ensures exists actions ::
      LimitFor(Run(Init(high), actions), key) == low && Live(Run(Init(high), actions), key) == high
  {
    var first := FirstRequest(high, key);
    var s := Run(Init(high), first);
    var lower := SetLimit(key, low);
    StepKeepsInv(s, lower);
    var last := Fill(Step(s, lower), key);
    MovesKeepLimits(Step(s, lower), last);
    RunFirst(s, lower, last);
    RunConcat(Init(high), first, [lower] + last);
    var actions := first + ([lower] + last);
    assert LimitFor(Run(Init(high), actions), key) == low;
  }
}
