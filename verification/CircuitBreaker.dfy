/**
 The per-backend HTTP circuit breaker as a concurrent protocol.

 A semaphore per backend is created on first use, shared by reference count, and removed from
 the map by the permit that finds itself last.  Every atomic action of a request is one step, so
 a run is any interleaving of any number of requests and of limit changes.
 */
module CircuitBreaker {

  // ------------------------------------------------------------------------------------------
  // State
  // ------------------------------------------------------------------------------------------

  /** A heap-allocated semaphore; `strong` is its reference count. */
  datatype Semaphore = Semaphore(key: string, capacity: nat, available: int, strong: int)

  /** Where a request stands between entering `try_acquire_backend` and the end of the drop. */
  datatype Phase =
    | Searching(limit: nat)              // limit read, semaphore not looked up yet
    | Inserting(limit: nat)              // nothing found under the read lock
    | Looked(sem: nat, limit: nat)       // owns one handle
    | Trying(sem: nat, limit: nat)       // owns two handles
    | Acquired(sem: nat, limit: nat)     // permit taken (it owns the second handle), not counted
    | Counted(sem: nat, limit: nat)      // in-flight statistic bumped
    | Holding(sem: nat, limit: nat)      // returned to the caller; only the permit's handle is left
    | Refused(sem: nat)                  // no permit, refusal not counted
    | RefusalCounted(sem: nat)           // refusal counted, one handle left
    | Released(sem: nat, limit: nat)     // permit given back, its handle still alive
    | Uncounting(limit: nat)             // handle gone, statistic not lowered yet
    | Cleaning(limit: nat)               // waiting for the write lock to clean up
    | Unguarded                          // limit zero or no name: admitted without a permit
    | Finished

  datatype Request = Request(key: string, phase: Phase)

  datatype Stats = Stats(inflight: map<string, int>, rejectedTotal: int, rejectedBackendTotal: int,
                         rejectedByName: map<string, int>)

  datatype State = State(requests: seq<Request>, sems: seq<Semaphore>, entries: map<string, nat>,
                         defaultLimit: nat, limits: map<string, nat>, stats: Stats)

  /** A run interleaves new requests, the next atomic action of any request (dropping the permit,
      when the caller holds it) and limit changes. */
  datatype Action =
    | Begin(key: string)
    | Advance(r: nat)
    | SetLimit(key: string, limit: nat)
    | SetAllLimits(limits: map<string, nat>)

  function Init(defaultLimit: nat): State {
    State([], [], map[], defaultLimit, map[], Stats(map[], 0, 0, map[]))
  }

  function LimitFor(s: State, key: string): nat {
    if key in s.limits then s.limits[key] else s.defaultLimit
  }

  // ------------------------------------------------------------------------------------------
  // Steps
  // ------------------------------------------------------------------------------------------

  function IncrementNamed(items: map<string, int>, key: string): map<string, int> {
    items[key := (if key in items then items[key] else 0) + 1]
  }

  function DecrementNamed(items: map<string, int>, key: string): map<string, int> {
    if key !in items then items
    else
      var value := if items[key] > 0 then items[key] - 1 else 0;
      if value == 0 then items - {key} else items[key := value]
  }

  /** Moves request `r` to `phase`. */
  function At(s: State, r: nat, phase: Phase): State
    requires r < |s.requests|
  {
    s.(requests := s.requests[r := s.requests[r].(phase := phase)])
  }

  /** Changes the reference count and the free permits of semaphore `i`. */
  function Adjust(s: State, i: nat, strong: int, available: int): State {
    if i >= |s.sems| then s
    else
      var sem := s.sems[i];
      s.(sems := s.sems[i := sem.(strong := sem.strong + strong, available := sem.available + available)])
  }

  function BeginStep(s: State, key: string): State {
    var limit := LimitFor(s, key);
    var phase := if limit == 0 || key == "" then Unguarded else Searching(limit);
    s.(requests := s.requests + [Request(key, phase)])
  }

  /** Look-up under the read lock. */
  function SearchStep(s: State, r: nat, key: string, limit: nat): State
    requires r < |s.requests|
  {
    if key in s.entries
    then At(Adjust(s, s.entries[key], 1, 0), r, Looked(s.entries[key], limit))
    else At(s, r, Inserting(limit))
  }

  /** Look-up or creation under the write lock. */
  function InsertStep(s: State, r: nat, key: string, limit: nat): State
    requires r < |s.requests|
  {
    if key in s.entries
    then At(Adjust(s, s.entries[key], 1, 0), r, Looked(s.entries[key], limit))
    else
      // One reference for the map and one for the caller.
      var created := Semaphore(key, limit, limit, 2);
      At(s.(sems := s.sems + [created], entries := s.entries[key := |s.sems|]),
         r, Looked(|s.sems|, limit))
  }

  function TryStep(s: State, r: nat, i: nat, limit: nat): State
    requires r < |s.requests|
  {
    if i < |s.sems| && s.sems[i].available > 0
    then At(Adjust(s, i, 0, -1), r, Acquired(i, limit))
    else At(Adjust(s, i, -1, 0), r, Refused(i))
  }

  function CountAcquireStep(s: State, r: nat, key: string, i: nat, limit: nat): State
    requires r < |s.requests|
  {
    At(s.(stats := s.stats.(inflight := IncrementNamed(s.stats.inflight, key))), r, Counted(i, limit))
  }

  function CountRefusalStep(s: State, r: nat, key: string, i: nat): State
    requires r < |s.requests|
  {
    var stats := s.stats.(rejectedTotal := s.stats.rejectedTotal + 1,
                          rejectedBackendTotal := s.stats.rejectedBackendTotal + 1,
                          rejectedByName := IncrementNamed(s.stats.rejectedByName, key));
    At(s.(stats := stats), r, RefusalCounted(i))
  }

  function CountReleaseStep(s: State, r: nat, key: string, limit: nat): State
    requires r < |s.requests|
  {
    At(s.(stats := s.stats.(inflight := DecrementNamed(s.stats.inflight, key))), r, Cleaning(limit))
  }

  /** Removal under the write lock: only the map still refers to the semaphore and it is full. */
  predicate CleanupRemoves(s: State, key: string, limit: nat) {
    && key in s.entries
    && s.entries[key] < |s.sems|
    && s.sems[s.entries[key]].strong == 1
    && s.sems[s.entries[key]].available == limit
  }

  function CleanupStep(s: State, r: nat, key: string, limit: nat): State
    requires r < |s.requests|
  {
    if CleanupRemoves(s, key, limit)
    then At(Adjust(s, s.entries[key], -1, 0).(entries := s.entries - {key}), r, Finished)
    else At(s, r, Finished)
  }

  /** The next atomic action of a request inside `try_acquire_backend`. */
  function AcquireStep(s: State, r: nat, key: string, phase: Phase): State
    requires r < |s.requests|
  {
    match phase
    case Searching(limit) => SearchStep(s, r, key, limit)
    case Inserting(limit) => InsertStep(s, r, key, limit)
    case Looked(i, limit) => At(Adjust(s, i, 1, 0), r, Trying(i, limit))
    case Trying(i, limit) => TryStep(s, r, i, limit)
    case Acquired(i, limit) => CountAcquireStep(s, r, key, i, limit)
    case Counted(i, limit) => At(Adjust(s, i, -1, 0), r, Holding(i, limit))
    case _ => s
  }

  /** The next atomic action of a refused request, or of one whose permit is dropped. */
  function DropStep(s: State, r: nat, key: string, phase: Phase): State
    requires r < |s.requests|
  {
    match phase
    case Holding(i, limit) => At(Adjust(s, i, 0, 1), r, Released(i, limit))
    case Refused(i) => CountRefusalStep(s, r, key, i)
    case RefusalCounted(i) => At(Adjust(s, i, -1, 0), r, Finished)
    case Released(i, limit) => At(Adjust(s, i, -1, 0), r, Uncounting(limit))
    case Uncounting(limit) => CountReleaseStep(s, r, key, limit)
    case Cleaning(limit) => CleanupStep(s, r, key, limit)
    case _ => s
  }

  predicate Acquiring(p: Phase) {
    p.Searching? || p.Inserting? || p.Looked? || p.Trying? || p.Acquired? || p.Counted?
  }

  /** The next atomic action of request `r`. */
  function AdvanceStep(s: State, r: nat): State
    requires r < |s.requests|
  {
    var Request(key, phase) := s.requests[r];
    if Acquiring(phase) then AcquireStep(s, r, key, phase) else DropStep(s, r, key, phase)
  }

  function Step(s: State, a: Action): State {
    match a
    case Begin(key) => BeginStep(s, key)
    case Advance(r) => if r < |s.requests| then AdvanceStep(s, r) else s
    case SetLimit(key, limit) => s.(limits := s.limits[key := limit])
    case SetAllLimits(limits) => s.(limits := limits)
  }

  /** The state after a run: any interleaving whatsoever. */
  function Run(s: State, actions: seq<Action>): State {
    if actions == [] then s
    else Step(Run(s, actions[..|actions| - 1]), actions[|actions| - 1])
  }

  // ------------------------------------------------------------------------------------------
  // Counting over requests
  // ------------------------------------------------------------------------------------------

  /** What a count over the requests measures. */
  datatype Measure =
    | Handles(sem: nat)        // references to a semaphore owned by requests
    | Permits(sem: nat)        // permits of a semaphore
    | LivePermits(key: string) // permits held for a backend
    | InStatistic(key: string) // requests the in-flight statistic must include
    | NotYetCounted(key: string)
    | NotYetUncounted(key: string)
    | RefusalPending(key: string) // refusals the statistic does not include yet

  predicate HasPermit(p: Phase) { p.Acquired? || p.Counted? || p.Holding? }
  predicate PendingRelease(p: Phase) { p.Released? || p.Uncounting? }

  function HandlesOf(p: Phase, sem: nat): nat {
    match p
    case Looked(i, _) => if i == sem then 1 else 0
    case Trying(i, _) => if i == sem then 2 else 0
    case Acquired(i, _) => if i == sem then 2 else 0
    case Counted(i, _) => if i == sem then 2 else 0
    case Holding(i, _) => if i == sem then 1 else 0
    case Refused(i) => if i == sem then 1 else 0
    case RefusalCounted(i) => if i == sem then 1 else 0
    case Released(i, _) => if i == sem then 1 else 0
    case _ => 0
  }

  function Weight(m: Measure, q: Request): int {
    match m
    case Handles(i) => HandlesOf(q.phase, i)
    case Permits(i) => if HasPermit(q.phase) && q.phase.sem == i then 1 else 0
    case LivePermits(k) => if HasPermit(q.phase) && q.key == k then 1 else 0
    case InStatistic(k) =>
      if q.key == k && (q.phase.Counted? || q.phase.Holding? || PendingRelease(q.phase)) then 1 else 0
    case NotYetCounted(k) => if q.phase.Acquired? && q.key == k then 1 else 0
    case NotYetUncounted(k) => if PendingRelease(q.phase) && q.key == k then 1 else 0
    case RefusalPending(k) => if q.phase.Refused? && q.key == k then 1 else 0
  }

  function Sum(qs: seq<Request>, m: Measure): int {
    if qs == [] then 0 else Sum(qs[..|qs| - 1], m) + Weight(m, qs[|qs| - 1])
  }

  lemma {:induction false} SumUpdate(qs: seq<Request>, r: nat, q: Request, m: Measure)
    requires r < |qs|
    ensures Sum(qs[r := q], m) == Sum(qs, m) - Weight(m, qs[r]) + Weight(m, q)
  {
    var n := |qs| - 1;
    if r == n {
      assert qs[r := q][..n] == qs[..n];
    } else {
      assert qs[r := q][..n] == qs[..n][r := q];
      SumUpdate(qs[..n], r, q, m);
    }
  }

  lemma {:induction false} SumAtLeast(qs: seq<Request>, r: nat, m: Measure)
    requires r < |qs|
    ensures Sum(qs, m) >= Weight(m, qs[r])
  {
    SumNonNegative(qs[..|qs| - 1], m);
    if r < |qs| - 1 {
      SumAtLeast(qs[..|qs| - 1], r, m);
    }
  }

  lemma {:induction false} SumNonNegative(qs: seq<Request>, m: Measure)
    ensures Sum(qs, m) >= 0
  {
    if qs != [] {
      SumNonNegative(qs[..|qs| - 1], m);
    }
  }

  /** Counts are linear in the weights. */
  lemma {:induction false} SumLinear(qs: seq<Request>, a: Measure, b: Measure, c: Measure, d: Measure)
    requires forall q :: q in qs ==> Weight(a, q) == Weight(b, q) + Weight(c, q) - Weight(d, q)
    ensures Sum(qs, a) == Sum(qs, b) + Sum(qs, c) - Sum(qs, d)
  {
    if qs != [] {
      assert qs[|qs| - 1] in qs;
      SumLinear(qs[..|qs| - 1], a, b, c, d);
    }
  }

  lemma {:induction false} SumEqual(qs: seq<Request>, a: Measure, b: Measure)
    requires forall q :: q in qs ==> Weight(a, q) == Weight(b, q)
    ensures Sum(qs, a) == Sum(qs, b)
  {
    if qs != [] {
      assert qs[|qs| - 1] in qs;
      SumEqual(qs[..|qs| - 1], a, b);
    }
  }

  lemma {:induction false} SumZero(qs: seq<Request>, m: Measure)
    requires forall q :: q in qs ==> Weight(m, q) == 0
    ensures Sum(qs, m) == 0
  {
    if qs != [] {
      assert qs[|qs| - 1] in qs;
      SumZero(qs[..|qs| - 1], m);
    }
  }

  /** The sum of the values of a map. */
  ghost function Total(m: map<string, int>): int {
    if m == map[] then 0
    else
      var k :| k in m;
      m[k] + Total(m - {k})
  }

  lemma {:induction false} TotalRemove(m: map<string, int>, k: string)
    requires k in m
    ensures Total(m) == m[k] + Total(m - {k})
    decreases |m|
  {
    var c :| c in m && Total(m) == m[c] + Total(m - {c});
    if c != k {
      TotalRemove(m - {c}, k);
      assert (m - {c}) - {k} == (m - {k}) - {c};
      TotalRemove(m - {k}, c);
    }
  }

  lemma {:induction false} TotalIncrement(m: map<string, int>, k: string)
    ensures Total(IncrementNamed(m, k)) == Total(m) + 1
  {
    var n := IncrementNamed(m, k);
    TotalRemove(n, k);
    assert n - {k} == m - {k};
    if k in m {
      TotalRemove(m, k);
    } else {
      assert m - {k} == m;
    }
  }

  // ------------------------------------------------------------------------------------------
  // The invariant
  // ------------------------------------------------------------------------------------------

  /** The semaphore a request refers to, if it owns a handle. */
  predicate RefersTo(p: Phase, sem: nat) { HandlesOf(p, sem) > 0 }

  ghost predicate EntriesSound(s: State) {
    && (forall k :: k in s.entries ==> s.entries[k] < |s.sems| && s.sems[s.entries[k]].key == k)
    && (forall i :: 0 <= i < |s.sems| ==> s.sems[i].capacity > 0)
    && (forall q :: q in s.requests && (q.phase.Searching? || q.phase.Inserting?) ==> q.phase.limit > 0)
  }

  /** Every handle of every request is a handle on the semaphore now in the map. */
  ghost predicate HandlesCurrent(s: State) {
    forall r, i :: 0 <= r < |s.requests| && RefersTo(s.requests[r].phase, i) ==>
      s.requests[r].key in s.entries && s.entries[s.requests[r].key] == i
  }

  function MapHandle(s: State, i: nat): int
    requires i < |s.sems|
  {
    if s.sems[i].key in s.entries && s.entries[s.sems[i].key] == i then 1 else 0
  }

  ghost predicate CountsExact(s: State) {
    forall i :: 0 <= i < |s.sems| ==>
      && s.sems[i].strong == MapHandle(s, i) + Sum(s.requests, Handles(i))
      && s.sems[i].available == s.sems[i].capacity - Sum(s.requests, Permits(i))
      && s.sems[i].available >= 0
  }

  function Named(items: map<string, int>, key: string): int {
    if key in items then items[key] else 0
  }

  ghost predicate StatsExact(s: State) {
    && (forall k :: Named(s.stats.inflight, k) == Sum(s.requests, InStatistic(k)))
    && (forall k :: k in s.stats.inflight ==> s.stats.inflight[k] > 0)
    && s.stats.rejectedTotal == s.stats.rejectedBackendTotal == Total(s.stats.rejectedByName)
  }

  ghost predicate Inv(s: State) {
    EntriesSound(s) && HandlesCurrent(s) && CountsExact(s) && StatsExact(s)
  }

  // ------------------------------------------------------------------------------------------
  // Every step keeps the invariant
  // ------------------------------------------------------------------------------------------

  /** `phase` may follow the phase of request `r` when handles on `i` change by `strong` and free
      permits by `available`. */
  ghost predicate Balanced(s: State, r: nat, phase: Phase, i: nat, strong: int, available: int)
    requires r < |s.requests|
  {
    var was := s.requests[r].phase;
    && HandlesOf(phase, i) == HandlesOf(was, i) + strong
    && Weight(Permits(i), Request("", phase)) == Weight(Permits(i), Request("", was)) - available
    && forall j :: j != i ==>
         && HandlesOf(phase, j) == HandlesOf(was, j)
         && Weight(Permits(j), Request("", phase)) == Weight(Permits(j), Request("", was))
  }

  lemma {:induction false} MoveKeepsCounts(s: State, r: nat, phase: Phase, i: nat, strong: int, available: int)
    requires Inv(s) && r < |s.requests| && i < |s.sems|
    requires Balanced(s, r, phase, i, strong, available)
    requires s.sems[i].available + available >= 0
    ensures CountsExact(At(Adjust(s, i, strong, available), r, phase))
  {
    var s' := At(Adjust(s, i, strong, available), r, phase);
    forall j | 0 <= j < |s'.sems|
      ensures s'.sems[j].strong == MapHandle(s', j) + Sum(s'.requests, Handles(j))
      ensures s'.sems[j].available == s'.sems[j].capacity - Sum(s'.requests, Permits(j)) >= 0
    {
      SumUpdate(s.requests, r, s'.requests[r], Handles(j));
      SumUpdate(s.requests, r, s'.requests[r], Permits(j));
      assert Weight(Permits(j), s'.requests[r]) == Weight(Permits(j), Request("", phase));
      assert Weight(Permits(j), s.requests[r]) == Weight(Permits(j), Request("", s.requests[r].phase));
    }
  }

  lemma {:induction false} MoveKeepsStats(s: State, s': State, r: nat)
    requires StatsExact(s) && r < |s.requests| && r < |s'.requests| && s'.stats == s.stats
    requires s'.requests == s.requests[r := s'.requests[r]]
    requires forall k :: Weight(InStatistic(k), s'.requests[r]) == Weight(InStatistic(k), s.requests[r])
    ensures StatsExact(s')
  {
    forall k ensures Named(s'.stats.inflight, k) == Sum(s'.requests, InStatistic(k)) {
      SumUpdate(s.requests, r, s'.requests[r], InStatistic(k));
    }
  }

  /** A request moves on and touches one semaphore that is current for its key. */
  lemma {:induction false} MoveKeepsInv(s: State, r: nat, phase: Phase, i: nat, strong: int, available: int)
    requires Inv(s) && r < |s.requests|
    requires s.requests[r].key in s.entries && s.entries[s.requests[r].key] == i
    requires Balanced(s, r, phase, i, strong, available)
    requires i < |s.sems| && s.sems[i].available + available >= 0
    requires forall k ::
               Weight(InStatistic(k), Request(s.requests[r].key, phase)) == Weight(InStatistic(k), s.requests[r])
    requires !phase.Searching? && !phase.Inserting?
    requires forall j :: RefersTo(phase, j) ==> j == i
    ensures Inv(At(Adjust(s, i, strong, available), r, phase))
  {
    var s' := At(Adjust(s, i, strong, available), r, phase);
    MoveKeepsCounts(s, r, phase, i, strong, available);
    MoveKeepsStats(s, s', r);
  }

  lemma {:induction false} BeginKeepsInv(s: State, key: string)
    requires Inv(s)
    ensures Inv(BeginStep(s, key))
  {
    var s' := BeginStep(s, key);
    var n := |s.requests|;
    assert s'.requests[..n] == s.requests;
    assert forall m: Measure :: Weight(m, s'.requests[n]) == 0;
    assert forall m: Measure :: Sum(s'.requests, m) == Sum(s.requests, m);
  }

  /** A request that owns no handle and no statistic moves to another such phase. */
  lemma {:induction false} IdleMoveKeepsInv(s: State, r: nat, phase: Phase)
    requires Inv(s) && r < |s.requests|
    requires forall m: Measure :: Weight(m, s.requests[r]) == Weight(m, Request(s.requests[r].key, phase)) == 0
    requires phase.Inserting? ==> phase.limit > 0
    requires !phase.Searching?
    ensures Inv(At(s, r, phase))
  {
    var s' := At(s, r, phase);
    forall m: Measure ensures Sum(s'.requests, m) == Sum(s.requests, m) {
      SumUpdate(s.requests, r, s'.requests[r], m);
      assert Weight(m, s'.requests[r]) == Weight(m, Request(s.requests[r].key, phase));
    }
    forall q, i | 0 <= q < |s'.requests| && RefersTo(s'.requests[q].phase, i)
      ensures s'.requests[q].key in s'.entries && s'.entries[s'.requests[q].key] == i
    {
      assert q == r ==> Weight(Handles(i), Request(s.requests[r].key, phase)) == 0;
    }
  }

  lemma {:induction false} SearchKeepsInv(s: State, r: nat, key: string, limit: nat)
    requires Inv(s) && r < |s.requests| && s.requests[r] == Request(key, Searching(limit))
    ensures Inv(SearchStep(s, r, key, limit))
  {
    assert s.requests[r] in s.requests;
    if key in s.entries {
      MoveKeepsInv(s, r, Looked(s.entries[key], limit), s.entries[key], 1, 0);
    } else {
      IdleMoveKeepsInv(s, r, Inserting(limit));
    }
  }

  lemma {:induction false} CreateKeepsCounts(s: State, r: nat, key: string, limit: nat)
    requires Inv(s) && r < |s.requests| && s.requests[r] == Request(key, Inserting(limit))
    requires key !in s.entries
    ensures CountsExact(InsertStep(s, r, key, limit))
  {
    var s' := InsertStep(s, r, key, limit);
    forall i | 0 <= i < |s'.sems|
      ensures s'.sems[i].strong == MapHandle(s', i) + Sum(s'.requests, Handles(i))
      ensures s'.sems[i].available == s'.sems[i].capacity - Sum(s'.requests, Permits(i)) >= 0
    {
      SumUpdate(s.requests, r, s'.requests[r], Handles(i));
      SumUpdate(s.requests, r, s'.requests[r], Permits(i));
      if i == |s.sems| {
        NobodyRefersToNew(s);
      } else {
        assert s.sems[i].key != key ==> MapHandle(s', i) == MapHandle(s, i);
      }
    }
  }

  lemma {:induction false} CreateKeepsHandles(s: State, r: nat, key: string, limit: nat)
    requires HandlesCurrent(s) && r < |s.requests| && s.requests[r] == Request(key, Inserting(limit))
    requires key !in s.entries
    ensures HandlesCurrent(InsertStep(s, r, key, limit))
  {
    var s' := InsertStep(s, r, key, limit);
    forall q, i | 0 <= q < |s'.requests| && RefersTo(s'.requests[q].phase, i)
      ensures s'.requests[q].key in s'.entries && s'.entries[s'.requests[q].key] == i
    {
      if q != r {
        assert RefersTo(s.requests[q].phase, i);
      }
    }
  }

  lemma {:induction false} CreateKeepsInv(s: State, r: nat, key: string, limit: nat)
    requires Inv(s) && r < |s.requests| && s.requests[r] == Request(key, Inserting(limit))
    requires key !in s.entries
    ensures Inv(InsertStep(s, r, key, limit))
  {
    assert s.requests[r] in s.requests;
    MoveKeepsStats(s, InsertStep(s, r, key, limit), r);
    CreateKeepsCounts(s, r, key, limit);
    CreateKeepsHandles(s, r, key, limit);
  }

  /** No request refers to a semaphore that does not exist yet. */
  lemma {:induction false} NobodyRefersToNew(s: State)
    requires EntriesSound(s) && HandlesCurrent(s)
    ensures Sum(s.requests, Handles(|s.sems|)) == 0 && Sum(s.requests, Permits(|s.sems|)) == 0
  {
    var n := |s.sems|;
    forall q | q in s.requests ensures HandlesOf(q.phase, n) == 0 {
      var r :| 0 <= r < |s.requests| && s.requests[r] == q;
      assert !RefersTo(s.requests[r].phase, n);
    }
    SumZero(s.requests, Handles(n));
    SumZero(s.requests, Permits(n));
  }

  lemma {:induction false} InsertKeepsInv(s: State, r: nat, key: string, limit: nat)
    requires Inv(s) && r < |s.requests| && s.requests[r] == Request(key, Inserting(limit))
    ensures Inv(InsertStep(s, r, key, limit))
  {
    if key in s.entries {
      MoveKeepsInv(s, r, Looked(s.entries[key], limit), s.entries[key], 1, 0);
    } else {
      CreateKeepsInv(s, r, key, limit);
    }
  }

  /** The statistic changes together with the one request it is about. */
  lemma {:induction false} CountKeepsInv(s: State, r: nat, phase: Phase, inflight: map<string, int>)
    requires Inv(s) && r < |s.requests|
    requires forall i :: HandlesOf(phase, i) == HandlesOf(s.requests[r].phase, i)
    requires HasPermit(phase) == HasPermit(s.requests[r].phase)
    requires HasPermit(phase) ==> phase.sem == s.requests[r].phase.sem
    requires !phase.Searching? && !phase.Inserting?
    requires forall k :: Named(inflight, k) == Named(s.stats.inflight, k)
               - Weight(InStatistic(k), s.requests[r]) + Weight(InStatistic(k), Request(s.requests[r].key, phase))
    requires forall k :: k in inflight ==> inflight[k] > 0
    ensures Inv(At(s.(stats := s.stats.(inflight := inflight)), r, phase))
  {
    var s' := At(s.(stats := s.stats.(inflight := inflight)), r, phase);
    forall m: Measure
      ensures Sum(s'.requests, m) == Sum(s.requests, m) - Weight(m, s.requests[r]) + Weight(m, s'.requests[r])
    {
      SumUpdate(s.requests, r, s'.requests[r], m);
    }
    assert forall i :: Weight(Handles(i), s'.requests[r]) == Weight(Handles(i), s.requests[r]);
    assert forall i :: Weight(Permits(i), s'.requests[r]) == Weight(Permits(i), s.requests[r]);
    assert CountsExact(s');
    assert HandlesCurrent(s') by {
      forall q, i | 0 <= q < |s'.requests| && RefersTo(s'.requests[q].phase, i)
        ensures s'.requests[q].key in s'.entries && s'.entries[s'.requests[q].key] == i
      {
        assert RefersTo(s.requests[q].phase, i);
      }
    }
  }

  /** A release is never counted against a missing or zero statistic. */
  lemma {:induction false} ReleaseFindsItsCount(s: State, r: nat)
    requires Inv(s) && r < |s.requests| && s.requests[r].phase.Uncounting?
    ensures s.requests[r].key in s.stats.inflight && s.stats.inflight[s.requests[r].key] > 0
  {
    SumAtLeast(s.requests, r, InStatistic(s.requests[r].key));
  }

  lemma {:induction false} CountRefusalKeepsInv(s: State, r: nat, key: string, i: nat)
    requires Inv(s) && r < |s.requests| && s.requests[r] == Request(key, Refused(i))
    ensures Inv(CountRefusalStep(s, r, key, i))
  {
    var s' := CountRefusalStep(s, r, key, i);
    TotalIncrement(s.stats.rejectedByName, key);
    CountKeepsInv(s, r, RefusalCounted(i), s.stats.inflight);
    var t := At(s.(stats := s.stats.(inflight := s.stats.inflight)), r, RefusalCounted(i));
    assert s'.requests == t.requests && s'.sems == t.sems && s'.entries == t.entries;
    assert forall j :: 0 <= j < |t.sems| ==> MapHandle(s', j) == MapHandle(t, j);
  }

  /** When only the map refers to a semaphore, no request owns a handle on it. */
  lemma {:induction false} OnlyTheMapRefers(s: State, key: string)
    requires Inv(s) && key in s.entries && s.sems[s.entries[key]].strong == 1
    ensures forall q :: 0 <= q < |s.requests| ==> !RefersTo(s.requests[q].phase, s.entries[key])
  {
    var i := s.entries[key];
    forall q | 0 <= q < |s.requests| ensures !RefersTo(s.requests[q].phase, i) {
      SumAtLeast(s.requests, q, Handles(i));
    }
  }

  lemma {:induction false} RemoveKeepsCount(s: State, r: nat, key: string, limit: nat, i: nat)
    requires Inv(s) && r < |s.requests| && s.requests[r] == Request(key, Cleaning(limit))
    requires CleanupRemoves(s, key, limit) && i < |s.sems|
    ensures
      var s' := CleanupStep(s, r, key, limit);
      && s'.sems[i].strong == MapHandle(s', i) + Sum(s'.requests, Handles(i))
      && s'.sems[i].available == s'.sems[i].capacity - Sum(s'.requests, Permits(i)) >= 0
  {
    var s' := CleanupStep(s, r, key, limit);
    SumUpdate(s.requests, r, s'.requests[r], Handles(i));
    SumUpdate(s.requests, r, s'.requests[r], Permits(i));
    if i == s.entries[key] {
      assert MapHandle(s, i) == 1 && MapHandle(s', i) == 0;
    } else {
      assert MapHandle(s', i) == MapHandle(s, i);
    }
  }

  lemma {:induction false} RemoveKeepsCounts(s: State, r: nat, key: string, limit: nat)
    requires Inv(s) && r < |s.requests| && s.requests[r] == Request(key, Cleaning(limit))
    requires CleanupRemoves(s, key, limit)
    ensures CountsExact(CleanupStep(s, r, key, limit))
  {
    forall i | 0 <= i < |s.sems|
      ensures
        var s' := CleanupStep(s, r, key, limit);
        && s'.sems[i].strong == MapHandle(s', i) + Sum(s'.requests, Handles(i))
        && s'.sems[i].available == s'.sems[i].capacity - Sum(s'.requests, Permits(i)) >= 0
    {
      RemoveKeepsCount(s, r, key, limit, i);
    }
  }

  lemma {:induction false} RemoveKeepsHandles(s: State, r: nat, key: string, limit: nat)
    requires Inv(s) && r < |s.requests| && s.requests[r] == Request(key, Cleaning(limit))
    requires CleanupRemoves(s, key, limit)
    ensures HandlesCurrent(CleanupStep(s, r, key, limit))
  {
    var s' := CleanupStep(s, r, key, limit);
    OnlyTheMapRefers(s, key);
    forall q, i | 0 <= q < |s'.requests| && RefersTo(s'.requests[q].phase, i)
      ensures s'.requests[q].key in s'.entries && s'.entries[s'.requests[q].key] == i
    {
      assert q != r && RefersTo(s.requests[q].phase, i);
    }
  }

  lemma {:induction false} RemoveKeepsInv(s: State, r: nat, key: string, limit: nat)
    requires Inv(s) && r < |s.requests| && s.requests[r] == Request(key, Cleaning(limit))
    requires CleanupRemoves(s, key, limit)
    ensures Inv(CleanupStep(s, r, key, limit))
  {
    RemoveKeepsCounts(s, r, key, limit);
    RemoveKeepsHandles(s, r, key, limit);
    MoveKeepsStats(s, CleanupStep(s, r, key, limit), r);
  }

  lemma {:induction false} CleanupKeepsInv(s: State, r: nat, key: string, limit: nat)
    requires Inv(s) && r < |s.requests| && s.requests[r] == Request(key, Cleaning(limit))
    ensures Inv(CleanupStep(s, r, key, limit))
  {
    if CleanupRemoves(s, key, limit) {
      RemoveKeepsInv(s, r, key, limit);
    } else {
      IdleMoveKeepsInv(s, r, Finished);
    }
  }

  lemma {:induction false} TryKeepsInv(s: State, r: nat, key: string, i: nat, limit: nat)
    requires Inv(s) && r < |s.requests| && s.requests[r] == Request(key, Trying(i, limit))
    ensures Inv(TryStep(s, r, i, limit))
  {
    assert RefersTo(s.requests[r].phase, i);
    if s.sems[i].available > 0 {
      MoveKeepsInv(s, r, Acquired(i, limit), i, 0, -1);
    } else {
      MoveKeepsInv(s, r, Refused(i), i, -1, 0);
    }
  }

  lemma {:induction false} CloneKeepsInv(s: State, r: nat, key: string, i: nat, limit: nat)
    requires Inv(s) && r < |s.requests| && s.requests[r] == Request(key, Looked(i, limit))
    ensures Inv(At(Adjust(s, i, 1, 0), r, Trying(i, limit)))
  {
    assert RefersTo(s.requests[r].phase, i);
    MoveKeepsInv(s, r, Trying(i, limit), i, 1, 0);
  }

  lemma {:induction false} ReturnKeepsInv(s: State, r: nat, key: string, i: nat, limit: nat)
    requires Inv(s) && r < |s.requests| && s.requests[r] == Request(key, Counted(i, limit))
    ensures Inv(At(Adjust(s, i, -1, 0), r, Holding(i, limit)))
  {
    assert RefersTo(s.requests[r].phase, i);
    MoveKeepsInv(s, r, Holding(i, limit), i, -1, 0);
  }

  lemma {:induction false} ReleaseKeepsInv(s: State, r: nat, key: string, i: nat, limit: nat)
    requires Inv(s) && r < |s.requests| && s.requests[r] == Request(key, Holding(i, limit))
    ensures Inv(At(Adjust(s, i, 0, 1), r, Released(i, limit)))
  {
    assert RefersTo(s.requests[r].phase, i);
    MoveKeepsInv(s, r, Released(i, limit), i, 0, 1);
  }

  lemma {:induction false} DropRefusedKeepsInv(s: State, r: nat, key: string, i: nat)
    requires Inv(s) && r < |s.requests| && s.requests[r] == Request(key, RefusalCounted(i))
    ensures Inv(At(Adjust(s, i, -1, 0), r, Finished))
  {
    assert RefersTo(s.requests[r].phase, i);
    MoveKeepsInv(s, r, Finished, i, -1, 0);
  }

  lemma {:induction false} DropPermitKeepsInv(s: State, r: nat, key: string, i: nat, limit: nat)
    requires Inv(s) && r < |s.requests| && s.requests[r] == Request(key, Released(i, limit))
    ensures Inv(At(Adjust(s, i, -1, 0), r, Uncounting(limit)))
  {
    assert RefersTo(s.requests[r].phase, i);
    MoveKeepsInv(s, r, Uncounting(limit), i, -1, 0);
  }

  lemma {:induction false} CountAcquireKeepsInv(s: State, r: nat, key: string, i: nat, limit: nat)
    requires Inv(s) && r < |s.requests| && s.requests[r] == Request(key, Acquired(i, limit))
    ensures Inv(CountAcquireStep(s, r, key, i, limit))
  {
    CountKeepsInv(s, r, Counted(i, limit), IncrementNamed(s.stats.inflight, key));
  }

  lemma {:induction false} CountReleaseKeepsInv(s: State, r: nat, key: string, limit: nat)
    requires Inv(s) && r < |s.requests| && s.requests[r] == Request(key, Uncounting(limit))
    ensures Inv(CountReleaseStep(s, r, key, limit))
  {
    ReleaseFindsItsCount(s, r);
    CountKeepsInv(s, r, Cleaning(limit), DecrementNamed(s.stats.inflight, key));
  }

  lemma {:induction false} AcquireKeepsInv(s: State, r: nat, key: string, phase: Phase)
    requires Inv(s) && r < |s.requests| && s.requests[r] == Request(key, phase) && Acquiring(phase)
    ensures Inv(AcquireStep(s, r, key, phase))
  {
    match phase
    case Searching(limit) => SearchKeepsInv(s, r, key, limit);
    case Inserting(limit) => InsertKeepsInv(s, r, key, limit);
    case Looked(i, limit) => CloneKeepsInv(s, r, key, i, limit);
    case Trying(i, limit) => TryKeepsInv(s, r, key, i, limit);
    case Acquired(i, limit) => CountAcquireKeepsInv(s, r, key, i, limit);
    case Counted(i, limit) => ReturnKeepsInv(s, r, key, i, limit);
  }

  lemma {:induction false} DropKeepsInv(s: State, r: nat, key: string, phase: Phase)
    requires Inv(s) && r < |s.requests| && s.requests[r] == Request(key, phase) && !Acquiring(phase)
    ensures Inv(DropStep(s, r, key, phase))
  {
    match phase
    case Holding(i, limit) => ReleaseKeepsInv(s, r, key, i, limit);
    case Refused(i) => CountRefusalKeepsInv(s, r, key, i);
    case RefusalCounted(i) => DropRefusedKeepsInv(s, r, key, i);
    case Released(i, limit) => DropPermitKeepsInv(s, r, key, i, limit);
    case Uncounting(limit) => CountReleaseKeepsInv(s, r, key, limit);
    case Cleaning(limit) => CleanupKeepsInv(s, r, key, limit);
    case Unguarded =>
    case Finished =>
  }

  lemma {:induction false} StepKeepsInv(s: State, a: Action)
    requires Inv(s)
    ensures Inv(Step(s, a))
  {
    match a
    case Begin(key) => BeginKeepsInv(s, key);
    case Advance(r) =>
      if r < |s.requests| {
        var Request(key, phase) := s.requests[r];
        if Acquiring(phase) {
          AcquireKeepsInv(s, r, key, phase);
        } else {
          DropKeepsInv(s, r, key, phase);
        }
      }
    case SetLimit(key, limit) => LimitsDoNotMatter(s, s.limits[key := limit]);
    case SetAllLimits(limits) => LimitsDoNotMatter(s, limits);
  }

  lemma {:induction false} LimitsDoNotMatter(s: State, limits: map<string, nat>)
    requires Inv(s)
    ensures Inv(s.(limits := limits))
  {
    var s' := s.(limits := limits);
    assert forall i :: 0 <= i < |s.sems| ==> MapHandle(s', i) == MapHandle(s, i);
  }

  // ------------------------------------------------------------------------------------------
  // What holds in every run
  // ------------------------------------------------------------------------------------------

  lemma {:induction false} RunKeepsInv(defaultLimit: nat, actions: seq<Action>)
    ensures Inv(Run(Init(defaultLimit), actions))
  {
    if actions != [] {
      RunKeepsInv(defaultLimit, actions[..|actions| - 1]);
      StepKeepsInv(Run(Init(defaultLimit), actions[..|actions| - 1]), actions[|actions| - 1]);
    }
  }

  /** Removal and re-creation never let extra permits through: in every interleaving each live
      permit of a backend is a permit of the semaphore now in the map, the permits and the free
      slots make up its capacity exactly, and without an entry there is no live permit at all. */
  lemma {:induction false} PermitsBounded(defaultLimit: nat, actions: seq<Action>, key: string)
    ensures
      var s := Run(Init(defaultLimit), actions);
      && (forall r :: 0 <= r < |s.requests| && HasPermit(s.requests[r].phase) && s.requests[r].key == key ==>
            key in s.entries && s.requests[r].phase.sem == s.entries[key])
      && (key in s.entries ==>
            && s.entries[key] < |s.sems|
            && Sum(s.requests, LivePermits(key)) + s.sems[s.entries[key]].available == s.sems[s.entries[key]].capacity
            && s.sems[s.entries[key]].available >= 0)
      && (key !in s.entries ==> Sum(s.requests, LivePermits(key)) == 0)
  {
    RunKeepsInv(defaultLimit, actions);
    EntryPermits(Run(Init(defaultLimit), actions), key);
  }

  lemma {:induction false} EntryPermits(s: State, key: string)
    requires Inv(s)
    ensures forall r :: 0 <= r < |s.requests| && HasPermit(s.requests[r].phase) && s.requests[r].key == key ==>
              key in s.entries && s.requests[r].phase.sem == s.entries[key]
    ensures key in s.entries ==>
      && s.entries[key] < |s.sems|
      && Sum(s.requests, LivePermits(key)) + s.sems[s.entries[key]].available == s.sems[s.entries[key]].capacity
      && s.sems[s.entries[key]].available >= 0
    ensures key !in s.entries ==> Sum(s.requests, LivePermits(key)) == 0
  {
    forall r | 0 <= r < |s.requests| && HasPermit(s.requests[r].phase)
      ensures s.requests[r].key in s.entries && s.requests[r].phase.sem == s.entries[s.requests[r].key]
    {
      assert RefersTo(s.requests[r].phase, s.requests[r].phase.sem);
    }
    PermitsOfKeyArePermitsOfEntry(s, key);
  }

  lemma {:induction false} PermitsOfKeyArePermitsOfEntry(s: State, key: string)
    requires Inv(s)
    requires forall r :: 0 <= r < |s.requests| && HasPermit(s.requests[r].phase) ==>
               s.requests[r].key in s.entries && s.requests[r].phase.sem == s.entries[s.requests[r].key]
    ensures key in s.entries ==> Sum(s.requests, LivePermits(key)) == Sum(s.requests, Permits(s.entries[key]))
    ensures key !in s.entries ==> Sum(s.requests, LivePermits(key)) == 0
  {
    if key in s.entries {
      assert forall q :: q in s.requests ==> Weight(LivePermits(key), q) == Weight(Permits(s.entries[key]), q);
      SumEqual(s.requests, LivePermits(key), Permits(s.entries[key]));
    } else {
      SumZero(s.requests, LivePermits(key));
    }
  }

  /** In every interleaving the in-flight statistic is the live permits, plus releases not counted
      yet, minus acquisitions not counted yet; and the rejection totals add up. */
  lemma {:induction false} StatisticsExact(defaultLimit: nat, actions: seq<Action>, key: string)
    ensures
      var s := Run(Init(defaultLimit), actions);
      && Named(s.stats.inflight, key) == Sum(s.requests, LivePermits(key))
           + Sum(s.requests, NotYetUncounted(key)) - Sum(s.requests, NotYetCounted(key))
      && s.stats.rejectedTotal == s.stats.rejectedBackendTotal == Total(s.stats.rejectedByName)
      && (forall r :: 0 <= r < |s.requests| && s.requests[r].phase.Uncounting? ==>
            Named(s.stats.inflight, s.requests[r].key) > 0)
  {
    RunKeepsInv(defaultLimit, actions);
    var s := Run(Init(defaultLimit), actions);
    SumLinear(s.requests, InStatistic(key), LivePermits(key), NotYetUncounted(key), NotYetCounted(key));
    forall r | 0 <= r < |s.requests| && s.requests[r].phase.Uncounting?
      ensures Named(s.stats.inflight, s.requests[r].key) > 0
    {
      ReleaseFindsItsCount(s, r);
    }
  }

  /** An action in which a request for `key` asks for a permit and finds none. */
  predicate Refuses(s: State, a: Action, key: string) {
    && a.Advance? && a.r < |s.requests|
    && s.requests[a.r].key == key && s.requests[a.r].phase.Trying?
    && a.r < |Step(s, a).requests| && Step(s, a).requests[a.r].phase.Refused?
  }

  /** The refusals for `key` in a run. */
  function Refusals(s: State, actions: seq<Action>, key: string): nat {
    if actions == [] then 0
    else
      var before := actions[..|actions| - 1];
      Refusals(s, before, key) + (if Refuses(Run(s, before), actions[|actions| - 1], key) then 1 else 0)
  }

  /** Refusals for `key` that are counted or about to be. */
  function RefusalsSeen(s: State, key: string): int {
    Named(s.stats.rejectedByName, key) + Sum(s.requests, RefusalPending(key))
  }

  /** A step of an acquisition leaves the refusals alone, and only one from `Trying` refuses. */
  lemma {:induction false} AcquireOutcome(s: State, r: nat)
    requires r < |s.requests| && Acquiring(s.requests[r].phase)
    ensures
      var next := AcquireStep(s, r, s.requests[r].key, s.requests[r].phase);
      && next.stats.rejectedByName == s.stats.rejectedByName
      && |next.requests| == |s.requests|
      && (next.requests[r].phase.Refused? ==> s.requests[r].phase.Trying?)
  {
  }

  /** Of the other steps only the one from `Refused` counts, and none refuses. */
  lemma {:induction false} DropOutcome(s: State, r: nat)
    requires r < |s.requests| && !Acquiring(s.requests[r].phase)
    ensures
      var Request(k, phase) := s.requests[r];
      var next := DropStep(s, r, k, phase);
      && next.stats.rejectedByName ==
           (if phase.Refused? then IncrementNamed(s.stats.rejectedByName, k) else s.stats.rejectedByName)
      && |next.requests| == |s.requests|
      && !next.requests[r].phase.Refused?
  {
    match s.requests[r].phase
    case Refused(_) =>
    case _ =>
  }

  lemma {:induction false} MovedSum(s: State, next: State, r: nat, m: Measure)
    requires r < |s.requests| && MovesOnly(s, next, r)
    ensures Sum(next.requests, m) == Sum(s.requests, m) - Weight(m, s.requests[r]) + Weight(m, next.requests[r])
  {
    SumUpdate(s.requests, r, next.requests[r], m);
  }

  lemma {:induction false} AcquireCountsRefusals(s: State, r: nat, key: string)
    requires r < |s.requests| && Acquiring(s.requests[r].phase)
    ensures RefusalsSeen(AdvanceStep(s, r), key) ==
              RefusalsSeen(s, key) + (if Refuses(s, Advance(r), key) then 1 else 0)
  {
    AcquireOutcome(s, r);
    AcquireMovesOnly(s, r);
    MovedSum(s, AcquireStep(s, r, s.requests[r].key, s.requests[r].phase), r, RefusalPending(key));
  }

  lemma {:induction false} DropCountsRefusals(s: State, r: nat, key: string)
    requires r < |s.requests| && !Acquiring(s.requests[r].phase)
    ensures RefusalsSeen(AdvanceStep(s, r), key) == RefusalsSeen(s, key) && !Refuses(s, Advance(r), key)
  {
    DropOutcome(s, r);
    DropMovesOnly(s, r);
    MovedSum(s, DropStep(s, r, s.requests[r].key, s.requests[r].phase), r, RefusalPending(key));
  }

  lemma {:induction false} StepCountsRefusals(s: State, a: Action, key: string)
    ensures RefusalsSeen(Step(s, a), key) == RefusalsSeen(s, key) + (if Refuses(s, a, key) then 1 else 0)
  {
    match a
    case Begin(k) => assert Step(s, a).requests[..|s.requests|] == s.requests;
    case Advance(r) =>
      if r < |s.requests| {
        if Acquiring(s.requests[r].phase) {
          AcquireCountsRefusals(s, r, key);
        } else {
          DropCountsRefusals(s, r, key);
        }
      }
    case SetLimit(_, _) =>
    case SetAllLimits(_) =>
  }

  /** In every run the statistic for a backend, with the requests about to be counted, is the number of
      requests that were refused; the totals are the sum over all backends. */
  lemma {:induction false} RefusalsExact(defaultLimit: nat, actions: seq<Action>, key: string)
    ensures
      var s := Run(Init(defaultLimit), actions);
      && Named(s.stats.rejectedByName, key) + Sum(s.requests, RefusalPending(key)) ==
           Refusals(Init(defaultLimit), actions, key)
      && s.stats.rejectedTotal == s.stats.rejectedBackendTotal == Total(s.stats.rejectedByName)
  {
    RunKeepsInv(defaultLimit, actions);
    if actions != [] {
      var before := actions[..|actions| - 1];
      RefusalsExact(defaultLimit, before, key);
      StepCountsRefusals(Run(Init(defaultLimit), before), actions[|actions| - 1], key);
    }
  }

  /** No request is inside an acquire or a drop. */
  ghost predicate Quiescent(s: State) {
    forall q :: q in s.requests ==> q.phase.Holding? || q.phase.Finished? || q.phase.Unguarded?
  }

  lemma {:induction false} QuiescentStatistic(defaultLimit: nat, actions: seq<Action>, key: string)
    requires Quiescent(Run(Init(defaultLimit), actions))
    ensures
      var s := Run(Init(defaultLimit), actions);
      Named(s.stats.inflight, key) == Sum(s.requests, LivePermits(key))
  {
    StatisticsExact(defaultLimit, actions, key);
    var s := Run(Init(defaultLimit), actions);
    SumZero(s.requests, NotYetCounted(key));
    SumZero(s.requests, NotYetUncounted(key));
  }

  // ------------------------------------------------------------------------------------------
  // Limit changes
  // ------------------------------------------------------------------------------------------

  /** `next` differs from `s` in the phase of request `r` only, as far as requests and limits go, and
      that request remembers no new limit. */
  ghost predicate MovesOnly(s: State, next: State, r: nat)
    requires r < |s.requests|
  {
    && next.limits == s.limits && next.defaultLimit == s.defaultLimit
    && |next.requests| == |s.requests| && next.requests == s.requests[r := next.requests[r]]
    && next.requests[r].key == s.requests[r].key
    && (RemembersLimit(next.requests[r].phase) ==>
          RemembersLimit(s.requests[r].phase) && next.requests[r].phase.limit == s.requests[r].phase.limit)
    && (Pending(next.requests[r].phase) ==> Pending(s.requests[r].phase))
  }

  /** The request has read its limit and not reached a semaphore yet. */
  predicate Pending(p: Phase) { p.Searching? || p.Inserting? }

  lemma {:induction false} AcquireMovesOnly(s: State, r: nat)
    requires r < |s.requests| && Acquiring(s.requests[r].phase)
    ensures MovesOnly(s, AcquireStep(s, r, s.requests[r].key, s.requests[r].phase), r)
  {
  }

  lemma {:induction false} DropMovesOnly(s: State, r: nat)
    requires r < |s.requests| && !Acquiring(s.requests[r].phase)
    ensures MovesOnly(s, DropStep(s, r, s.requests[r].key, s.requests[r].phase), r)
  {
  }

  /** Advancing a request changes no other request and no limit. */
  lemma {:induction false} AdvanceMovesOnly(s: State, r: nat)
    requires r < |s.requests|
    ensures MovesOnly(s, AdvanceStep(s, r), r)
  {
    if Acquiring(s.requests[r].phase) {
      AcquireMovesOnly(s, r);
    } else {
      DropMovesOnly(s, r);
    }
  }

  /** The limit of a backend that was set last in a run; the default where none was, or where the last list
      of all limits does not have it. */
  function LastSet(defaultLimit: nat, actions: seq<Action>, key: string): nat {
    if actions == [] then defaultLimit
    else
      var before := actions[..|actions| - 1];
      match actions[|actions| - 1]
      case SetLimit(k, limit) => if k == key then limit else LastSet(defaultLimit, before, key)
      case SetAllLimits(limits) => if key in limits then limits[key] else defaultLimit
      case _ => LastSet(defaultLimit, before, key)
  }

  lemma {:induction false} LimitIsLastSet(defaultLimit: nat, actions: seq<Action>, key: string)
    ensures LimitFor(Run(Init(defaultLimit), actions), key) == LastSet(defaultLimit, actions, key)
    ensures Run(Init(defaultLimit), actions).defaultLimit == defaultLimit
  {
    if actions != [] {
      var before, a := actions[..|actions| - 1], actions[|actions| - 1];
      var s := Run(Init(defaultLimit), before);
      LimitIsLastSet(defaultLimit, before, key);
      if a.Advance? && a.r < |s.requests| {
        AdvanceMovesOnly(s, a.r);
      }
    }
  }

  /** In every run a new request goes without a permit exactly when it has no name or the limit set last is
      zero; otherwise it keeps that limit. */
  lemma {:induction false} BeginsUnderLastSet(defaultLimit: nat, actions: seq<Action>, key: string)
    ensures
      var s, limit := Run(Init(defaultLimit), actions), LastSet(defaultLimit, actions, key);
      Step(s, Begin(key)).requests == s.requests +
        [Request(key, if key == "" || limit == 0 then Unguarded else Searching(limit))]
  {
    LimitIsLastSet(defaultLimit, actions, key);
  }

  /** Semaphores keep their key and capacity; a new one takes the limit of its creator. */
  lemma {:induction false} StepKeepsCapacities(s: State, r: nat)
    requires r < |s.requests|
    ensures |s.sems| <= |AdvanceStep(s, r).sems|
    ensures forall i :: 0 <= i < |s.sems| ==>
              AdvanceStep(s, r).sems[i].key == s.sems[i].key && AdvanceStep(s, r).sems[i].capacity == s.sems[i].capacity
    ensures forall i :: |s.sems| <= i < |AdvanceStep(s, r).sems| ==>
              && s.requests[r].phase.Inserting?
              && AdvanceStep(s, r).sems[i].key == s.requests[r].key
              && AdvanceStep(s, r).sems[i].capacity == s.requests[r].phase.limit
  {
    match s.requests[r].phase
    case Searching(_) =>
    case Inserting(_) =>
    case Looked(_, _) =>
    case Trying(_, _) =>
    case Acquired(_, _) =>
    case Counted(_, _) =>
    case Holding(_, _) =>
    case Refused(_) =>
    case RefusalCounted(_) =>
    case Released(_, _) =>
    case Uncounting(_) =>
    case Cleaning(_) =>
    case Unguarded =>
    case Finished =>
  }

  predicate RemembersLimit(p: Phase) {
    !p.Refused? && !p.RefusalCounted? && !p.Unguarded? && !p.Finished?
  }

  /** Clean-up removes the entry exactly when no request owns a handle on the semaphore and the
      limit remembered by the permit is the capacity the semaphore was created with. */
  lemma {:induction false} CleanupRemovesExactly(s: State, key: string, limit: nat)
    requires Inv(s) && key in s.entries
    ensures CleanupRemoves(s, key, limit) <==>
      && (forall r :: 0 <= r < |s.requests| ==> !RefersTo(s.requests[r].phase, s.entries[key]))
      && limit == s.sems[s.entries[key]].capacity
  {
    var i := s.entries[key];
    if forall r :: 0 <= r < |s.requests| ==> !RefersTo(s.requests[r].phase, i) {
      SumZero(s.requests, Handles(i));
      SumZero(s.requests, Permits(i));
    }
    if CleanupRemoves(s, key, limit) {
      OnlyTheMapRefers(s, key);
      SumZero(s.requests, Permits(i));
    }
  }

  /** A backend whose semaphore has a capacity that no request and no setting mentions any more. */
  ghost predicate Stale(s: State, key: string) {
    && key in s.entries && s.entries[key] < |s.sems|
    && LimitFor(s, key) != s.sems[s.entries[key]].capacity
    && forall r :: 0 <= r < |s.requests| && s.requests[r].key == key && RemembersLimit(s.requests[r].phase) ==>
         s.requests[r].phase.limit != s.sems[s.entries[key]].capacity
  }

  lemma {:induction false} AcquireEntries(s: State, r: nat)
    requires r < |s.requests| && Acquiring(s.requests[r].phase)
    ensures
      var Request(key, phase) := s.requests[r];
      AcquireStep(s, r, key, phase).entries ==
        if phase.Inserting? && key !in s.entries then s.entries[key := |s.sems|] else s.entries
  {
  }

  lemma {:induction false} DropEntries(s: State, r: nat)
    requires r < |s.requests| && !Acquiring(s.requests[r].phase)
    ensures
      var Request(key, phase) := s.requests[r];
      DropStep(s, r, key, phase).entries ==
        if phase.Cleaning? && CleanupRemoves(s, key, phase.limit) then s.entries - {key} else s.entries
  {
  }

  /** The map changes only when a semaphore is created or the last permit cleans up. */
  lemma {:induction false} AdvanceEntries(s: State, r: nat)
    requires r < |s.requests|
    ensures
      var Request(key, phase) := s.requests[r];
      AdvanceStep(s, r).entries ==
        if phase.Inserting? && key !in s.entries then s.entries[key := |s.sems|]
        else if phase.Cleaning? && CleanupRemoves(s, key, phase.limit) then s.entries - {key}
        else s.entries
  {
    if Acquiring(s.requests[r].phase) {
      AcquireEntries(s, r);
    } else {
      DropEntries(s, r);
    }
  }

  lemma {:induction false} StepKeepsStale(s: State, a: Action, key: string)
    requires Inv(s) && Stale(s, key)
    requires LimitFor(Step(s, a), key) != s.sems[s.entries[key]].capacity
    ensures Stale(Step(s, a), key)
    ensures Step(s, a).entries[key] == s.entries[key]
    ensures Step(s, a).sems[s.entries[key]].capacity == s.sems[s.entries[key]].capacity
  {
    if a.Advance? && a.r < |s.requests| {
      AdvanceMovesOnly(s, a.r);
      StepKeepsCapacities(s, a.r);
      if s.requests[a.r].phase.Cleaning? && s.requests[a.r].key == key {
        CleanupRemovesExactly(s, key, s.requests[a.r].phase.limit);
      }
      AdvanceEntries(s, a.r);
    }
  }

  /** The configured limit never equals the stale capacity along a run. */
  ghost predicate LimitStaysAway(s: State, actions: seq<Action>, key: string, capacity: nat) {
    forall n :: 0 <= n <= |actions| ==> LimitFor(Run(s, actions[..n]), key) != capacity
  }

  /** Once stale, a backend keeps its old capacity for ever: a changed limit is never applied
      unless the limit returns to the old value. */
  lemma {:induction false} StaleForever(s: State, actions: seq<Action>, key: string)
    requires Inv(s) && Stale(s, key)
    requires LimitStaysAway(s, actions, key, s.sems[s.entries[key]].capacity)
    ensures Inv(Run(s, actions)) && Stale(Run(s, actions), key)
    ensures Run(s, actions).entries[key] == s.entries[key]
    ensures Run(s, actions).sems[s.entries[key]].capacity == s.sems[s.entries[key]].capacity
  {
    if actions != [] {
      var n := |actions| - 1;
      var before := actions[..n];
      assert actions[..n + 1] == actions;
      assert forall k :: 0 <= k <= n ==> before[..k] == actions[..k];
      StaleForever(s, before, key);
      StepKeepsInv(Run(s, before), actions[n]);
      StepKeepsStale(Run(s, before), actions[n], key);
    }
  }

  /** A permit is granted exactly while the live permits are below the capacity in the map. */
  lemma {:induction false} AdmissionExact(s: State, r: nat, key: string, i: nat, limit: nat)
    requires Inv(s) && r < |s.requests| && s.requests[r] == Request(key, Trying(i, limit))
    ensures key in s.entries && s.entries[key] == i
    ensures TryStep(s, r, i, limit).requests[r].phase.Acquired? <==>
            Sum(s.requests, LivePermits(key)) < s.sems[i].capacity
  {
    assert RefersTo(s.requests[r].phase, i);
    EntryPermits(s, key);
  }
}
