/**
 The health of one endpoint: passive ejection after consecutive request failures, active probe
 health, and the instant from which recovery is measured.  Times are nanoseconds.
 */
module EndpointHealth {
  import opened Wrappers
  import opened Ints
  import opened History

  const EJECTION_FAILURES: nat := 3
  const COOLDOWN: nat := 30 * SECOND
  const MILLI: nat := 1_000_000

  datatype Health = Health(failures: nat, ejectedUntil: Option<nat>, recoveryStart: Option<nat>,
                           activeFailures: nat, activeUnhealthy: bool)

  const HEALTHY: Health := Health(0, None, None, 0, false)

  datatype Event =
    | Failure(now: nat)
    | Success(now: nat)
    | ProbeFailure(threshold: u32, now: nat)
    | ProbeSuccess(now: nat)

  function Increment(n: nat): nat { if n >= U32_MAX then U32_MAX else n + 1 }

  predicate EjectedAt(h: Health, now: nat) { h.ejectedUntil.Some? && h.ejectedUntil.value > now }
  predicate EjectionExpiredAt(h: Health, now: nat) { h.ejectedUntil.Some? && h.ejectedUntil.value <= now }

  function GetOrInsert(o: Option<nat>, now: nat): Option<nat> { if o.Some? then o else Some(now) }

  function AfterFailure(before: Health, now: nat): Health {
    var h := if EjectionExpiredAt(before, now) then HEALTHY else before;
    var n := Increment(h.failures);
    if n >= EJECTION_FAILURES then
      h.(failures := n, ejectedUntil := Some(now + COOLDOWN),
         recoveryStart := if EjectedAt(h, now) then h.recoveryStart else GetOrInsert(h.recoveryStart, now))
    else h.(failures := n)
  }

  function AfterProbeFailure(h: Health, threshold: u32, now: nat): Health {
    var n := Increment(h.activeFailures);
    if n >= (if threshold < 1 then 1 else threshold) then
      h.(activeFailures := n, activeUnhealthy := true,
         recoveryStart := if h.activeUnhealthy then h.recoveryStart else GetOrInsert(h.recoveryStart, now))
    else h.(activeFailures := n)
  }

  function After(h: Health, e: Event): Health {
    match e
    case Failure(now) => AfterFailure(h, now)
    case Success(_) => HEALTHY
    case ProbeFailure(threshold, now) => AfterProbeFailure(h, threshold, now)
    case ProbeSuccess(_) => HEALTHY
  }

  /** Milliseconds since recovery started, reported by a success. */
  function RecoveryLatency(h: Health, now: nat): Option<nat> {
    if h.recoveryStart.None? then None
    else
      var ms := SaturatingSub(now, h.recoveryStart.value) / MILLI;
      Some(if ms > U64_MAX then U64_MAX else ms)
  }

  function Run(trace: seq<Event>): Health {
    if trace == [] then HEALTHY else After(Run(trace[..|trace| - 1]), trace[|trace| - 1])
  }

  // ------------------------------------------------------------------------------------------
  // The object
  // ------------------------------------------------------------------------------------------

  class EndpointRuntimeState {
    var consecutiveFailures: nat
    var ejectedUntil: Option<nat>
    var recoveryStartedAt: Option<nat>
    var activeConsecutiveFailures: nat
    var activeUnhealthy: bool

    function View(): Health
      reads this
    {
      Health(consecutiveFailures, ejectedUntil, recoveryStartedAt, activeConsecutiveFailures, activeUnhealthy)
    }

    constructor ()
      ensures View() == HEALTHY
    {
      consecutiveFailures, activeConsecutiveFailures := 0, 0;
      ejectedUntil, recoveryStartedAt := None, None;
      activeUnhealthy := false;
    }

    method Reset()
      modifies this
      ensures View() == HEALTHY
    {
      consecutiveFailures, activeConsecutiveFailures := 0, 0;
      ejectedUntil, recoveryStartedAt := None, None;
      activeUnhealthy := false;
    }

    method RecordFailure(now: nat)
      modifies this
      ensures View() == After(old(View()), Failure(now))
    {
      if ejectedUntil.Some? && ejectedUntil.value <= now {
        Reset();
      }
      var wasEjected := ejectedUntil.Some? && ejectedUntil.value > now;
      consecutiveFailures := Increment(consecutiveFailures);
      if consecutiveFailures >= EJECTION_FAILURES {
        if !wasEjected && recoveryStartedAt.None? {
          recoveryStartedAt := Some(now);
        }
        ejectedUntil := Some(now + COOLDOWN);
      }
    }

    method RecordSuccess(now: nat) returns (latency: Option<nat>)
      modifies this
      ensures View() == After(old(View()), Success(now))
      ensures latency == RecoveryLatency(old(View()), now)
    {
      latency := RecoveryLatency(View(), now);
      Reset();
    }

    method RecordActiveProbeSuccess(now: nat) returns (latency: Option<nat>)
      modifies this
      ensures View() == After(old(View()), ProbeSuccess(now))
      ensures latency == RecoveryLatency(old(View()), now)
    {
      latency := RecoveryLatency(View(), now);
      Reset();
    }

    method RecordActiveProbeFailure(threshold: u32, now: nat)
      modifies this
      ensures View() == After(old(View()), ProbeFailure(threshold, now))
    {
      var limit: nat := if threshold < 1 then 1 else threshold;
      var wasUnhealthy := activeUnhealthy;
      activeConsecutiveFailures := Increment(activeConsecutiveFailures);
      if activeConsecutiveFailures >= limit {
        if !wasUnhealthy && recoveryStartedAt.None? {
          recoveryStartedAt := Some(now);
        }
        activeUnhealthy := true;
      }
    }
  }

  // ------------------------------------------------------------------------------------------
  // What a trace says
  // ------------------------------------------------------------------------------------------

  /** Failures at or after index `from`. */
  function CountFailures(trace: seq<Event>, from: nat): nat {
    if |trace| <= from then 0
    else CountFailures(trace[..|trace| - 1], from) + (if trace[|trace| - 1].Failure? then 1 else 0)
  }

  function CountProbeFailures(trace: seq<Event>, from: nat): nat {
    if |trace| <= from then 0
    else CountProbeFailures(trace[..|trace| - 1], from) + (if trace[|trace| - 1].ProbeFailure? then 1 else 0)
  }

  /** The instant of the last request failure. */
  function LastFailure(trace: seq<Event>): nat {
    if trace == [] then 0
    else if trace[|trace| - 1].Failure? then trace[|trace| - 1].now
    else LastFailure(trace[..|trace| - 1])
  }

  /** Where the current streak starts: after the last success of either kind, or at the last
      failure that came when an ejection had already expired. */
  function Epoch(trace: seq<Event>): (start: nat)
    ensures start <= |trace|
  {
    if trace == [] then 0
    else
      var before := trace[..|trace| - 1];
      match trace[|trace| - 1]
      case Success(_) => |trace|
      case ProbeSuccess(_) => |trace|
      case ProbeFailure(_, _) => Epoch(before)
      case Failure(now) =>
        if CountFailures(before, Epoch(before)) >= EJECTION_FAILURES && LastFailure(before) + COOLDOWN <= now
        then |before| else Epoch(before)
  }

  /** Some probe failure since `from` reached the threshold given with it. */
  predicate ProbesTripped(trace: seq<Event>, from: nat) {
    exists j :: from <= j < |trace| && TripsAt(trace, from, j)
  }

  predicate TripsAt(trace: seq<Event>, from: nat, j: nat)
    requires j < |trace|
  {
    && trace[j].ProbeFailure?
    && CountProbeFailures(trace[..j + 1], from) >= (if trace[j].threshold < 1 then 1 else trace[j].threshold)
  }

  /** The endpoint is to be kept out of rotation on account of its streak. */
  predicate Bad(trace: seq<Event>, from: nat) {
    CountFailures(trace, from) >= EJECTION_FAILURES || ProbesTripped(trace, from)
  }

  /** The instant of the first event since `from` that made the endpoint bad. */
  function FirstBad(trace: seq<Event>, from: nat): Option<nat> {
    if |trace| <= from then None
    else
      var before := FirstBad(trace[..|trace| - 1], from);
      if before.Some? then before
      else if Bad(trace, from) then Some(trace[|trace| - 1].now) else None
  }

  function Capped(n: nat): nat { if n > U32_MAX then U32_MAX else n }

  /** The state that a trace calls for. */
  function Expected(trace: seq<Event>): Health {
    var from := Epoch(trace);
    var failures := CountFailures(trace, from);
    Health(Capped(failures),
           if failures >= EJECTION_FAILURES then Some(LastFailure(trace) + COOLDOWN) else None,
           FirstBad(trace, from),
           Capped(CountProbeFailures(trace, from)),
           ProbesTripped(trace, from))
  }

  lemma {:induction false} TrippedExtends(trace: seq<Event>, from: nat)
    requires from < |trace|
    ensures ProbesTripped(trace, from) <==>
            ProbesTripped(trace[..|trace| - 1], from) || TripsAt(trace, from, |trace| - 1)
  {
    var n := |trace| - 1;
    var before := trace[..n];
    forall j | from <= j < n ensures TripsAt(trace, from, j) <==> TripsAt(before, from, j) {
      assert trace[..j + 1] == before[..j + 1];
    }
    if ProbesTripped(before, from) {
      var j :| from <= j < |before| && TripsAt(before, from, j);
      assert TripsAt(trace, from, j);
    }
  }

  lemma {:induction false} FirstBadIffBad(trace: seq<Event>, from: nat)
    ensures FirstBad(trace, from).Some? <==> Bad(trace, from)
  {
    if from < |trace| {
      FirstBadIffBad(trace[..|trace| - 1], from);
      TrippedExtends(trace, from);
    }
  }

  /** A failure inside a streak. */
  lemma {:induction false} FailureInStreak(trace: seq<Event>)
    requires trace != [] && trace[|trace| - 1].Failure? && Epoch(trace) < |trace| - 1
    ensures After(Expected(trace[..|trace| - 1]), trace[|trace| - 1]) == Expected(trace)
  {
    var n := |trace| - 1;
    var before := trace[..n];
    var from := Epoch(trace);
    assert Epoch(before) == from;
    FirstBadIffBad(before, from);
    TrippedExtends(trace, from);
    assert !TripsAt(trace, from, n);
    assert !EjectionExpiredAt(Expected(before), trace[n].now);
  }

  /** A failure that starts a streak: the first event, after a success, or after an expiry. */
  lemma {:induction false} FailureStartsStreak(trace: seq<Event>)
    requires trace != [] && trace[|trace| - 1].Failure? && Epoch(trace) == |trace| - 1
    ensures After(Expected(trace[..|trace| - 1]), trace[|trace| - 1]) == Expected(trace)
  {
    var n := |trace| - 1;
    TrippedExtends(trace, n);
    assert !TripsAt(trace, n, n) && !ProbesTripped(trace[..n], n);
    assert CountFailures(trace, n) == 1 && CountProbeFailures(trace, n) == 0;
    assert FirstBad(trace[..n], n) == None;
    if Epoch(trace[..n]) == n {
      assert Expected(trace[..n]) == HEALTHY;
    } else {
      assert EjectionExpiredAt(Expected(trace[..n]), trace[n].now);
    }
  }

  lemma {:induction false} ProbeFailureExpected(trace: seq<Event>)
    requires trace != [] && trace[|trace| - 1].ProbeFailure?
    ensures After(Expected(trace[..|trace| - 1]), trace[|trace| - 1]) == Expected(trace)
  {
    var n := |trace| - 1;
    var from := Epoch(trace);
    FirstBadIffBad(trace[..n], from);
    TrippedExtends(trace, from);
    assert trace[..n + 1] == trace;
  }

  /** The automaton does what its trace calls for, in every run. */
  lemma {:induction false} RunIsExpected(trace: seq<Event>)
    ensures Run(trace) == Expected(trace)
  {
    if trace == [] {
      assert !ProbesTripped(trace, 0);
    } else {
      RunIsExpected(trace[..|trace| - 1]);
      match trace[|trace| - 1]
      case Failure(_) =>
        if Epoch(trace) == |trace| - 1 {
          FailureStartsStreak(trace);
        } else {
          FailureInStreak(trace);
        }
      case ProbeFailure(_, _) => ProbeFailureExpected(trace);
      case Success(_) => assert !ProbesTripped(trace, |trace|);
      case ProbeSuccess(_) => assert !ProbesTripped(trace, |trace|);
    }
  }

  /** Ejected at `t` exactly when the streak has three failures and the last one is under thirty
      seconds before `t`. */
  lemma {:induction false} EjectedExactly(trace: seq<Event>, t: nat)
    ensures EjectedAt(Run(trace), t) <==>
            CountFailures(trace, Epoch(trace)) >= 3 && t < LastFailure(trace) + 30_000_000_000
  {
    RunIsExpected(trace);
  }

  /** Recovery is being measured exactly when the endpoint carries an ejection deadline or is
      probe-unhealthy, and from the first event that made it so. */
  lemma {:induction false} RecoveryExactly(trace: seq<Event>)
    ensures Run(trace).recoveryStart.Some? <==> Run(trace).ejectedUntil.Some? || Run(trace).activeUnhealthy
    ensures Run(trace).recoveryStart == FirstBad(trace, Epoch(trace))
  {
    RunIsExpected(trace);
    FirstBadIffBad(trace, Epoch(trace));
  }

  /** A success at `now` reports a latency exactly when the streak has made the endpoint bad: the whole
      milliseconds, up to the largest u64, since the first event that did, and zero where the clock is
      behind it. */
  lemma {:induction false} LatencyExactly(trace: seq<Event>, now: nat)
    ensures RecoveryLatency(Run(trace), now).Some? <==> Bad(trace, Epoch(trace))
    ensures Bad(trace, Epoch(trace)) ==>
      var start, ms := FirstBad(trace, Epoch(trace)), RecoveryLatency(Run(trace), now).value;
      && start.Some?
      && (now < start.value ==> ms == 0)
      && (start.value <= now && ms < 0xffff_ffff_ffff_ffff ==>
            ms * 1_000_000 <= now - start.value < (ms + 1) * 1_000_000)
      && (ms >= 0xffff_ffff_ffff_ffff ==>
            ms == 0xffff_ffff_ffff_ffff && ms * 1_000_000 <= now - start.value)
  {
    RecoveryExactly(trace);
    FirstBadIffBad(trace, Epoch(trace));
  }

  /** Three failures at once and a success five seconds later. */
  lemma {:induction false} FiveSecondsToRecover()
    ensures RecoveryLatency(Run([Failure(0), Failure(0), Failure(0)]), 5_000_000_000) == Some(5000)
  {
    var trace := [Failure(0), Failure(0), Failure(0)];
    assert trace[..2][..1][..0] == [];
    assert Run(trace[..2][..1]) == Health(1, None, None, 0, false);
    assert Run(trace[..2]) == Health(2, None, None, 0, false);
    assert Run(trace) == Health(3, Some(COOLDOWN), Some(0), 0, false);
  }

  /** Probe-unhealthy exactly when a probe failure of the current streak reached its threshold. */
  lemma {:induction false} UnhealthyExactly(trace: seq<Event>)
    ensures Run(trace).activeUnhealthy <==> ProbesTripped(trace, Epoch(trace))
  {
    RunIsExpected(trace);
  }

  /** After every trace whose probes have tripped in the current streak, one more request failure clears
      the verdict exactly when the streak has three failures and the cool-down of the last has passed,
      although no probe and no request has succeeded. */
  lemma {:induction false} FailureClearsProbeVerdict(trace: seq<Event>, now: nat)
    requires ProbesTripped(trace, Epoch(trace))
    ensures Run(trace).activeUnhealthy
    ensures !Run(trace + [Failure(now)]).activeUnhealthy <==>
            CountFailures(trace, Epoch(trace)) >= EJECTION_FAILURES && LastFailure(trace) + COOLDOWN <= now
  {
    RunIsExpected(trace);
    assert (trace + [Failure(now)])[..|trace|] == trace;
  }

  /** Three failures and a tripped probe at once; a fourth failure after the cool-down clears the verdict. */
  lemma {:induction false} VerdictLostToAFailure()
    ensures
      var trace := [Failure(0), Failure(0), Failure(0), ProbeFailure(1, 0)];
      Run(trace).activeUnhealthy && !Run(trace + [Failure(COOLDOWN)]).activeUnhealthy
  {
    var trace := [Failure(0), Failure(0), Failure(0), ProbeFailure(1, 0)];
    assert trace[..3][..2][..1][..0] == [] && trace[..3] == [Failure(0), Failure(0), Failure(0)];
    assert Run(trace[..3][..2][..1]) == Health(1, None, None, 0, false);
    assert Run(trace[..3][..2]) == Health(2, None, None, 0, false);
    assert Run(trace[..3]) == Health(3, Some(COOLDOWN), Some(0), 0, false);
    assert Run(trace) == Health(3, Some(COOLDOWN), Some(0), 1, true);
    assert (trace + [Failure(COOLDOWN)])[..4] == trace;
  }

  /** Only a state equal to the initial one counts as default. */
  predicate IsDefault(h: Health) {
    h.failures == 0 && h.ejectedUntil.None? && h.recoveryStart.None? && h.activeFailures == 0 && !h.activeUnhealthy
  }
}
