/**
 Per-tenant quotas kept in fixed windows: counters that reset when their window has passed.
 Times are nanoseconds.
 */
module TenantQuota {
  import opened Ints
  import opened History

  const CLEANUP_INTERVAL: nat := 1000

  /** Zero means no limit. */
  datatype Quota = Quota(tokensPerMinute: u64, tokensPerDay: u64, requestsPerMinute: u64)

  datatype QuotaState = QuotaState(minuteTokens: u64, dayTokens: u64, minuteRequests: u64,
                                   minuteReset: nat, dayReset: nat)

  function NewState(now: nat): QuotaState { QuotaState(0, 0, 0, now + MINUTE, now + DAY) }

  /** Resets of expired windows. */
  function Rolled(s: QuotaState, now: nat): QuotaState {
    var m := if now >= s.minuteReset
             then s.(minuteTokens := 0, minuteRequests := 0, minuteReset := now + MINUTE) else s;
    if now >= m.dayReset then m.(dayTokens := 0, dayReset := now + DAY) else m
  }

  predicate Exceeds(limit: nat, used: nat) { limit > 0 && used > limit }

  function Consumed(q: Quota, before: QuotaState, now: nat, tokens: u64): (QuotaState, bool) {
    var s := Rolled(before, now);
    var s' := s.(minuteTokens := SaturatingAdd(s.minuteTokens, tokens),
                 dayTokens := SaturatingAdd(s.dayTokens, tokens),
                 minuteRequests := SaturatingAdd(s.minuteRequests, 1));
    if Exceeds(q.tokensPerMinute, s'.minuteTokens) || Exceeds(q.tokensPerDay, s'.dayTokens)
       || Exceeds(q.requestsPerMinute, s'.minuteRequests)
    then (s, false)
    else (s', true)
  }

  class TenantQuotaState {
    var minuteTokens: u64
    var dayTokens: u64
    var minuteRequests: u64
    var minuteReset: nat
    var dayReset: nat

    ghost function View(): QuotaState
      reads this
    {
      QuotaState(minuteTokens, dayTokens, minuteRequests, minuteReset, dayReset)
    }

    constructor (now: nat)
      ensures View() == NewState(now)
    {
      minuteTokens, dayTokens, minuteRequests := 0, 0, 0;
      minuteReset, dayReset := now + MINUTE, now + DAY;
    }

    method Consume(q: Quota, now: nat, tokens: u64) returns (ok: bool)
      modifies this
      ensures (View(), ok) == Consumed(q, old(View()), now, tokens)
      ensures !ok ==> View() == Rolled(old(View()), now)
    {
      if now >= minuteReset {
        minuteTokens, minuteRequests := 0, 0;
        minuteReset := now + MINUTE;
      }
      if now >= dayReset {
        dayTokens := 0;
        dayReset := now + DAY;
      }
      var newMinuteTokens := SaturatingAdd(minuteTokens, tokens);
      var newDayTokens := SaturatingAdd(dayTokens, tokens);
      var newMinuteRequests := SaturatingAdd(minuteRequests, 1);
      if q.tokensPerMinute > 0 && newMinuteTokens > q.tokensPerMinute {
        return false;
      }
      if q.tokensPerDay > 0 && newDayTokens > q.tokensPerDay {
        return false;
      }
      if q.requestsPerMinute > 0 && newMinuteRequests > q.requestsPerMinute {
        return false;
      }
      minuteTokens, dayTokens, minuteRequests := newMinuteTokens, newDayTokens, newMinuteRequests;
      ok := true;
    }
  }

  // ------------------------------------------------------------------------------------------
  // The manager
  // ------------------------------------------------------------------------------------------

  /** A quota check: `seen` is the clock when a missing state is created, `now` when it is used. */
  datatype QuotaCheck = QuotaCheck(id: string, tokens: u64, seen: nat, now: nat)

  datatype Manager = Manager(states: map<string, QuotaState>, checks: nat)

  predicate Unlimited(q: Quota) {
    q.tokensPerMinute == 0 && q.tokensPerDay == 0 && q.requestsPerMinute == 0
  }

  /** Every thousandth check drops the states of tenants that are not registered. */
  function MaybeCleanup(tenants: map<string, Quota>, m: Manager): Manager {
    var states := if m.checks % CLEANUP_INTERVAL == 0
                  then map id | id in m.states && id in tenants :: m.states[id] else m.states;
    Manager(states, (m.checks + 1) % (U64_MAX + 1))
  }

  function CheckQuota(tenants: map<string, Quota>, before: Manager, e: QuotaCheck): (Manager, bool) {
    if e.id !in tenants then (before, false)
    else if Unlimited(tenants[e.id]) then (before, true)
    else
      var m := MaybeCleanup(tenants, before);
      var s := if e.id in m.states then m.states[e.id] else NewState(e.seen);
      var (s', ok) := Consumed(tenants[e.id], s, e.now, e.tokens);
      (m.(states := m.states[e.id := s']), ok)
  }

  function Run(tenants: map<string, Quota>, events: seq<QuotaCheck>): Manager {
    if events == [] then Manager(map[], 0)
    else CheckQuota(tenants, Run(tenants, events[..|events| - 1]), events[|events| - 1]).0
  }

  /** Everything a run has admitted for a tenant: with its tokens, or as requests of weight one. */
  ghost function Admitted(tenants: map<string, Quota>, events: seq<QuotaCheck>, id: string, asRequests: bool)
    : seq<Entry>
  {
    if events == [] then []
    else
      var before := events[..|events| - 1];
      var e := events[|events| - 1];
      var h := Admitted(tenants, before, id, asRequests);
      if e.id == id && CheckQuota(tenants, Run(tenants, before), e).1
      then h + [Entry(e.now, if asRequests then 1 else e.tokens)] else h
  }

  ghost predicate Monotone(events: seq<QuotaCheck>) {
    && (forall i :: 0 <= i < |events| ==> events[i].seen <= events[i].now)
    && (forall i, j :: 0 <= i < j < |events| ==> events[i].now <= events[j].seen)
  }

  function Clock(events: seq<QuotaCheck>): nat { if events == [] then 0 else events[|events| - 1].now }

  // ------------------------------------------------------------------------------------------
  // One counter with a fixed window
  // ------------------------------------------------------------------------------------------

  /** What was admitted in the closed interval of length `len` that starts at `t`. */
  function InInterval(h: seq<Entry>, t: int, len: nat): nat { SumWithin(h, t, t + len) }

  /** How many windows it takes to cover a duration. */
  function Windows(d: int, window: nat): nat
    requires window > 0
    decreases d
  {
    if d <= 0 then 0 else 1 + Windows(d - window, window)
  }

  lemma {:induction false} WindowsMonotone(d: int, e: int, window: nat)
    requires window > 0 && d <= e
    ensures Windows(d, window) <= Windows(e, window)
    decreases d
  {
    if d > 0 {
      WindowsMonotone(d - window, e - window, window);
    }
  }

  lemma {:induction false} WindowsWithin(d: int, window: nat, k: nat)
    requires window > 0 && d <= Times(k, window)
    ensures Windows(d, window) <= k
  {
    if k > 0 && d > 0 {
      WindowsWithin(d - window, window, k - 1);
    }
  }

  /** What a closed interval of `k` windows that starts at `t` holds at most when the current window
      began at `start`: the counter if it starts inside; one full quota more for each window that
      fits in before `start`; a full quota for each of `k + 1` windows if it is over. */
  function Allowance(used: nat, start: int, limit: nat, t: int, window: nat, k: nat): nat
    requires window > 0
  {
    if start <= t then used
    else if start <= t + Times(k, window) then used + Times(Windows(start - t, window), limit)
    else Times(k + 1, limit)
  }

  lemma {:induction false} AllowanceBound(used: nat, start: int, limit: nat, t: int, window: nat, k: nat)
    requires window > 0 && used <= limit
    ensures Allowance(used, start, limit, t, window, k) <= Times(k + 1, limit)
  {
    TimesMonotone(0, k, limit);
    if t < start <= t + Times(k, window) {
      WindowsWithin(start - t, window, k);
      TimesMonotone(Windows(start - t, window), k, limit);
    }
  }

  /** A new window begins when the old one is over. */
  lemma {:induction false} RollAllowance(used: nat, start: int, limit: nat, t: int, window: nat, k: nat, now: int)
    requires window > 0 && used <= limit && start + window <= now && t < now
    ensures Allowance(used, start, limit, t, window, k) <= Allowance(0, now, limit, t, window, k)
  {
    if now > t + Times(k, window) {
      AllowanceBound(used, start, limit, t, window, k);
    } else {
      WindowsMonotone(start - t, now - t - window, window);
      TimesMonotone(Windows(start - t, window) + 1, Windows(now - t, window), limit);
      TimesMonotone(1, Windows(now - t, window), limit);
    }
  }

  ghost predicate Covered(h: seq<Entry>, used: nat, reset: int, window: nat, limit: nat, now: nat, k: nat)
    requires window > 0
  {
    && used == InInterval(h, reset - window, window) <= limit
    && reset - window <= now
    && (forall i :: 0 <= i < |h| ==> h[i].at <= now && h[i].at < reset)
    && (forall t: int :: InInterval(h, t, Times(k, window)) <= Allowance(used, reset - window, limit, t, window, k))
  }

  lemma {:induction false} NothingBefore(h: seq<Entry>, t: int, len: nat)
    requires forall i :: 0 <= i < |h| ==> h[i].at < t
    ensures InInterval(h, t, len) == 0
  {
    if h != [] {
      NothingBefore(h[..|h| - 1], t, len);
    }
  }

  lemma {:induction false} RollCovers(h: seq<Entry>, used: nat, reset: int, window: nat, limit: nat, was: nat,
                                      now: nat, k: nat)
    requires window > 0 && Covered(h, used, reset, window, limit, was, k) && was <= now && reset <= now
    ensures Covered(h, 0, now + window, window, limit, now, k)
  {
    NothingBefore(h, now, window);
    forall t: int ensures InInterval(h, t, Times(k, window)) <= Allowance(0, now, limit, t, window, k) {
      if now <= t {
        NothingBefore(h, t, Times(k, window));
      } else {
        RollAllowance(used, reset - window, limit, t, window, k, now);
      }
    }
  }

  lemma {:induction false} AcceptCovers(h: seq<Entry>, used: nat, reset: int, window: nat, limit: nat, now: nat,
                                        n: u64, k: nat)
    requires window > 0 && Covered(h, used, reset, window, limit, now, k) && now < reset && used + n <= limit
    ensures Covered(h + [Entry(now, n)], used + n, reset, window, limit, now, k)
  {
    var e := Entry(now, n);
    SumWithinAppend(h, e, reset - window, reset);
    forall t: int
      ensures InInterval(h + [e], t, Times(k, window)) <= Allowance(used + n, reset - window, limit, t, window, k)
    {
      SumWithinAppend(h, e, t, t + Times(k, window));
      assert InInterval(h, t, Times(k, window)) <= Allowance(used, reset - window, limit, t, window, k);
    }
  }

  lemma {:induction false} FreshCovers(window: nat, limit: nat, seen: nat, now: nat, k: nat)
    requires window > 0 && seen <= now
    ensures Covered([], 0, seen + window, window, limit, now, k)
  {
    forall t: int ensures InInterval([], t, Times(k, window)) == 0 {}
  }

  // ------------------------------------------------------------------------------------------
  // The run invariant
  // ------------------------------------------------------------------------------------------

  /** A limit that can be enforced exactly in 64 bits. */
  predicate Enforced(limit: nat) { 0 < limit < U64_MAX }

  ghost predicate StateCovers(q: Quota, s: QuotaState, tokens: seq<Entry>, requests: seq<Entry>, now: nat, k: nat) {
    && (Enforced(q.tokensPerMinute) ==>
          Covered(tokens, s.minuteTokens, s.minuteReset, MINUTE, q.tokensPerMinute, now, k))
    && (Enforced(q.requestsPerMinute) ==>
          Covered(requests, s.minuteRequests, s.minuteReset, MINUTE, q.requestsPerMinute, now, k))
    && (Enforced(q.tokensPerDay) ==>
          Covered(tokens, s.dayTokens, s.dayReset, DAY, q.tokensPerDay, now, k))
  }

  lemma {:induction false} RolledCovers(q: Quota, s: QuotaState, tokens: seq<Entry>, requests: seq<Entry>, was: nat,
                                        now: nat, k: nat)
    requires StateCovers(q, s, tokens, requests, was, k) && was <= now
    ensures StateCovers(q, Rolled(s, now), tokens, requests, now, k)
    ensures now < Rolled(s, now).minuteReset && now < Rolled(s, now).dayReset
  {
    if Enforced(q.tokensPerMinute) && now >= s.minuteReset {
      RollCovers(tokens, s.minuteTokens, s.minuteReset, MINUTE, q.tokensPerMinute, was, now, k);
    }
    if Enforced(q.requestsPerMinute) && now >= s.minuteReset {
      RollCovers(requests, s.minuteRequests, s.minuteReset, MINUTE, q.requestsPerMinute, was, now, k);
    }
    if Enforced(q.tokensPerDay) && now >= s.dayReset {
      RollCovers(tokens, s.dayTokens, s.dayReset, DAY, q.tokensPerDay, was, now, k);
    }
  }

  lemma {:induction false} CounterAccepts(h: seq<Entry>, used: u64, reset: int, window: nat, limit: nat, now: nat,
                                          n: u64, k: nat)
    requires window > 0 && (Enforced(limit) ==> Covered(h, used, reset, window, limit, now, k))
    requires now < reset && !Exceeds(limit, SaturatingAdd(used, n))
    ensures Enforced(limit) ==> Covered(h + [Entry(now, n)], SaturatingAdd(used, n), reset, window, limit, now, k)
  {
    if Enforced(limit) {
      AcceptCovers(h, used, reset, window, limit, now, n, k);
    }
  }

  lemma {:induction false} AcceptedCovers(q: Quota, r: QuotaState, s: QuotaState, tokens: seq<Entry>,
                                          requests: seq<Entry>, now: nat, n: u64, k: nat)
    requires StateCovers(q, r, tokens, requests, now, k) && now < r.minuteReset && now < r.dayReset
    requires s == r.(minuteTokens := SaturatingAdd(r.minuteTokens, n), dayTokens := SaturatingAdd(r.dayTokens, n),
                     minuteRequests := SaturatingAdd(r.minuteRequests, 1))
    requires !Exceeds(q.tokensPerMinute, s.minuteTokens) && !Exceeds(q.tokensPerDay, s.dayTokens)
             && !Exceeds(q.requestsPerMinute, s.minuteRequests)
    ensures StateCovers(q, s, tokens + [Entry(now, n)], requests + [Entry(now, 1)], now, k)
  {
    CounterAccepts(tokens, r.minuteTokens, r.minuteReset, MINUTE, q.tokensPerMinute, now, n, k);
    CounterAccepts(requests, r.minuteRequests, r.minuteReset, MINUTE, q.requestsPerMinute, now, 1, k);
    CounterAccepts(tokens, r.dayTokens, r.dayReset, DAY, q.tokensPerDay, now, n, k);
  }

  lemma {:induction false} ConsumedCovers(q: Quota, s: QuotaState, tokens: seq<Entry>, requests: seq<Entry>, was: nat,
                                          now: nat, n: u64, k: nat)
    requires StateCovers(q, s, tokens, requests, was, k) && was <= now
    ensures
      var (s', ok) := Consumed(q, s, now, n);
      if ok then StateCovers(q, s', tokens + [Entry(now, n)], requests + [Entry(now, 1)], now, k)
      else StateCovers(q, s', tokens, requests, now, k)
  {
    RolledCovers(q, s, tokens, requests, was, now, k);
    if Consumed(q, s, now, n).1 {
      AcceptedCovers(q, Rolled(s, now), Consumed(q, s, now, n).0, tokens, requests, now, n, k);
    }
  }

  lemma {:induction false} FreshStateCovers(q: Quota, seen: nat, now: nat, k: nat)
    requires seen <= now
    ensures StateCovers(q, NewState(seen), [], [], now, k)
  {
    FreshCovers(MINUTE, q.tokensPerMinute, seen, now, k);
    FreshCovers(MINUTE, q.requestsPerMinute, seen, now, k);
    FreshCovers(DAY, q.tokensPerDay, seen, now, k);
  }

  lemma {:induction false} WaitStateCovers(q: Quota, s: QuotaState, tokens: seq<Entry>, requests: seq<Entry>,
                                           was: nat, now: nat, k: nat)
    requires StateCovers(q, s, tokens, requests, was, k) && was <= now
    ensures StateCovers(q, s, tokens, requests, now, k)
  {
  }

  ghost predicate RunInv(tenants: map<string, Quota>, events: seq<QuotaCheck>, id: string, k: nat) {
    var m := Run(tenants, events);
    && m.states.Keys <= tenants.Keys
    && (id in tenants && !Unlimited(tenants[id]) ==>
          if id in m.states
          then StateCovers(tenants[id], m.states[id], Admitted(tenants, events, id, false),
                           Admitted(tenants, events, id, true), Clock(events), k)
          else Admitted(tenants, events, id, false) == Admitted(tenants, events, id, true) == [])
  }

  lemma {:induction false} RunKeepsInv(tenants: map<string, Quota>, events: seq<QuotaCheck>, id: string, k: nat)
    requires Monotone(events)
    ensures RunInv(tenants, events, id, k)
  {
    if events != [] {
      var n := |events| - 1;
      var before := events[..n];
      var e := events[n];
      RunKeepsInv(tenants, before, id, k);
      var m := Run(tenants, before);
      var tokens, requests := Admitted(tenants, before, id, false), Admitted(tenants, before, id, true);
      CleanupKeepsEverything(tenants, m);
      if id in tenants && !Unlimited(tenants[id]) {
        if e.id == id {
          if id in m.states {
            ConsumedCovers(tenants[id], m.states[id], tokens, requests, Clock(before), e.now, e.tokens, k);
          } else {
            FreshStateCovers(tenants[id], e.seen, e.seen, k);
            ConsumedCovers(tenants[id], NewState(e.seen), [], [], e.seen, e.now, e.tokens, k);
          }
        } else if id in m.states {
          WaitStateCovers(tenants[id], m.states[id], tokens, requests, Clock(before), e.now, k);
        }
      }
    }
  }

  // ------------------------------------------------------------------------------------------
  // What holds in every run
  // ------------------------------------------------------------------------------------------

  /** Every thousandth counted check drops exactly the states of tenants that are not registered; the count
      wraps around in 64 bits. */
  lemma {:induction false} CleanupExact(tenants: map<string, Quota>, m: Manager, id: string)
    requires m.checks <= 0xffff_ffff_ffff_ffff
    ensures id in MaybeCleanup(tenants, m).states <==> id in m.states && (id in tenants || m.checks % 1000 != 0)
    ensures id in MaybeCleanup(tenants, m).states ==> MaybeCleanup(tenants, m).states[id] == m.states[id]
    ensures MaybeCleanup(tenants, m).checks == if m.checks == 0xffff_ffff_ffff_ffff then 0 else m.checks + 1
  {
  }

  /** Clean-up discards nothing as long as only registered tenants have a state. */
  lemma {:induction false} CleanupKeepsEverything(tenants: map<string, Quota>, m: Manager)
    requires m.states.Keys <= tenants.Keys
    ensures MaybeCleanup(tenants, m).states == m.states
  {
  }

  /** In every run the periodic clean-up discards no state at all, so no registered tenant's. */
  lemma {:induction false} CleanupNeverDiscards(tenants: map<string, Quota>, events: seq<QuotaCheck>)
    requires Monotone(events)
    ensures MaybeCleanup(tenants, Run(tenants, events)).states == Run(tenants, events).states
  {
    RunKeepsInv(tenants, events, "", 1);
    CleanupKeepsEverything(tenants, Run(tenants, events));
  }

  lemma {:induction false} CoveredBound(h: seq<Entry>, used: nat, reset: int, window: nat, limit: nat, now: nat,
                                        t: int, k: nat)
    requires window > 0 && Covered(h, used, reset, window, limit, now, k)
    ensures SumWithin(h, t, t + k * window) <= (k + 1) * limit
  {
    assert InInterval(h, t, Times(k, window)) <= Allowance(used, reset - window, limit, t, window, k);
    AllowanceBound(used, reset - window, limit, t, window, k);
    TimesIsProduct(k, window);
    TimesIsProduct(k + 1, limit);
  }

  lemma {:induction false} NothingAdmitted(lo: int, hi: int)
    ensures SumWithin([], lo, hi) == 0
  {
  }

  /** In every run over all tenants, any closed interval of `k` windows admits at most `k + 1` times
      the quota of one window. */
  lemma {:induction false} QuotaOverWindows(tenants: map<string, Quota>, events: seq<QuotaCheck>, id: string, t: int,
                                            k: nat)
    requires Monotone(events) && id in tenants
    ensures Enforced(tenants[id].tokensPerMinute) ==>
              InInterval(Admitted(tenants, events, id, false), t, k * MINUTE) <= (k + 1) * tenants[id].tokensPerMinute
    ensures Enforced(tenants[id].requestsPerMinute) ==>
              InInterval(Admitted(tenants, events, id, true), t, k * MINUTE) <= (k + 1) * tenants[id].requestsPerMinute
    ensures Enforced(tenants[id].tokensPerDay) ==>
              InInterval(Admitted(tenants, events, id, false), t, k * DAY) <= (k + 1) * tenants[id].tokensPerDay
  {
    RunKeepsInv(tenants, events, id, k);
    var q, m := tenants[id], Run(tenants, events);
    if !Unlimited(q) && id in m.states {
      var s := m.states[id];
      var tokens, requests := Admitted(tenants, events, id, false), Admitted(tenants, events, id, true);
      if Enforced(q.tokensPerMinute) {
        CoveredBound(tokens, s.minuteTokens, s.minuteReset, MINUTE, q.tokensPerMinute, Clock(events), t, k);
      }
      if Enforced(q.requestsPerMinute) {
        CoveredBound(requests, s.minuteRequests, s.minuteReset, MINUTE, q.requestsPerMinute, Clock(events), t, k);
      }
      if Enforced(q.tokensPerDay) {
        CoveredBound(tokens, s.dayTokens, s.dayReset, DAY, q.tokensPerDay, Clock(events), t, k);
      }
    } else {
      NothingAdmitted(t, t + k * MINUTE);
      NothingAdmitted(t, t + k * DAY);
    }
  }

  /** So any closed minute (day) admits at most twice the tenant's minute (day) quota. */
  lemma {:induction false} QuotaAtMostDoubled(tenants: map<string, Quota>, events: seq<QuotaCheck>, id: string, t: int)
    requires Monotone(events) && id in tenants
    ensures Enforced(tenants[id].tokensPerMinute) ==>
              InInterval(Admitted(tenants, events, id, false), t, MINUTE) <= 2 * tenants[id].tokensPerMinute
    ensures Enforced(tenants[id].requestsPerMinute) ==>
              InInterval(Admitted(tenants, events, id, true), t, MINUTE) <= 2 * tenants[id].requestsPerMinute
    ensures Enforced(tenants[id].tokensPerDay) ==>
              InInterval(Admitted(tenants, events, id, false), t, DAY) <= 2 * tenants[id].tokensPerDay
  {
    QuotaOverWindows(tenants, events, id, t, 1);
  }
}
