/** The factor two that bounds a tenant's quotas is reached, and exactly when. */
module QuotaReached {
  import opened Ints
  import opened History
  import opened TenantQuota
  import opened QuotaBounds

  // ------------------------------------------------------------------------------------------
  // Requests and minute tokens
  // ------------------------------------------------------------------------------------------

  /** All requests of one minute at its beginning, and all of the next at its beginning. */
  lemma {:induction false} RequestsDoubled(tenants: map<string, Quota>, id: string) returns (events: seq<QuotaCheck>)
    requires id in tenants && tenants[id].requestsPerMinute > 0
    ensures Monotone(events) && RequestsIn(tenants, events, id, 0, MINUTE) == 2 * tenants[id].requestsPerMinute
  {
    var n := tenants[id].requestsPerMinute;
    assert Run(tenants, []).states == map[] && Idle(NewState(0), 0);
    events := RequestsAtOnce(tenants, id, [], 0, n, 0, MINUTE);
    MinutePasses(Run(tenants, events).states[id], n);
    events := RequestsAtOnce(tenants, id, events, MINUTE, n, 0, MINUTE);
  }

  lemma {:induction false} MinutePasses(s: QuotaState, n: nat)
    requires AfterRequests(s, 0, n)
    ensures Idle(s, MINUTE)
  {
  }

  /** A full minute when the day is about to end, and one when the next day begins. */
  lemma {:induction false} MinuteDoubled(tenants: map<string, Quota>, id: string) returns (events: seq<QuotaCheck>)
    requires id in tenants && tenants[id].tokensPerMinute > 0
    requires tenants[id].tokensPerDay == 0 || tenants[id].tokensPerMinute <= tenants[id].tokensPerDay
    ensures Monotone(events)
    ensures TokensIn(tenants, events, id, DAY - MINUTE, MINUTE) == 2 * tenants[id].tokensPerMinute
  {
    var q, n := tenants[id], tenants[id].tokensPerMinute;
    var s0, s1, s2 := NewState(0), QuotaState(0, 0, 1, MINUTE, DAY), QuotaState(n, n, 1, DAY, DAY);
    assert Consumed(q, s0, 0, 0) == (s1, true);
    assert Consumed(q, s1, DAY - MINUTE, n) == (s2, true);
    assert Consumed(q, s2, DAY, n).1;
    events := Admit(tenants, [], id, 0, 0, s0, DAY - MINUTE, MINUTE);
    events := Admit(tenants, events, id, DAY - MINUTE, n, s1, DAY - MINUTE, MINUTE);
    events := Admit(tenants, events, id, DAY, n, s2, DAY - MINUTE, MINUTE);
  }

  // ------------------------------------------------------------------------------------------
  // A full day in half a day
  // ------------------------------------------------------------------------------------------

  /** A minute has ended at `at`, and the day, rolled if need be, has room for `total` and does not
      end within `n` minutes. */
  ghost predicate DayHasRoom(q: Quota, s: QuotaState, at: nat, total: nat, n: nat) {
    var r := Rolled(s, at);
    && s.minuteReset <= at && at + Times(n, MINUTE) <= r.dayReset
    && (Off(q.tokensPerDay) || r.dayTokens + total <= q.tokensPerDay)
  }

  lemma {:induction false} SpendPasses(q: Quota, s: QuotaState, at: nat, tokens: u64, total: nat, n: nat)
    requires DayHasRoom(q, s, at, total, n) && n > 0 && tokens <= total
    requires q.tokensPerMinute == 0 || tokens <= q.tokensPerMinute
    ensures Consumed(q, s, at, tokens).1
    ensures DayHasRoom(q, Consumed(q, s, at, tokens).0, at + MINUTE, total - tokens, n - 1)
    ensures Consumed(q, s, at, tokens).0.minuteReset == at + MINUTE
    ensures Consumed(q, s, at, tokens).0.dayReset == Rolled(s, at).dayReset
    ensures Consumed(q, s, at, tokens).0.dayTokens <= Rolled(s, at).dayTokens + tokens
  {
  }

  /** The tokens of one minute. */
  lemma {:induction false} SpendOne(tenants: map<string, Quota>, id: string, before: seq<QuotaCheck>, at: nat,
                                    tokens: u64, total: nat, n: nat, t: int, len: nat)
    returns (events: seq<QuotaCheck>)
    requires id in tenants && Monotone(before) && Clock(before) <= at && id in Run(tenants, before).states
    requires !Unlimited(tenants[id]) && DayHasRoom(tenants[id], Run(tenants, before).states[id], at, total, n)
    requires tenants[id].tokensPerMinute == 0 || tokens <= tenants[id].tokensPerMinute
    requires n > 0 && tokens <= total && t <= at <= t + len
    ensures Monotone(events) && Clock(events) == at && id in Run(tenants, events).states
    ensures
      var s := Run(tenants, events).states[id];
      var r := Rolled(Run(tenants, before).states[id], at);
      && s.minuteReset == at + MINUTE && s.dayReset == r.dayReset && s.dayTokens <= r.dayTokens + tokens
      && DayHasRoom(tenants[id], s, at + MINUTE, total - tokens, n - 1)
    ensures TokensIn(tenants, events, id, t, len) == TokensIn(tenants, before, id, t, len) + tokens
  {
    var s := Run(tenants, before).states[id];
    SpendPasses(tenants[id], s, at, tokens, total, n);
    events := Admit(tenants, before, id, at, tokens, s, t, len);
  }

  /** The rest fits into the minutes after the first. */
  lemma {:induction false} RestFits(at: nat, total: nat, most: u64, n: nat)
    requires n > 0 && total <= Times(n, most)
    ensures total <= most || total - most <= Times(n - 1, most)
    ensures at + Times(n, MINUTE) == at + MINUTE + Times(n - 1, MINUTE)
  {
  }

  /** Tokens spent over `n` minutes, as many in each as fit. */
  lemma {:induction false} Spend(tenants: map<string, Quota>, id: string, before: seq<QuotaCheck>, at: nat,
                                 total: nat, most: u64, n: nat, t: int, len: nat)
    returns (events: seq<QuotaCheck>)
    requires id in tenants && Monotone(before) && Clock(before) <= at && id in Run(tenants, before).states
    requires !Unlimited(tenants[id]) && DayHasRoom(tenants[id], Run(tenants, before).states[id], at, total, n)
    requires tenants[id].tokensPerMinute == 0 || most <= tenants[id].tokensPerMinute
    requires n > 0 && total <= Times(n, most) && t <= at && at + Times(n - 1, MINUTE) <= t + len
    ensures Monotone(events) && Clock(events) <= at + Times(n, MINUTE) && id in Run(tenants, events).states
    ensures Run(tenants, events).states[id].minuteReset == at + Times(n, MINUTE)
    ensures
      var r := Rolled(Run(tenants, before).states[id], at);
      && Run(tenants, events).states[id].dayReset == r.dayReset
      && Run(tenants, events).states[id].dayTokens <= r.dayTokens + total
    ensures TokensIn(tenants, events, id, t, len) == TokensIn(tenants, before, id, t, len) + total
    decreases n
  {
    var tokens: u64 := if total <= most then total else most;
    RestFits(at, total, most, n);
    events := SpendOne(tenants, id, before, at, tokens, total, n, t, len);
    if n > 1 {
      SpendRest(Run(tenants, events).states[id], at + MINUTE, n - 1);
      events := Spend(tenants, id, events, at + MINUTE, total - tokens, most, n - 1, t, len);
    }
  }

  lemma {:induction false} SpendRest(s: QuotaState, at: nat, n: nat)
    requires n > 0 && at + Times(n, MINUTE) <= s.dayReset
    ensures Rolled(s, at).dayReset == s.dayReset && Rolled(s, at).dayTokens == s.dayTokens
  {
    TimesMonotone(1, n, MINUTE);
  }

  /** A full day in its last twelve hours, and one in the first twelve of the next. */
  lemma {:induction false} DayDoubled(tenants: map<string, Quota>, id: string) returns (events: seq<QuotaCheck>)
    requires id in tenants && tenants[id].tokensPerDay > 0
    requires tenants[id].tokensPerMinute == 0 || tenants[id].tokensPerDay <= 720 * tenants[id].tokensPerMinute
    ensures Monotone(events) && TokensIn(tenants, events, id, DAY / 2, DAY) == 2 * tenants[id].tokensPerDay
  {
    var q := tenants[id];
    var most: u64 := if q.tokensPerMinute == 0 then q.tokensPerDay else q.tokensPerMinute;
    assert Consumed(q, NewState(0), 0, 0) == (QuotaState(0, 0, 1, MINUTE, DAY), true);
    TimesIsProduct(720, MINUTE);
    TimesIsProduct(720, most);
    events := Admit(tenants, [], id, 0, 0, NewState(0), DAY / 2, DAY);
    events := Spend(tenants, id, events, DAY / 2, q.tokensPerDay, most, 720, DAY / 2, DAY);
    events := Spend(tenants, id, events, DAY, q.tokensPerDay, most, 720, DAY / 2, DAY);
  }

  lemma {:induction false} SharedMinutePasses(q: Quota, s: QuotaState, rest: u64)
    requires q.requestsPerMinute != 1 && 2 * rest <= q.tokensPerMinute && q.tokensPerMinute < U64_MAX
    requires s.minuteReset == DAY && s.dayReset == DAY + 1 && s.dayTokens + rest <= q.tokensPerDay
    ensures
      var (s1, ok1) := Consumed(q, s, DAY, rest);
      var (s2, ok2) := Consumed(q, s1, DAY + 1, rest);
      && ok1 && ok2 && s2.minuteReset == DAY + MINUTE && s2.dayReset == 2 * DAY + 1 && s2.dayTokens == rest
  {
  }

  /** 720 full minutes on either side of a minute that the two days share. */
  lemma {:induction false} DayDoubledShared(tenants: map<string, Quota>, id: string) returns (events: seq<QuotaCheck>)
    requires id in tenants && tenants[id].requestsPerMinute != 1
    requires 720 * tenants[id].tokensPerMinute < tenants[id].tokensPerDay
    requires 2 * tenants[id].tokensPerDay <= 1441 * tenants[id].tokensPerMinute
    ensures Monotone(events) && TokensIn(tenants, events, id, DAY / 2, DAY) == 2 * tenants[id].tokensPerDay
  {
    var q := tenants[id];
    var most, full := q.tokensPerMinute, 720 * q.tokensPerMinute;
    var rest: u64 := q.tokensPerDay - full;
    assert Consumed(q, NewState(1), 1, 0) == (QuotaState(0, 0, 1, MINUTE + 1, DAY + 1), true);
    TimesIsProduct(720, MINUTE);
    TimesIsProduct(720, most);
    TimesIsProduct(719, MINUTE);
    events := Admit(tenants, [], id, 1, 0, NewState(1), DAY / 2, DAY);
    events := Spend(tenants, id, events, DAY / 2, full, most, 720, DAY / 2, DAY);
    var s := Run(tenants, events).states[id];
    SharedMinutePasses(q, s, rest);
    var s1 := Consumed(q, s, DAY, rest).0;
    events := Admit(tenants, events, id, DAY, rest, s, DAY / 2, DAY);
    events := Admit(tenants, events, id, DAY + 1, rest, s1, DAY / 2, DAY);
    events := Spend(tenants, id, events, DAY + MINUTE, full, most, 720, DAY / 2, DAY);
  }

  /** A day quota of the largest u64 refuses nothing: 1441 minutes take what the minute quota allows. */
  lemma {:induction false} DayDoubledUnrefused(tenants: map<string, Quota>, id: string)
    returns (events: seq<QuotaCheck>)
    requires id in tenants && tenants[id].tokensPerDay == U64_MAX
    requires 2 * U64_MAX <= 1441 * tenants[id].tokensPerMinute
    ensures Monotone(events) && TokensIn(tenants, events, id, MINUTE, DAY) == 2 * U64_MAX
  {
    var q, most := tenants[id], tenants[id].tokensPerMinute;
    var room: nat := 1439 * tenants[id].tokensPerMinute;
    var first := if 2 * U64_MAX <= room then 2 * U64_MAX else room;
    assert Consumed(q, NewState(0), 0, 0) == (QuotaState(0, 0, 1, MINUTE, DAY), true);
    TimesIsProduct(1439, MINUTE);
    TimesIsProduct(1438, MINUTE);
    TimesIsProduct(1439, most);
    TimesIsProduct(2, MINUTE);
    TimesIsProduct(1, MINUTE);
    TimesIsProduct(2, most);
    events := Admit(tenants, [], id, 0, 0, NewState(0), MINUTE, DAY);
    events := Spend(tenants, id, events, MINUTE, first, most, 1439, MINUTE, DAY);
    events := Spend(tenants, id, events, DAY, 2 * U64_MAX - first, most, 2, MINUTE, DAY);
  }

  // ------------------------------------------------------------------------------------------
  // One request a minute
  // ------------------------------------------------------------------------------------------

  ghost predicate SplitAt(h: seq<Entry>, t: int, b: int, limit: nat) {
    t <= b <= t + DAY + 1 && SumWithin(h, t, b - 1) <= limit && SumWithin(h, b, t + DAY) <= limit
  }

  /** The closed day that starts at `t` falls into two parts within the limit each. */
  ghost predicate Halved(h: seq<Entry>, t: int, limit: nat) { exists b: int :: SplitAt(h, t, b, limit) }

  /** What was admitted from `t` on and before `end`. */
  function SumBefore(h: seq<Entry>, t: int, end: int): nat { SumWithin(h, t, end - 1) }

  /** The current day began at `start`; it and what a day before it holds are within the limit, and older
      intervals fall into two parts. */
  ghost predicate DaysOk(h: seq<Entry>, start: int, limit: nat) {
    && (forall i :: 0 <= i < |h| ==> h[i].at < start + DAY)
    && SumWithin(h, start, start + DAY) <= limit
    && (forall t: int :: start - DAY <= t ==> SumBefore(h, t, start) <= limit)
    && (forall t: int :: t + DAY < start ==> Halved(h, t, limit))
  }

  lemma {:induction false} DaysHalve(h: seq<Entry>, start: int, limit: nat, t: int)
    requires DaysOk(h, start, limit)
    ensures Halved(h, t, limit)
  {
    if start <= t {
      NothingWithin(h, t, t - 1);
      SumWithinMonotone(h, t, t + DAY, start, start + DAY);
      assert SplitAt(h, t, t, limit);
    } else if start <= t + DAY {
      SumWithinMonotone(h, start, t + DAY, start, start + DAY);
      assert SumBefore(h, t, start) <= limit;
      assert SplitAt(h, t, start, limit);
    }
  }

  lemma {:induction false} DaysRoll(h: seq<Entry>, start: int, limit: nat, now: nat)
    requires DaysOk(h, start, limit) && start + DAY <= now
    ensures DaysOk(h, now, limit)
  {
    NothingBefore(h, now, DAY);
    forall t: int | now - DAY <= t ensures SumBefore(h, t, now) <= limit {
      SumWithinMonotone(h, t, now - 1, start, start + DAY);
    }
    forall t: int | t + DAY < now ensures Halved(h, t, limit) {
      DaysHalve(h, start, limit, t);
    }
  }

  lemma {:induction false} DaysAccept(h: seq<Entry>, start: int, limit: nat, now: nat, n: u64)
    requires DaysOk(h, start, limit) && start <= now < start + DAY && SumWithin(h, start, start + DAY) + n <= limit
    ensures DaysOk(h + [Entry(now, n)], start, limit)
  {
    var e := Entry(now, n);
    SumWithinAppend(h, e, start, start + DAY);
    forall t: int | start - DAY <= t ensures SumBefore(h + [e], t, start) <= limit {
      SumWithinAppend(h, e, t, start - 1);
      assert SumBefore(h, t, start) <= limit;
    }
    forall t: int | t + DAY < start ensures Halved(h + [e], t, limit) {
      assert Halved(h, t, limit);
      var b: int :| SplitAt(h, t, b, limit);
      SumWithinAppend(h, e, t, b - 1);
      SumWithinAppend(h, e, b, t + DAY);
      assert SplitAt(h + [e], t, b, limit);
    }
  }

  lemma {:induction false} DaysFresh(start: int, limit: nat)
    ensures DaysOk([], start, limit)
  {
    forall t: int | t + DAY < start ensures Halved([], t, limit) {
      assert SplitAt([], t, t, limit);
    }
  }

  lemma {:induction false} DaysConsumed(q: Quota, s: QuotaState, tokens: seq<Entry>, requests: seq<Entry>, was: nat,
                                        now: nat, n: u64)
    requires Enforced(q.tokensPerDay) && StateCovers(q, s, tokens, requests, was, 1) && was <= now
    requires DaysOk(tokens, s.dayReset - DAY, q.tokensPerDay)
    ensures
      var (s', ok) := Consumed(q, s, now, n);
      DaysOk(if ok then tokens + [Entry(now, n)] else tokens, s'.dayReset - DAY, q.tokensPerDay)
  {
    if s.dayReset <= now {
      DaysRoll(tokens, s.dayReset - DAY, q.tokensPerDay, now);
    }
    RolledCovers(q, s, tokens, requests, was, now, 1);
    if Consumed(q, s, now, n).1 {
      DaysAccept(tokens, Rolled(s, now).dayReset - DAY, q.tokensPerDay, now, n);
    }
  }

  lemma {:induction false} DaysChecked(tenants: map<string, Quota>, m: Manager, tokens: seq<Entry>,
                                       requests: seq<Entry>, was: nat, e: QuotaCheck)
    requires e.id in tenants && Enforced(tenants[e.id].tokensPerDay) && e.seen <= e.now && was <= e.now
    requires
      if e.id in m.states
      then StateCovers(tenants[e.id], m.states[e.id], tokens, requests, was, 1)
           && DaysOk(tokens, m.states[e.id].dayReset - DAY, tenants[e.id].tokensPerDay)
      else tokens == requests == []
    ensures
      var (m', ok) := CheckQuota(tenants, m, e);
      && e.id in m'.states
      && DaysOk(if ok then tokens + [Entry(e.now, e.tokens)] else tokens, m'.states[e.id].dayReset - DAY,
                tenants[e.id].tokensPerDay)
  {
    CheckFinds(tenants, m, e);
    if e.id in m.states {
      DaysConsumed(tenants[e.id], m.states[e.id], tokens, requests, was, e.now, e.tokens);
    } else {
      DaysFresh(e.seen, tenants[e.id].tokensPerDay);
      FreshStateCovers(tenants[e.id], e.seen, e.seen, 1);
      DaysConsumed(tenants[e.id], NewState(e.seen), [], [], e.seen, e.now, e.tokens);
    }
  }

  ghost predicate DaysInv(tenants: map<string, Quota>, m: Manager, tokens: seq<Entry>, id: string)
    requires id in tenants
  {
    id in m.states ==> DaysOk(tokens, m.states[id].dayReset - DAY, tenants[id].tokensPerDay)
  }

  /** One check, of this tenant or another. */
  lemma {:induction false} DaysStep(tenants: map<string, Quota>, m: Manager, tokens: seq<Entry>, requests: seq<Entry>,
                                    was: nat, e: QuotaCheck, id: string)
    requires id in tenants && Enforced(tenants[id].tokensPerDay) && e.seen <= e.now && was <= e.now
    requires if id in m.states then StateCovers(tenants[id], m.states[id], tokens, requests, was, 1)
             else tokens == requests == []
    requires DaysInv(tenants, m, tokens, id)
    ensures
      var (m', ok) := CheckQuota(tenants, m, e);
      DaysInv(tenants, m', if e.id == id && ok then tokens + [Entry(e.now, e.tokens)] else tokens, id)
  {
    if e.id == id {
      DaysChecked(tenants, m, tokens, requests, was, e);
    }
  }

  lemma {:induction false} DaysKept(tenants: map<string, Quota>, events: seq<QuotaCheck>, id: string)
    requires Monotone(events) && id in tenants && Enforced(tenants[id].tokensPerDay)
    ensures DaysInv(tenants, Run(tenants, events), Admitted(tenants, events, id, false), id)
  {
    if events != [] {
      var before, e := events[..|events| - 1], events[|events| - 1];
      DaysKept(tenants, before, id);
      RunKeepsInv(tenants, before, id, 1);
      DaysStep(tenants, Run(tenants, before), Admitted(tenants, before, id, false),
               Admitted(tenants, before, id, true), Clock(before), e, id);
    }
  }

  /** Wherever a closed day starts, in every run: what was admitted in it falls into an earlier and a later
      part that are within the day quota each. */
  lemma {:induction false} AnyDayHalved(tenants: map<string, Quota>, events: seq<QuotaCheck>, id: string, t: int)
    requires Monotone(events) && id in tenants && Enforced(tenants[id].tokensPerDay)
    ensures Halved(Admitted(tenants, events, id, false), t, tenants[id].tokensPerDay)
  {
    RunKeepsInv(tenants, events, id, 1);
    DaysKept(tenants, events, id);
    if id in Run(tenants, events).states {
      DaysHalve(Admitted(tenants, events, id, false), Run(tenants, events).states[id].dayReset - DAY,
                tenants[id].tokensPerDay, t);
    } else {
      DaysFresh(t + DAY + 1, tenants[id].tokensPerDay);
    }
  }

  /** Part of a closed day with no more than 720 requests. */
  lemma {:induction false} HalfOfTheRequests(tokens: seq<Entry>, requests: seq<Entry>, most: nat, lo: int, hi: int)
    requires Paired(tokens, requests, most) && SumWithin(requests, lo, hi) <= 720
    ensures SumWithin(tokens, lo, hi) <= 720 * most
  {
    PairedSums(tokens, requests, most, lo, hi);
    TimesMonotone(SumWithin(requests, lo, hi), 720, most);
    TimesIsProduct(720, most);
  }

  /** 1441 requests cannot be 721 on either side. */
  lemma {:induction false} HalvesNotFull(tokens: seq<Entry>, requests: seq<Entry>, most: nat, limit: nat, t: int)
    requires Paired(tokens, requests, most) && 720 * most < limit && Halved(tokens, t, limit)
    requires SumWithin(requests, t, t + DAY) <= 1441
    ensures SumWithin(tokens, t, t + DAY) < 2 * limit
  {
    var b: int :| SplitAt(tokens, t, b, limit);
    SumSplit(tokens, t, b, t + DAY);
    SumSplit(requests, t, b, t + DAY);
    if SumWithin(requests, t, b - 1) <= 720 {
      HalfOfTheRequests(tokens, requests, most, t, b - 1);
    } else {
      HalfOfTheRequests(tokens, requests, most, b, t + DAY);
    }
  }

  /** One request a minute: a closed day touches 1441 minutes. */
  lemma {:induction false} DayRequests(tenants: map<string, Quota>, events: seq<QuotaCheck>, id: string, t: int)
    requires Monotone(events) && id in tenants && tenants[id].requestsPerMinute == 1
    ensures SumWithin(Admitted(tenants, events, id, true), t, t + DAY) <= 1441
  {
    QuotaOverWindows(tenants, events, id, t, 1440);
  }

  lemma {:induction false} DayNotDoubled(tenants: map<string, Quota>, events: seq<QuotaCheck>, id: string, t: int)
    requires Monotone(events) && id in tenants && tenants[id].requestsPerMinute == 1
    requires tenants[id].tokensPerMinute > 0 && Enforced(tenants[id].tokensPerDay)
    requires 720 * tenants[id].tokensPerMinute < tenants[id].tokensPerDay
    ensures TokensIn(tenants, events, id, t, DAY) < 2 * tenants[id].tokensPerDay
  {
    AnyDayHalved(tenants, events, id, t);
    DayRequests(tenants, events, id, t);
    AdmittedPaired(tenants, events, id, tenants[id].tokensPerMinute);
    HalvesNotFull(Admitted(tenants, events, id, false), Admitted(tenants, events, id, true),
                  tenants[id].tokensPerMinute, tenants[id].tokensPerDay, t);
  }

  // ------------------------------------------------------------------------------------------
  // The exact conditions
  // ------------------------------------------------------------------------------------------

  ghost predicate RequestsReachTwice(tenants: map<string, Quota>, id: string)
    requires id in tenants
  {
    exists events, t: int ::
      Monotone(events) && RequestsIn(tenants, events, id, t, MINUTE) == 2 * tenants[id].requestsPerMinute
  }

  ghost predicate MinuteTokensReachTwice(tenants: map<string, Quota>, id: string)
    requires id in tenants
  {
    exists events, t: int ::
      Monotone(events) && TokensIn(tenants, events, id, t, MINUTE) == 2 * tenants[id].tokensPerMinute
  }

  ghost predicate DayTokensReachTwice(tenants: map<string, Quota>, id: string)
    requires id in tenants
  {
    exists events, t: int ::
      Monotone(events) && TokensIn(tenants, events, id, t, DAY) == 2 * tenants[id].tokensPerDay
  }

  lemma {:induction false} MinuteTokensReachIff(tenants: map<string, Quota>, id: string)
    requires id in tenants && tenants[id].tokensPerMinute > 0
    ensures MinuteTokensReachTwice(tenants, id) <==>
            tenants[id].tokensPerDay == 0 || tenants[id].tokensPerMinute <= tenants[id].tokensPerDay
  {
    if tenants[id].tokensPerDay == 0 || tenants[id].tokensPerMinute <= tenants[id].tokensPerDay {
      var events := MinuteDoubled(tenants, id);
    } else {
      forall events, t: int | Monotone(events)
        ensures TokensIn(tenants, events, id, t, MINUTE) < 2 * tenants[id].tokensPerMinute
      {
        QuotaAtMostDoubled(tenants, events, id, t);
        SumWithinMonotone(Admitted(tenants, events, id, false), t, t + MINUTE, t, t + DAY);
      }
    }
  }

  /** The minute quota lets two full day quotas into one closed day: 720 full minutes for each day; or
      1441 in all, where two requests may share a minute or the day quota refuses nothing. */
  predicate MinutesSuffice(q: Quota) {
    || q.tokensPerMinute == 0
    || q.tokensPerDay <= 720 * q.tokensPerMinute
    || (2 * q.tokensPerDay <= 1441 * q.tokensPerMinute && (q.requestsPerMinute != 1 || q.tokensPerDay == U64_MAX))
  }

  lemma {:induction false} DayTokensReach(tenants: map<string, Quota>, id: string)
    requires id in tenants && tenants[id].tokensPerDay > 0 && MinutesSuffice(tenants[id])
    ensures DayTokensReachTwice(tenants, id)
  {
    var q := tenants[id];
    if q.tokensPerMinute == 0 || q.tokensPerDay <= 720 * q.tokensPerMinute {
      var events := DayDoubled(tenants, id);
    } else if q.requestsPerMinute != 1 {
      var events := DayDoubledShared(tenants, id);
    } else {
      var events := DayDoubledUnrefused(tenants, id);
    }
  }

  lemma {:induction false} DayTokensReachIff(tenants: map<string, Quota>, id: string)
    requires id in tenants && tenants[id].tokensPerDay > 0
    ensures DayTokensReachTwice(tenants, id) <==> MinutesSuffice(tenants[id])
  {
    if MinutesSuffice(tenants[id]) {
      DayTokensReach(tenants, id);
    } else {
      forall events, t: int | Monotone(events)
        ensures TokensIn(tenants, events, id, t, DAY) < 2 * tenants[id].tokensPerDay
      {
        QuotaOverWindows(tenants, events, id, t, 1440);
        if 2 * tenants[id].tokensPerDay <= 1441 * tenants[id].tokensPerMinute {
          DayNotDoubled(tenants, events, id, t);
        }
      }
    }
  }

  /** For every tenant and quota, exactly when some run reaches twice the quota in one window length:
      requests always; minute tokens unless the day quota is smaller; day tokens if the minute quota
      lets two full days pass within one. */
  lemma {:induction false} DoublingIsReached(tenants: map<string, Quota>, id: string)
    requires id in tenants
    ensures
      var q := tenants[id];
      && (q.requestsPerMinute > 0 ==> RequestsReachTwice(tenants, id))
      && (q.tokensPerMinute > 0 ==>
            (MinuteTokensReachTwice(tenants, id) <==> q.tokensPerDay == 0 || q.tokensPerMinute <= q.tokensPerDay))
      && (q.tokensPerDay > 0 ==> (DayTokensReachTwice(tenants, id) <==> MinutesSuffice(q)))
  {
    var q := tenants[id];
    if q.requestsPerMinute > 0 {
      var events := RequestsDoubled(tenants, id);
    }
    if q.tokensPerMinute > 0 {
      MinuteTokensReachIff(tenants, id);
    }
    if q.tokensPerDay > 0 {
      DayTokensReachIff(tenants, id);
    }
  }
}
