/** Exactly which quotas are decided by the history of what was admitted. */
module QuotaExact {
  import opened Ints
  import opened History
  import opened TenantQuota
  import opened QuotaBounds
  import opened QuotaReached

  /** What the current windows of a tenant leave room for, by the history alone. */
  ghost predicate Fits(q: Quota, s: QuotaState, tokens: seq<Entry>, requests: seq<Entry>, n: nat) {
    && (q.tokensPerMinute > 0 ==> InInterval(tokens, s.minuteReset - MINUTE, MINUTE) + n <= q.tokensPerMinute)
    && (q.tokensPerDay > 0 ==> InInterval(tokens, s.dayReset - DAY, DAY) + n <= q.tokensPerDay)
    && (q.requestsPerMinute > 0 ==> InInterval(requests, s.minuteReset - MINUTE, MINUTE) + 1 <= q.requestsPerMinute)
  }

  /** The windows that a check of its tenant finds, after expired ones have been reset. */
  function Current(tenants: map<string, Quota>, events: seq<QuotaCheck>, e: QuotaCheck): QuotaState {
    Rolled(StateOf(tenants, events, e.id, e.seen), e.now)
  }

  /** A check is accepted exactly when what was admitted since the current minute and day began leaves
      room for it. */
  ghost predicate DecidedExactly(tenants: map<string, Quota>, events: seq<QuotaCheck>, e: QuotaCheck)
    requires e.id in tenants
  {
    CheckQuota(tenants, Run(tenants, events), e).1 <==>
      Fits(tenants[e.id], Current(tenants, events, e), Admitted(tenants, events, e.id, false),
           Admitted(tenants, events, e.id, true), e.tokens)
  }

  /** That is so for every check of a tenant in every run. */
  ghost predicate AlwaysExact(tenants: map<string, Quota>, id: string)
    requires id in tenants
  {
    forall events, e :: Monotone(events + [e]) && e.id == id ==> DecidedExactly(tenants, events, e)
  }

  /** No enabled quota is the largest u64, unless another one keeps its counter from saturating. */
  predicate ExactFor(q: Quota) {
    && q.requestsPerMinute < U64_MAX
    && (q.tokensPerMinute < U64_MAX || q.requestsPerMinute == 1 || 0 < 2 * q.tokensPerDay <= U64_MAX)
    && (q.tokensPerDay < U64_MAX || 0 < 1441 * q.tokensPerMinute <= U64_MAX)
  }

  // ------------------------------------------------------------------------------------------
  // Quotas that are exact
  // ------------------------------------------------------------------------------------------

  /** The windows of a state began no later than the clock. */
  ghost predicate Begun(s: QuotaState, now: nat) { s.minuteReset <= now + MINUTE && s.dayReset <= now + DAY }

  lemma {:induction false} WindowsBegun(tenants: map<string, Quota>, events: seq<QuotaCheck>, id: string)
    requires Monotone(events) && id in Run(tenants, events).states
    ensures Begun(Run(tenants, events).states[id], Clock(events))
  {
    if events != [] {
      var before := events[..|events| - 1];
      if id in Run(tenants, before).states {
        WindowsBegun(tenants, before, id);
      }
    }
  }

  /** What the history leaves room for is accepted, whatever the quota. */
  lemma {:induction false} FittingIsConsumed(q: Quota, s: QuotaState, tokens: seq<Entry>, requests: seq<Entry>,
                                             was: nat, now: nat, n: u64)
    requires StateCovers(q, s, tokens, requests, was, 1) && was <= now && Fits(q, Rolled(s, now), tokens, requests, n)
    ensures Consumed(q, s, now, n).1
  {
    RolledCovers(q, s, tokens, requests, was, now, 1);
  }

  /** What is accepted fits, if the sums under a quota of the largest u64 do. */
  lemma {:induction false} ConsumedFits(q: Quota, s: QuotaState, tokens: seq<Entry>, requests: seq<Entry>, was: nat,
                                        now: nat, n: u64)
    requires StateCovers(q, s, tokens, requests, was, 1) && was <= now && Consumed(q, s, now, n).1
    requires q.requestsPerMinute < U64_MAX
    requires q.tokensPerMinute == U64_MAX ==>
               InInterval(tokens, Rolled(s, now).minuteReset - MINUTE, MINUTE) + n <= U64_MAX
    requires q.tokensPerDay == U64_MAX ==> InInterval(tokens, Rolled(s, now).dayReset - DAY, DAY) + n <= U64_MAX
    ensures Fits(q, Rolled(s, now), tokens, requests, n)
  {
    RolledCovers(q, s, tokens, requests, was, now, 1);
  }

  /** One request a minute: an accepted check is the first of its minute. */
  lemma {:induction false} FirstOfItsMinute(q: Quota, s: QuotaState, tokens: seq<Entry>, requests: seq<Entry>,
                                            was: nat, now: nat, n: u64)
    requires StateCovers(q, s, tokens, requests, was, 1) && was <= now && Consumed(q, s, now, n).1
    requires q.requestsPerMinute == 1 && Paired(tokens, requests, U64_MAX)
    ensures InInterval(tokens, Rolled(s, now).minuteReset - MINUTE, MINUTE) == 0
  {
    var start := Rolled(s, now).minuteReset - MINUTE;
    RolledCovers(q, s, tokens, requests, was, now, 1);
    assert InInterval(requests, start, MINUTE) == 0;
    PairedSums(tokens, requests, U64_MAX, start, start + MINUTE);
  }

  /** The history after an accepted check. */
  lemma {:induction false} AdmittedWith(tenants: map<string, Quota>, events: seq<QuotaCheck>, e: QuotaCheck, t: int,
                                        len: nat)
    requires CheckQuota(tenants, Run(tenants, events), e).1 && t <= e.now <= t + len
    ensures TokensIn(tenants, events + [e], e.id, t, len) == TokensIn(tenants, events, e.id, t, len) + e.tokens
  {
    assert (events + [e])[..|events|] == events;
    SumWithinAppend(Admitted(tenants, events, e.id, false), Entry(e.now, e.tokens), t, t + len);
  }

  /** Two day quotas bound the current minute, the accepted check included. */
  lemma {:induction false} DayBoundsMinute(tenants: map<string, Quota>, events: seq<QuotaCheck>, e: QuotaCheck, m: int)
    requires Monotone(events + [e]) && e.id in tenants && Enforced(tenants[e.id].tokensPerDay)
    requires CheckQuota(tenants, Run(tenants, events), e).1 && m <= e.now <= m + MINUTE
    ensures TokensIn(tenants, events, e.id, m, MINUTE) + e.tokens <= 2 * tenants[e.id].tokensPerDay
  {
    AdmittedWith(tenants, events, e, m, MINUTE);
    QuotaAtMostDoubled(tenants, events + [e], e.id, m);
    SumWithinMonotone(Admitted(tenants, events + [e], e.id, false), m, m + MINUTE, m, m + DAY);
  }

  /** And 1441 minute quotas the current day. */
  lemma {:induction false} MinuteBoundsDay(tenants: map<string, Quota>, events: seq<QuotaCheck>, e: QuotaCheck, d: int)
    requires Monotone(events + [e]) && e.id in tenants && Enforced(tenants[e.id].tokensPerMinute)
    requires CheckQuota(tenants, Run(tenants, events), e).1 && d <= e.now <= d + DAY
    ensures TokensIn(tenants, events, e.id, d, DAY) + e.tokens <= 1441 * tenants[e.id].tokensPerMinute
  {
    AdmittedWith(tenants, events, e, d, DAY);
    QuotaOverWindows(tenants, events + [e], e.id, d, 1440);
  }

  lemma {:induction false} MonotoneParts(events: seq<QuotaCheck>, e: QuotaCheck)
    requires Monotone(events + [e])
    ensures Monotone(events) && Clock(events) <= e.seen <= e.now
  {
    var all := events + [e];
    assert forall i :: 0 <= i < |events| ==> all[i] == events[i];
    assert all[|events|] == e;
  }

  /** The state that a check finds agrees with the history. */
  lemma {:induction false} FoundCovers(tenants: map<string, Quota>, events: seq<QuotaCheck>, e: QuotaCheck)
    requires Monotone(events) && Clock(events) <= e.seen <= e.now && e.id in tenants && !Unlimited(tenants[e.id])
    ensures StateCovers(tenants[e.id], StateOf(tenants, events, e.id, e.seen), Admitted(tenants, events, e.id, false),
                        Admitted(tenants, events, e.id, true), e.seen, 1)
    ensures Begun(Current(tenants, events, e), e.now)
    ensures e.now < Current(tenants, events, e).minuteReset && e.now < Current(tenants, events, e).dayReset
  {
    RunKeepsInv(tenants, events, e.id, 1);
    if e.id in Run(tenants, events).states {
      WindowsBegun(tenants, events, e.id);
      WaitStateCovers(tenants[e.id], Run(tenants, events).states[e.id], Admitted(tenants, events, e.id, false),
                      Admitted(tenants, events, e.id, true), Clock(events), e.seen, 1);
    } else {
      FreshStateCovers(tenants[e.id], e.seen, e.seen, 1);
    }
  }

  /** A check is decided by the state that it finds. */
  lemma {:induction false} DecidedByState(tenants: map<string, Quota>, events: seq<QuotaCheck>, e: QuotaCheck)
    requires Monotone(events + [e]) && e.id in tenants && !Unlimited(tenants[e.id])
    ensures e.seen <= e.now
    ensures StateCovers(tenants[e.id], StateOf(tenants, events, e.id, e.seen), Admitted(tenants, events, e.id, false),
                        Admitted(tenants, events, e.id, true), e.seen, 1)
    ensures CheckQuota(tenants, Run(tenants, events), e).1 ==
              Consumed(tenants[e.id], StateOf(tenants, events, e.id, e.seen), e.now, e.tokens).1
  {
    MonotoneParts(events, e);
    FoundCovers(tenants, events, e);
    CheckFinds(tenants, Run(tenants, events), e);
  }

  /** One request a minute: the tokens of an accepted check are the first of its minute. */
  lemma {:induction false} OneRequestFits(tenants: map<string, Quota>, events: seq<QuotaCheck>, e: QuotaCheck)
    requires Monotone(events + [e]) && e.id in tenants && tenants[e.id].requestsPerMinute == 1
    requires CheckQuota(tenants, Run(tenants, events), e).1
    ensures TokensIn(tenants, events, e.id, Current(tenants, events, e).minuteReset - MINUTE, MINUTE) == 0
  {
    DecidedByState(tenants, events, e);
    AdmittedPaired(tenants, events, e.id, U64_MAX);
    FirstOfItsMinute(tenants[e.id], StateOf(tenants, events, e.id, e.seen), Admitted(tenants, events, e.id, false),
                     Admitted(tenants, events, e.id, true), e.seen, e.now, e.tokens);
  }

  /** Where a token quota is the largest u64, another one keeps the sum of an accepted check below it. */
  lemma {:induction false} LargestFits(tenants: map<string, Quota>, events: seq<QuotaCheck>, e: QuotaCheck)
    requires Monotone(events + [e]) && e.id in tenants && !Unlimited(tenants[e.id]) && ExactFor(tenants[e.id])
    requires CheckQuota(tenants, Run(tenants, events), e).1
    ensures
      var s, q := Current(tenants, events, e), tenants[e.id];
      && (q.tokensPerMinute == U64_MAX ==>
            TokensIn(tenants, events, e.id, s.minuteReset - MINUTE, MINUTE) + e.tokens <= U64_MAX)
      && (q.tokensPerDay == U64_MAX ==>
            TokensIn(tenants, events, e.id, s.dayReset - DAY, DAY) + e.tokens <= U64_MAX)
  {
    var s, q := Current(tenants, events, e), tenants[e.id];
    MonotoneParts(events, e);
    FoundCovers(tenants, events, e);
    if q.tokensPerMinute == U64_MAX {
      if q.requestsPerMinute == 1 {
        OneRequestFits(tenants, events, e);
      } else {
        DayBoundsMinute(tenants, events, e, s.minuteReset - MINUTE);
      }
    }
    if q.tokensPerDay == U64_MAX {
      MinuteBoundsDay(tenants, events, e, s.dayReset - DAY);
    }
  }

  lemma {:induction false} AcceptedFits(tenants: map<string, Quota>, events: seq<QuotaCheck>, e: QuotaCheck)
    requires Monotone(events + [e]) && e.id in tenants && !Unlimited(tenants[e.id]) && ExactFor(tenants[e.id])
    requires CheckQuota(tenants, Run(tenants, events), e).1
    ensures Fits(tenants[e.id], Current(tenants, events, e), Admitted(tenants, events, e.id, false),
                 Admitted(tenants, events, e.id, true), e.tokens)
  {
    DecidedByState(tenants, events, e);
    LargestFits(tenants, events, e);
    ConsumedFits(tenants[e.id], StateOf(tenants, events, e.id, e.seen), Admitted(tenants, events, e.id, false),
                 Admitted(tenants, events, e.id, true), e.seen, e.now, e.tokens);
  }

  /** In every run a check of such a tenant is decided by the history. */
  lemma {:induction false} AcceptedExactly(tenants: map<string, Quota>, events: seq<QuotaCheck>, e: QuotaCheck)
    requires Monotone(events + [e]) && e.id in tenants && ExactFor(tenants[e.id])
    ensures DecidedExactly(tenants, events, e)
  {
    if !Unlimited(tenants[e.id]) {
      if CheckQuota(tenants, Run(tenants, events), e).1 {
        AcceptedFits(tenants, events, e);
      } else {
        DecidedByState(tenants, events, e);
        if Fits(tenants[e.id], Current(tenants, events, e), Admitted(tenants, events, e.id, false),
                Admitted(tenants, events, e.id, true), e.tokens) {
          FittingIsConsumed(tenants[e.id], StateOf(tenants, events, e.id, e.seen),
                            Admitted(tenants, events, e.id, false), Admitted(tenants, events, e.id, true), e.seen,
                            e.now, e.tokens);
        }
      }
    }
  }

  // ------------------------------------------------------------------------------------------
  // Quotas that are not
  // ------------------------------------------------------------------------------------------

  /** A check that is accepted although a window of the history has no room for it. */
  ghost predicate Overdrawn(tenants: map<string, Quota>, events: seq<QuotaCheck>, e: QuotaCheck)
    requires e.id in tenants
  {
    var q, s := tenants[e.id], Current(tenants, events, e);
    && Monotone(events + [e]) && CheckQuota(tenants, Run(tenants, events), e).1
    && ((q.tokensPerMinute > 0
         && TokensIn(tenants, events, e.id, s.minuteReset - MINUTE, MINUTE) + e.tokens > q.tokensPerMinute)
        || (q.tokensPerDay > 0 && TokensIn(tenants, events, e.id, s.dayReset - DAY, DAY) + e.tokens > q.tokensPerDay)
        || (q.requestsPerMinute > 0
            && RequestsIn(tenants, events, e.id, s.minuteReset - MINUTE, MINUTE) + 1 > q.requestsPerMinute))
  }

  /** The next check of a tenant in a known state. */
  lemma {:induction false} NextCheck(tenants: map<string, Quota>, events: seq<QuotaCheck>, id: string, at: nat,
                                     tokens: u64)
    requires id in tenants && !Unlimited(tenants[id]) && Monotone(events) && Clock(events) <= at
    ensures
      var e := QuotaCheck(id, tokens, at, at);
      && Monotone(events + [e])
      && CheckQuota(tenants, Run(tenants, events), e).1 ==
           Consumed(tenants[id], StateOf(tenants, events, id, at), at, tokens).1
      && Current(tenants, events, e) == Rolled(StateOf(tenants, events, id, at), at)
  {
    MonotoneAppend(events, QuotaCheck(id, tokens, at, at));
    CheckFinds(tenants, Run(tenants, events), QuotaCheck(id, tokens, at, at));
  }

  /** A check that is refused still resets expired windows. */
  lemma {:induction false} Refuse(tenants: map<string, Quota>, events: seq<QuotaCheck>, id: string, at: nat,
                                  tokens: u64, s: QuotaState, t: int, len: nat)
    returns (more: seq<QuotaCheck>)
    requires id in tenants && !Unlimited(tenants[id]) && Monotone(events) && Clock(events) <= at
    requires s == StateOf(tenants, events, id, at) && !Consumed(tenants[id], s, at, tokens).1
    ensures Monotone(more) && Clock(more) == at && id in Run(tenants, more).states
    ensures Run(tenants, more).states[id] == Rolled(s, at)
    ensures TokensIn(tenants, more, id, t, len) == TokensIn(tenants, events, id, t, len)
  {
    var e := QuotaCheck(id, tokens, at, at);
    more := events + [e];
    assert more[..|more| - 1] == events;
    MonotoneAppend(events, e);
    CheckFinds(tenants, Run(tenants, events), e);
  }

  /** More requests in a minute than a u64 counts. */
  lemma {:induction false} RequestsOverdrawn(tenants: map<string, Quota>, id: string)
    returns (events: seq<QuotaCheck>, e: QuotaCheck)
    requires id in tenants && tenants[id].requestsPerMinute == U64_MAX
    ensures e.id == id && Overdrawn(tenants, events, e)
  {
    assert Run(tenants, []).states == map[] && Idle(NewState(0), 0);
    events := RequestsAtOnce(tenants, id, [], 0, U64_MAX, 0, MINUTE);
    e := QuotaCheck(id, 0, 0, 0);
    RequestPasses(tenants[id], Run(tenants, events).states[id], 0, U64_MAX);
    NextCheck(tenants, events, id, 0, 0);
  }

  /** More tokens in a minute than a u64 counts, in one day or across the end of one. */
  lemma {:induction false} MinuteOverdrawn(tenants: map<string, Quota>, id: string)
    returns (events: seq<QuotaCheck>, e: QuotaCheck)
    requires id in tenants && tenants[id].tokensPerMinute == U64_MAX && tenants[id].requestsPerMinute != 1
    requires tenants[id].tokensPerDay == 0 || 2 * tenants[id].tokensPerDay > U64_MAX
    ensures e.id == id && Overdrawn(tenants, events, e)
  {
    var q, n := tenants[id], tenants[id].tokensPerDay;
    if Off(n) {
      var s := QuotaState(U64_MAX, U64_MAX, 1, MINUTE, DAY);
      assert Consumed(q, NewState(0), 0, U64_MAX) == (s, true) && Consumed(q, s, 0, 1).1;
      events := Admit(tenants, [], id, 0, U64_MAX, NewState(0), 0, MINUTE);
      e := QuotaCheck(id, 1, 0, 0);
      NextCheck(tenants, events, id, 0, 1);
    } else {
      var s1, s2 := QuotaState(0, 0, 1, MINUTE, DAY), QuotaState(n, n, 1, DAY - 1 + MINUTE, DAY);
      assert Consumed(q, NewState(0), 0, 0) == (s1, true) && Consumed(q, s1, DAY - 1, n) == (s2, true);
      assert Consumed(q, s2, DAY, n).1;
      events := Admit(tenants, [], id, 0, 0, NewState(0), DAY - 1, MINUTE);
      events := Admit(tenants, events, id, DAY - 1, n, s1, DAY - 1, MINUTE);
      e := QuotaCheck(id, n, DAY, DAY);
      NextCheck(tenants, events, id, DAY, n);
    }
  }

  /** More tokens in a day than a u64 counts, in two minutes. */
  lemma {:induction false} DayOverdrawnAtOnce(tenants: map<string, Quota>, id: string)
    returns (events: seq<QuotaCheck>, e: QuotaCheck)
    requires id in tenants && tenants[id].tokensPerDay == U64_MAX && Off(tenants[id].tokensPerMinute)
    ensures e.id == id && Overdrawn(tenants, events, e)
  {
    var s := QuotaState(U64_MAX, U64_MAX, 1, MINUTE, DAY);
    assert Consumed(tenants[id], NewState(0), 0, U64_MAX) == (s, true) && Consumed(tenants[id], s, MINUTE, 1).1;
    events := Admit(tenants, [], id, 0, U64_MAX, NewState(0), 0, DAY);
    e := QuotaCheck(id, 1, MINUTE, MINUTE);
    NextCheck(tenants, events, id, MINUTE, 1);
  }

  lemma {:induction false} LastMinutePasses(q: Quota, s: QuotaState)
    requires q.tokensPerDay == U64_MAX && s.minuteReset == 2 * DAY - 1 && s.dayReset == 2 * DAY
    ensures Consumed(q, s, 2 * DAY - 1, q.tokensPerMinute).1 && Rolled(s, 2 * DAY - 1).dayReset == 2 * DAY
  {
  }

  /** A minute that begins just before a day does, and holds the quota of that day's first second. */
  lemma {:induction false} EarlyMinute(tenants: map<string, Quota>, id: string) returns (events: seq<QuotaCheck>)
    requires id in tenants && tenants[id].tokensPerDay == U64_MAX && Enforced(tenants[id].tokensPerMinute)
    ensures
      var n := tenants[id].tokensPerMinute;
      && Monotone(events) && Clock(events) == DAY && id in Run(tenants, events).states
      && Run(tenants, events).states[id] == QuotaState(n, n, 1, DAY - 1 + MINUTE, 2 * DAY)
      && TokensIn(tenants, events, id, DAY, DAY) == n
  {
    var q, n := tenants[id], tenants[id].tokensPerMinute;
    var s1, s2 := QuotaState(0, 0, 1, MINUTE, DAY), QuotaState(0, 0, 0, DAY - 1 + MINUTE, DAY);
    assert Consumed(q, NewState(0), 0, 0) == (s1, true) && Consumed(q, s1, DAY - 1, n + 1) == (s2, false);
    assert Consumed(q, s2, DAY, n) == (QuotaState(n, n, 1, DAY - 1 + MINUTE, 2 * DAY), true);
    events := Admit(tenants, [], id, 0, 0, NewState(0), DAY, DAY);
    events := Refuse(tenants, events, id, DAY - 1, n + 1, s1, DAY, DAY);
    events := Admit(tenants, events, id, DAY, n, s2, DAY, DAY);
  }

  /** More in 1441 full minutes, the first of which began just before the day did. */
  lemma {:induction false} DayOverdrawn(tenants: map<string, Quota>, id: string)
    returns (events: seq<QuotaCheck>, e: QuotaCheck)
    requires id in tenants && tenants[id].tokensPerDay == U64_MAX && Enforced(tenants[id].tokensPerMinute)
    requires 1441 * tenants[id].tokensPerMinute > U64_MAX
    ensures e.id == id && Overdrawn(tenants, events, e)
  {
    var n := tenants[id].tokensPerMinute;
    TimesIsProduct(1439, MINUTE);
    TimesIsProduct(1438, MINUTE);
    TimesIsProduct(1439, n);
    events := EarlyMinute(tenants, id);
    events := Spend(tenants, id, events, DAY - 1 + MINUTE, Times(1439, n), n, 1439, DAY, DAY);
    e := QuotaCheck(id, n, 2 * DAY - 1, 2 * DAY - 1);
    LastMinutePasses(tenants[id], Run(tenants, events).states[id]);
    NextCheck(tenants, events, id, 2 * DAY - 1, n);
  }

  lemma {:induction false} SomeOverdrawn(tenants: map<string, Quota>, id: string)
    returns (events: seq<QuotaCheck>, e: QuotaCheck)
    requires id in tenants && !ExactFor(tenants[id])
    ensures e.id == id && Overdrawn(tenants, events, e)
  {
    var q := tenants[id];
    if q.requestsPerMinute == U64_MAX {
      events, e := RequestsOverdrawn(tenants, id);
    } else if q.tokensPerMinute == U64_MAX && q.requestsPerMinute != 1 && !(0 < 2 * q.tokensPerDay <= U64_MAX) {
      events, e := MinuteOverdrawn(tenants, id);
    } else if Off(q.tokensPerMinute) {
      events, e := DayOverdrawnAtOnce(tenants, id);
    } else {
      events, e := DayOverdrawn(tenants, id);
    }
  }

  /** For every tenant and quota: the history decides every check in every run if and only if the requests
      are bounded below the largest u64, and so is each token quota or another quota keeps its counter from
      saturating: for the minute, one request a minute or a day quota that fits twice; for the day, a
      minute quota that fits 1441 times. */
  lemma {:induction false} AcceptedExactlyIff(tenants: map<string, Quota>, id: string)
    requires id in tenants
    ensures
      var q := tenants[id];
      AlwaysExact(tenants, id) <==>
        && q.requestsPerMinute < U64_MAX
        && (q.tokensPerMinute < U64_MAX || q.requestsPerMinute == 1 || 0 < 2 * q.tokensPerDay <= U64_MAX)
        && (q.tokensPerDay < U64_MAX || 0 < 1441 * q.tokensPerMinute <= U64_MAX)
  {
    if ExactFor(tenants[id]) {
      forall events, e | Monotone(events + [e]) && e.id == id ensures DecidedExactly(tenants, events, e) {
        AcceptedExactly(tenants, events, e);
      }
    } else {
      var events, e := SomeOverdrawn(tenants, id);
      assert !DecidedExactly(tenants, events, e);
    }
  }
}
