/** Exactly which quotas bound what a tenant is admitted by twice their value. */
module QuotaBounds {
  import opened Ints
  import opened History
  import opened TenantQuota

  // ------------------------------------------------------------------------------------------
  // Building runs
  // ------------------------------------------------------------------------------------------

  /** The state a check of the tenant at `at` finds. */
  function StateOf(tenants: map<string, Quota>, events: seq<QuotaCheck>, id: string, at: nat): QuotaState {
    var m := Run(tenants, events);
    if id in m.states then m.states[id] else NewState(at)
  }

  /** The tokens a run admits for a tenant in the closed interval of length `len` that starts at `t`. */
  ghost function TokensIn(tenants: map<string, Quota>, events: seq<QuotaCheck>, id: string, t: int, len: nat): nat {
    InInterval(Admitted(tenants, events, id, false), t, len)
  }

  /** The requests. */
  ghost function RequestsIn(tenants: map<string, Quota>, events: seq<QuotaCheck>, id: string, t: int, len: nat): nat {
    InInterval(Admitted(tenants, events, id, true), t, len)
  }

  /** One more check that is accepted. */
  lemma {:induction false} Admit(tenants: map<string, Quota>, events: seq<QuotaCheck>, id: string, at: nat,
                                 tokens: u64, s: QuotaState, t: int, len: nat)
    returns (more: seq<QuotaCheck>)
    requires id in tenants && !Unlimited(tenants[id]) && Monotone(events) && Clock(events) <= at
    requires s == StateOf(tenants, events, id, at) && Consumed(tenants[id], s, at, tokens).1
    ensures Monotone(more) && Clock(more) == at && id in Run(tenants, more).states
    ensures Run(tenants, more).states[id] == Consumed(tenants[id], s, at, tokens).0
    ensures TokensIn(tenants, more, id, t, len) ==
              TokensIn(tenants, events, id, t, len) + Weight(Entry(at, tokens), t, t + len)
    ensures RequestsIn(tenants, more, id, t, len) ==
              RequestsIn(tenants, events, id, t, len) + Weight(Entry(at, 1), t, t + len)
  {
    var e := QuotaCheck(id, tokens, at, at);
    more := events + [e];
    assert more[..|more| - 1] == events;
    MonotoneAppend(events, e);
    CheckFinds(tenants, Run(tenants, events), e);
    SumWithinAppend(Admitted(tenants, events, id, false), Entry(at, tokens), t, t + len);
    SumWithinAppend(Admitted(tenants, events, id, true), Entry(at, 1), t, t + len);
  }

  lemma {:induction false} MonotoneAppend(events: seq<QuotaCheck>, e: QuotaCheck)
    requires Monotone(events) && Clock(events) <= e.seen <= e.now
    ensures Monotone(events + [e])
  {
    assert forall i :: 0 <= i < |events| ==> events[i].now <= Clock(events);
  }

  lemma {:induction false} CheckFinds(tenants: map<string, Quota>, m: Manager, e: QuotaCheck)
    requires e.id in tenants && !Unlimited(tenants[e.id])
    ensures
      var s := if e.id in m.states then m.states[e.id] else NewState(e.seen);
      var (m', ok) := CheckQuota(tenants, m, e);
      e.id in m'.states && (m'.states[e.id], ok) == Consumed(tenants[e.id], s, e.now, e.tokens)
  {
  }

  // ------------------------------------------------------------------------------------------
  // Quotas that bound nothing
  // ------------------------------------------------------------------------------------------

  predicate Off(limit: u64) { limit == 0 || limit == U64_MAX }

  /** With the largest u64 as quota the counter saturates and never refuses. */
  lemma {:induction false} LargestQuotaNeverRefuses(tenants: map<string, Quota>, id: string, n: nat)
    returns (events: seq<QuotaCheck>)
    requires id in tenants && !Unlimited(tenants[id])
    requires Off(tenants[id].tokensPerMinute) && Off(tenants[id].tokensPerDay) && Off(tenants[id].requestsPerMinute)
    ensures Monotone(events) && Clock(events) == 0
    ensures TokensIn(tenants, events, id, 0, MINUTE) == Times(n, U64_MAX)
    ensures RequestsIn(tenants, events, id, 0, MINUTE) == n
  {
    events := [];
    if n > 0 {
      var before := LargestQuotaNeverRefuses(tenants, id, n - 1);
      events := Admit(tenants, before, id, 0, U64_MAX, StateOf(tenants, before, id, 0), 0, MINUTE);
    }
  }

  /** Twice the largest u64 in one minute, and once more when the next begins. */
  lemma {:induction false} MinuteOverflows(tenants: map<string, Quota>, id: string) returns (events: seq<QuotaCheck>)
    requires id in tenants && tenants[id].tokensPerMinute == U64_MAX && Off(tenants[id].tokensPerDay)
    requires tenants[id].requestsPerMinute != 1
    ensures Monotone(events) && TokensIn(tenants, events, id, 0, MINUTE) > 2 * U64_MAX
  {
    var s0, s1 := NewState(0), QuotaState(U64_MAX, U64_MAX, 1, MINUTE, DAY);
    var s2 := QuotaState(U64_MAX, U64_MAX, 2, MINUTE, DAY);
    assert Consumed(tenants[id], s0, 0, U64_MAX) == (s1, true);
    assert Consumed(tenants[id], s1, 0, U64_MAX) == (s2, true);
    assert Consumed(tenants[id], s2, MINUTE, U64_MAX).1;
    events := Admit(tenants, [], id, 0, U64_MAX, s0, 0, MINUTE);
    events := Admit(tenants, events, id, 0, U64_MAX, s1, 0, MINUTE);
    events := Admit(tenants, events, id, MINUTE, U64_MAX, s2, 0, MINUTE);
  }

  /** A full minute at the beginning of each minute, with a day quota that never refuses. */
  lemma {:induction false} FullMinutes(tenants: map<string, Quota>, id: string, tokens: u64, n: nat, len: nat)
    returns (events: seq<QuotaCheck>)
    requires id in tenants && tenants[id].tokensPerDay == U64_MAX && n > 0 && Times(n - 1, MINUTE) <= len
    requires tenants[id].tokensPerMinute == 0 || tokens <= tenants[id].tokensPerMinute
    ensures Monotone(events) && Clock(events) == Times(n - 1, MINUTE) && id in Run(tenants, events).states
    ensures Run(tenants, events).states[id].minuteReset == Times(n, MINUTE)
    ensures TokensIn(tenants, events, id, 0, len) == Times(n, tokens)
  {
    if n == 1 {
      MinuteBegins(tenants[id], NewState(0), 0, tokens);
      events := Admit(tenants, [], id, 0, tokens, NewState(0), 0, len);
    } else {
      var before := FullMinutes(tenants, id, tokens, n - 1, len);
      var s, at := Run(tenants, before).states[id], Times(n - 1, MINUTE);
      MinuteBegins(tenants[id], s, at, tokens);
      events := Admit(tenants, before, id, at, tokens, s, 0, len);
    }
  }

  lemma {:induction false} MinuteBegins(q: Quota, s: QuotaState, now: nat, tokens: u64)
    requires q.tokensPerDay == U64_MAX && (q.tokensPerMinute == 0 || tokens <= q.tokensPerMinute)
    requires s == NewState(now) || s.minuteReset <= now
    ensures Consumed(q, s, now, tokens).1 && Consumed(q, s, now, tokens).0.minuteReset == now + MINUTE
  {
  }

  /** A day of minutes, both ends included, holds 1441 full ones. */
  lemma {:induction false} DayOverflows(tenants: map<string, Quota>, id: string) returns (events: seq<QuotaCheck>)
    requires id in tenants && tenants[id].tokensPerDay == U64_MAX
    requires tenants[id].tokensPerMinute == 0 || 1441 * tenants[id].tokensPerMinute > 2 * U64_MAX
    ensures Monotone(events) && TokensIn(tenants, events, id, 0, DAY) > 2 * U64_MAX
  {
    var tokens: u64 := if tenants[id].tokensPerMinute == 0 then U64_MAX else tenants[id].tokensPerMinute;
    TimesIsProduct(1440, MINUTE);
    TimesIsProduct(1441, tokens);
    events := FullMinutes(tenants, id, tokens, 1441, DAY);
  }

  /** No tokens and no requests in the minute that is current at `at`, and no tokens in the day. */
  ghost predicate Idle(s: QuotaState, at: nat) {
    var r := Rolled(s, at);
    r.minuteTokens == 0 && r.dayTokens == 0 && r.minuteRequests == 0 && r.minuteReset == at + MINUTE
  }

  /** `s` after `n` checks without tokens at `at`, all accepted. */
  ghost predicate AfterRequests(s: QuotaState, at: nat, n: nat) {
    && s.minuteTokens == 0 && s.dayTokens == 0 && s.minuteReset == at + MINUTE && at < s.dayReset
    && s.minuteRequests == if n <= U64_MAX then n else U64_MAX
  }

  lemma {:induction false} RequestPasses(q: Quota, s: QuotaState, at: nat, n: nat)
    requires n < q.requestsPerMinute || q.requestsPerMinute == U64_MAX
    requires if n == 0 then Idle(s, at) else AfterRequests(s, at, n)
    ensures Consumed(q, s, at, 0).1 && AfterRequests(Consumed(q, s, at, 0).0, at, n + 1)
  {
  }

  /** Checks without tokens, all at one instant. */
  lemma {:induction false} RequestsAtOnce(tenants: map<string, Quota>, id: string, before: seq<QuotaCheck>, at: nat,
                                          n: nat, t: int, len: nat)
    returns (events: seq<QuotaCheck>)
    requires id in tenants && Monotone(before) && Clock(before) <= at && t <= at <= t + len && n > 0
    requires n <= tenants[id].requestsPerMinute || tenants[id].requestsPerMinute == U64_MAX
    requires Idle(StateOf(tenants, before, id, at), at)
    ensures Monotone(events) && Clock(events) == at && id in Run(tenants, events).states
    ensures AfterRequests(Run(tenants, events).states[id], at, n)
    ensures RequestsIn(tenants, events, id, t, len) == RequestsIn(tenants, before, id, t, len) + n
  {
    var events', s := before, StateOf(tenants, before, id, at);
    if n > 1 {
      events' := RequestsAtOnce(tenants, id, before, at, n - 1, t, len);
      s := Run(tenants, events').states[id];
    }
    RequestPasses(tenants[id], s, at, n - 1);
    events := Admit(tenants, events', id, at, 0, s, t, len);
  }

  // ------------------------------------------------------------------------------------------
  // The exact conditions
  // ------------------------------------------------------------------------------------------

  ghost predicate MinuteTokensAtMostDoubled(tenants: map<string, Quota>, id: string)
    requires id in tenants
  {
    forall events, t: int :: Monotone(events) ==>
      TokensIn(tenants, events, id, t, MINUTE) <= 2 * tenants[id].tokensPerMinute
  }

  ghost predicate RequestsAtMostDoubled(tenants: map<string, Quota>, id: string)
    requires id in tenants
  {
    forall events, t: int :: Monotone(events) ==>
      RequestsIn(tenants, events, id, t, MINUTE) <= 2 * tenants[id].requestsPerMinute
  }

  ghost predicate DayTokensAtMostDoubled(tenants: map<string, Quota>, id: string)
    requires id in tenants
  {
    forall events, t: int :: Monotone(events) ==>
      TokensIn(tenants, events, id, t, DAY) <= 2 * tenants[id].tokensPerDay
  }

  /** The same admissions with their tokens, at most `most` each, and as requests of weight one. */
  ghost predicate Paired(tokens: seq<Entry>, requests: seq<Entry>, most: nat) {
    && |tokens| == |requests|
    && forall i :: 0 <= i < |tokens| ==>
         tokens[i].at == requests[i].at && requests[i].tokens == 1 && tokens[i].tokens <= most
  }

  lemma {:induction false} PairedSums(tokens: seq<Entry>, requests: seq<Entry>, most: nat, lo: int, hi: int)
    requires Paired(tokens, requests, most)
    ensures SumWithin(tokens, lo, hi) <= Times(SumWithin(requests, lo, hi), most)
  {
    if tokens != [] {
      PairedSums(tokens[..|tokens| - 1], requests[..|requests| - 1], most, lo, hi);
    }
  }

  lemma {:induction false} PairedAppend(tokens: seq<Entry>, requests: seq<Entry>, most: nat, at: nat, n: u64)
    requires Paired(tokens, requests, most) && n <= most
    ensures Paired(tokens + [Entry(at, n)], requests + [Entry(at, 1)], most)
  {
  }

  /** A request carries at most the largest u64, and at most an enabled minute quota below it. */
  lemma {:induction false} AdmittedPaired(tenants: map<string, Quota>, events: seq<QuotaCheck>, id: string, most: nat)
    requires most == U64_MAX || (id in tenants && Enforced(most) && most == tenants[id].tokensPerMinute)
    ensures Paired(Admitted(tenants, events, id, false), Admitted(tenants, events, id, true), most)
  {
    if events != [] {
      var before, e := events[..|events| - 1], events[|events| - 1];
      AdmittedPaired(tenants, before, id, most);
      if e.id == id && CheckQuota(tenants, Run(tenants, before), e).1 {
        if most < U64_MAX {
          AcceptedTokens(tenants, Run(tenants, before), e);
        }
        PairedAppend(Admitted(tenants, before, id, false), Admitted(tenants, before, id, true), most, e.now, e.tokens);
      }
    }
  }

  lemma {:induction false} AcceptedTokens(tenants: map<string, Quota>, m: Manager, e: QuotaCheck)
    requires e.id in tenants && Enforced(tenants[e.id].tokensPerMinute) && CheckQuota(tenants, m, e).1
    ensures e.tokens <= tenants[e.id].tokensPerMinute
  {
    CheckFinds(tenants, m, e);
  }

  lemma {:induction false} OneRequestPerMinute(tenants: map<string, Quota>, events: seq<QuotaCheck>, id: string, t: int)
    requires Monotone(events) && id in tenants && tenants[id].requestsPerMinute == 1
    ensures TokensIn(tenants, events, id, t, MINUTE) <= 2 * U64_MAX
  {
    QuotaAtMostDoubled(tenants, events, id, t);
    AdmittedPaired(tenants, events, id, U64_MAX);
    PairedSums(Admitted(tenants, events, id, false), Admitted(tenants, events, id, true), U64_MAX, t, t + MINUTE);
    TimesMonotone(RequestsIn(tenants, events, id, t, MINUTE), 2, U64_MAX);
    TimesIsProduct(2, U64_MAX);
  }

  lemma {:induction false} MinuteTokensHold(tenants: map<string, Quota>, events: seq<QuotaCheck>, id: string, t: int)
    requires Monotone(events) && id in tenants && tenants[id].tokensPerMinute > 0
    requires Enforced(tenants[id].tokensPerMinute) || Enforced(tenants[id].tokensPerDay)
             || tenants[id].requestsPerMinute == 1
    ensures TokensIn(tenants, events, id, t, MINUTE) <= 2 * tenants[id].tokensPerMinute
  {
    QuotaAtMostDoubled(tenants, events, id, t);
    if !Enforced(tenants[id].tokensPerMinute) {
      if Enforced(tenants[id].tokensPerDay) {
        SumWithinMonotone(Admitted(tenants, events, id, false), t, t + MINUTE, t, t + DAY);
      } else {
        OneRequestPerMinute(tenants, events, id, t);
      }
    }
  }

  lemma {:induction false} DayTokensHold(tenants: map<string, Quota>, events: seq<QuotaCheck>, id: string, t: int)
    requires Monotone(events) && id in tenants && tenants[id].tokensPerDay > 0
    requires Enforced(tenants[id].tokensPerDay) || 0 < 1441 * tenants[id].tokensPerMinute <= 2 * U64_MAX
    ensures TokensIn(tenants, events, id, t, DAY) <= 2 * tenants[id].tokensPerDay
  {
    if Enforced(tenants[id].tokensPerDay) {
      QuotaAtMostDoubled(tenants, events, id, t);
    } else {
      QuotaOverWindows(tenants, events, id, t, 1440);
    }
  }

  lemma {:induction false} MinuteTokensIff(tenants: map<string, Quota>, id: string)
    requires id in tenants && tenants[id].tokensPerMinute > 0
    ensures MinuteTokensAtMostDoubled(tenants, id) <==>
            || tenants[id].tokensPerMinute < U64_MAX
            || 0 < tenants[id].tokensPerDay < U64_MAX
            || tenants[id].requestsPerMinute == 1
  {
    if Enforced(tenants[id].tokensPerMinute) || Enforced(tenants[id].tokensPerDay)
       || tenants[id].requestsPerMinute == 1 {
      forall events, t: int | Monotone(events)
        ensures TokensIn(tenants, events, id, t, MINUTE) <= 2 * tenants[id].tokensPerMinute
      {
        MinuteTokensHold(tenants, events, id, t);
      }
    } else {
      var events := MinuteOverflows(tenants, id);
      assert TokensIn(tenants, events, id, 0, MINUTE) > 2 * tenants[id].tokensPerMinute;
    }
  }

  lemma {:induction false} RequestsIff(tenants: map<string, Quota>, id: string)
    requires id in tenants && tenants[id].requestsPerMinute > 0
    ensures RequestsAtMostDoubled(tenants, id) <==> tenants[id].requestsPerMinute < U64_MAX
  {
    if tenants[id].requestsPerMinute < U64_MAX {
      forall events, t: int | Monotone(events)
        ensures RequestsIn(tenants, events, id, t, MINUTE) <= 2 * tenants[id].requestsPerMinute
      {
        QuotaAtMostDoubled(tenants, events, id, t);
      }
    } else {
      var events := RequestsAtOnce(tenants, id, [], 0, 2 * U64_MAX + 1, 0, MINUTE);
      assert RequestsIn(tenants, events, id, 0, MINUTE) > 2 * tenants[id].requestsPerMinute;
    }
  }

  lemma {:induction false} DayTokensIff(tenants: map<string, Quota>, id: string)
    requires id in tenants && tenants[id].tokensPerDay > 0
    ensures DayTokensAtMostDoubled(tenants, id) <==>
            tenants[id].tokensPerDay < U64_MAX || 0 < 1441 * tenants[id].tokensPerMinute <= 2 * U64_MAX
  {
    if tenants[id].tokensPerDay < U64_MAX || 0 < 1441 * tenants[id].tokensPerMinute <= 2 * U64_MAX {
      forall events, t: int | Monotone(events)
        ensures TokensIn(tenants, events, id, t, DAY) <= 2 * tenants[id].tokensPerDay
      {
        DayTokensHold(tenants, events, id, t);
      }
    } else {
      var events := DayOverflows(tenants, id);
      assert TokensIn(tenants, events, id, 0, DAY) > 2 * tenants[id].tokensPerDay;
    }
  }

  /** For every tenant and quota, an enabled quota bounds all closed intervals of its window length by
      twice its value, in every run, if and only if it is below the largest u64 or another quota
      stands in: for minute tokens a smaller day quota or a single request a minute, for day tokens a
      minute quota of which 1441 fit, for requests none. */
  lemma {:induction false} QuotaAtMostDoubledIff(tenants: map<string, Quota>, id: string)
    requires id in tenants
    ensures
      var q := tenants[id];
      && (q.tokensPerMinute > 0 ==>
            (MinuteTokensAtMostDoubled(tenants, id) <==>
             q.tokensPerMinute < U64_MAX || 0 < q.tokensPerDay < U64_MAX || q.requestsPerMinute == 1))
      && (q.requestsPerMinute > 0 ==> (RequestsAtMostDoubled(tenants, id) <==> q.requestsPerMinute < U64_MAX))
      && (q.tokensPerDay > 0 ==>
            (DayTokensAtMostDoubled(tenants, id) <==>
             q.tokensPerDay < U64_MAX || 0 < 1441 * q.tokensPerMinute <= 2 * U64_MAX))
  {
    var q := tenants[id];
    if q.tokensPerMinute > 0 {
      MinuteTokensIff(tenants, id);
    }
    if q.requestsPerMinute > 0 {
      RequestsIff(tenants, id);
    }
    if q.tokensPerDay > 0 {
      DayTokensIff(tenants, id);
    }
  }
}
