/**
 The AI gateway's per-key sliding-window limiter: deques of timestamps with running token totals,
 pruned from the front.  Times are nanoseconds.
 */
module SlidingWindow {
  import opened Wrappers
  import opened Ints
  import opened History

  /** A deque of entries with its running total. */
  datatype Tokens = Tokens(entries: seq<Entry>, total: u64)

  /** The limits of one key; zero means unlimited. */
  datatype Limits = Limits(requests: u64, minuteTokens: u64, hourTokens: u64)

  datatype Window = Window(requests: seq<nat>, minute: Tokens, hour: Tokens)

  datatype RateLimitResult = Allowed(remaining: nat) | Limited(retryAfterSecs: nat)

  datatype Op = Check(now: nat) | Record(now: nat, tokens: u64)

  predicate Expired(at: nat, now: nat, window: nat) { now - at > window }

  // ------------------------------------------------------------------------------------------
  // The operations as functions of the state
  // ------------------------------------------------------------------------------------------

  function PruneRequests(q: seq<nat>, now: nat): seq<nat> {
    if q != [] && Expired(q[0], now, MINUTE) then PruneRequests(q[1..], now) else q
  }

  function PruneTokens(w: Tokens, now: nat, window: nat): Tokens
    decreases |w.entries|
  {
    if w.entries != [] && Expired(w.entries[0].at, now, window)
    then PruneTokens(Tokens(w.entries[1..], SaturatingSub(w.total, w.entries[0].tokens)), now, window)
    else w
  }

  function Prune(w: Window, now: nat): Window {
    Window(PruneRequests(w.requests, now), PruneTokens(w.minute, now, MINUTE), PruneTokens(w.hour, now, HOUR))
  }

  /** The least of the enabled quotas left. */
  function MinEnabled(values: seq<Option<nat>>): nat {
    if values == [] then U64_MAX
    else
      var rest := MinEnabled(values[1..]);
      if values[0].Some? && values[0].value < rest then values[0].value else rest
  }

  function Left(limit: nat, used: nat): Option<nat> {
    if limit > 0 then Some(SaturatingSub(limit, used)) else None
  }

  function RetryAfter(requests: seq<nat>, now: nat): nat {
    var oldest := if requests == [] then now else requests[0];
    var secs := SaturatingSub(MINUTE, SaturatingSub(now, oldest)) / SECOND;
    if secs < 1 then 1 else secs
  }

  function ApplyCheck(l: Limits, before: Window, now: nat): (Window, RateLimitResult) {
    var w := Prune(before, now);
    if l.minuteTokens > 0 && w.minute.total >= l.minuteTokens then (w, Limited(1))
    else if l.hourTokens > 0 && w.hour.total >= l.hourTokens then (w, Limited(1))
    else if l.requests > 0 && |w.requests| >= l.requests then (w, Limited(RetryAfter(w.requests, now)))
    else
      var w' := w.(requests := w.requests + [now]);
      (w', Allowed(MinEnabled([Left(l.minuteTokens, w.minute.total), Left(l.hourTokens, w.hour.total),
                               Left(l.requests, |w'.requests|)])))
  }

  function Push(w: Tokens, limit: u64, now: nat, tokens: u64): Tokens {
    if limit > 0 then Tokens(w.entries + [Entry(now, tokens)], SaturatingAdd(w.total, tokens)) else w
  }

  function ApplyRecord(l: Limits, before: Window, now: nat, tokens: u64): (Window, RateLimitResult) {
    var w := Prune(before, now);
    if l.hourTokens > 0 && SaturatingAdd(w.hour.total, tokens) > l.hourTokens then (w, Limited(1))
    else if l.minuteTokens > 0 && SaturatingAdd(w.minute.total, tokens) > l.minuteTokens then (w, Limited(1))
    else
      var w' := w.(minute := Push(w.minute, l.minuteTokens, now, tokens),
                   hour := Push(w.hour, l.hourTokens, now, tokens));
      (w', Allowed(MinEnabled([Left(l.minuteTokens, w'.minute.total), Left(l.hourTokens, w'.hour.total)])))
  }

  function Apply(l: Limits, w: Window, op: Op): (Window, RateLimitResult) {
    match op
    case Check(now) => ApplyCheck(l, w, now)
    case Record(now, tokens) => ApplyRecord(l, w, now, tokens)
  }

  const EMPTY: Window := Window([], Tokens([], 0), Tokens([], 0))

  /** The state after a run of operations on one key. */
  function Run(l: Limits, ops: seq<Op>): Window {
    if ops == [] then EMPTY
    else Apply(l, Run(l, ops[..|ops| - 1]), ops[|ops| - 1]).0
  }

  /** The answer to the last operation of a run. */
  function LastAnswer(l: Limits, ops: seq<Op>): RateLimitResult
    requires ops != []
  {
    Apply(l, Run(l, ops[..|ops| - 1]), ops[|ops| - 1]).1
  }

  // ------------------------------------------------------------------------------------------
  // The object
  // ------------------------------------------------------------------------------------------

  class SlidingWindowState {
    const limits: Limits
    var requests: seq<nat>
    var minuteTokens: seq<Entry>
    var hourTokens: seq<Entry>
    var minuteTokenTotal: u64
    var hourTokenTotal: u64

    ghost function View(): Window
      reads this
    {
      Window(requests, Tokens(minuteTokens, minuteTokenTotal), Tokens(hourTokens, hourTokenTotal))
    }

    constructor (l: Limits)
      ensures limits == l && View() == EMPTY
    {
      limits := l;
      requests, minuteTokens, hourTokens := [], [], [];
      minuteTokenTotal, hourTokenTotal := 0, 0;
    }

    static method PruneTokenWindow(entries: seq<Entry>, total: u64, now: nat, window: nat)
      returns (kept: seq<Entry>, left: u64)
      ensures Tokens(kept, left) == PruneTokens(Tokens(entries, total), now, window)
    {
      kept, left := entries, total;
      while kept != [] && Expired(kept[0].at, now, window)
        invariant PruneTokens(Tokens(kept, left), now, window) == PruneTokens(Tokens(entries, total), now, window)
        decreases |kept|
      {
        left := SaturatingSub(left, kept[0].tokens);
        kept := kept[1..];
      }
    }

    method PruneWindow(now: nat)
      modifies this
      ensures View() == Prune(old(View()), now)
    {
      while requests != [] && Expired(requests[0], now, MINUTE)
        invariant PruneRequests(requests, now) == PruneRequests(old(requests), now)
        invariant View() == old(View()).(requests := requests)
        decreases |requests|
      {
        requests := requests[1..];
      }
      minuteTokens, minuteTokenTotal := PruneTokenWindow(minuteTokens, minuteTokenTotal, now, MINUTE);
      hourTokens, hourTokenTotal := PruneTokenWindow(hourTokens, hourTokenTotal, now, HOUR);
    }

    method Check(now: nat) returns (r: RateLimitResult)
      modifies this
      ensures (View(), r) == ApplyCheck(limits, old(View()), now)
    {
      PruneWindow(now);
      if limits.minuteTokens > 0 && minuteTokenTotal >= limits.minuteTokens {
        return Limited(1);
      }
      if limits.hourTokens > 0 && hourTokenTotal >= limits.hourTokens {
        return Limited(1);
      }
      if limits.requests > 0 && |requests| >= limits.requests {
        return Limited(RetryAfter(requests, now));
      }
      requests := requests + [now];
      r := Allowed(MinEnabled([Left(limits.minuteTokens, minuteTokenTotal), Left(limits.hourTokens, hourTokenTotal),
                               Left(limits.requests, |requests|)]));
    }

    method RecordTokens(now: nat, tokens: u64) returns (r: RateLimitResult)
      modifies this
      ensures (View(), r) == ApplyRecord(limits, old(View()), now, tokens)
    {
      PruneWindow(now);
      var projectedMinute := SaturatingAdd(minuteTokenTotal, tokens);
      var projectedHour := SaturatingAdd(hourTokenTotal, tokens);
      if limits.hourTokens > 0 && projectedHour > limits.hourTokens {
        return Limited(1);
      }
      if limits.minuteTokens > 0 && projectedMinute > limits.minuteTokens {
        return Limited(1);
      }
      if limits.minuteTokens > 0 {
        minuteTokens := minuteTokens + [Entry(now, tokens)];
        minuteTokenTotal := projectedMinute;
      }
      if limits.hourTokens > 0 {
        hourTokens := hourTokens + [Entry(now, tokens)];
        hourTokenTotal := projectedHour;
      }
      r := Allowed(MinEnabled([Left(limits.minuteTokens, minuteTokenTotal), Left(limits.hourTokens, hourTokenTotal)]));
    }
  }

  // ------------------------------------------------------------------------------------------
  // Full histories
  // ------------------------------------------------------------------------------------------

  /** Every request ever admitted by a run, as entries of weight one. */
  ghost function Admitted(l: Limits, ops: seq<Op>): seq<Entry> {
    if ops == [] then []
    else
      var before := Admitted(l, ops[..|ops| - 1]);
      var op := ops[|ops| - 1];
      if op.Check? && LastAnswer(l, ops).Allowed? then before + [Entry(op.now, 1)] else before
  }

  /** Every token record ever accepted by a run. */
  ghost function Accepted(l: Limits, ops: seq<Op>): seq<Entry> {
    if ops == [] then []
    else
      var before := Accepted(l, ops[..|ops| - 1]);
      var op := ops[|ops| - 1];
      if op.Record? && LastAnswer(l, ops).Allowed? then before + [Entry(op.now, op.tokens)] else before
  }

  /** One operation more. */
  lemma {:induction false} RunGrows(l: Limits, ops: seq<Op>, op: Op)
    ensures
      var (w, answer) := Apply(l, Run(l, ops), op);
      && Run(l, ops + [op]) == w && LastAnswer(l, ops + [op]) == answer
      && Accepted(l, ops + [op]) ==
           (if op.Record? && answer.Allowed? then Accepted(l, ops) + [Entry(op.now, op.tokens)] else Accepted(l, ops))
  {
    assert (ops + [op])[..|ops|] == ops;
  }

  /** The clock never goes back. */
  ghost predicate Monotone(ops: seq<Op>) {
    forall i, j :: 0 <= i <= j < |ops| ==> ops[i].now <= ops[j].now
  }

  function Clock(ops: seq<Op>): nat { if ops == [] then 0 else ops[|ops| - 1].now }

  lemma {:induction false} MonotoneGrows(ops: seq<Op>, op: Op)
    requires Monotone(ops) && Clock(ops) <= op.now
    ensures Monotone(ops + [op]) && Clock(ops + [op]) == op.now
  {
  }

  function Sum(h: seq<Entry>): nat {
    if h == [] then 0 else h[0].tokens + Sum(h[1..])
  }

  function DropExpired(h: seq<Entry>, now: nat, window: nat): seq<Entry> {
    if h != [] && Expired(h[0].at, now, window) then DropExpired(h[1..], now, window) else h
  }

  ghost predicate Sorted(h: seq<Entry>, now: nat) {
    && (forall i, j :: 0 <= i <= j < |h| ==> h[i].at <= h[j].at)
    && (forall i :: 0 <= i < |h| ==> h[i].at <= now)
  }

  /** Each entry found room when it was recorded. */
  ghost predicate Admissible(h: seq<Entry>, window: nat, limit: nat) {
    h == [] || (
      var n := |h| - 1;
      Admissible(h[..n], window, limit) && SumWithin(h, h[n].at - window, h[n].at) <= limit)
  }

  // ------------------------------------------------------------------------------------------
  // Facts about histories
  // ------------------------------------------------------------------------------------------

  lemma {:induction false} DropTwice(h: seq<Entry>, t: nat, now: nat, window: nat)
    requires t <= now
    ensures DropExpired(DropExpired(h, t, window), now, window) == DropExpired(h, now, window)
  {
    if h != [] && Expired(h[0].at, t, window) {
      DropTwice(h[1..], t, now, window);
    }
  }

  lemma {:induction false} DropAppend(h: seq<Entry>, e: Entry, now: nat, window: nat)
    requires !Expired(e.at, now, window)
    ensures DropExpired(h + [e], now, window) == DropExpired(h, now, window) + [e]
  {
    if h != [] && Expired(h[0].at, now, window) {
      assert (h + [e])[1..] == h[1..] + [e];
      DropAppend(h[1..], e, now, window);
    }
  }

  lemma {:induction false} SumWithinFront(h: seq<Entry>, lo: int, hi: int)
    requires h != []
    ensures SumWithin(h, lo, hi) == Weight(h[0], lo, hi) + SumWithin(h[1..], lo, hi)
  {
    var n := |h| - 1;
    if n == 0 {
      assert SumWithin(h[..0], lo, hi) == 0;
    } else {
      SumWithinFront(h[..n], lo, hi);
      assert h[..n][1..] == h[1..][..n - 1];
    }
  }

  /** What pruning keeps is exactly what the window contains. */
  lemma {:induction false} DropKeepsWindow(h: seq<Entry>, now: nat, window: nat)
    requires Sorted(h, now)
    ensures Sum(DropExpired(h, now, window)) == SumWithin(h, now - window, now)
  {
    if h == [] {
    } else if Expired(h[0].at, now, window) {
      SumWithinFront(h, now - window, now);
      DropKeepsWindow(h[1..], now, window);
    } else {
      AllWithin(h, now, window);
    }
  }

  lemma {:induction false} AllWithin(h: seq<Entry>, now: nat, window: nat)
    requires forall i :: 0 <= i < |h| ==> now - window <= h[i].at <= now
    ensures Sum(h) == SumWithin(h, now - window, now)
  {
    if h != [] {
      SumWithinFront(h, now - window, now);
      AllWithin(h[1..], now, window);
    }
  }

  /** Room at every recording instant is room in every closed window of that length. */
  lemma {:induction false} AdmissibleBoundsEveryWindow(h: seq<Entry>, window: nat, limit: nat, now: nat, t: int)
    requires Sorted(h, now) && Admissible(h, window, limit)
    ensures SumWithin(h, t - window, t) <= limit
  {
    if h != [] {
      var n := |h| - 1;
      if h[n].at > t {
        AdmissibleBoundsEveryWindow(h[..n], window, limit, now, t);
      } else {
        SumWithinMonotone(h, t - window, t, h[n].at - window, h[n].at);
      }
    }
  }

  lemma {:induction false} AdmissibleExtend(h: seq<Entry>, e: Entry, window: nat, limit: nat)
    requires Admissible(h, window, limit)
    requires SumWithin(h, e.at - window, e.at) + e.tokens <= limit
    ensures Admissible(h + [e], window, limit)
  {
    assert (h + [e])[..|h|] == h;
  }

  // ------------------------------------------------------------------------------------------
  // What the windows remember
  // ------------------------------------------------------------------------------------------

  /** Timestamps as entries of weight one. */
  function Ones(q: seq<nat>): seq<Entry> { seq(|q|, i requires 0 <= i < |q| => Entry(q[i], 1)) }

  lemma {:induction false} PruneRequestsDrops(q: seq<nat>, now: nat)
    ensures Ones(PruneRequests(q, now)) == DropExpired(Ones(q), now, MINUTE)
  {
    if q != [] && Expired(q[0], now, MINUTE) {
      assert Ones(q)[1..] == Ones(q[1..]);
      PruneRequestsDrops(q[1..], now);
    }
  }

  lemma {:induction false} SumOnes(q: seq<nat>)
    ensures Sum(Ones(q)) == |q|
  {
    if q != [] {
      assert Ones(q)[1..] == Ones(q[1..]);
      SumOnes(q[1..]);
    }
  }

  /** The running total is the sum of the deque; expiry then subtracts without saturating. */
  lemma {:induction false} PruneTokensDrops(w: Tokens, now: nat, window: nat)
    requires w.total == Sum(w.entries)
    ensures PruneTokens(w, now, window).entries == DropExpired(w.entries, now, window)
    ensures PruneTokens(w, now, window).total == Sum(DropExpired(w.entries, now, window))
    decreases |w.entries|
  {
    if w.entries != [] && Expired(w.entries[0].at, now, window) {
      PruneTokensDrops(Tokens(w.entries[1..], SaturatingSub(w.total, w.entries[0].tokens)), now, window);
    }
  }

  lemma {:induction false} SumAppend(h: seq<Entry>, e: Entry)
    ensures Sum(h + [e]) == Sum(h) + e.tokens
  {
    if h == [] {
      assert [e][1..] == [];
    } else {
      assert (h + [e])[1..] == h[1..] + [e];
      SumAppend(h[1..], e);
    }
  }

  /** A token window remembers exactly the part of history `h` not yet expired at `now`. */
  ghost predicate Remembers(w: Tokens, h: seq<Entry>, now: nat, window: nat, limit: nat) {
    && Sorted(h, now)
    && w.entries == DropExpired(h, now, window)
    && w.total == Sum(w.entries)
    && w.total <= limit
    && Admissible(h, window, limit)
  }

  lemma {:induction false} PruneRemembers(w: Tokens, h: seq<Entry>, t: nat, now: nat, window: nat, limit: nat)
    requires Remembers(w, h, t, window, limit) && t <= now
    ensures Remembers(PruneTokens(w, now, window), h, now, window, limit)
  {
    PruneTokensDrops(w, now, window);
    DropTwice(h, t, now, window);
    DropLess(w.entries, now, window);
  }

  lemma {:induction false} DropLess(h: seq<Entry>, now: nat, window: nat)
    ensures Sum(DropExpired(h, now, window)) <= Sum(h)
  {
    if h != [] && Expired(h[0].at, now, window) {
      DropLess(h[1..], now, window);
    }
  }

  lemma {:induction false} PushRemembers(w: Tokens, h: seq<Entry>, now: nat, tokens: u64, window: nat, limit: u64)
    requires Remembers(w, h, now, window, limit) && limit > 0 && w.total + tokens <= limit
    ensures Remembers(Push(w, limit, now, tokens), h + [Entry(now, tokens)], now, window, limit)
  {
    var e := Entry(now, tokens);
    assert Push(w, limit, now, tokens) == Tokens(w.entries + [e], w.total + tokens);
    DropAppend(h, e, now, window);
    SumAppend(w.entries, e);
    DropKeepsWindow(h, now, window);
    AdmissibleExtend(h, e, window, limit);
    SortedExtend(h, e, now);
  }

  lemma {:induction false} SortedExtend(h: seq<Entry>, e: Entry, now: nat)
    requires Sorted(h, now) && e.at == now
    ensures Sorted(h + [e], now)
  {
  }

  /** The request deque against the admitted requests. */
  ghost predicate RemembersRequests(q: seq<nat>, h: seq<Entry>, now: nat, limit: nat) {
    && Sorted(h, now)
    && Ones(q) == DropExpired(h, now, MINUTE)
    && (limit > 0 ==> Admissible(h, MINUTE, limit))
  }

  lemma {:induction false} PruneRemembersRequests(q: seq<nat>, h: seq<Entry>, t: nat, now: nat, limit: nat)
    requires RemembersRequests(q, h, t, limit) && t <= now
    ensures RemembersRequests(PruneRequests(q, now), h, now, limit)
  {
    PruneRequestsDrops(q, now);
    DropTwice(h, t, now, MINUTE);
  }

  lemma {:induction false} PushRemembersRequests(q: seq<nat>, h: seq<Entry>, now: nat, limit: nat)
    requires RemembersRequests(q, h, now, limit)
    requires limit > 0 ==> |q| < limit
    ensures RemembersRequests(q + [now], h + [Entry(now, 1)], now, limit)
  {
    var e := Entry(now, 1);
    assert Ones(q + [now]) == Ones(q) + [e];
    DropAppend(h, e, now, MINUTE);
    if limit > 0 {
      SumOnes(q);
      DropKeepsWindow(h, now, MINUTE);
      AdmissibleExtend(h, e, MINUTE, limit);
    }
  }

  // ------------------------------------------------------------------------------------------
  // Totals that do not saturate
  // ------------------------------------------------------------------------------------------

  /** The largest u64 as a minute limit is exact only under a lower hour limit. */
  predicate MinuteExact(l: Limits) { l.minuteTokens < U64_MAX || 0 < l.hourTokens < U64_MAX }

  /** The largest u64 as an hour limit is exact only where sixty full minutes stay within it. */
  predicate HourExact(l: Limits) { l.hourTokens < U64_MAX || 0 < 60 * l.minuteTokens <= U64_MAX }

  /** As many minutes as cover an interval bound what it holds. */
  lemma {:induction false} CoveredByMinutes(h: seq<Entry>, now: nat, limit: nat, lo: int, n: nat)
    requires Sorted(h, now) && Admissible(h, MINUTE, limit)
    ensures SumWithin(h, lo, lo + n * (MINUTE + 1) - 1) <= n * limit
  {
    if n == 0 {
      NothingWithin(h, lo, lo - 1);
    } else {
      var mid := lo + (n - 1) * (MINUTE + 1);
      CoveredByMinutes(h, now, limit, lo, n - 1);
      SumSplit(h, lo, mid, mid + MINUTE);
      AdmissibleBoundsEveryWindow(h, MINUTE, limit, now, mid + MINUTE);
      assert n * limit == (n - 1) * limit + limit;
    }
  }

  /** Sixty closed minutes cover a closed hour. */
  lemma {:induction false} HourFromMinutes(h: seq<Entry>, now: nat, limit: nat, t: int)
    requires Sorted(h, now) && Admissible(h, MINUTE, limit)
    ensures SumWithin(h, t - HOUR, t) <= 60 * limit
  {
    CoveredByMinutes(h, now, limit, t - HOUR, 60);
    SumWithinMonotone(h, t - HOUR, t, t - HOUR, t - HOUR + 60 * (MINUTE + 1) - 1);
  }

  /** Tokens that pass the saturating tests fit into an exact minute window. */
  lemma {:induction false} MinuteRoom(l: Limits, w: Window, h: seq<Entry>, now: nat, tokens: u64)
    requires l.minuteTokens > 0 && MinuteExact(l) && Remembers(w.minute, h, now, MINUTE, l.minuteTokens)
    requires 0 < l.hourTokens < U64_MAX ==>
               Remembers(w.hour, h, now, HOUR, l.hourTokens) && SaturatingAdd(w.hour.total, tokens) <= l.hourTokens
    requires SaturatingAdd(w.minute.total, tokens) <= l.minuteTokens
    ensures w.minute.total + tokens <= l.minuteTokens
  {
    if l.minuteTokens == U64_MAX {
      DropKeepsWindow(h, now, MINUTE);
      DropKeepsWindow(h, now, HOUR);
      SumWithinMonotone(h, now - MINUTE, now, now - HOUR, now);
    }
  }

  /** The same for an exact hour window. */
  lemma {:induction false} HourRoom(l: Limits, w: Window, h: seq<Entry>, now: nat, tokens: u64)
    requires l.hourTokens > 0 && HourExact(l) && Remembers(w.hour, h, now, HOUR, l.hourTokens)
    requires 0 < l.minuteTokens < U64_MAX ==>
               && Remembers(w.minute, h, now, MINUTE, l.minuteTokens)
               && SaturatingAdd(w.minute.total, tokens) <= l.minuteTokens
    requires SaturatingAdd(w.hour.total, tokens) <= l.hourTokens
    ensures w.hour.total + tokens <= l.hourTokens
  {
    if l.hourTokens == U64_MAX {
      var e := Entry(now, tokens);
      PushRemembers(w.minute, h, now, tokens, MINUTE, l.minuteTokens);
      HourFromMinutes(h + [e], now, l.minuteTokens, now);
      DropKeepsWindow(h, now, HOUR);
      SumWithinAppend(h, e, now - HOUR, now);
    }
  }

  // ------------------------------------------------------------------------------------------
  // The run invariant
  // ------------------------------------------------------------------------------------------

  ghost predicate TokensInv(l: Limits, w: Window, h: seq<Entry>, now: nat) {
    && (l.minuteTokens > 0 && MinuteExact(l) ==> Remembers(w.minute, h, now, MINUTE, l.minuteTokens))
    && (l.hourTokens > 0 && HourExact(l) ==> Remembers(w.hour, h, now, HOUR, l.hourTokens))
  }

  ghost predicate WindowInv(l: Limits, w: Window, admitted: seq<Entry>, accepted: seq<Entry>, now: nat) {
    RemembersRequests(w.requests, admitted, now, l.requests) && TokensInv(l, w, accepted, now)
  }

  ghost predicate RunInv(l: Limits, ops: seq<Op>) {
    WindowInv(l, Run(l, ops), Admitted(l, ops), Accepted(l, ops), Clock(ops))
  }

  lemma {:induction false} PruneKeepsTokens(l: Limits, w: Window, h: seq<Entry>, t: nat, now: nat)
    requires TokensInv(l, w, h, t) && t <= now
    ensures TokensInv(l, Prune(w, now), h, now)
  {
    if l.minuteTokens > 0 && MinuteExact(l) {
      PruneRemembers(w.minute, h, t, now, MINUTE, l.minuteTokens);
    }
    if l.hourTokens > 0 && HourExact(l) {
      PruneRemembers(w.hour, h, t, now, HOUR, l.hourTokens);
    }
  }

  lemma {:induction false} RecordKeepsTokens(l: Limits, w: Window, h: seq<Entry>, t: nat, now: nat, tokens: u64)
    requires TokensInv(l, w, h, t) && t <= now && ApplyRecord(l, w, now, tokens).1.Allowed?
    ensures TokensInv(l, ApplyRecord(l, w, now, tokens).0, h + [Entry(now, tokens)], now)
  {
    var pruned := Prune(w, now);
    PruneKeepsTokens(l, w, h, t, now);
    if l.minuteTokens > 0 && MinuteExact(l) {
      MinuteRoom(l, pruned, h, now, tokens);
      PushRemembers(pruned.minute, h, now, tokens, MINUTE, l.minuteTokens);
    }
    if l.hourTokens > 0 && HourExact(l) {
      HourRoom(l, pruned, h, now, tokens);
      PushRemembers(pruned.hour, h, now, tokens, HOUR, l.hourTokens);
    }
  }

  lemma {:induction false} CheckKeepsInv(l: Limits, w: Window, admitted: seq<Entry>, accepted: seq<Entry>, t: nat,
                                         now: nat)
    requires WindowInv(l, w, admitted, accepted, t) && t <= now
    ensures
      var (w', answer) := ApplyCheck(l, w, now);
      WindowInv(l, w', if answer.Allowed? then admitted + [Entry(now, 1)] else admitted, accepted, now)
  {
    PruneRemembersRequests(w.requests, admitted, t, now, l.requests);
    PruneKeepsTokens(l, w, accepted, t, now);
    if ApplyCheck(l, w, now).1.Allowed? {
      PushRemembersRequests(Prune(w, now).requests, admitted, now, l.requests);
    }
  }

  lemma {:induction false} RecordKeepsInv(l: Limits, w: Window, admitted: seq<Entry>, accepted: seq<Entry>, t: nat,
                                          now: nat, tokens: u64)
    requires WindowInv(l, w, admitted, accepted, t) && t <= now
    ensures
      var (w', answer) := ApplyRecord(l, w, now, tokens);
      WindowInv(l, w', admitted, if answer.Allowed? then accepted + [Entry(now, tokens)] else accepted, now)
  {
    PruneRemembersRequests(w.requests, admitted, t, now, l.requests);
    PruneKeepsTokens(l, w, accepted, t, now);
    if ApplyRecord(l, w, now, tokens).1.Allowed? {
      RecordKeepsTokens(l, w, accepted, t, now, tokens);
    }
  }

  lemma {:induction false} ApplyKeepsInv(l: Limits, w: Window, admitted: seq<Entry>, accepted: seq<Entry>, t: nat,
                                         op: Op)
    requires WindowInv(l, w, admitted, accepted, t) && t <= op.now
    ensures
      var (w', answer) := Apply(l, w, op);
      WindowInv(l, w', if op.Check? && answer.Allowed? then admitted + [Entry(op.now, 1)] else admitted,
                if op.Record? && answer.Allowed? then accepted + [Entry(op.now, op.tokens)] else accepted, op.now)
  {
    match op
    case Check(now) => CheckKeepsInv(l, w, admitted, accepted, t, now);
    case Record(now, tokens) => RecordKeepsInv(l, w, admitted, accepted, t, now, tokens);
  }

  lemma {:induction false} RunKeepsInv(l: Limits, ops: seq<Op>)
    requires Monotone(ops)
    ensures RunInv(l, ops)
  {
    if ops != [] {
      var before := ops[..|ops| - 1];
      RunKeepsInv(l, before);
      ApplyKeepsInv(l, Run(l, before), Admitted(l, before), Accepted(l, before), Clock(before), ops[|ops| - 1]);
    }
  }

  // ------------------------------------------------------------------------------------------
  // What holds in every run
  // ------------------------------------------------------------------------------------------

  /** In every run and for every instant `t`, at most the limit of requests is admitted in the
      closed minute ending at `t`. */
  lemma {:induction false} RequestRateBounded(l: Limits, ops: seq<Op>, t: int)
    requires Monotone(ops) && l.requests > 0
    ensures SumWithin(Admitted(l, ops), t - MINUTE, t) <= l.requests
  {
    RunKeepsInv(l, ops);
    AdmissibleBoundsEveryWindow(Admitted(l, ops), MINUTE, l.requests, Clock(ops), t);
  }

  /** The same for tokens, over every closed minute and every closed hour. */
  lemma {:induction false} TokenRateBounded(l: Limits, ops: seq<Op>, t: int)
    requires Monotone(ops)
    ensures l.minuteTokens > 0 && MinuteExact(l) ==> SumWithin(Accepted(l, ops), t - MINUTE, t) <= l.minuteTokens
    ensures l.hourTokens > 0 && HourExact(l) ==> SumWithin(Accepted(l, ops), t - HOUR, t) <= l.hourTokens
  {
    RunKeepsInv(l, ops);
    if l.minuteTokens > 0 && MinuteExact(l) {
      AdmissibleBoundsEveryWindow(Accepted(l, ops), MINUTE, l.minuteTokens, Clock(ops), t);
    }
    if l.hourTokens > 0 && HourExact(l) {
      AdmissibleBoundsEveryWindow(Accepted(l, ops), HOUR, l.hourTokens, Clock(ops), t);
    }
  }

  /** A running total is exact: the sum of its deque and of the whole history inside the window. */
  ghost predicate TotalExact(w: Tokens, h: seq<Entry>, now: nat, window: nat, limit: nat) {
    w.total == Sum(w.entries) == SumWithin(h, now - window, now) <= limit
  }

  /** Both running totals are exact after every operation. */
  lemma {:induction false} TotalsExact(l: Limits, ops: seq<Op>)
    requires Monotone(ops)
    ensures l.minuteTokens > 0 && MinuteExact(l) ==>
              TotalExact(Run(l, ops).minute, Accepted(l, ops), Clock(ops), MINUTE, l.minuteTokens)
    ensures l.hourTokens > 0 && HourExact(l) ==>
              TotalExact(Run(l, ops).hour, Accepted(l, ops), Clock(ops), HOUR, l.hourTokens)
  {
    RunKeepsInv(l, ops);
    if l.minuteTokens > 0 && MinuteExact(l) {
      RememberedIsExact(Run(l, ops).minute, Accepted(l, ops), Clock(ops), MINUTE, l.minuteTokens);
    }
    if l.hourTokens > 0 && HourExact(l) {
      RememberedIsExact(Run(l, ops).hour, Accepted(l, ops), Clock(ops), HOUR, l.hourTokens);
    }
  }

  lemma {:induction false} RememberedIsExact(w: Tokens, h: seq<Entry>, now: nat, window: nat, limit: nat)
    requires Remembers(w, h, now, window, limit)
    ensures TotalExact(w, h, now, window, limit)
  {
    DropKeepsWindow(h, now, window);
  }

  /** Limits that are off or can be enforced exactly in 64 bits. */
  predicate Exact(l: Limits) { MinuteExact(l) && HourExact(l) }

  /** The pruned window `w` holds exactly what the histories have in it. */
  ghost predicate IsHistory(l: Limits, w: Window, admitted: seq<Entry>, accepted: seq<Entry>, now: nat) {
    && |w.requests| == SumWithin(admitted, now - MINUTE, now)
    && (l.minuteTokens > 0 ==> w.minute.total == SumWithin(accepted, now - MINUTE, now) <= l.minuteTokens)
    && (l.hourTokens > 0 ==> w.hour.total == SumWithin(accepted, now - HOUR, now) <= l.hourTokens)
  }

  /** That is so just before every operation. */
  lemma {:induction false} PrunedIsHistory(l: Limits, ops: seq<Op>, now: nat)
    requires Monotone(ops) && Clock(ops) <= now && Exact(l)
    ensures IsHistory(l, Prune(Run(l, ops), now), Admitted(l, ops), Accepted(l, ops), now)
  {
    RunKeepsInv(l, ops);
    WindowIsHistory(l, Run(l, ops), Admitted(l, ops), Accepted(l, ops), Clock(ops), now);
  }

  lemma {:induction false} WindowIsHistory(l: Limits, w: Window, admitted: seq<Entry>, accepted: seq<Entry>, t: nat,
                                           now: nat)
    requires Exact(l) && t <= now
    requires RemembersRequests(w.requests, admitted, t, l.requests) && TokensInv(l, w, accepted, t)
    ensures IsHistory(l, Prune(w, now), admitted, accepted, now)
  {
    RequestsAreHistory(w.requests, admitted, t, now, l.requests);
    if l.minuteTokens > 0 {
      TokensAreHistory(w.minute, accepted, t, now, MINUTE, l.minuteTokens);
    }
    if l.hourTokens > 0 {
      TokensAreHistory(w.hour, accepted, t, now, HOUR, l.hourTokens);
    }
  }

  lemma {:induction false} RequestsAreHistory(q: seq<nat>, h: seq<Entry>, t: nat, now: nat, limit: nat)
    requires RemembersRequests(q, h, t, limit) && t <= now
    ensures |PruneRequests(q, now)| == SumWithin(h, now - MINUTE, now)
  {
    PruneRemembersRequests(q, h, t, now, limit);
    SumOnes(PruneRequests(q, now));
    DropKeepsWindow(h, now, MINUTE);
  }

  lemma {:induction false} TokensAreHistory(w: Tokens, h: seq<Entry>, t: nat, now: nat, window: nat, limit: nat)
    requires Remembers(w, h, t, window, limit) && t <= now
    ensures PruneTokens(w, now, window).total == SumWithin(h, now - window, now) <= limit
  {
    PruneRemembers(w, h, t, now, window, limit);
    DropKeepsWindow(h, now, window);
  }

  /** A check is admitted exactly when the history leaves room in every enabled window. */
  lemma {:induction false} CheckAdmitsExactly(l: Limits, ops: seq<Op>, now: nat)
    requires Monotone(ops) && Clock(ops) <= now && Exact(l)
    ensures Apply(l, Run(l, ops), Check(now)).1.Allowed? <==>
      && (l.minuteTokens > 0 ==> SumWithin(Accepted(l, ops), now - MINUTE, now) < l.minuteTokens)
      && (l.hourTokens > 0 ==> SumWithin(Accepted(l, ops), now - HOUR, now) < l.hourTokens)
      && (l.requests > 0 ==> SumWithin(Admitted(l, ops), now - MINUTE, now) < l.requests)
  {
    PrunedIsHistory(l, ops, now);
  }

  /** Tokens are accepted exactly when they fit into every enabled window. */
  lemma {:induction false} RecordAcceptsExactly(l: Limits, ops: seq<Op>, now: nat, tokens: u64)
    requires Monotone(ops) && Clock(ops) <= now && Exact(l)
    ensures Apply(l, Run(l, ops), Record(now, tokens)).1.Allowed? <==>
      && (l.minuteTokens > 0 ==> SumWithin(Accepted(l, ops), now - MINUTE, now) + tokens <= l.minuteTokens)
      && (l.hourTokens > 0 ==> SumWithin(Accepted(l, ops), now - HOUR, now) + tokens <= l.hourTokens)
  {
    RunKeepsInv(l, ops);
    PrunedIsHistory(l, ops, now);
    if Apply(l, Run(l, ops), Record(now, tokens)).1.Allowed? {
      PruneKeepsTokens(l, Run(l, ops), Accepted(l, ops), Clock(ops), now);
      if l.minuteTokens > 0 {
        MinuteRoom(l, Prune(Run(l, ops), now), Accepted(l, ops), now, tokens);
      }
      if l.hourTokens > 0 {
        HourRoom(l, Prune(Run(l, ops), now), Accepted(l, ops), now, tokens);
      }
    }
  }

  /** A limit that is on and `left` more than what is used of it. */
  predicate Leaves(limit: nat, used: nat, left: nat) { limit > 0 && limit == used + left }

  /** `n` is left of one of the limits, and no less of the others; the largest u64 where none is on. */
  ghost predicate LeastOf(n: nat, l: Limits, minute: nat, hour: nat, requests: nat) {
    && (l.minuteTokens > 0 ==> minute + n <= l.minuteTokens)
    && (l.hourTokens > 0 ==> hour + n <= l.hourTokens)
    && (l.requests > 0 ==> requests + n <= l.requests)
    && (if l.minuteTokens == l.hourTokens == l.requests == 0 then n == 0xffff_ffff_ffff_ffff
        else Leaves(l.minuteTokens, minute, n) || Leaves(l.hourTokens, hour, n) || Leaves(l.requests, requests, n))
  }

  lemma {:induction false} LeastOfThree(n: nat, l: Limits, minute: nat, hour: nat, requests: nat)
    requires n == MinEnabled([Left(l.minuteTokens, minute), Left(l.hourTokens, hour), Left(l.requests, requests)])
    requires l.minuteTokens > 0 ==> minute <= l.minuteTokens
    requires l.hourTokens > 0 ==> hour <= l.hourTokens
    requires l.requests > 0 ==> requests <= l.requests
    ensures LeastOf(n, l, minute, hour, requests)
  {
    var left := [Left(l.minuteTokens, minute), Left(l.hourTokens, hour), Left(l.requests, requests)];
    assert left[1..] == [left[1], left[2]] && [left[1], left[2]][1..] == [left[2]];
    MinOfOne(left[2]);
  }

  lemma {:induction false} MinOfOne(v: Option<nat>)
    ensures MinEnabled([v]) == if v.Some? && v.value < U64_MAX then v.value else U64_MAX
  {
    assert [v][1..] == [];
  }

  /** The remainder in an answer is the least of what the history leaves of the limits that are on, the
      request just admitted included. */
  lemma {:induction false} CheckRemainderExact(l: Limits, ops: seq<Op>, now: nat)
    requires Monotone(ops) && Clock(ops) <= now && Exact(l) && ApplyCheck(l, Run(l, ops), now).1.Allowed?
    ensures LeastOf(ApplyCheck(l, Run(l, ops), now).1.remaining, l,
                    SumWithin(Accepted(l, ops), now - MINUTE, now), SumWithin(Accepted(l, ops), now - HOUR, now),
                    SumWithin(Admitted(l, ops), now - MINUTE, now) + 1)
  {
    PrunedIsHistory(l, ops, now);
    LeastOfThree(ApplyCheck(l, Run(l, ops), now).1.remaining, l, SumWithin(Accepted(l, ops), now - MINUTE, now),
                 SumWithin(Accepted(l, ops), now - HOUR, now), SumWithin(Admitted(l, ops), now - MINUTE, now) + 1);
  }

  lemma {:induction false} LeastOfTwo(l: Limits, minute: nat, hour: nat)
    ensures MinEnabled([Left(l.minuteTokens, minute), Left(l.hourTokens, hour), Left(0, 0)]) ==
            MinEnabled([Left(l.minuteTokens, minute), Left(l.hourTokens, hour)])
  {
    var a, b, c := Left(l.minuteTokens, minute), Left(l.hourTokens, hour), Left(0, 0);
    assert [a, b, c][1..] == [b, c] && [b, c][1..] == [c] && [a, b][1..] == [b];
    MinOfOne(b);
    MinOfOne(c);
  }

  lemma {:induction false} LeastOfTokens(l: Limits, minute: nat, hour: nat)
    requires l.minuteTokens > 0 ==> minute <= l.minuteTokens
    requires l.hourTokens > 0 ==> hour <= l.hourTokens
    ensures LeastOf(MinEnabled([Left(l.minuteTokens, minute), Left(l.hourTokens, hour)]), l.(requests := 0), minute,
                    hour, 0)
  {
    LeastOfTwo(l, minute, hour);
    LeastOfThree(MinEnabled([Left(l.minuteTokens, minute), Left(l.hourTokens, hour)]), l.(requests := 0), minute, hour,
                 0);
  }

  /** One record on a window whose totals are known. */
  lemma {:induction false} RecordRemainder(l: Limits, w: Window, now: nat, tokens: u64, minute: nat, hour: nat)
    requires ApplyRecord(l, w, now, tokens).1.Allowed?
    requires l.minuteTokens > 0 ==> Prune(w, now).minute.total == minute && minute + tokens <= l.minuteTokens
    requires l.hourTokens > 0 ==> Prune(w, now).hour.total == hour && hour + tokens <= l.hourTokens
    ensures LeastOf(ApplyRecord(l, w, now, tokens).1.remaining, l.(requests := 0), minute + tokens, hour + tokens, 0)
  {
    LeastOfTokens(l, minute + tokens, hour + tokens);
  }

  /** The same for tokens, with those just accepted included. */
  lemma {:induction false} RecordRemainderExact(l: Limits, ops: seq<Op>, now: nat, tokens: u64)
    requires Monotone(ops) && Clock(ops) <= now && Exact(l)
    requires Apply(l, Run(l, ops), Record(now, tokens)).1.Allowed?
    ensures LeastOf(Apply(l, Run(l, ops), Record(now, tokens)).1.remaining, l.(requests := 0),
                    SumWithin(Accepted(l, ops), now - MINUTE, now) + tokens,
                    SumWithin(Accepted(l, ops), now - HOUR, now) + tokens, 0)
  {
    RecordAcceptsExactly(l, ops, now, tokens);
    PrunedIsHistory(l, ops, now);
    RecordRemainder(l, Run(l, ops), now, tokens, SumWithin(Accepted(l, ops), now - MINUTE, now),
                    SumWithin(Accepted(l, ops), now - HOUR, now));
  }

  /** A refused operation leaves only the effect of pruning. */
  lemma {:induction false} RefusalOnlyPrunes(l: Limits, w: Window, op: Op)
    requires Apply(l, w, op).1.Limited?
    ensures Apply(l, w, op).0 == Prune(w, op.now)
  {
  }

  // ------------------------------------------------------------------------------------------
  // The suggested wait
  // ------------------------------------------------------------------------------------------

  /** The token limits would let a check through. */
  predicate TokensLeave(l: Limits, w: Window) {
    && (l.minuteTokens > 0 ==> w.minute.total < l.minuteTokens)
    && (l.hourTokens > 0 ==> w.hour.total < l.hourTokens)
  }

  lemma {:induction false} PruneTotalShrinks(w: Tokens, now: nat, window: nat)
    ensures PruneTokens(w, now, window).total <= w.total
    decreases |w.entries|
  {
    if w.entries != [] && Expired(w.entries[0].at, now, window) {
      PruneTotalShrinks(Tokens(w.entries[1..], SaturatingSub(w.total, w.entries[0].tokens)), now, window);
    }
  }

  lemma {:induction false} PruneRequestsShrinks(q: seq<nat>, now: nat)
    ensures |PruneRequests(q, now)| <= |q|
    ensures PruneRequests(q, now) == q <==> q == [] || !Expired(q[0], now, MINUTE)
    ensures PruneRequests(q, now) != q ==> |PruneRequests(q, now)| < |q|
  {
    if q != [] && Expired(q[0], now, MINUTE) {
      PruneRequestsShrinks(q[1..], now);
    }
  }

  /** The wait is one to sixty seconds, and the oldest request expires by its end exactly when less than
      a second was left: whole seconds are cut off, and the window is closed. */
  lemma {:induction false} WaitExpires(requests: seq<nat>, now: nat)
    requires requests != [] && requests[0] <= now && !Expired(requests[0], now, MINUTE)
    ensures 1 <= RetryAfter(requests, now) <= 60
    ensures Expired(requests[0], now + RetryAfter(requests, now) * SECOND, MINUTE) <==>
            MINUTE - (now - requests[0]) < SECOND
  {
  }

  /** Retrying on a pruned window that is exactly full. */
  lemma {:induction false} RetryOnFullWindow(l: Limits, w: Window, later: nat)
    requires TokensLeave(l, w) && |w.requests| == l.requests > 0
    ensures ApplyCheck(l, w, later).1.Allowed? <==> Expired(w.requests[0], later, MINUTE)
  {
    PruneTotalShrinks(w.minute, later, MINUTE);
    PruneTotalShrinks(w.hour, later, HOUR);
    PruneRequestsShrinks(w.requests, later);
  }

  /** The requests of a pruned window, in every run: at most the limit, none expired, none from the future. */
  lemma {:induction false} PrunedRequests(l: Limits, ops: seq<Op>, now: nat)
    requires Monotone(ops) && Clock(ops) <= now && l.requests > 0
    ensures
      var q := Prune(Run(l, ops), now).requests;
      && |q| <= l.requests
      && (q != [] ==> q[0] <= now && !Expired(q[0], now, MINUTE)
                      && FirstSince(Admitted(l, ops), now - MINUTE) == Some(q[0]))
  {
    var q := Prune(Run(l, ops), now).requests;
    RunKeepsInv(l, ops);
    RequestsAreHistory(Run(l, ops).requests, Admitted(l, ops), Clock(ops), now, l.requests);
    RequestRateBounded(l, ops, now);
    PruneRequestsShrinks(q, now);
    PruneRemembersRequests(Run(l, ops).requests, Admitted(l, ops), Clock(ops), now, l.requests);
    if q != [] {
      FirstKept(Admitted(l, ops), now, MINUTE);
      assert Ones(q)[0] == Entry(q[0], 1);
    }
  }

  /** The instant of the first entry at or after `from`. */
  function FirstSince(h: seq<Entry>, from: int): Option<nat> {
    if h == [] then None else if h[0].at >= from then Some(h[0].at) else FirstSince(h[1..], from)
  }

  lemma {:induction false} FirstKept(h: seq<Entry>, now: nat, window: nat)
    requires Sorted(h, now) && DropExpired(h, now, window) != []
    ensures
      var e := DropExpired(h, now, window)[0];
      e.at <= now && !Expired(e.at, now, window) && FirstSince(h, now - window) == Some(e.at)
  {
    if Expired(h[0].at, now, window) {
      FirstKept(h[1..], now, window);
    }
  }

  /** In every run in which the request limit alone refuses a check, a retry after the suggested wait is
      admitted if and only if the oldest request of the window had less than a second left. */
  lemma {:induction false} RetryAfterExact(l: Limits, ops: seq<Op>, now: nat)
    requires Monotone(ops) && Clock(ops) <= now
    requires TokensLeave(l, Prune(Run(l, ops), now)) && ApplyCheck(l, Run(l, ops), now).1.Limited?
    ensures
      var requests := Prune(Run(l, ops), now).requests;
      var wait := ApplyCheck(l, Run(l, ops), now).1.retryAfterSecs;
      && requests != [] && requests[0] <= now && 1 <= wait <= 60
      && (ApplyCheck(l, Run(l, ops + [Check(now)]), now + wait * SECOND).1.Allowed? <==>
          MINUTE - (now - requests[0]) < SECOND)
  {
    var w := Prune(Run(l, ops), now);
    var wait := ApplyCheck(l, Run(l, ops), now).1.retryAfterSecs;
    PrunedRequests(l, ops, now);
    WaitExpires(w.requests, now);
    RunGrows(l, ops, Check(now));
    RefusalOnlyPrunes(l, Run(l, ops), Check(now));
    RetryOnFullWindow(l, w, now + wait * SECOND);
  }

  /** What is left of a minute that began at `oldest`, in whole seconds, but at least one. */
  ghost predicate WholeSecondsLeft(wait: nat, oldest: nat, now: nat) {
    var left := 60_000_000_000 - (now - oldest);
    if left < 1_000_000_000 then wait == 1 else wait * 1_000_000_000 <= left < (wait + 1) * 1_000_000_000
  }

  /** The wait of every refusal of every run: one second where tokens refuse; otherwise what is left of
      the minute of the first request admitted in it, in whole seconds. */
  lemma {:induction false} WaitExact(l: Limits, ops: seq<Op>, now: nat)
    requires Monotone(ops) && Clock(ops) <= now && Apply(l, Run(l, ops), Check(now)).1.Limited?
    ensures
      var wait := Apply(l, Run(l, ops), Check(now)).1.retryAfterSecs;
      if !TokensLeave(l, Prune(Run(l, ops), now)) then wait == 1
      else
        var oldest := FirstSince(Admitted(l, ops), now - 60_000_000_000);
        oldest.Some? && oldest.value <= now && WholeSecondsLeft(wait, oldest.value, now)
    ensures Exact(l) ==> (TokensLeave(l, Prune(Run(l, ops), now)) <==>
      && (l.minuteTokens > 0 ==> SumWithin(Accepted(l, ops), now - 60_000_000_000, now) < l.minuteTokens)
      && (l.hourTokens > 0 ==> SumWithin(Accepted(l, ops), now - 3600_000_000_000, now) < l.hourTokens))
  {
    if TokensLeave(l, Prune(Run(l, ops), now)) {
      PrunedRequests(l, ops, now);
    }
    if Exact(l) {
      PrunedIsHistory(l, ops, now);
    }
  }

  /** Tokens that are refused are told to wait one second. */
  lemma {:induction false} RecordWait(l: Limits, w: Window, now: nat, tokens: u64)
    requires Apply(l, w, Record(now, tokens)).1.Limited?
    ensures Apply(l, w, Record(now, tokens)).1.retryAfterSecs == 1
  {
  }

  /** One request a minute: the second one is told to wait sixty seconds, and is then refused again. */
  lemma {:induction false} RetryIsTooEarly()
    ensures
      var l := Limits(1, 0, 0);
      && LastAnswer(l, [Check(0), Check(0)]) == Limited(60)
      && LastAnswer(l, [Check(0), Check(0), Check(60 * SECOND)]).Limited?
  {
    var l := Limits(1, 0, 0);
    var full := Window([0], Tokens([], 0), Tokens([], 0));
    assert Apply(l, EMPTY, Check(0)).0 == full;
    assert Apply(l, full, Check(0)) == (full, Limited(60));
    assert Apply(l, full, Check(60 * SECOND)).1.Limited?;
    RunGrows(l, [], Check(0));
    RunGrows(l, [Check(0)], Check(0));
    RunGrows(l, [Check(0), Check(0)], Check(60 * SECOND));
    assert [] + [Check(0)] == [Check(0)] && [Check(0)] + [Check(0)] == [Check(0), Check(0)];
    assert [Check(0), Check(0)] + [Check(60 * SECOND)] == [Check(0), Check(0), Check(60 * SECOND)];
  }

  // ------------------------------------------------------------------------------------------
  // Totals that saturate
  // ------------------------------------------------------------------------------------------

  ghost predicate MinuteTotalsExact(l: Limits) {
    forall ops :: Monotone(ops) ==>
      TotalExact(Run(l, ops).minute, Accepted(l, ops), Clock(ops), MINUTE, l.minuteTokens)
  }

  ghost predicate HourTotalsExact(l: Limits) {
    forall ops :: Monotone(ops) ==> TotalExact(Run(l, ops).hour, Accepted(l, ops), Clock(ops), HOUR, l.hourTokens)
  }

  /** One more record that is accepted. */
  lemma {:induction false} AcceptedGrows(l: Limits, ops: seq<Op>, now: nat, tokens: u64, lo: int, hi: int)
    requires Monotone(ops) && Clock(ops) <= now && lo <= now <= hi
    requires ApplyRecord(l, Run(l, ops), now, tokens).1.Allowed?
    ensures
      var more := ops + [Record(now, tokens)];
      && Monotone(more) && Clock(more) == now
      && Run(l, more) == ApplyRecord(l, Run(l, ops), now, tokens).0
      && SumWithin(Accepted(l, more), lo, hi) == SumWithin(Accepted(l, ops), lo, hi) + tokens
  {
    RunGrows(l, ops, Record(now, tokens));
    MonotoneGrows(ops, Record(now, tokens));
    SumWithinAppend(Accepted(l, ops), Entry(now, tokens), lo, hi);
  }

  /** The largest u64 refuses nothing: it is accepted any number of times at one instant. */
  lemma {:induction false} NeverRefused(l: Limits, n: nat, lo: int) returns (ops: seq<Op>)
    requires l.minuteTokens == U64_MAX || l.minuteTokens == 0
    requires l.hourTokens == U64_MAX || l.hourTokens == 0
    requires lo <= 0
    ensures Monotone(ops) && Clock(ops) == 0 && SumWithin(Accepted(l, ops), lo, 0) == n * U64_MAX
  {
    ops := [];
    if n > 0 {
      var before := NeverRefused(l, n - 1, lo);
      AcceptedGrows(l, before, 0, U64_MAX, lo, 0);
      ops := before + [Record(0, U64_MAX)];
    }
  }

  const STRIDE: nat := MINUTE + 1

  /** A full minute is accepted when the one before has expired. */
  lemma {:induction false} FullMinuteAccepted(l: Limits, w: Window, at: nat)
    requires l.minuteTokens > 0 && l.hourTokens == U64_MAX
    requires w.minute == Tokens([], 0)
             || (at >= STRIDE && w.minute == Tokens([Entry(at - STRIDE, l.minuteTokens)], l.minuteTokens))
    ensures ApplyRecord(l, w, at, l.minuteTokens).1.Allowed?
    ensures ApplyRecord(l, w, at, l.minuteTokens).0.minute == Tokens([Entry(at, l.minuteTokens)], l.minuteTokens)
  {
    assert PruneTokens(w.minute, at, MINUTE) == Tokens([], 0);
  }

  lemma {:induction false} OneMoreMinute(l: Limits, ops: seq<Op>, at: nat, lo: int, hi: int) returns (more: seq<Op>)
    requires l.minuteTokens > 0 && l.hourTokens == U64_MAX && Monotone(ops) && lo <= at <= hi
    requires ops == [] || (at == Clock(ops) + STRIDE
                           && Run(l, ops).minute == Tokens([Entry(Clock(ops), l.minuteTokens)], l.minuteTokens))
    ensures Monotone(more) && more != [] && Clock(more) == at
    ensures Run(l, more).minute == Tokens([Entry(at, l.minuteTokens)], l.minuteTokens)
    ensures SumWithin(Accepted(l, more), lo, hi) == SumWithin(Accepted(l, ops), lo, hi) + l.minuteTokens
  {
    FullMinuteAccepted(l, Run(l, ops), at);
    AcceptedGrows(l, ops, at, l.minuteTokens, lo, hi);
    more := ops + [Record(at, l.minuteTokens)];
  }

  /** Full minutes, each begun when the one before has expired. */
  lemma {:induction false} FullMinutes(l: Limits, n: nat, lo: int, hi: int) returns (ops: seq<Op>)
    requires l.minuteTokens > 0 && l.hourTokens == U64_MAX && lo <= 0 && n > 0 && Times(n - 1, STRIDE) <= hi
    ensures Monotone(ops) && ops != [] && Clock(ops) == Times(n - 1, STRIDE)
    ensures Run(l, ops).minute == Tokens([Entry(Clock(ops), l.minuteTokens)], l.minuteTokens)
    ensures SumWithin(Accepted(l, ops), lo, hi) == Times(n, l.minuteTokens)
  {
    if n == 1 {
      ops := OneMoreMinute(l, [], 0, lo, hi);
    } else {
      var before := FullMinutes(l, n - 1, lo, hi);
      ops := OneMoreMinute(l, before, Clock(before) + STRIDE, lo, hi);
    }
  }

  /** Where sixty full minutes exceed the largest u64, an hour of that limit takes them all. */
  lemma {:induction false} SixtyMinutes(l: Limits) returns (ops: seq<Op>)
    requires l.hourTokens == U64_MAX && 60 * l.minuteTokens > U64_MAX
    ensures Monotone(ops) && SumWithin(Accepted(l, ops), Clock(ops) - HOUR, Clock(ops)) > U64_MAX
  {
    TimesIsProduct(59, STRIDE);
    TimesIsProduct(60, l.minuteTokens);
    ops := FullMinutes(l, 60, 59 * STRIDE - HOUR, 59 * STRIDE);
  }

  lemma {:induction false} HourOverflows(l: Limits) returns (ops: seq<Op>)
    requires !HourExact(l)
    ensures Monotone(ops) && SumWithin(Accepted(l, ops), Clock(ops) - HOUR, Clock(ops)) > U64_MAX
  {
    if l.minuteTokens == 0 {
      ops := NeverRefused(l, 2, 0 - HOUR);
    } else {
      ops := SixtyMinutes(l);
    }
  }

  lemma {:induction false} MinuteTotalsExactIff(l: Limits)
    requires l.minuteTokens > 0
    ensures MinuteTotalsExact(l) <==> MinuteExact(l)
  {
    if MinuteExact(l) {
      forall ops | Monotone(ops)
        ensures TotalExact(Run(l, ops).minute, Accepted(l, ops), Clock(ops), MINUTE, l.minuteTokens)
      {
        TotalsExact(l, ops);
      }
    } else {
      var ops := NeverRefused(l, 2, 0 - MINUTE);
      assert !TotalExact(Run(l, ops).minute, Accepted(l, ops), Clock(ops), MINUTE, l.minuteTokens);
    }
  }

  lemma {:induction false} HourTotalsExactIff(l: Limits)
    requires l.hourTokens > 0
    ensures HourTotalsExact(l) <==> HourExact(l)
  {
    if HourExact(l) {
      forall ops | Monotone(ops)
        ensures TotalExact(Run(l, ops).hour, Accepted(l, ops), Clock(ops), HOUR, l.hourTokens)
      {
        TotalsExact(l, ops);
      }
    } else {
      var ops := HourOverflows(l);
      assert !TotalExact(Run(l, ops).hour, Accepted(l, ops), Clock(ops), HOUR, l.hourTokens);
    }
  }

  /** The exact conditions: an enabled minute total is exact in every run if and only if its limit,
      or that of an enabled hour, is below the largest u64; an enabled hour total, if and only if its
      limit is, or sixty times that of an enabled minute does not exceed it.  Otherwise sums saturate. */
  lemma {:induction false} TotalsExactIff(l: Limits)
    ensures l.minuteTokens > 0 ==>
              (MinuteTotalsExact(l) <==> l.minuteTokens < U64_MAX || 0 < l.hourTokens < U64_MAX)
    ensures l.hourTokens > 0 ==>
              (HourTotalsExact(l) <==> l.hourTokens < U64_MAX || 0 < 60 * l.minuteTokens <= U64_MAX)
  {
    if l.minuteTokens > 0 {
      MinuteTotalsExactIff(l);
    }
    if l.hourTokens > 0 {
      HourTotalsExactIff(l);
    }
  }

  // ------------------------------------------------------------------------------------------
  // The limiter: one window per key
  // ------------------------------------------------------------------------------------------

  datatype Event = Event(key: string, op: Op)

  /** Unlimited configurations answer without touching any window. */
  predicate Effective(l: Limits, op: Op) {
    match op
    case Check(_) => l.minuteTokens > 0 || l.hourTokens > 0 || l.requests > 0
    case Record(_, _) => l.minuteTokens > 0 || l.hourTokens > 0
  }

  function WindowOf(windows: map<string, Window>, key: string): Window {
    if key in windows then windows[key] else EMPTY
  }

  function LimiterStep(l: Limits, windows: map<string, Window>, e: Event): (map<string, Window>, RateLimitResult) {
    if !Effective(l, e.op) then (windows, Allowed(U64_MAX))
    else
      var (w, r) := Apply(l, WindowOf(windows, e.key), e.op);
      (windows[e.key := w], r)
  }

  function LimiterRun(l: Limits, events: seq<Event>): map<string, Window> {
    if events == [] then map[]
    else LimiterStep(l, LimiterRun(l, events[..|events| - 1]), events[|events| - 1]).0
  }

  /** The operations that reach the window of one key. */
  ghost function OpsOf(l: Limits, events: seq<Event>, key: string): seq<Op> {
    if events == [] then []
    else
      var rest := OpsOf(l, events[..|events| - 1], key);
      var e := events[|events| - 1];
      if e.key == key && Effective(l, e.op) then rest + [e.op] else rest
  }

  /** Keys do not interfere: the window of a key is the window of its own operations alone, and
      the answer to an event is the answer of that window. */
  lemma {:induction false} KeysIsolated(l: Limits, events: seq<Event>, key: string)
    ensures WindowOf(LimiterRun(l, events), key) == Run(l, OpsOf(l, events, key))
    ensures events != [] && events[|events| - 1].key == key && Effective(l, events[|events| - 1].op) ==>
              LimiterStep(l, LimiterRun(l, events[..|events| - 1]), events[|events| - 1]).1
                == LastAnswer(l, OpsOf(l, events, key))
  {
    if events != [] {
      var before := events[..|events| - 1];
      KeysIsolated(l, before, key);
      var e := events[|events| - 1];
      if e.key == key && Effective(l, e.op) {
        var ops := OpsOf(l, events, key);
        assert ops[..|ops| - 1] == OpsOf(l, before, key);
      }
    }
  }

  // The shortcut for limits that are off

  /** All operations on one key. */
  function AllOps(events: seq<Event>, key: string): seq<Op> {
    if events == [] then []
    else
      var rest, e := AllOps(events[..|events| - 1], key), events[|events| - 1];
      if e.key == key then rest + [e.op] else rest
  }

  lemma {:induction false} PruneRequestsTwice(q: seq<nat>, t: nat, now: nat)
    requires t <= now
    ensures PruneRequests(PruneRequests(q, t), now) == PruneRequests(q, now)
  {
    if q != [] && Expired(q[0], t, MINUTE) {
      PruneRequestsTwice(q[1..], t, now);
    }
  }

  /** Without token limits no tokens are remembered. */
  lemma {:induction false} NoTokens(l: Limits, ops: seq<Op>)
    requires l.minuteTokens == 0 && l.hourTokens == 0
    ensures Run(l, ops).minute == Tokens([], 0) && Run(l, ops).hour == Tokens([], 0)
  {
    if ops != [] {
      NoTokens(l, ops[..|ops| - 1]);
    }
  }

  /** And recording tokens changes no later check. */
  lemma {:induction false} RecordsDoNotMatter(l: Limits, events: seq<Event>, key: string, now: nat)
    requires l.minuteTokens == 0 && l.hourTokens == 0 && l.requests > 0
    requires MonotoneEvents(events) && forall i :: 0 <= i < |events| ==> events[i].op.now <= now
    ensures PruneRequests(Run(l, OpsOf(l, events, key)).requests, now) ==
            PruneRequests(Run(l, AllOps(events, key)).requests, now)
  {
    if events != [] {
      var before, e := events[..|events| - 1], events[|events| - 1];
      if e.key != key {
        RecordsDoNotMatter(l, before, key, now);
      } else {
        RecordsDoNotMatter(l, before, key, e.op.now);
        RunGrows(l, AllOps(before, key), e.op);
        NoTokens(l, AllOps(before, key));
        var q := Run(l, OpsOf(l, before, key)).requests;
        if e.op.Check? {
          RunGrows(l, OpsOf(l, before, key), e.op);
          NoTokens(l, OpsOf(l, before, key));
        } else {
          PruneRequestsTwice(q, e.op.now, now);
          PruneRequestsTwice(Run(l, AllOps(before, key)).requests, e.op.now, now);
        }
      }
    }
  }

  lemma {:induction false} AllEffective(l: Limits, events: seq<Event>, key: string)
    requires l.minuteTokens > 0 || l.hourTokens > 0
    ensures OpsOf(l, events, key) == AllOps(events, key)
  {
    if events != [] {
      AllEffective(l, events[..|events| - 1], key);
    }
  }

  /** Answering at once where no limit applies makes no difference: in every run every answer is the one that
      the window of all operations on its key gives. */
  lemma {:induction false} ShortcutIsExact(l: Limits, events: seq<Event>, e: Event)
    requires MonotoneEvents(events + [e])
    ensures LimiterStep(l, LimiterRun(l, events), e).1 == Apply(l, Run(l, AllOps(events, e.key)), e.op).1
  {
    KeysIsolated(l, events, e.key);
    if l.minuteTokens > 0 || l.hourTokens > 0 {
      AllEffective(l, events, e.key);
    } else {
      NoTokens(l, AllOps(events, e.key));
      NoTokens(l, OpsOf(l, events, e.key));
      if l.requests > 0 && e.op.Check? {
        EventsBefore(events, e);
        RecordsDoNotMatter(l, events, e.key, e.op.now);
      } else {
        NothingEnabled();
      }
    }
  }

  lemma {:induction false} NothingEnabled()
    ensures MinEnabled([None, None, None]) == U64_MAX == MinEnabled([None, None])
  {
    var three: seq<Option<nat>>, two: seq<Option<nat>> := [None, None, None], [None, None];
    assert three[1..] == two && two[1..] == [None];
    MinOfOne(None);
  }

  lemma {:induction false} EventsBefore(events: seq<Event>, e: Event)
    requires MonotoneEvents(events + [e])
    ensures MonotoneEvents(events) && forall i :: 0 <= i < |events| ==> events[i].op.now <= e.op.now
  {
    var all := events + [e];
    assert forall i :: 0 <= i < |events| ==> all[i] == events[i];
    assert all[|events|] == e;
  }

  ghost predicate MonotoneEvents(events: seq<Event>) {
    forall i, j :: 0 <= i <= j < |events| ==> events[i].op.now <= events[j].op.now
  }

  lemma {:induction false} OpsOfMonotone(l: Limits, events: seq<Event>, key: string)
    requires MonotoneEvents(events)
    ensures Monotone(OpsOf(l, events, key))
    ensures forall op :: op in OpsOf(l, events, key) ==>
              op.now <= (if events == [] then 0 else events[|events| - 1].op.now)
  {
    if events != [] {
      var before := events[..|events| - 1];
      OpsOfMonotone(l, before, key);
      var rest := OpsOf(l, before, key);
      assert forall i :: 0 <= i < |rest| ==> rest[i] in rest;
    }
  }

  /** The rate bounds hold for every key of the limiter in every run over all keys. */
  lemma {:induction false} EveryKeyBounded(l: Limits, events: seq<Event>, key: string, t: int)
    requires MonotoneEvents(events)
    ensures l.requests > 0 ==> SumWithin(Admitted(l, OpsOf(l, events, key)), t - MINUTE, t) <= l.requests
    ensures l.minuteTokens > 0 && MinuteExact(l) ==>
              SumWithin(Accepted(l, OpsOf(l, events, key)), t - MINUTE, t) <= l.minuteTokens
    ensures l.hourTokens > 0 && HourExact(l) ==>
              SumWithin(Accepted(l, OpsOf(l, events, key)), t - HOUR, t) <= l.hourTokens
  {
    OpsOfMonotone(l, events, key);
    if l.requests > 0 {
      RequestRateBounded(l, OpsOf(l, events, key), t);
    }
    TokenRateBounded(l, OpsOf(l, events, key), t);
  }
}
