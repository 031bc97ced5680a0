/** Timed records and sums over closed windows of time. */
module History {
  import opened Ints

  const SECOND: nat := 1_000_000_000
  const MINUTE: nat := 60 * SECOND
  const HOUR: nat := 3600 * SECOND
  const DAY: nat := 86400 * SECOND

  /** Tokens recorded at an instant. */
  datatype Entry = Entry(at: nat, tokens: u64)

  function Weight(e: Entry, lo: int, hi: int): nat { if lo <= e.at <= hi then e.tokens else 0 }

  /** Everything recorded in the closed window [lo, hi], however old. */
  function SumWithin(h: seq<Entry>, lo: int, hi: int): nat {
    if h == [] then 0 else SumWithin(h[..|h| - 1], lo, hi) + Weight(h[|h| - 1], lo, hi)
  }

  lemma {:induction false} SumWithinAppend(h: seq<Entry>, e: Entry, lo: int, hi: int)
    ensures SumWithin(h + [e], lo, hi) == SumWithin(h, lo, hi) + Weight(e, lo, hi)
  {
    assert (h + [e])[..|h|] == h;
  }

  lemma {:induction false} SumWithinMonotone(h: seq<Entry>, lo: int, hi: int, lo': int, hi': int)
    requires forall i :: 0 <= i < |h| && lo <= h[i].at <= hi ==> lo' <= h[i].at <= hi'
    ensures SumWithin(h, lo, hi) <= SumWithin(h, lo', hi')
  {
    if h != [] {
      SumWithinMonotone(h[..|h| - 1], lo, hi, lo', hi');
    }
  }

  lemma {:induction false} SumSplit(h: seq<Entry>, lo: int, mid: int, hi: int)
    requires lo <= mid <= hi + 1
    ensures SumWithin(h, lo, hi) == SumWithin(h, lo, mid - 1) + SumWithin(h, mid, hi)
  {
    if h != [] {
      SumSplit(h[..|h| - 1], lo, mid, hi);
    }
  }

  lemma {:induction false} NothingWithin(h: seq<Entry>, lo: int, hi: int)
    requires hi < lo
    ensures SumWithin(h, lo, hi) == 0
  {
    if h != [] {
      NothingWithin(h[..|h| - 1], lo, hi);
    }
  }

  /** `n` times `x`. */
  function Times(n: nat, x: nat): nat { if n == 0 then 0 else Times(n - 1, x) + x }

  lemma {:induction false} TimesIsProduct(n: nat, x: nat)
    ensures Times(n, x) == n * x
  {
    if n > 0 {
      TimesIsProduct(n - 1, x);
    }
  }

  lemma {:induction false} TimesMonotone(m: nat, n: nat, x: nat)
    requires m <= n
    ensures Times(m, x) <= Times(n, x)
  {
    if m < n {
      TimesMonotone(m, n - 1, x);
    }
  }
}
