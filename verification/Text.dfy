/**
 String helpers.  A string is its UTF-8 bytes, one `char` per byte: every operation here looks at
 ASCII bytes only.
 */
module Text {
  import opened Wrappers
  import opened Ints

  /** Splits at the first `c`. */
  function SplitOnce(s: string, c: char): Option<(string, string)> {
    if s == "" then None
    else if s[0] == c then Some(("", s[1..]))
    else
      match SplitOnce(s[1..], c)
      case None => None
      case Some((a, b)) => Some(([s[0]] + a, b))
  }

  /** Splits at the last `c`. */
  function RSplitOnce(s: string, c: char): Option<(string, string)> {
    if s == "" then None
    else if s[|s| - 1] == c then Some((s[..|s| - 1], ""))
    else
      match RSplitOnce(s[..|s| - 1], c)
      case None => None
      case Some((a, b)) => Some((a, b + [s[|s| - 1]]))
  }

  /** The first split is the only one whose left side is free of `c`. */
  lemma {:induction false} SplitOnceExact(s: string, c: char, a: string, b: string)
    ensures SplitOnce(s, c) == Some((a, b)) <==> s == a + [c] + b && c !in a
  {
    if s != "" {
      if s[0] == c {
        if s == a + [c] + b && c !in a {
          assert a == "";
          assert s[1..] == b;
        }
        assert s == "" + [c] + s[1..];
      } else {
        if a == "" {
          assert (a + [c] + b)[0] == c;
        } else {
          SplitOnceExact(s[1..], c, a[1..], b);
          assert (a + [c] + b)[1..] == a[1..] + [c] + b;
          assert s == [s[0]] + s[1..] && a == [a[0]] + a[1..];
        }
      }
    }
  }

  lemma {:induction false} NoSplit(s: string, c: char)
    ensures SplitOnce(s, c).None? <==> c !in s
  {
    if s != "" {
      NoSplit(s[1..], c);
      assert s == [s[0]] + s[1..];
    }
  }

  /** The last split is the only one whose right side is free of `c`. */
  lemma {:induction false} RSplitOnceExact(s: string, c: char, a: string, b: string)
    ensures RSplitOnce(s, c) == Some((a, b)) <==> s == a + [c] + b && c !in b
  {
    if s != "" {
      var n := |s| - 1;
      if s[n] == c {
        if s == a + [c] + b && c !in b {
          assert b == "";
          assert s[..n] == a;
        }
        assert s == s[..n] + [c] + "";
      } else {
        if b == "" {
          assert (a + [c] + b)[|a|] == c;
        } else {
          var m := |b| - 1;
          RSplitOnceExact(s[..n], c, a, b[..m]);
          assert b == b[..m] + [b[m]];
          if s == a + [c] + b {
            assert s[..n] == a + [c] + b[..m];
          }
          if RSplitOnce(s, c) == Some((a, b)) {
            assert s == s[..n] + [s[n]];
          }
        }
      }
    }
  }

  function LowerChar(c: char): char { if 'A' <= c <= 'Z' then (c as int + 32) as char else c }

  const UPPER_CASE: string := "ABCDEFGHIJKLMNOPQRSTUVWXYZ"
  const LOWER_CASE: string := "abcdefghijklmnopqrstuvwxyz"

  /** Each upper-case letter has its lower-case one; everything else is left alone. */
  lemma {:induction false} LowerExactly(c: char)
    ensures forall i :: 0 <= i < 26 ==> LowerChar(UPPER_CASE[i]) == LOWER_CASE[i]
    ensures c !in UPPER_CASE ==> LowerChar(c) == c
  {
    if 'A' <= c <= 'Z' {
      assert UPPER_CASE[c as int - 'A' as int] == c;
    }
  }

  /** ASCII lower case. */
  function Lower(s: string): (r: string)
    ensures |r| == |s|
    ensures forall i :: 0 <= i < |s| ==> r[i] == LowerChar(s[i])
  {
    seq(|s|, i requires 0 <= i < |s| => LowerChar(s[i]))
  }

  // ------------------------------------------------------------------------------------------
  // Decimal ports
  // ------------------------------------------------------------------------------------------

  predicate IsDigit(c: char) { '0' <= c <= '9' }

  /** The value of a digit string that fits 32 bits; leading zeros allowed. */
  function Digits(s: string): Option<nat> {
    if s == "" then Some(0)
    else
      match Digits(s[..|s| - 1])
      case None => None
      case Some(v) =>
        if !IsDigit(s[|s| - 1]) then None
        else
          var next := 10 * v + (s[|s| - 1] as int - '0' as int);
          if next > U32_MAX then None else Some(next)
  }

  function DigitCount(v: nat): nat { if v < 10 then 1 else 1 + DigitCount(v / 10) }

  /** The decimal form of a number, without leading zeros. */
  function Decimal(v: nat): (s: string)
    ensures |s| == DigitCount(v)
    ensures forall i :: 0 <= i < |s| ==> IsDigit(s[i])
  {
    if v < 10 then [(v + '0' as int) as char] else Decimal(v / 10) + [(v % 10 + '0' as int) as char]
  }

  function ParsePort(s: string): Option<nat> {
    if s == "" then None
    else
      match Digits(s)
      case None => None
      case Some(v) => if |s| == DigitCount(v) then Some(v) else None
  }

  method CountDigits(value: nat) returns (count: nat)
    ensures count == DigitCount(value)
  {
    count := 1;
    var v := value;
    while v >= 10
      invariant count + DigitCount(v) == 1 + DigitCount(value)
    {
      v := v / 10;
      count := count + 1;
    }
  }

  method ParseDecimalPort(s: string) returns (r: Option<nat>)
    ensures r == ParsePort(s)
  {
    if s == "" {
      return None;
    }
    var parsed := 0;
    for i := 0 to |s|
      invariant Digits(s[..i]) == Some(parsed)
    {
      assert s[..i + 1][..i] == s[..i];
      if !IsDigit(s[i]) {
        DigitsStopEarly(s, i + 1);
        return None;
      }
      var next := 10 * parsed + (s[i] as int - '0' as int);
      if next > U32_MAX {
        DigitsStopEarly(s, i + 1);
        return None;
      }
      parsed := next;
    }
    assert s[..|s|] == s;
    var count := CountDigits(parsed);
    r := if |s| == count then Some(parsed) else None;
  }

  lemma {:induction false} DigitsStopEarly(s: string, i: nat)
    requires i <= |s| && Digits(s[..i]) == None
    ensures Digits(s) == None
  {
    if i == |s| {
      assert s[..i] == s;
    } else {
      assert s[..|s| - 1][..i] == s[..i];
      DigitsStopEarly(s[..|s| - 1], i);
    }
  }

  lemma {:induction false} DigitsOfDecimal(v: nat)
    requires v <= U32_MAX
    ensures Digits(Decimal(v)) == Some(v)
  {
    var s := Decimal(v);
    if v < 10 {
      assert s[..0] == "";
    } else {
      DigitsOfDecimal(v / 10);
      assert s[..|s| - 1] == Decimal(v / 10);
    }
  }

  lemma {:induction false} DigitsAreDecimal(s: string, v: nat)
    requires s != "" && Digits(s) == Some(v) && |s| == DigitCount(v)
    ensures s == Decimal(v)
  {
    var n := |s| - 1;
    if n == 0 {
      assert s[..0] == "";
    } else {
      DigitsAreDecimal(s[..n], v / 10);
      assert s == s[..n] + [s[n]];
    }
  }

  /** A port is accepted exactly in its canonical decimal form. */
  lemma {:induction false} ParsePortExact(s: string, v: nat)
    ensures ParsePort(s) == Some(v) <==> v <= 0xffff_ffff && s == Decimal(v)
  {
    if ParsePort(s) == Some(v) {
      DigitsAreDecimal(s, v);
      DigitsBounded(s);
    }
    if v <= U32_MAX && s == Decimal(v) {
      DigitsOfDecimal(v);
    }
  }

  lemma {:induction false} DigitsBounded(s: string)
    ensures Digits(s).Some? ==> Digits(s).value <= U32_MAX
  {
  }
}
