/**
 Stable runtime identifiers: the parts of a name are written with a length prefix and folded with
 64-bit FNV-1a; the result is printed as sixteen hexadecimal digits.
 */
module RuntimeId {
  import opened Wrappers
  import opened Ints
  import opened Text

  const TWO_64: nat := 0x1_0000_0000_0000_0000
  const OFFSET_BASIS: nat := 0xcbf2_9ce4_8422_2325
  const PRIME: nat := 0x0000_0100_0000_01b3
  /** The inverse of the prime modulo two to the sixty-fourth. */
  const PRIME_INVERSE: nat := 0xce96_5057_aff6_957b

  // ------------------------------------------------------------------------------------------
  // The fold
  // ------------------------------------------------------------------------------------------

  function Pow2(n: nat): nat { if n == 0 then 1 else 2 * Pow2(n - 1) }

  /** Exclusive or of the lowest `n` bits. */
  function Xor(a: nat, b: nat, n: nat): (r: nat)
    ensures r < Pow2(n)
  {
    if n == 0 then 0 else (a + b) % 2 + 2 * Xor(a / 2, b / 2, n - 1)
  }

  lemma {:induction false} XorCancels(a: nat, b: nat, n: nat)
    requires a < Pow2(n)
    ensures Xor(Xor(a, b, n), b, n) == a
  {
    if n > 0 {
      XorCancels(a / 2, b / 2, n - 1);
      LowBit(a, b, Xor(a / 2, b / 2, n - 1));
    }
  }

  lemma {:induction false} LowBit(a: nat, b: nat, high: nat)
    ensures ((a + b) % 2 + 2 * high) / 2 == high
    ensures ((a + b) % 2 + 2 * high + b) % 2 + 2 * (a / 2) == a
  {
  }

  lemma {:induction false} XorCommutes(a: nat, b: nat, n: nat)
    ensures Xor(a, b, n) == Xor(b, a, n)
  {
    if n > 0 {
      XorCommutes(a / 2, b / 2, n - 1);
    }
  }

  lemma {:induction false} Pow2Of64()
    ensures Pow2(64) == TWO_64
  {
    assert Pow2(8) == 256;
    Pow2Add(8, 8);
    Pow2Add(16, 16);
    Pow2Add(32, 32);
  }

  lemma {:induction false} Pow2Add(m: nat, n: nat)
    ensures Pow2(m + n) == Pow2(m) * Pow2(n)
  {
    if n > 0 {
      Pow2Add(m, n - 1);
      assert Pow2(m + n) == 2 * Pow2(m + (n - 1));
    }
  }

  /** One round: exclusive or with the byte, then multiplication that wraps around. */
  function Mix(hash: u64, b: byte): u64 { (Xor(hash, b, 64) * PRIME) % TWO_64 }

  function Fold(hash: u64, bytes: seq<byte>): u64 {
    if bytes == [] then hash else Mix(Fold(hash, bytes[..|bytes| - 1]), bytes[|bytes| - 1])
  }

  method WriteBytes(start: u64, bytes: seq<byte>) returns (hash: u64)
    ensures hash == Fold(start, bytes)
  {
    hash := start;
    for i := 0 to |bytes|
      invariant hash == Fold(start, bytes[..i])
    {
      hash := Mix(hash, bytes[i]);
      assert bytes[..i + 1][..i] == bytes[..i];
    }
    assert bytes[..|bytes|] == bytes;
  }

  lemma {:induction false} ModUnique(x: nat, k: int)
    requires x < TWO_64
    ensures (x + TWO_64 * k) % TWO_64 == x
  {
  }

  /** The multiplication loses nothing: the prime has an inverse. */
  lemma {:induction false} InverseWorks(x: u64)
    ensures (((x * PRIME) % TWO_64) * PRIME_INVERSE) % TWO_64 == x
  {
    var q := (x * PRIME) / TWO_64;
    var c := (PRIME * PRIME_INVERSE) / TWO_64;
    assert PRIME * PRIME_INVERSE == 1 + TWO_64 * c;
    ModUnique(x, x * c - q * PRIME_INVERSE);
    assert ((x * PRIME) % TWO_64) * PRIME_INVERSE == x + TWO_64 * (x * c - q * PRIME_INVERSE);
  }

  lemma {:induction false} MixInjective(x: u64, y: u64, a: byte, b: byte)
    requires Mix(x, a) == Mix(y, b)
    ensures a == b ==> x == y
    ensures x == y ==> a == b
  {
    Pow2Of64();
    var u: u64, v: u64 := Xor(x, a, 64), Xor(y, b, 64);
    InverseWorks(u);
    InverseWorks(v);
    assert u == v;
    XorCancels(x, a, 64);
    XorCancels(y, b, 64);
    if x == y {
      XorCommutes(x, a, 64);
      XorCommutes(y, b, 64);
      XorCancels(a, x, 64);
      XorCancels(b, y, 64);
    }
  }

  lemma {:induction false} XorZero(a: nat, n: nat)
    requires a < Pow2(n)
    ensures Xor(a, 0, n) == a
  {
    if n > 0 {
      XorZero(a / 2, n - 1);
    }
  }

  lemma {:induction false} XorOfZero(a: nat, n: nat)
    requires a < Pow2(n)
    ensures Xor(0, a, n) == a
  {
    XorCommutes(0, a, n);
    XorZero(a, n);
  }

  /** A zero byte multiplies the hash by the FNV prime in 64 bits. */
  lemma {:induction false} MixOfZero(hash: u64)
    ensures Mix(hash, 0) == hash * 0x0000_0100_0000_01b3 % 0x1_0000_0000_0000_0000
  {
    Pow2Of64();
    XorZero(hash, 64);
  }

  /** And so is a byte that meets a zero hash: the exclusive or comes first. */
  lemma {:induction false} MixIntoZero(b: byte)
    ensures Mix(0, b) == b * 0x0000_0100_0000_01b3 % 0x1_0000_0000_0000_0000
  {
    Pow2Of64();
    XorOfZero(b, 64);
  }

  /** For a fixed byte string the fold is injective in its seed. */
  lemma {:induction false} FoldInjectiveInSeed(x: u64, y: u64, bytes: seq<byte>)
    requires Fold(x, bytes) == Fold(y, bytes)
    ensures x == y
  {
    if bytes != [] {
      var n := |bytes| - 1;
      MixInjective(Fold(x, bytes[..n]), Fold(y, bytes[..n]), bytes[n], bytes[n]);
      FoldInjectiveInSeed(x, y, bytes[..n]);
    }
  }

  lemma {:induction false} FoldConcat(hash: u64, a: seq<byte>, b: seq<byte>)
    ensures Fold(hash, a + b) == Fold(Fold(hash, a), b)
  {
    if b == [] {
      assert a + b == a;
    } else {
      var n := |b| - 1;
      assert (a + b)[..|a + b| - 1] == a + b[..n];
      FoldConcat(hash, a, b[..n]);
    }
  }

  /** Byte strings that differ in exactly one byte never collide. */
  lemma {:induction false} OneByteNeverCollides(hash: u64, bytes: seq<byte>, i: nat, b: byte)
    requires i < |bytes| && b != bytes[i]
    ensures Fold(hash, bytes) != Fold(hash, bytes[i := b])
  {
    var pre, post := bytes[..i], bytes[i + 1..];
    assert bytes == (pre + [bytes[i]]) + post;
    assert bytes[i := b] == (pre + [b]) + post;
    FoldConcat(hash, pre + [bytes[i]], post);
    FoldConcat(hash, pre + [b], post);
    assert (pre + [bytes[i]])[..i] == pre && (pre + [b])[..i] == pre;
    if Fold(hash, bytes) == Fold(hash, bytes[i := b]) {
      FoldInjectiveInSeed(Fold(hash, pre + [bytes[i]]), Fold(hash, pre + [b]), post);
      MixInjective(Fold(hash, pre), Fold(hash, pre), bytes[i], b);
    }
  }

  // ------------------------------------------------------------------------------------------
  // The byte stream of a part list
  // ------------------------------------------------------------------------------------------

  type Part = p: seq<byte> | |p| < TWO_64

  /** The `k` lowest bytes of a number, the lowest first. */
  function LittleEndian(n: nat, k: nat): (r: seq<byte>)
    ensures |r| == k
  {
    if k == 0 then [] else [n % 256] + LittleEndian(n / 256, k - 1)
  }

  function FromLittleEndian(bytes: seq<byte>): nat {
    if bytes == [] then 0 else bytes[0] + 256 * FromLittleEndian(bytes[1..])
  }

  lemma {:induction false} LittleEndianRoundTrip(n: nat, k: nat)
    requires n < Pow2(8 * k)
    ensures FromLittleEndian(LittleEndian(n, k)) == n
  {
    if k > 0 {
      Pow2Add(8, 8 * (k - 1));
      assert Pow2(8) == 256;
      LittleEndianRoundTrip(n / 256, k - 1);
      assert LittleEndian(n, k)[1..] == LittleEndian(n / 256, k - 1);
    }
  }

  /** What is hashed: each part after its length in eight bytes. */
  function Stream(parts: seq<Part>): seq<byte> {
    if parts == [] then [] else Prefixed(parts[0]) + Stream(parts[1..])
  }

  function Prefixed(part: Part): seq<byte> { LittleEndian(|part|, 8) + part }

  lemma {:induction false} StreamAppend(parts: seq<Part>, part: Part)
    ensures Stream(parts + [part]) == Stream(parts) + Prefixed(part)
  {
    if parts == [] {
      assert [part][1..] == [];
    } else {
      assert (parts + [part])[1..] == parts[1..] + [part];
      StreamAppend(parts[1..], part);
    }
  }

  lemma {:induction false} PrefixedInjective(p: Part, q: Part, a: seq<byte>, b: seq<byte>)
    requires Prefixed(p) + a == Prefixed(q) + b
    ensures p == q && a == b
  {
    var s := Prefixed(p) + a;
    assert s[..8] == LittleEndian(|p|, 8);
    assert s[..8] == LittleEndian(|q|, 8);
    Pow2Of64();
    LittleEndianRoundTrip(|p|, 8);
    LittleEndianRoundTrip(|q|, 8);
    assert s[8..8 + |p|] == p && s[8..8 + |q|] == q;
    assert s[8 + |p|..] == a && s[8 + |q|..] == b;
  }

  /** Different part lists are hashed as different byte streams. */
  lemma {:induction false} StreamInjective(p: seq<Part>, q: seq<Part>)
    requires Stream(p) == Stream(q)
    ensures p == q
  {
    if p != [] && q != [] {
      PrefixedInjective(p[0], q[0], Stream(p[1..]), Stream(q[1..]));
      StreamInjective(p[1..], q[1..]);
      assert p == [p[0]] + p[1..] && q == [q[0]] + q[1..];
    }
  }

  function AtLeastOne(hash: u64): u64 { if hash == 0 then 1 else hash }

  /** One part more of the stream. */
  lemma {:induction false} OnePart(parts: seq<Part>, i: nat)
    requires i < |parts|
    ensures Fold(OFFSET_BASIS, Stream(parts[..i + 1])) ==
            Fold(Fold(Fold(OFFSET_BASIS, Stream(parts[..i])), LittleEndian(|parts[i]|, 8)), parts[i])
  {
    assert parts[..i + 1] == parts[..i] + [parts[i]];
    StreamAppend(parts[..i], parts[i]);
    FoldConcat(Fold(OFFSET_BASIS, Stream(parts[..i])), LittleEndian(|parts[i]|, 8), parts[i]);
    FoldConcat(OFFSET_BASIS, Stream(parts[..i]), Prefixed(parts[i]));
  }

  method StableRuntimeId(parts: seq<Part>) returns (id: u64)
    ensures id == AtLeastOne(Fold(OFFSET_BASIS, Stream(parts)))
    ensures id != 0
  {
    var hash: u64 := OFFSET_BASIS;
    for i := 0 to |parts|
      invariant hash == Fold(OFFSET_BASIS, Stream(parts[..i]))
    {
      var h := WriteBytes(hash, LittleEndian(|parts[i]|, 8));
      h := WriteBytes(h, parts[i]);
      OnePart(parts, i);
      hash := h;
    }
    assert parts[..|parts|] == parts;
    id := AtLeastOne(hash);
  }

  /** Without parts the identifier is the FNV offset basis. */
  lemma {:induction false} IdOfNothing()
    ensures AtLeastOne(Fold(OFFSET_BASIS, Stream([]))) == 0xcbf2_9ce4_8422_2325
  {
  }

  /** Changing one byte of one part changes the identifier, unless the two hashes are zero and one. */
  lemma {:induction false} OneByteChangesId(parts: seq<Part>, p: nat, i: nat, b: byte)
    requires p < |parts| && i < |parts[p]| && b != parts[p][i]
    ensures
      var before := Fold(OFFSET_BASIS, Stream(parts));
      var after := Fold(OFFSET_BASIS, Stream(parts[p := parts[p][i := b]]));
      && before != after
      && (AtLeastOne(before) == AtLeastOne(after) ==> {before, after} == {0, 1})
  {
    var at := |Stream(parts[..p])| + 8 + i;
    StreamUpdate(parts, p, i, b);
    OneByteNeverCollides(OFFSET_BASIS, Stream(parts), at, b);
  }

  lemma {:induction false} StreamConcat(a: seq<Part>, b: seq<Part>)
    ensures Stream(a + b) == Stream(a) + Stream(b)
  {
    if a == [] {
      assert a + b == b;
    } else {
      assert (a + b)[1..] == a[1..] + b;
      StreamConcat(a[1..], b);
    }
  }

  lemma {:induction false} StreamUpdate(parts: seq<Part>, p: nat, i: nat, b: byte)
    requires p < |parts| && i < |parts[p]|
    ensures
      var at := |Stream(parts[..p])| + 8 + i;
      && at < |Stream(parts)|
      && Stream(parts)[at] == parts[p][i]
      && Stream(parts[p := parts[p][i := b]]) == Stream(parts)[at := b]
  {
    var changed: Part := parts[p][i := b];
    assert parts == parts[..p] + ([parts[p]] + parts[p + 1..]);
    assert parts[p := changed] == parts[..p] + ([changed] + parts[p + 1..]);
    StreamConcat(parts[..p], [parts[p]] + parts[p + 1..]);
    StreamConcat(parts[..p], [changed] + parts[p + 1..]);
    assert ([parts[p]] + parts[p + 1..])[1..] == parts[p + 1..];
    assert ([changed] + parts[p + 1..])[1..] == parts[p + 1..];
  }

  // ------------------------------------------------------------------------------------------
  // Printing and parsing
  // ------------------------------------------------------------------------------------------

  const HEX: string := "0123456789abcdef"

  function HexDigits(n: nat, k: nat): (s: string)
    ensures |s| == k
  {
    if k == 0 then "" else HexDigits(n / 16, k - 1) + [HEX[n % 16]]
  }

  /** Sixteen lower-case digits. */
  function Print(id: u64): string { HexDigits(id, 16) }

  predicate IsHexDigit(c: char) { '0' <= c <= '9' || 'a' <= c <= 'f' || 'A' <= c <= 'F' }

  function DigitValue(c: char): nat
    requires IsHexDigit(c)
  {
    if '0' <= c <= '9' then c as int - '0' as int
    else if 'a' <= c <= 'f' then c as int - 'a' as int + 10
    else c as int - 'A' as int + 10
  }

  predicate AllHex(s: string) { forall i :: 0 <= i < |s| ==> IsHexDigit(s[i]) }

  function FromHex(s: string): nat
    requires AllHex(s)
  {
    if s == "" then 0 else 16 * FromHex(s[..|s| - 1]) + DigitValue(s[|s| - 1])
  }

  lemma {:induction false} Pow2Nibble(k: nat)
    ensures Pow2(k + 4) == 16 * Pow2(k)
  {
    assert Pow2(k + 4) == 2 * Pow2(k + 3) && Pow2(k + 3) == 2 * Pow2(k + 2);
    assert Pow2(k + 2) == 2 * Pow2(k + 1) && Pow2(k + 1) == 2 * Pow2(k);
  }

  lemma {:induction false} FromHexBounded(s: string)
    requires AllHex(s)
    ensures FromHex(s) < Pow2(4 * |s|)
  {
    if s != "" {
      var n := |s| - 1;
      FromHexBounded(s[..n]);
      Pow2Nibble(4 * n);
    }
  }

  predicate IsSpace(c: char) {
    var n := c as int;
    9 <= n <= 13 || n == 32 || n == 0x85 || n == 0xA0 || n == 0x1680 || 0x2000 <= n <= 0x200A
    || n == 0x2028 || n == 0x2029 || n == 0x202F || n == 0x205F || n == 0x3000
  }

  function TrimStart(s: string): string {
    if s != "" && IsSpace(s[0]) then TrimStart(s[1..]) else s
  }

  function TrimEnd(s: string): string {
    if s != "" && IsSpace(s[|s| - 1]) then TrimEnd(s[..|s| - 1]) else s
  }

  function Trim(s: string): string { TrimEnd(TrimStart(s)) }

  function ParseHex(text: string): Option<u64> {
    var s := Trim(text);
    if |s| != 16 || !AllHex(s) then None
    else
      var n := FromHex(s);
      assert n < TWO_64 by { FromHexBounded(s); Pow2Of64(); }
      if n != 0 then Some(n) else None
  }

  lemma {:induction false} Sixteenth(n: nat, bound: nat)
    requires n < 16 * bound
    ensures n / 16 < bound && n == 16 * (n / 16) + n % 16
  {
  }

  lemma {:induction false} PrintedDigits(n: nat, k: nat)
    requires n < Pow2(4 * k)
    ensures AllHex(HexDigits(n, k)) && FromHex(HexDigits(n, k)) == n
  {
    if k > 0 {
      Pow2Nibble(4 * (k - 1));
      Sixteenth(n, Pow2(4 * (k - 1)));
      PrintedDigits(n / 16, k - 1);
      var s := HexDigits(n, k);
      assert s[..k - 1] == HexDigits(n / 16, k - 1);
      DigitOf(n % 16);
    }
  }

  lemma {:induction false} DigitOf(d: nat)
    requires d < 16
    ensures IsHexDigit(HEX[d]) && DigitValue(HEX[d]) == d
  {
  }

  /** Every identifier that can be produced survives printing and parsing. */
  lemma {:induction false} PrintParse(id: u64)
    requires id != 0
    ensures ParseHex(Print(id)) == Some(id)
  {
    var s := Print(id);
    Pow2Of64();
    PrintedDigits(id, 16);
    DigitsAreKept(s);
  }

  lemma {:induction false} DigitsAreKept(s: string)
    requires s != "" && AllHex(s)
    ensures Trim(s) == s
  {
    assert IsHexDigit(s[0]) && IsHexDigit(s[|s| - 1]);
  }

  lemma {:induction false} LastDigit(high: nat, low: nat, k: nat)
    requires low < 16
    ensures HexDigits(16 * high + low, k + 1) == HexDigits(high, k) + [HEX[low]]
  {
    assert (16 * high + low) / 16 == high && (16 * high + low) % 16 == low;
  }

  lemma {:induction false} LowerDigit(c: char)
    requires IsHexDigit(c)
    ensures HEX[DigitValue(c)] == LowerChar(c)
  {
  }

  lemma {:induction false} LowerLast(s: string)
    requires s != ""
    ensures Lower(s) == Lower(s[..|s| - 1]) + [LowerChar(s[|s| - 1])]
  {
  }

  lemma {:induction false} ReadDigits(s: string)
    requires AllHex(s)
    ensures HexDigits(FromHex(s), |s|) == Lower(s)
  {
    if s != "" {
      var n := |s| - 1;
      calc {
        HexDigits(FromHex(s), n + 1);
        { LastDigit(FromHex(s[..n]), DigitValue(s[n]), n); }
        HexDigits(FromHex(s[..n]), n) + [HEX[DigitValue(s[n])]];
        { ReadDigits(s[..n]); LowerDigit(s[n]); }
        Lower(s[..n]) + [LowerChar(s[n])];
        { LowerLast(s); }
        Lower(s);
      }
    }
  }

  /** Whatever is accepted prints back as itself, trimmed and in lower case. */
  lemma {:induction false} ParsePrint(text: string, id: u64)
    requires ParseHex(text) == Some(id)
    ensures id != 0 && Print(id) == Lower(Trim(text))
  {
    ReadDigits(Trim(text));
  }

  predicate AllSpace(s: string) { forall i :: 0 <= i < |s| ==> IsSpace(s[i]) }

  /** The white space of Unicode. */
  lemma {:induction false} SpaceExactly(c: char)
    ensures IsSpace(c) <==>
      c as int in {0x9, 0xA, 0xB, 0xC, 0xD, 0x20, 0x85, 0xA0, 0x1680, 0x2000, 0x2001, 0x2002, 0x2003, 0x2004, 0x2005,
                   0x2006, 0x2007, 0x2008, 0x2009, 0x200A, 0x2028, 0x2029, 0x202F, 0x205F, 0x3000}
  {
  }

  lemma {:induction false} TrimStartCuts(s: string) returns (before: string)
    ensures s == before + TrimStart(s) && AllSpace(before)
  {
    if s != "" && IsSpace(s[0]) {
      before := TrimStartCuts(s[1..]);
      before := [s[0]] + before;
    } else {
      before := "";
    }
  }

  lemma {:induction false} TrimEndCuts(s: string) returns (after: string)
    ensures s == TrimEnd(s) + after && AllSpace(after)
  {
    if s != "" && IsSpace(s[|s| - 1]) {
      after := TrimEndCuts(s[..|s| - 1]);
      after := after + [s[|s| - 1]];
    } else {
      after := "";
    }
  }

  lemma {:induction false} TrimStartOf(before: string, s: string)
    requires AllSpace(before) && s != "" && !IsSpace(s[0])
    ensures TrimStart(before + s) == s
  {
    if before == "" {
      assert before + s == s;
    } else {
      assert (before + s)[1..] == before[1..] + s;
      TrimStartOf(before[1..], s);
    }
  }

  lemma {:induction false} TrimEndOf(s: string, after: string)
    requires AllSpace(after) && s != "" && !IsSpace(s[|s| - 1])
    ensures TrimEnd(s + after) == s
  {
    if after == "" {
      assert s + after == s;
    } else {
      assert (s + after)[..|s + after| - 1] == s + after[..|after| - 1];
      TrimEndOf(s, after[..|after| - 1]);
    }
  }

  /** The text is `core` between white space. */
  ghost predicate Surrounded(text: string, before: string, core: string, after: string) {
    AllSpace(before) && AllSpace(after) && text == before + core + after
  }

  lemma {:induction false} TrimCuts(text: string) returns (before: string, after: string)
    ensures Surrounded(text, before, Trim(text), after)
  {
    before := TrimStartCuts(text);
    after := TrimEndCuts(TrimStart(text));
  }

  lemma {:induction false} TrimOf(text: string, before: string, core: string, after: string)
    requires Surrounded(text, before, core, after) && core != "" && AllHex(core)
    ensures Trim(text) == core
  {
    assert IsHexDigit(core[0]) && IsHexDigit(core[|core| - 1]);
    assert text == before + (core + after);
    TrimStartOf(before, core + after);
    TrimEndOf(core, after);
  }

  lemma {:induction false} LowerIsHex(s: string)
    requires AllHex(Lower(s))
    ensures AllHex(s)
  {
    assert forall i :: 0 <= i < |s| ==> IsHexDigit(Lower(s)[i]);
  }

  /** The accepted texts, exactly: the sixteen digits of an identifier in either case, between any white space. */
  lemma {:induction false} ParseHexExact(text: string, id: u64)
    ensures ParseHex(text) == Some(id) <==>
            id != 0 && exists before, core, after :: Surrounded(text, before, core, after) && Lower(core) == Print(id)
  {
    if ParseHex(text) == Some(id) {
      var before, after := TrimCuts(text);
      ParsePrint(text, id);
    }
    if before, core, after :| id != 0 && Surrounded(text, before, core, after) && Lower(core) == Print(id) {
      Pow2Of64();
      PrintedDigits(id, 16);
      LowerIsHex(core);
      TrimOf(text, before, core, after);
      ReadBack(core, id);
    }
  }

  lemma {:induction false} ReadBack(core: string, id: u64)
    requires AllHex(core) && Lower(core) == Print(id)
    ensures |core| == 16 && FromHex(core) == id
  {
    Pow2Of64();
    FromHexBounded(core);
    ReadDigits(core);
    PrintedDigits(id, 16);
    PrintedDigits(FromHex(core), 16);
  }
}
