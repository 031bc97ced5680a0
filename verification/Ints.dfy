/** Unsigned machine integers, as natural numbers with a bound. */
module Ints {
  const U32_MAX: nat := 0xFFFF_FFFF
  const U64_MAX: nat := 0xFFFF_FFFF_FFFF_FFFF

  type byte = n: nat | n < 256
  type u32 = n: nat | n <= U32_MAX
  type u64 = n: nat | n <= U64_MAX

  function SaturatingAdd(a: u64, b: u64): u64 { if a + b > U64_MAX then U64_MAX else a + b }
  function SaturatingSub(a: nat, b: nat): nat { if a < b then 0 else a - b }
}
