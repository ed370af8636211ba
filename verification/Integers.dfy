/** The fixed-width arithmetic the sources rely on. */
module Integers {

  const I64_MIN: int := -0x8000_0000_0000_0000
  const I64_MAX: int := 0x7fff_ffff_ffff_ffff
  const U64_MODULUS: int := 0x1_0000_0000_0000_0000

  type Byte = b: int | 0 <= b < 256

  function Clamp(n: int): int {
    if n < I64_MIN then I64_MIN else if n > I64_MAX then I64_MAX else n
  }

  /** `i64::saturating_sub`. */
  function SaturatingSub(a: int, b: int): int { Clamp(a - b) }

  /** `i64::saturating_mul`. */
  function SaturatingMul(a: int, b: int): int { Clamp(a * b) }

  /** `u64::saturating_add(1)`. */
  function Bump(n: nat): nat { if n >= U64_MODULUS - 1 then U64_MODULUS - 1 else n + 1 }

  /** `u64::saturating_add`. */
  function SaturatingAdd(a: nat, b: nat): nat { if a + b >= U64_MODULUS then U64_MODULUS - 1 else a + b }

  /** `usize::checked_mul`, on a 64-bit target. */
  predicate MulFits(a: nat, b: nat) { a * b < U64_MODULUS }

  /** Counters stop at the greatest 64-bit number instead of wrapping. */
  lemma CountersSaturate(a: nat, b: nat)
    ensures SaturatingAdd(a, b) == if a + b <= 0xffff_ffff_ffff_ffff then a + b else 0xffff_ffff_ffff_ffff
    ensures a <= 0xffff_ffff_ffff_ffff ==> Bump(a) == SaturatingAdd(a, 1)
    ensures MulFits(a, b) <==> a * b <= 0xffff_ffff_ffff_ffff
  {
  }
}
