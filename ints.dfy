/** Fixed-width integer conversions that the Rust code performs with `as`. */
module Ints {

  const I32_MIN: int := -0x8000_0000
  const I32_MAX: int := 0x7fff_ffff
  const U64_MAX: int := 0xffff_ffff_ffff_ffff
  const TWO_POW_32: int := 0x1_0000_0000
  const TWO_POW_64: int := 0x1_0000_0000_0000_0000

  predicate InI32(x: int) { I32_MIN <= x <= I32_MAX }

  /** `x as i32` from a wider integer: keep the low 32 bits, read them as two's complement. */
  function WrapI32(x: int): (r: int)
    ensures InI32(r)
    ensures (r - x) % TWO_POW_32 == 0
    ensures InI32(x) ==> r == x
  {
    var low := (x - I32_MIN) % TWO_POW_32;
    low + I32_MIN
  }

  /** `x as u64`, or a wrapping u64 operation: reduce modulo 2^64. */
  function WrapU64(x: int): (r: int)
    ensures 0 <= r <= U64_MAX
    ensures (r - x) % TWO_POW_64 == 0
    ensures 0 <= x <= U64_MAX ==> r == x
  {
    x % TWO_POW_64
  }

  /** Saturating u64 addition and multiplication (as in byte-unit arithmetic). */
  function SatU64(x: int): (r: int)
    ensures 0 <= r <= U64_MAX
    ensures 0 <= x <= U64_MAX ==> r == x
    ensures x > U64_MAX ==> r == U64_MAX
  {
    if x < 0 then 0 else if x > U64_MAX then U64_MAX else x
  }
}
