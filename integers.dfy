/**
 * Rust's fixed-width integers as bounds on unbounded integers, and the `as i32` conversion
 * from a 64-bit integer, which keeps the low 32 bits.
 */
module Integers {
  const I32Min: int := -0x8000_0000
  const I32Max: int := 0x7FFF_FFFF
  const I64Min: int := -0x8000_0000_0000_0000
  const I64Max: int := 0x7FFF_FFFF_FFFF_FFFF

  /** Two's-complement truncation to 32 bits (`x as i32` for an integer `x`). */
  function WrapI32(x: int): (r: int)
    ensures I32Min <= r <= I32Max
    ensures (x - r) % 0x1_0000_0000 == 0
    ensures I32Min <= x <= I32Max ==> r == x
  {
    (x - I32Min) % 0x1_0000_0000 + I32Min
  }
}
