/** The machine integers of the extractor, as ranges of `int`. */
module Integers {

  const TWO_TO_THE_31: int := 0x8000_0000
  const TWO_TO_THE_32: int := 0x1_0000_0000
  const TWO_TO_THE_64: int := 0x1_0000_0000_0000_0000

  type Byte = x: int | 0 <= x < 0x100
  type U16 = x: int | 0 <= x < 0x1_0000
  type U32 = x: int | 0 <= x < TWO_TO_THE_32

  function Min(a: int, b: int): int {
    if a <= b then a else b
  }

  function Max(a: int, b: int): int {
    if a <= b then b else a
  }

  /** `u32::wrapping_sub`. */
  function WrappingSub(a: U32, b: U32): U32 {
    (a - b) % TWO_TO_THE_32
  }

  /** `u32::wrapping_add` of a length cast with `as u32`. */
  function WrappingAdd(a: U32, len: nat): U32 {
    (a + len % TWO_TO_THE_32) % TWO_TO_THE_32
  }
}
