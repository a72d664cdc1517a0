/** C integer types as range-checked newtypes. An operation on a value of these types
    carries the proof obligation that its result fits, so a method written over them is
    proved free of overflow; wrap-around, where C defines it, is written out. */
module CInt {
  const TWO16: int := 0x1_0000
  const TWO31: int := 0x8000_0000
  const TWO32: int := 0x1_0000_0000
  const TWO62: int := 0x4000_0000_0000_0000
  const TWO63: int := 0x8000_0000_0000_0000
  const TWO64: int := 0x1_0000_0000_0000_0000

  newtype uint8 = x: int | 0 <= x < 0x100
  newtype uint16 = x: int | 0 <= x < 0x1_0000
  newtype uint32 = x: int | 0 <= x < 0x1_0000_0000
  newtype uint64 = x: int | 0 <= x < 0x1_0000_0000_0000_0000
  newtype int32 = x: int | -0x8000_0000 <= x < 0x8000_0000
  newtype int64 = x: int | -0x8000_0000_0000_0000 <= x < 0x8000_0000_0000_0000

  function Abs(x: int): (r: nat)
  {
    if x < 0 then -x else x
  }

  /** C's truncating division by a positive divisor. */
  function TruncDiv(x: int, d: int): (r: int)
    requires d > 0
  {
    if x < 0 then -(-x / d) else x / d
  }
}
