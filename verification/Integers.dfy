/** The machine integers of the source that are modelled with their range, and the smaller and
    the larger of two numbers. */
module Integers {
  const INT64_MAX: int := 0x7fff_ffff_ffff_ffff

  const TWO64: int := 0x1_0000_0000_0000_0000

  type uint8 = x: int | 0 <= x < 0x100

  type uint32 = x: int | 0 <= x < 0x1_0000_0000

  type uint64 = x: int | 0 <= x < TWO64

  function Min(a: int, b: int): int {
    if a < b then a else b
  }

  function Max(a: int, b: int): int {
    if a < b then b else a
  }
}
