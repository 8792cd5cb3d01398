/** The fixed-width integer types of the program's records, and the smaller of two numbers. */
module Integers {
  type int64 = x: int | -0x8000_0000_0000_0000 <= x < 0x8000_0000_0000_0000
  type uint64 = x: int | 0 <= x < 0x1_0000_0000_0000_0000
  type uint16 = x: int | 0 <= x < 0x1_0000

  function Min(a: nat, b: nat): nat { if a <= b then a else b }
}
