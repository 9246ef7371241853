// Fixed-width machine integers, as their values
module MachineInts {
  type U8 = x: int | 0 <= x < 0x100
  type U16 = x: int | 0 <= x < 0x1_0000
  type U32 = x: int | 0 <= x < 0x1_0000_0000
  type Int16 = x: int | -0x8000 <= x < 0x8000
  type Int32 = x: int | -0x8000_0000 <= x < 0x8000_0000

  // x++ on 16 bits
  function Next16(x: Int16): Int16 {
    if x == 0x7fff then -0x8000 else x + 1
  }
}
