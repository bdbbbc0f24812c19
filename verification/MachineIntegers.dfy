/** The ranges of C's integers, as the source's platform has them, and how a sum wraps around. */
module MachineIntegers {

  type Uint32 = x: int | 0 <= x < 0x1_0000_0000

  type Uint64 = x: int | 0 <= x < 0x1_0000_0000_0000_0000

  type Int32 = x: int | -0x8000_0000 <= x < 0x8000_0000

  type Int64 = x: int | -0x8000_0000_0000_0000 <= x < 0x8000_0000_0000_0000

  /** The value that 32-bit signed arithmetic leaves. */
  function Wrap32(x: int): Int32 {
    (x + 0x8000_0000) % 0x1_0000_0000 - 0x8000_0000
  }
}
