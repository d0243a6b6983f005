/** Machine integers, and what a 16-bit word in network order reads as on a host when nothing converts it. */
module Integers {
  const TWO16: int := 0x1_0000
  const TWO31: int := 0x8000_0000
  const TWO32: int := 0x1_0000_0000
  const TWO63: int := 0x8000_0000_0000_0000
  const TWO64: int := 0x1_0000_0000_0000_0000

  type Byte = b: int | 0 <= b < 256
  type U16 = x: int | 0 <= x < TWO16
  type U32 = x: int | 0 <= x < TWO32

  /** The kernel's clock: an unsigned long. */
  type Jiffies = j: int | 0 <= j < TWO64

  function HostOrder(bigEndian: bool, x: U16): U16 {
    if bigEndian then x else x % 256 * 256 + x / 256
  }

  function Min(m: nat, n: nat): nat {
    if m <= n then m else n
  }
}
