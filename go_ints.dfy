/** Fixed-width Go integer types used by the WAL state, and the unsigned
    32-bit wrap-around of Go's `++` on a `uint32`. */
module GoInts {

  newtype uint8 = x: int | 0 <= x < 0x100
  newtype uint32 = x: int | 0 <= x < 0x1_0000_0000
  newtype uint64 = x: int | 0 <= x < 0x1_0000_0000_0000_0000
  newtype int64 = x: int | -0x8000_0000_0000_0000 <= x < 0x8000_0000_0000_0000

  /** Go's `math.MaxUint32`. */
  const MaxUint32: uint32 := 0xFFFF_FFFF

  /** `n++` on a Go `uint32`: one more, except that the largest value wraps to 0. */
  function Increment(n: uint32): (r: uint32)
    ensures n < MaxUint32 ==> r as int == n as int + 1
    ensures n == MaxUint32 ==> r == 0
  {
    ((n as int + 1) % 0x1_0000_0000) as uint32
  }
}
