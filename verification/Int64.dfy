/** Signed 64-bit integers. */
module Int64 {

  const WORD64: int := 0x1_0000_0000_0000_0000
  const HALF64: int := 0x8000_0000_0000_0000

  type int64 = x: int | -HALF64 <= x < HALF64
}
