/** Fixed-width integers of the driver, as ranges of `int`.
    Masks and shifts by constants are written as division and remainder. */
module Bytes {
  type byte = x: int | 0 <= x < 0x100
  type int8 = x: int | -0x80 <= x < 0x80
  type word = x: int | 0 <= x < 0x1_0000
  type dword = x: int | 0 <= x < 0x1_0000_0000

  datatype Option<+T> = None | Some(value: T)

  /** `static_cast<int8_t>`: the one signed byte congruent to `x` modulo 256. */
  function ToInt8(x: int): (r: int8)
    ensures (r - x) % 256 == 0
    ensures -128 <= x < 128 ==> r == x
  {
    var m := x % 256;
    if m < 128 then m else m - 256
  }

  /** `static_cast<uint8_t>`. */
  function ToByte(x: int): (r: byte)
    ensures (r - x) % 256 == 0
    ensures 0 <= x < 256 ==> r == x
  {
    x % 256
  }

  function Min(a: int, b: int): (r: int) {
    if a <= b then a else b
  }

  function Max(a: int, b: int): (r: int) {
    if a >= b then a else b
  }
}
