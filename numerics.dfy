/** Machine integers and the C conversions the kernel relies on. */
module Numerics {

  const INT32_MIN: int := -0x8000_0000
  const INT32_MAX: int := 0x7FFF_FFFF

  /** A C `int` on the WebAssembly target: 32-bit two's complement. Arithmetic on
      this type is checked by Dafny, so every expression typed `int32` is proved
      not to overflow. */
  newtype int32 = x: int | -0x8000_0000 <= x < 0x8000_0000

  /** A C `unsigned char`, one channel of an RGBA8 pixel. */
  newtype byte = x: int | 0 <= x < 256

  predicate InInt32(x: int) {
    INT32_MIN <= x <= INT32_MAX
  }

  function Max(a: int, b: int): int {
    if a < b then b else a
  }

  function Min(a: int, b: int): int {
    if a < b then a else b
  }

  /** C's `/` on integers with a positive divisor: the quotient is truncated
      toward zero, unlike Dafny's Euclidean `/`. */
  function CDiv(a: int, b: int): (q: int)
    requires b > 0
    ensures a >= 0 ==> 0 <= q * b <= a < q * b + b
    ensures a < 0 ==> q * b - b < a <= q * b <= 0
  {
    if a >= 0 then
      DivBounds(a, b);
      a / b
    else
      DivBounds(-a, b);
      assert -((-a) / b) * b == -(((-a) / b) * b);
      -((-a) / b)
  }

  lemma DivBounds(a: int, b: int)
    requires a >= 0 && b > 0
    ensures 0 <= (a / b) * b <= a < (a / b) * b + b
  {
    assert a == b * (a / b) + a % b;
    assert 0 <= a / b;
  }

  /** The conversion `(unsigned char)v` of an integer: reduction modulo 256. */
  function ToUnsignedChar(v: int): (c: byte)
    ensures 0 <= v < 256 ==> c as int == v
    ensures (c as int - v) % 256 == 0
  {
    (v % 256) as byte
  }

  /** The conversion `(int)r` of a floating-point value: truncation toward zero. */
  function TruncToInt(r: real): (n: int)
    ensures r >= 0.0 ==> 0 <= n && n as real <= r < n as real + 1.0
    ensures r < 0.0 ==> n <= 0 && n as real - 1.0 < r <= n as real
  {
    if r >= 0.0 then r.Floor else -((-r).Floor)
  }
}
