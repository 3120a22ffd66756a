/** Go's fixed-width integer semantics that the program relies on:
    the int64 range, two's-complement wrap-around of int64 multiplication,
    and integer division that truncates toward zero. */
module GoInt {

  const MinInt64: int := -0x8000_0000_0000_0000
  const MaxInt64: int := 0x7FFF_FFFF_FFFF_FFFF
  const Modulus64: int := 0x1_0000_0000_0000_0000

  /** Go's int64 (also time.Duration, which counts nanoseconds). */
  type Int64 = x: int | MinInt64 <= x <= MaxInt64

  /** The int64 value Go produces for the mathematically exact result `x`
      of an int64 operation: `x` reduced into range modulo 2^64. */
  function Wrap64(x: int): (r: Int64)
    ensures (r - x) % Modulus64 == 0
    ensures MinInt64 <= x <= MaxInt64 ==> r == x
  {
    (x - MinInt64) % Modulus64 + MinInt64
  }

  /** Go's `a / b` on integers: the quotient rounded toward zero, so the
      remainder has the sign of the dividend (Dafny's own `/` floors). */
  function TruncDiv(a: int, b: int): (q: int)
    requires b > 0
    ensures a >= 0 ==> 0 <= a - q * b < b
    ensures a < 0 ==> -b < a - q * b <= 0
  {
    if a >= 0 then a / b else -((-a) / b)
  }

  /** On negative dividends Go's quotient differs from a floor. */
  lemma TruncDivIsNotFloor()
    ensures TruncDiv(-1500, 1000) == -1 && -1500 / 1000 == -2
  {
  }
}
