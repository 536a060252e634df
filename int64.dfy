/**
 * Go's int64 arithmetic as the program uses it: two's-complement
 * wrap-around on overflow and division that truncates toward zero.
 */
module Int64 {

  const MinInt64: int := -0x8000_0000_0000_0000
  const MaxInt64: int := 0x7fff_ffff_ffff_ffff
  const Modulus: int := 0x1_0000_0000_0000_0000

  predicate InRange(x: int) { MinInt64 <= x <= MaxInt64 }

  /** Go's int64. */
  type I64 = x: int | InRange(x)

  /** The int64 that a mathematical integer wraps to. */
  function Wrap(x: int): (r: int)
    ensures InRange(r)
    ensures (x - r) % Modulus == 0
    ensures InRange(x) ==> r == x
  {
    (x - MinInt64) % Modulus + MinInt64
  }

  /** `v + 1` on an int64, wrapping at the top of the range. */
  function Inc(v: int): (r: int)
    requires InRange(v)
    ensures InRange(r)
    ensures v < MaxInt64 ==> r == v + 1
    ensures v == MaxInt64 ==> r == MinInt64
  {
    Wrap(v + 1)
  }

  /** Go's `a / b` for a positive divisor: the quotient truncated toward zero. */
  function Quot(a: int, b: int): (q: int)
    requires b > 0
    ensures 0 <= a ==> 0 <= q && 0 <= a - q * b < b
    ensures a < 0 ==> q <= 0 && -b < a - q * b <= 0
  {
    if a >= 0 then a / b else -((-a) / b)
  }
}
