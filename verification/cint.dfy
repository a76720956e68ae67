/**
 * The C `int` of the program (32 bits, two's complement on the target
 * platform) and the two C operators on it whose meaning differs from
 * Dafny's: `/` and `%`, which truncate toward zero (section 6.5.5 of the
 * C11 standard), where Dafny's are Euclidean.
 */
module CInt {

  const Min: int := -0x8000_0000
  const Max: int := 0x7FFF_FFFF
  const Modulus: int := 0x1_0000_0000

  predicate InRange(x: int) {
    Min <= x <= Max
  }

  type int32 = x: int | Min <= x <= Max

  /** The two's-complement wrap-around of a mathematical result into 32 bits. */
  function Wrap(x: int): (r: int)
    ensures InRange(r)
    ensures (r - x) % Modulus == 0
    ensures InRange(x) ==> r == x
  {
    (x - Min) % Modulus + Min
  }

  /** C's `a / b` for a positive divisor: the quotient truncated toward zero. */
  function Div(a: int, b: int): (q: int)
    requires b > 0
    ensures a >= 0 ==> q == a / b
    ensures a <= 0 ==> q <= 0
    ensures a >= 0 ==> 0 <= a - q * b < b
    ensures a <= 0 ==> -b < a - q * b <= 0
  {
    if a >= 0 then a / b else -((-a) / b)
  }

  /** C's `a % b` for a positive divisor: the remainder that goes with `Div`. */
  function Rem(a: int, b: int): (r: int)
    requires b > 0
    ensures a == Div(a, b) * b + r
    ensures -b < r < b
    ensures a >= 0 ==> 0 <= r && r == a % b
    ensures a <= 0 ==> r <= 0
  {
    if a >= 0 then a % b else -((-a) % b)
  }

}
