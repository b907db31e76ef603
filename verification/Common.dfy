/** Optional values and Go's conversions between numbers. */
module Common {

  datatype Option<T> = None | Some(value: T)

  /** Go's conversion of a float64 to an integer drops the fraction. */
  function Truncate(x: real): int {
    if x < 0.0 then -(-x).Floor else x.Floor
  }

  /** Go's integer division truncates toward zero. */
  function Quotient(a: int, b: int): int
    requires b > 0
  {
    if a >= 0 then a / b else -((-a) / b)
  }

  /** Truncation is the whole number next to x on the side of zero. */
  lemma TruncateLaw(x: real)
    ensures x >= 0.0 ==> Truncate(x) as real <= x < Truncate(x) as real + 1.0
    ensures x < 0.0 ==> Truncate(x) as real - 1.0 < x <= Truncate(x) as real
  {
  }

  /** Multiplying back leaves a remainder smaller than the divisor, with the sign of the dividend. */
  lemma QuotientLaw(a: int, b: int)
    requires b > 0
    ensures a >= 0 ==> 0 <= a - b * Quotient(a, b) < b
    ensures a <= 0 ==> -b < a - b * Quotient(a, b) <= 0
  {
  }
}
