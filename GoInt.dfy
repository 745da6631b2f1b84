/** Go's fixed-width integer types and its integer division, which truncates
    toward zero (Dafny's `/` and `%` are Euclidean). */
module GoInt {

  /** Go's `byte` (uint8). */
  newtype byte = b: int | 0 <= b < 0x100

  /** Go's `int16`, the type of one elevation sample. */
  newtype int16 = i: int | -0x8000 <= i < 0x8000

  /** Go's `a / b` for a positive divisor: the quotient truncated toward zero. */
  function Quot(a: int, b: int): (q: int)
    requires b > 0
    ensures a >= 0 ==> 0 <= a - b * q < b
    ensures a < 0 ==> -b < a - b * q <= 0
  {
    if a >= 0 then a / b else -((-a) / b)
  }

  /** Go's `a % b` for a positive divisor: the remainder takes the sign of `a`. */
  function Rem(a: int, b: int): (r: int)
    requires b > 0
    ensures a == b * Quot(a, b) + r
    ensures a >= 0 ==> 0 <= r < b
    ensures a < 0 ==> -b < r <= 0
  {
    a - b * Quot(a, b)
  }
}
