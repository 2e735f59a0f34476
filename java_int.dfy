/** Java's 32-bit `int` arithmetic, written out over Dafny's unbounded integers. */
module JavaInt {

  const MIN_INT: int := -0x8000_0000
  const MAX_INT: int := 0x7fff_ffff

  /** `x` is a value of Java's `int` type. */
  predicate IsInt(x: int) {
    MIN_INT <= x <= MAX_INT
  }

  /** The narrowing cast `(int)` of a wider integer: keeps the low 32 bits, two's complement. */
  function ToInt(x: int): (r: int)
    ensures IsInt(r)
    ensures IsInt(x) ==> r == x
    ensures (x - r) % 0x1_0000_0000 == 0
  {
    (x + 0x8000_0000) % 0x1_0000_0000 - 0x8000_0000
  }

  /** `Math.abs(int)`: the negation of `MIN_INT` overflows back to `MIN_INT`. */
  function Abs(x: int): (r: int)
    requires IsInt(x)
    ensures IsInt(r)
    ensures x != MIN_INT ==> r >= 0 && (r == x || r == -x)
    ensures x == MIN_INT ==> r == MIN_INT
  {
    ToInt(if x < 0 then -x else x)
  }

  /** Java's `/` on integers, which truncates toward zero (Dafny's `/` is Euclidean). */
  function Div(a: int, b: int): (q: int)
    requires b > 0
    ensures a >= 0 ==> q * b <= a < (q + 1) * b
    ensures a < 0 ==> (q - 1) * b < a <= q * b
  {
    if a >= 0 then a / b else -((-a) / b)
  }
}
