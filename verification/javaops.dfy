/** Java's integer and conversion semantics, written out over unbounded
    integers and exact reals: truncating division and remainder, 64-bit
    wrap-around, and the `(int)` cast of a double. */
module JavaOps {

  const LONG_MIN: int := -0x8000_0000_0000_0000
  const LONG_MAX: int := 0x7fff_ffff_ffff_ffff
  const LONG_RANGE: int := 0x1_0000_0000_0000_0000
  const INT_MIN: int := -0x8000_0000
  const INT_MAX: int := 0x7fff_ffff
  const INT_RANGE: int := 0x1_0000_0000

  predicate IsLong(x: int) {
    LONG_MIN <= x <= LONG_MAX
  }

  predicate IsInt(x: int) {
    INT_MIN <= x <= INT_MAX
  }

  function Abs(x: int): nat {
    if x < 0 then -x else x
  }

  function Min(a: int, b: int): int {
    if a <= b then a else b
  }

  /** Java's `/` on integers: the quotient truncated toward zero. */
  function Quot(a: int, b: int): int
    requires b != 0
  {
    var q := Abs(a) / Abs(b);
    if (a >= 0) == (b >= 0) then q else -q
  }

  /** Java's `%` on integers: the remainder takes the sign of the dividend. */
  function Rem(a: int, b: int): (r: int)
    requires b != 0
    ensures a == b * Quot(a, b) + r
    ensures Abs(r) < Abs(b)
    ensures a >= 0 ==> r >= 0
    ensures a <= 0 ==> r <= 0
  {
    var m := Abs(a) % Abs(b);
    if a >= 0 then m else -m
  }

  /** Two's-complement wrap-around of a 64-bit `long` sum. */
  function WrapLong(x: int): (r: int)
    ensures IsLong(r)
    ensures (r - x) % LONG_RANGE == 0
    ensures IsLong(x) ==> r == x
  {
    (x - LONG_MIN) % LONG_RANGE + LONG_MIN
  }

  /** Two's-complement wrap-around of a 32-bit `int` product or sum. */
  function WrapInt(x: int): (r: int)
    ensures IsInt(r)
    ensures (r - x) % INT_RANGE == 0
    ensures IsInt(x) ==> r == x
  {
    (x - INT_MIN) % INT_RANGE + INT_MIN
  }

  /** The `(int)` cast of a double: truncation toward zero (saturation at the
      `int` range and NaN are not modelled). */
  function Trunc(x: real): (r: int)
    ensures x >= 0.0 ==> r as real <= x < r as real + 1.0
    ensures x <= 0.0 ==> r as real - 1.0 < x <= r as real
  {
    if x >= 0.0 then x.Floor else -((-x).Floor)
  }

  /** `Math.ceil` of a double, returned as an integer. */
  function Ceil(x: real): (r: int)
    ensures r as real - 1.0 < x <= r as real
  {
    -((-x).Floor)
  }
}
