/** `Utils.gcd`: Euclid's algorithm on Java `int`s, used to derive the refresh
    period of the cumulative distribution. */
module Utils {
  import opened JavaOps

  /** Euclid's recursion exactly as written: `gcd(a, 0) = a`, otherwise
      `gcd(b, a % b)` with Java's truncating remainder. It terminates for all
      integers because the remainder is strictly smaller than `b` in magnitude. */
  function Gcd(a: int, b: int): (g: int)
    decreases Abs(b)
    ensures a >= 0 && b >= 0 ==> g >= 0
    ensures a >= 0 && b >= 0 && (a > 0 || b > 0) ==> g > 0
    ensures IsInt(a) && IsInt(b) ==> IsInt(g)
  {
    if b == 0 then a else Gcd(b, Rem(a, b))
  }

  function Mul(d: int, k: int): int {
    d * k
  }

  /** `d` divides `n`. */
  ghost predicate Divides(d: int, n: int) {
    exists k :: n == Mul(d, k)
  }

  lemma DividesCombination(d: int, x: int, y: int, q: int)
    requires Divides(d, x) && Divides(d, y)
    ensures Divides(d, x * q + y)
  {
    var a :| x == Mul(d, a);
    var b :| y == Mul(d, b);
    assert x * q + y == Mul(d, a * q + b);
  }

  lemma DividesDifference(d: int, x: int, y: int, q: int)
    requires Divides(d, x) && Divides(d, y)
    ensures Divides(d, x - y * q)
  {
    var a :| x == Mul(d, a);
    var b :| y == Mul(d, b);
    assert x - y * q == Mul(d, a - b * q);
  }

  /** For non-negative arguments the result divides both of them. */
  lemma {:induction false} GcdDividesBoth(a: int, b: int)
    requires a >= 0 && b >= 0
    ensures Divides(Gcd(a, b), a) && Divides(Gcd(a, b), b)
    decreases b
  {
    var g := Gcd(a, b);
    if b == 0 {
      assert a == Mul(g, 1);
      assert 0 == Mul(g, 0);
    } else {
      var r := Rem(a, b);
      GcdDividesBoth(b, r);
      assert g == Gcd(b, r);
      assert a == b * Quot(a, b) + r;
      DividesCombination(g, b, r, Quot(a, b));
    }
  }

  /** Every common divisor of the non-negative arguments divides the result, so
      the result is the greatest common divisor. */
  lemma {:induction false} GcdIsGreatest(a: int, b: int, d: int)
    requires a >= 0 && b >= 0
    requires Divides(d, a) && Divides(d, b)
    ensures Divides(d, Gcd(a, b))
    decreases b
  {
    if b != 0 {
      var r := Rem(a, b);
      assert r == a - b * Quot(a, b);
      DividesDifference(d, a, b, Quot(a, b));
      GcdIsGreatest(b, r, d);
    }
  }
}
