/** Sums of sequences of reals, the exact-arithmetic stand-in for the
    `double` accumulations of the density and probability code. */
module Sums {

  /** The sum of `s`, first element first. */
  function Sum(s: seq<real>): real
    decreases |s|
  {
    if |s| == 0 then 0.0 else s[0] + Sum(s[1..])
  }

  /** Accumulating left to right gives the same sum: appending an element
      adds it to the sum. */
  lemma {:induction false} SumAppend(s: seq<real>, x: real)
    ensures Sum(s + [x]) == Sum(s) + x
    decreases |s|
  {
    if |s| > 0 {
      assert (s + [x])[1..] == s[1..] + [x];
      SumAppend(s[1..], x);
    }
  }

  /** A sum of non-negative reals is non-negative. */
  lemma {:induction false} SumNonNegative(s: seq<real>)
    requires forall i :: 0 <= i < |s| ==> s[i] >= 0.0
    ensures Sum(s) >= 0.0
    decreases |s|
  {
    if |s| > 0 {
      SumNonNegative(s[1..]);
    }
  }

  /** `n` copies of `c` sum to `n * c`. */
  lemma {:induction false} SumConstant(n: nat, c: real)
    ensures Sum(seq(n, i => c)) == n as real * c
    decreases n
  {
    if n > 0 {
      assert seq(n, i => c)[1..] == seq(n - 1, i => c);
      SumConstant(n - 1, c);
    }
  }
}
