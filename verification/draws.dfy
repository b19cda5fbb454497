/** Random draws. The generator is replaced by the sequence of values its
    `nextDouble` calls return; a call to `nextInt(bound)` consumes one value
    of that sequence and scales it to the bound. */
module Draws {
  import opened Outcomes

  /** A value of `nextDouble`: a real in [0, 1). */
  type Unit = u: real | 0.0 <= u < 1.0

  /** `rest` is what is left of `draws` after some of them were consumed
      from the front. */
  predicate Leaves(draws: seq<Unit>, rest: seq<Unit>) {
    |rest| <= |draws| && rest == draws[|draws| - |rest|..]
  }

  lemma LeavesTransitive(a: seq<Unit>, b: seq<Unit>, c: seq<Unit>)
    requires Leaves(a, b) && Leaves(b, c)
    ensures Leaves(a, c)
  {
    assert a[|a| - |b|..][|b| - |c|..] == a[|a| - |c|..];
  }

  /** `nextInt(bound)` from one draw; a bound that is not positive is
      refused. */
  function NextInt(u: Unit, bound: int): (r: Result<int>)
    ensures r.Ok? <==> bound > 0
    ensures r.Err? ==> r.failure == IllegalArgument
    ensures r.Ok? ==> 0 <= r.value < bound
  {
    if bound <= 0 then Err(IllegalArgument)
    else
      assert u * bound as real < bound as real by {
        assert (1.0 - u) * bound as real > 0.0;
      }
      Ok((u * bound as real).Floor)
  }

  /** Every value of `[0, bound)` is the image of a draw: the scaled draw
      lands on `k` exactly for the draws in `[k / bound, (k + 1) / bound)`. */
  lemma NextIntInverse(u: Unit, bound: int, k: int)
    requires bound > 0 && 0 <= k < bound
    ensures NextInt(u, bound) == Ok(k) <==> k as real <= u * bound as real < (k + 1) as real
  {
  }
}
