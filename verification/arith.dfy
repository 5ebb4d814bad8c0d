/** Repeated addition over the reals: `k` copies of `x` summed. Both the
    sparse weight update (one step per occurrence of a feature) and the label
    statistics (a sum of `n` bounded labels) are stated with it, which keeps
    their proofs in linear arithmetic. */
module Arith {

  /** `x` added up `k` times. */
  function Times(k: nat, x: real): real {
    if k == 0 then 0.0 else x + Times(k - 1, x)
  }

  lemma {:induction false} TimesIsProduct(k: nat, x: real)
    ensures Times(k, x) == (k as real) * x
  {
    if k > 0 {
      TimesIsProduct(k - 1, x);
    }
  }

  lemma {:induction false} TimesZero(k: nat)
    ensures Times(k, 0.0) == 0.0
  {
    if k > 0 {
      TimesZero(k - 1);
    }
  }

  /** Over the reals the division by `n` preserves bounds on the sum. */
  lemma MeanOfBounds(n: nat, lo: real, s: real, hi: real)
    requires n > 0 && Times(n, lo) <= s <= Times(n, hi)
    ensures lo <= s / (n as real) <= hi
  {
    TimesIsProduct(n, lo);
    TimesIsProduct(n, hi);
    var k := n as real;
    assert s / k * k == s;
  }
}
