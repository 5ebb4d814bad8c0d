/** The label statistics `load_samples` reports: running min, max, sum and
    sum of squares over the accepted labels, then the mean and the variance
    `sumSq / n - mean^2` floored at 0 (the square root is not modelled). */
module LabelStats {
  import opened Arith

  datatype Stats = Stats(min: real, max: real, mean: real, variance: real)

  function Sum(xs: seq<real>): real {
    if |xs| == 0 then 0.0 else xs[0] + Sum(xs[1..])
  }

  function SumSq(xs: seq<real>): real {
    if |xs| == 0 then 0.0 else xs[0] * xs[0] + SumSq(xs[1..])
  }

  /** `min(label_stats["min"], label)` over the labels, starting from +inf. */
  function Min(xs: seq<real>): (m: real)
    requires |xs| > 0
    ensures m in xs && forall i :: 0 <= i < |xs| ==> m <= xs[i]
  {
    if |xs| == 1 then xs[0]
    else
      var rest := Min(xs[1..]);
      assert forall i :: 1 <= i < |xs| ==> xs[i] == xs[1..][i - 1];
      if xs[0] <= rest then xs[0] else rest
  }

  /** `max(label_stats["max"], label)` over the labels, starting from -inf. */
  function Max(xs: seq<real>): (m: real)
    requires |xs| > 0
    ensures m in xs && forall i :: 0 <= i < |xs| ==> xs[i] <= m
  {
    if |xs| == 1 then xs[0]
    else
      var rest := Max(xs[1..]);
      assert forall i :: 1 <= i < |xs| ==> xs[i] == xs[1..][i - 1];
      if xs[0] >= rest then xs[0] else rest
  }

  /** The statistics over a nonempty label list (an empty one is rejected
      before): the extremes are labels and the variance is floored at 0. */
  function Of(xs: seq<real>): (s: Stats)
    requires |xs| > 0
    ensures s.min in xs && s.max in xs
    ensures s.variance >= 0.0
  {
    var n := |xs| as real;
    var mean := Sum(xs) / n;
    var variance := SumSq(xs) / n - mean * mean;
    Stats(Min(xs), Max(xs), mean, if variance > 0.0 then variance else 0.0)
  }

  /** The reported extremes are labels, the mean lies between them, and the
      reported variance is never negative. */
  lemma OfBounds(xs: seq<real>)
    requires |xs| > 0
    ensures Of(xs).min in xs && Of(xs).max in xs
    ensures forall i :: 0 <= i < |xs| ==> Of(xs).min <= xs[i] <= Of(xs).max
    ensures Of(xs).min <= Of(xs).mean <= Of(xs).max
    ensures Of(xs).variance >= 0.0
  {
    MeanBetween(xs);
  }

  /** `n` copies of `lo` at most the sum, the sum at most `n` copies of `hi`. */
  lemma {:induction false} SumBounds(xs: seq<real>, lo: real, hi: real)
    requires forall i :: 0 <= i < |xs| ==> lo <= xs[i] <= hi
    ensures Times(|xs|, lo) <= Sum(xs) <= Times(|xs|, hi)
  {
    if |xs| > 0 {
      assert forall i :: 0 <= i < |xs[1..]| ==> xs[1..][i] == xs[i + 1];
      SumBounds(xs[1..], lo, hi);
    }
  }

  /** The mean lies between the smallest and the largest label. */
  lemma MeanBetween(xs: seq<real>)
    requires |xs| > 0
    ensures Min(xs) <= Sum(xs) / (|xs| as real) <= Max(xs)
  {
    SumBounds(xs, Min(xs), Max(xs));
    MeanOfBounds(|xs|, Min(xs), Sum(xs), Max(xs));
  }

  lemma StatsExample()
    ensures Of([100.0, -50.0]).mean == 25.0
    ensures Of([100.0, -50.0]).variance == 5625.0
    ensures Of([100.0, -50.0]).min == -50.0 && Of([100.0, -50.0]).max == 100.0
  {
    var xs := [100.0, -50.0];
    assert xs[1..] == [-50.0];
    assert Sum(xs) == 50.0;
    assert SumSq(xs) == 12500.0;
  }
}
