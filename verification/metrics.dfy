/** The two measurements the training script takes on a sample list:
    `evaluate`, the mean Huber loss of the predictions, and `eval_cp16_diff`,
    the mean absolute gap between the secondary and the primary evaluation.
    Both report 0 on an empty list instead of dividing by zero. */
module Metrics {
  import opened Wrappers
  import opened Dataset
  import opened Network
  import opened Huber
  import LabelStats
  import Seqs

  /** Every sample's features name rows of a `w1` with `inputs` rows. */
  predicate AllFeaturesIn(samples: seq<Sample>, inputs: int) {
    forall k :: 0 <= k < |samples| ==> FeaturesIn(samples[k].features, inputs)
  }

  /** The per-sample Huber losses of the predictions. */
  function Losses(p: Params, samples: seq<Sample>, delta: real): (ls: seq<real>)
    requires Valid(p) && AllFeaturesIn(samples, |p.w1|)
    ensures |ls| == |samples|
  {
    seq(|samples|, k requires 0 <= k < |samples| && Valid(p) && AllFeaturesIn(samples, |p.w1|) =>
      HuberLoss(Predict(p, samples[k].features) - samples[k].labelCp, delta))
  }

  /** `evaluate`: 0 for an empty list, and never negative when `delta` is
      not, since then no sample's loss is. */
  function Evaluate(p: Params, samples: seq<Sample>, delta: real): (l: real)
    requires Valid(p) && AllFeaturesIn(samples, |p.w1|)
    ensures |samples| == 0 ==> l == 0.0
    ensures delta >= 0.0 ==> l >= 0.0
  {
    if |samples| == 0 then 0.0
    else
      var ls := Losses(p, samples, delta);
      LabelStats.MeanBetween(ls);
      LabelStats.Sum(ls) / (|samples| as real)
  }

  /** An empty list evaluates to 0; otherwise the result lies between the
      smallest and the largest per-sample loss, so it is never negative when
      `delta` is not. */
  lemma EvaluateBounds(p: Params, samples: seq<Sample>, delta: real)
    requires Valid(p) && AllFeaturesIn(samples, |p.w1|)
    ensures |samples| == 0 ==> Evaluate(p, samples, delta) == 0.0
    ensures |samples| > 0 ==>
              var ls := Losses(p, samples, delta);
              LabelStats.Min(ls) <= Evaluate(p, samples, delta) <= LabelStats.Max(ls)
    ensures delta >= 0.0 ==> Evaluate(p, samples, delta) >= 0.0
  {
    if |samples| > 0 {
      var ls := Losses(p, samples, delta);
      LabelStats.MeanBetween(ls);
      if delta >= 0.0 {
        var m := LabelStats.Min(ls);
        var k :| 0 <= k < |ls| && ls[k] == m;
        assert ls[k] >= 0.0;
      }
    }
  }

  /** `abs(label16 - label)` for every sample that has a secondary evaluation, in order. */
  function Diffs(samples: seq<Sample>): (ds: seq<real>)
    ensures |ds| <= |samples|
    ensures forall i :: 0 <= i < |ds| ==> ds[i] >= 0.0
  {
    if |samples| == 0 then []
    else
      var rest := Diffs(samples[1..]);
      match samples[0].label16
      case None => rest
      case Some(v) => [Abs(v - samples[0].labelCp)] + rest
  }

  /** The gaps of two lists one after the other are the gaps of each in turn. */
  lemma {:induction false} DiffsAppend(a: seq<Sample>, b: seq<Sample>)
    ensures Diffs(a + b) == Diffs(a) + Diffs(b)
  {
    if |a| == 0 {
      assert a + b == b;
    } else {
      assert (a + b)[0] == a[0];
      assert (a + b)[1..] == a[1..] + b;
      DiffsAppend(a[1..], b);
    }
  }

  /** A sample with a secondary evaluation contributes `abs(label16 - label)`,
      placed after the gaps of the samples before it. */
  lemma DiffsAt(samples: seq<Sample>, k: int)
    requires 0 <= k < |samples| && samples[k].label16.Some?
    ensures |Diffs(samples[..k])| < |Diffs(samples)|
    ensures Diffs(samples)[|Diffs(samples[..k])|] == Abs(samples[k].label16.value - samples[k].labelCp)
  {
    assert samples == samples[..k] + [samples[k]] + samples[k + 1..];
    DiffsAppend(samples[..k] + [samples[k]], samples[k + 1..]);
    DiffsAppend(samples[..k], [samples[k]]);
    assert [samples[k]][1..] == [];
  }

  /** Every gap comes from a sample with a secondary evaluation: the one
      whose predecessors leave exactly that many gaps before it. */
  lemma {:induction false} DiffsFrom(samples: seq<Sample>, i: int)
    requires 0 <= i < |Diffs(samples)|
    ensures exists k :: 0 <= k < |samples| && samples[k].label16.Some? && |Diffs(samples[..k])| == i
  {
    var rest := samples[1..];
    assert samples[..0] == [];
    var lead := if samples[0].label16.Some? then 1 else 0;
    if i == 0 && lead == 1 {
      assert samples[0].label16.Some? && |Diffs(samples[..0])| == 0;
    } else {
      DiffsFrom(rest, i - lead);
      var k :| 0 <= k < |rest| && rest[k].label16.Some? && |Diffs(rest[..k])| == i - lead;
      assert samples[..k + 1] == [samples[0]] + rest[..k];
      DiffsAppend([samples[0]], rest[..k]);
      assert [samples[0]][1..] == [];
      assert samples[k + 1] == rest[k];
      assert |Diffs(samples[..k + 1])| == i;
    }
  }

  /** The number of samples that carry a secondary evaluation. */
  function WithLabel16(samples: seq<Sample>): nat {
    |set k | 0 <= k < |samples| && samples[k].label16.Some?|
  }

  /** `eval_cp16_diff`: the count of compared samples and their mean absolute gap. */
  function EvalCp16Diff(samples: seq<Sample>): (r: (nat, real))
    ensures r.0 <= |samples|
    ensures r.0 == 0 ==> r.1 == 0.0
    ensures r.1 >= 0.0
  {
    var ds := Diffs(samples);
    if |ds| == 0 then (0, 0.0)
    else
      LabelStats.MeanBetween(ds);
      var k :| 0 <= k < |ds| && ds[k] == LabelStats.Min(ds);
      (|ds|, LabelStats.Sum(ds) / (|ds| as real))
  }

  /** One gap per sample that has a secondary evaluation. */
  lemma {:induction false} DiffsCount(samples: seq<Sample>)
    ensures |Diffs(samples)| == |set k | 0 <= k < |samples| && samples[k].label16.Some?|
  {
    if |samples| > 0 {
      var rest := samples[1..];
      DiffsCount(rest);
      var all := set k | 0 <= k < |samples| && samples[k].label16.Some?;
      var tail := set k | 0 <= k < |rest| && rest[k].label16.Some?;
      var shifted := set k | k in tail :: k + 1;
      assert all - {0} == shifted by {
        forall k | k in all - {0} ensures k in shifted {
          assert rest[k - 1] == samples[k];
          assert k - 1 in tail;
        }
      }
      Seqs.ShiftCard(tail);
      if samples[0].label16.Some? {
        assert all == shifted + {0};
      } else {
        assert all == shifted;
      }
    }
  }

  /** The count `eval_cp16_diff` reports is the number of samples with a
      secondary evaluation; the mean lies between the smallest and the
      largest gap. */
  lemma EvalCp16DiffMeaning(samples: seq<Sample>)
    ensures EvalCp16Diff(samples).0 == WithLabel16(samples)
    ensures WithLabel16(samples) > 0 ==>
              LabelStats.Min(Diffs(samples)) <= EvalCp16Diff(samples).1 <= LabelStats.Max(Diffs(samples))
  {
    DiffsCount(samples);
    if |Diffs(samples)| > 0 {
      LabelStats.MeanBetween(Diffs(samples));
    }
  }
}
