/** The two-layer network over reals: a sparse linear layer summed over the
    sample's feature rows, a ReLU clamped to [0, 127], and a linear output.
    `TrainSample` is one online gradient step with the Huber gradient. */
module Network {
  import opened Huber
  import opened Arith

  const ReluCap: real := 127.0

  /** `w1` has one row per input index and one column per hidden unit. */
  datatype Params = Params(w1: seq<seq<real>>, b1: seq<real>, w2: seq<real>, b2: real)

  predicate Shaped(p: Params, inputs: nat, hidden: nat) {
    && |p.w1| == inputs
    && (forall r :: 0 <= r < |p.w1| ==> |p.w1[r]| == hidden)
    && |p.b1| == hidden
    && |p.w2| == hidden
  }

  predicate Valid(p: Params) {
    Shaped(p, |p.w1|, |p.b1|)
  }

  /** Every feature names a row of `w1` (Python indexing would raise otherwise). */
  predicate FeaturesIn(features: seq<int>, inputs: int) {
    forall k :: 0 <= k < |features| ==> 0 <= features[k] < inputs
  }

  function Count(xs: seq<int>, x: int): nat {
    if |xs| == 0 then 0 else (if xs[0] == x then 1 else 0) + Count(xs[1..], x)
  }

  lemma CountZeroNotIn(xs: seq<int>, x: int)
    ensures Count(xs, x) == 0 <==> x !in xs
  {
  }

  predicate ColumnsIn(w1: seq<seq<real>>, i: nat) {
    forall r :: 0 <= r < |w1| ==> i < |w1[r]|
  }

  /** Contribution of the sample's features to hidden unit `i`, accumulated
      feature by feature as the forward pass does. */
  function ColumnSum(w1: seq<seq<real>>, features: seq<int>, i: nat): real
    requires FeaturesIn(features, |w1|) && ColumnsIn(w1, i)
  {
    if |features| == 0 then 0.0 else w1[features[0]][i] + ColumnSum(w1, features[1..], i)
  }

  /** The dense product of the input vector x (x[r] = number of times feature r
      occurs) with column `i` of `w1`, over the first `n` inputs. */
  function DenseColumn(w1: seq<seq<real>>, features: seq<int>, i: nat, n: nat): real
    requires n <= |w1| && ColumnsIn(w1, i)
  {
    if n == 0 then 0.0
    else DenseColumn(w1, features, i, n - 1) + (Count(features, n - 1) as real) * w1[n - 1][i]
  }

  lemma {:induction false} DenseCons(w1: seq<seq<real>>, f: int, rest: seq<int>, i: nat, n: nat)
    requires n <= |w1| && ColumnsIn(w1, i)
    ensures DenseColumn(w1, [f] + rest, i, n)
            == (if 0 <= f < n then w1[f][i] else 0.0) + DenseColumn(w1, rest, i, n)
  {
    if n > 0 {
      DenseCons(w1, f, rest, i, n - 1);
      assert ([f] + rest)[1..] == rest;
      assert Count([f] + rest, n - 1) == (if f == n - 1 then 1 else 0) + Count(rest, n - 1);
    }
  }

  lemma {:induction false} DenseEmpty(w1: seq<seq<real>>, i: nat, n: nat)
    requires n <= |w1| && ColumnsIn(w1, i)
    ensures DenseColumn(w1, [], i, n) == 0.0
  {
    if n > 0 {
      DenseEmpty(w1, i, n - 1);
    }
  }

  /** The sparse accumulation equals the dense layer on the one-hot input. */
  lemma {:induction false} SparseIsDense(w1: seq<seq<real>>, features: seq<int>, i: nat)
    requires FeaturesIn(features, |w1|) && ColumnsIn(w1, i)
    ensures ColumnSum(w1, features, i) == DenseColumn(w1, features, i, |w1|)
    decreases |features|
  {
    if |features| == 0 {
      DenseEmpty(w1, i, |w1|);
    } else {
      SparseIsDense(w1, features[1..], i);
      assert features == [features[0]] + features[1..];
      DenseCons(w1, features[0], features[1..], i, |w1|);
    }
  }

  /** Pre-activation of hidden unit `i`. */
  function PreActivation(p: Params, features: seq<int>, i: nat): real
    requires Valid(p) && FeaturesIn(features, |p.w1|) && i < |p.b1|
  {
    p.b1[i] + ColumnSum(p.w1, features, i)
  }

  function Dot(a: seq<real>, b: seq<real>): real
    requires |a| == |b|
  {
    if |a| == 0 then 0.0 else a[0] * b[0] + Dot(a[1..], b[1..])
  }

  /** The output sum as the forward pass forms it: zero hidden values skipped. */
  function SkipZeroDot(hidden: seq<real>, w2: seq<real>): real
    requires |hidden| == |w2|
  {
    if |hidden| == 0 then 0.0
    else (if hidden[0] != 0.0 then hidden[0] * w2[0] else 0.0) + SkipZeroDot(hidden[1..], w2[1..])
  }

  lemma {:induction false} SkipZeroDotIsDot(hidden: seq<real>, w2: seq<real>)
    requires |hidden| == |w2|
    ensures SkipZeroDot(hidden, w2) == Dot(hidden, w2)
  {
    if |hidden| > 0 {
      SkipZeroDotIsDot(hidden[1..], w2[1..]);
    }
  }

  datatype Activation = Activation(output: real, hidden: seq<real>, active: seq<bool>)

  /** The clamped ReLU of unit `i`: 0 at or below 0, 127 at or above 127. */
  function HiddenAt(p: Params, features: seq<int>, i: int): real
    requires Valid(p) && FeaturesIn(features, |p.w1|)
  {
    if 0 <= i < |p.b1| then
      var v := PreActivation(p, features, i);
      if v <= 0.0 then 0.0 else if v >= ReluCap then ReluCap else v
    else 0.0
  }

  /** Unit `i` is active (has a nonzero local gradient) when not clamped. */
  function ActiveAt(p: Params, features: seq<int>, i: int): bool
    requires Valid(p) && FeaturesIn(features, |p.w1|)
  {
    0 <= i < |p.b1| && !(PreActivation(p, features, i) <= 0.0) && !(PreActivation(p, features, i) >= ReluCap)
  }

  /** `NnueModel.forward`. */
  function Forward(p: Params, features: seq<int>): (a: Activation)
    requires Valid(p) && FeaturesIn(features, |p.w1|)
    ensures |a.hidden| == |a.active| == |p.b1|
  {
    var hidden := seq(|p.b1|, i => HiddenAt(p, features, i));
    var active := seq(|p.b1|, i => ActiveAt(p, features, i));
    Activation(p.b2 + SkipZeroDot(hidden, p.w2), hidden, active)
  }

  /** The clamped ReLU: every hidden value lies in [0, 127]; a unit is active
      exactly when its pre-activation is strictly inside (0, 127), and then
      passes it through; below the band it is 0, above it is 127. */
  lemma ForwardActivation(p: Params, features: seq<int>)
    requires Valid(p) && FeaturesIn(features, |p.w1|)
    ensures var a := Forward(p, features);
            && (forall i :: 0 <= i < |p.b1| ==> 0.0 <= a.hidden[i] <= ReluCap)
            && (forall i :: 0 <= i < |p.b1| ==>
                  (a.active[i] <==> 0.0 < PreActivation(p, features, i) < ReluCap))
            && (forall i :: 0 <= i < |p.b1| && a.active[i] ==> a.hidden[i] == PreActivation(p, features, i))
            && (forall i :: 0 <= i < |p.b1| && PreActivation(p, features, i) <= 0.0 ==> a.hidden[i] == 0.0)
            && (forall i :: 0 <= i < |p.b1| && PreActivation(p, features, i) >= ReluCap ==> a.hidden[i] == ReluCap)
  {
  }

  /** Skipping the zero hidden values does not change the output: it is the
      full dot product of the hidden layer with `w2`, plus `b2`. */
  lemma ForwardOutput(p: Params, features: seq<int>)
    requires Valid(p) && FeaturesIn(features, |p.w1|)
    ensures var a := Forward(p, features);
            a.output == p.b2 + Dot(a.hidden, p.w2)
  {
    var a := Forward(p, features);
    SkipZeroDotIsDot(a.hidden, p.w2);
  }

  /** `NnueModel.predict`: `b2` plus the full dot product of `w2` with the
      clamped hidden layer, every unit included. */
  function Predict(p: Params, features: seq<int>): (y: real)
    requires Valid(p) && FeaturesIn(features, |p.w1|)
    ensures y == p.b2 + Dot(seq(|p.b1|, i => HiddenAt(p, features, i)), p.w2)
  {
    ForwardOutput(p, features);
    Forward(p, features).output
  }

  /** The inner update loop: subtracts `step` from `w1[idx][i]` once per feature. */
  function SubtractColumn(w1: seq<seq<real>>, features: seq<int>, i: nat, step: real): (w: seq<seq<real>>)
    requires FeaturesIn(features, |w1|) && ColumnsIn(w1, i)
    ensures |w| == |w1|
    ensures forall r :: 0 <= r < |w1| ==> |w[r]| == |w1[r]|
    ensures forall r, c {:trigger w[r][c]} :: 0 <= r < |w1| && 0 <= c < |w1[r]| ==>
              w[r][c] == w1[r][c] - (if c == i then Times(Count(features, r), step) else 0.0)
    decreases |features|
  {
    if |features| == 0 then w1
    else
      var idx := features[0];
      var next := w1[idx := w1[idx][i := w1[idx][i] - step]];
      assert FeaturesIn(features[1..], |next|);
      assert forall r :: 0 <= r < |w1| ==> Count(features, r) == (if r == idx then 1 else 0) + Count(features[1..], r);
      SubtractColumn(next, features[1..], i, step)
  }

  predicate UnitsShaped(w1: seq<seq<real>>, b1: seq<real>, active: seq<bool>, w2old: seq<real>) {
    && |active| == |b1|
    && |w2old| == |b1|
    && forall r :: 0 <= r < |w1| ==> |w1[r]| == |b1|
  }

  /** The step an active unit `c` takes: `lr` times its back-propagated signal
      `grad * w2old[c]`; a clamped unit takes none. */
  function UnitSignal(active: seq<bool>, grad: real, w2old: seq<real>, lr: real, c: nat): real
    requires c < |active| == |w2old|
  {
    if active[c] then lr * (grad * w2old[c]) else 0.0
  }

  /** What the hidden-layer loop started at unit `i` subtracts from `b1[c]`. */
  function UnitStep(active: seq<bool>, grad: real, w2old: seq<real>, lr: real, i: nat, c: nat): real
    requires c < |active| == |w2old|
  {
    if i <= c then UnitSignal(active, grad, w2old, lr, c) else 0.0
  }

  /** The hidden-layer loop of the training step from unit `i` on: each active
      unit with a nonzero back-propagated signal `grad * w2old[c]` updates its
      bias and its column in the sample's feature rows. */
  function BackpropHidden(w1: seq<seq<real>>, b1: seq<real>, features: seq<int>, active: seq<bool>,
                          grad: real, w2old: seq<real>, lr: real, i: nat): (r: (seq<seq<real>>, seq<real>))
    requires UnitsShaped(w1, b1, active, w2old) && FeaturesIn(features, |w1|) && i <= |b1|
    ensures UnitsShaped(r.0, r.1, active, w2old) && |r.0| == |w1|
    decreases |b1| - i
  {
    if i == |b1| then (w1, b1)
    else if !active[i] then BackpropHidden(w1, b1, features, active, grad, w2old, lr, i + 1)
    else
      var g := grad * w2old[i];
      if g == 0.0 then BackpropHidden(w1, b1, features, active, grad, w2old, lr, i + 1)
      else
        var w1' := SubtractColumn(w1, features, i, lr * g);
        BackpropHidden(w1', b1[i := b1[i] - lr * g], features, active, grad, w2old, lr, i + 1)
  }

  /** The hidden-layer loop in closed form: `b1[c]` loses the unit's step once,
      `w1[row][c]` once per occurrence of `row` among the features. */
  lemma {:induction false} BackpropHiddenClosedForm(w1: seq<seq<real>>, b1: seq<real>, features: seq<int>,
                                                    active: seq<bool>, grad: real, w2old: seq<real>, lr: real, i: nat)
    requires UnitsShaped(w1, b1, active, w2old) && FeaturesIn(features, |w1|) && i <= |b1|
    ensures var r := BackpropHidden(w1, b1, features, active, grad, w2old, lr, i);
            && (forall c :: 0 <= c < |b1| ==> r.1[c] == b1[c] - UnitStep(active, grad, w2old, lr, i, c))
            && (forall row, c :: 0 <= row < |w1| && 0 <= c < |b1| ==>
                  r.0[row][c] == w1[row][c] - Times(Count(features, row), UnitStep(active, grad, w2old, lr, i, c)))
    decreases |b1| - i
  {
    var r := BackpropHidden(w1, b1, features, active, grad, w2old, lr, i);
    if i == |b1| {
      forall row | 0 <= row < |w1| {
        TimesZero(Count(features, row));
      }
    } else if !active[i] || grad * w2old[i] == 0.0 {
      BackpropHiddenClosedForm(w1, b1, features, active, grad, w2old, lr, i + 1);
      assert r == BackpropHidden(w1, b1, features, active, grad, w2old, lr, i + 1);
      assert UnitStep(active, grad, w2old, lr, i, i) == 0.0;
      forall row | 0 <= row < |w1| {
        TimesZero(Count(features, row));
      }
      forall c | 0 <= c < |b1| && c != i
        ensures UnitStep(active, grad, w2old, lr, i, c) == UnitStep(active, grad, w2old, lr, i + 1, c)
      {
      }
    } else {
      var step := lr * (grad * w2old[i]);
      var w1' := SubtractColumn(w1, features, i, step);
      var b1' := b1[i := b1[i] - step];
      BackpropHiddenClosedForm(w1', b1', features, active, grad, w2old, lr, i + 1);
      assert r == BackpropHidden(w1', b1', features, active, grad, w2old, lr, i + 1);
      forall c | 0 <= c < |b1|
        ensures r.1[c] == b1[c] - UnitStep(active, grad, w2old, lr, i, c)
      {
        if c != i {
          assert UnitStep(active, grad, w2old, lr, i, c) == UnitStep(active, grad, w2old, lr, i + 1, c);
        }
      }
      forall row, c | 0 <= row < |w1| && 0 <= c < |b1|
        ensures r.0[row][c] == w1[row][c] - Times(Count(features, row), UnitStep(active, grad, w2old, lr, i, c))
      {
        assert r.0[row][c] == w1'[row][c] - Times(Count(features, row), UnitStep(active, grad, w2old, lr, i + 1, c));
        if c != i {
          assert UnitStep(active, grad, w2old, lr, i, c) == UnitStep(active, grad, w2old, lr, i + 1, c);
        } else {
          assert UnitStep(active, grad, w2old, lr, i + 1, c) == 0.0;
          TimesZero(Count(features, row));
          assert UnitStep(active, grad, w2old, lr, i, c) == step;
        }
      }
    }
  }

  datatype Step = Step(params: Params, loss: real)

  /** The output-layer loop: `w2[i] -= lr * grad * hidden[i]` for nonzero hidden values. */
  function UpdateOutputWeights(w2: seq<real>, hidden: seq<real>, scale: real): (w: seq<real>)
    requires |hidden| == |w2|
    ensures |w| == |w2|
    ensures forall i :: 0 <= i < |w2| ==> w[i] == w2[i] - scale * hidden[i]
  {
    seq(|w2|, i requires 0 <= i < |w2| => if hidden[i] != 0.0 then w2[i] - scale * hidden[i] else w2[i])
  }

  /** The parameter update of one step, given the forward pass's `hidden` and
      `active` vectors and the Huber gradient `grad` of the error. */
  function ApplyGradient(p: Params, features: seq<int>, hidden: seq<real>, active: seq<bool>,
                         grad: real, lr: real): (q: Params)
    requires Valid(p) && FeaturesIn(features, |p.w1|) && |hidden| == |active| == |p.b1|
    ensures Shaped(q, |p.w1|, |p.b1|)
    ensures q.b2 == p.b2 - lr * grad
    ensures forall c :: 0 <= c < |p.b1| ==> q.w2[c] == p.w2[c] - lr * grad * hidden[c]
  {
    var w2 := UpdateOutputWeights(p.w2, hidden, lr * grad);
    var hiddenLayer := BackpropHidden(p.w1, p.b1, features, active, grad, p.w2, lr, 0);
    Params(hiddenLayer.0, hiddenLayer.1, w2, p.b2 - lr * grad)
  }

  lemma ApplyGradientHidden(p: Params, features: seq<int>, hidden: seq<real>, active: seq<bool>,
                            grad: real, lr: real)
    requires Valid(p) && FeaturesIn(features, |p.w1|) && |hidden| == |active| == |p.b1|
    ensures var q := ApplyGradient(p, features, hidden, active, grad, lr);
            && (forall c :: 0 <= c < |p.b1| ==>
                  q.b1[c] == p.b1[c] - UnitSignal(active, grad, p.w2, lr, c))
            && (forall r, c :: 0 <= r < |p.w1| && 0 <= c < |p.b1| ==>
                  q.w1[r][c] == p.w1[r][c] - Times(Count(features, r), UnitSignal(active, grad, p.w2, lr, c)))
  {
    BackpropHiddenClosedForm(p.w1, p.b1, features, active, grad, p.w2, lr, 0);
  }

  /** The training step once the forward pass `a` is known: the Huber
      gradient of the error drives the parameter update. */
  function StepFrom(p: Params, features: seq<int>, a: Activation, labelCp: real, lr: real, delta: real): (s: Step)
    requires Valid(p) && FeaturesIn(features, |p.w1|) && |a.hidden| == |a.active| == |p.b1|
    ensures Shaped(s.params, |p.w1|, |p.b1|)
    ensures delta >= 0.0 ==> s.loss >= 0.0
  {
    var error := a.output - labelCp;
    Step(ApplyGradient(p, features, a.hidden, a.active, HuberGrad(error, delta), lr), HuberLoss(error, delta))
  }

  /** `NnueModel.train_sample`: forward, Huber gradient of the error, output
      layer update, then hidden-layer update driven by the PRE-update `w2`. */
  function TrainSample(p: Params, features: seq<int>, labelCp: real, lr: real, delta: real): (s: Step)
    requires Valid(p) && FeaturesIn(features, |p.w1|)
    ensures Shaped(s.params, |p.w1|, |p.b1|)
    ensures delta >= 0.0 ==> s.loss >= 0.0
  {
    StepFrom(p, features, Forward(p, features), labelCp, lr, delta)
  }

  /** The sparsity frame of the update: rows of `w1` for inputs absent from
      `features` keep their values, and so do the bias and the `w1` column of
      every inactive unit. */
  lemma ApplyGradientFrame(p: Params, features: seq<int>, hidden: seq<real>, active: seq<bool>,
                           grad: real, lr: real)
    requires Valid(p) && FeaturesIn(features, |p.w1|) && |hidden| == |active| == |p.b1|
    ensures var q := ApplyGradient(p, features, hidden, active, grad, lr);
            && (forall r :: 0 <= r < |p.w1| && r !in features ==> q.w1[r] == p.w1[r])
            && (forall c :: 0 <= c < |p.b1| && !active[c] ==> q.b1[c] == p.b1[c])
            && (forall r, c :: 0 <= r < |p.w1| && 0 <= c < |p.b1| && !active[c] ==> q.w1[r][c] == p.w1[r][c])
  {
    var q := ApplyGradient(p, features, hidden, active, grad, lr);
    ApplyGradientHidden(p, features, hidden, active, grad, lr);
    forall r | 0 <= r < |p.w1| {
      TimesZero(Count(features, r));
    }
    forall r | 0 <= r < |p.w1| && r !in features
      ensures q.w1[r] == p.w1[r]
    {
      CountZeroNotIn(features, r);
      forall c | 0 <= c < |p.b1|
        ensures q.w1[r][c] == p.w1[r][c]
      {
        var unit := UnitSignal(active, grad, p.w2, lr, c);
        assert q.w1[r][c] == p.w1[r][c] - Times(Count(features, r), unit);
        assert Times(0, unit) == 0.0;
      }
    }
  }

  /** One step reports the Huber loss of the forward pass's error. */
  lemma TrainSampleLoss(p: Params, features: seq<int>, labelCp: real, lr: real, delta: real)
    requires Valid(p) && FeaturesIn(features, |p.w1|)
    ensures TrainSample(p, features, labelCp, lr, delta).loss
            == HuberLoss(Forward(p, features).output - labelCp, delta)
  {
  }

  /** The output layer of one step: `b2` and every `w2[c]` move against the
      Huber gradient of the error, `w2[c]` in proportion to hidden value `c`. */
  lemma TrainSampleOutputLayer(p: Params, features: seq<int>, labelCp: real, lr: real, delta: real)
    requires Valid(p) && FeaturesIn(features, |p.w1|)
    ensures var s := TrainSample(p, features, labelCp, lr, delta);
            var a := Forward(p, features);
            var grad := HuberGrad(a.output - labelCp, delta);
            && s.params.b2 == p.b2 - lr * grad
            && forall c :: 0 <= c < |p.b1| ==> s.params.w2[c] == p.w2[c] - lr * grad * a.hidden[c]
  {
    var a := Forward(p, features);
    var grad := HuberGrad(a.output - labelCp, delta);
    assert TrainSample(p, features, labelCp, lr, delta) == StepFrom(p, features, a, labelCp, lr, delta);
  }

  /** The hidden biases after one step. The signal of unit `c` is
      `grad * p.w2[c]`, with `p.w2` the weights from BEFORE this step's own
      `w2` update; only active units move. */
  lemma TrainSampleHiddenBias(p: Params, features: seq<int>, labelCp: real, lr: real, delta: real)
    requires Valid(p) && FeaturesIn(features, |p.w1|)
    ensures var s := TrainSample(p, features, labelCp, lr, delta);
            var a := Forward(p, features);
            var grad := HuberGrad(a.output - labelCp, delta);
            forall c :: 0 <= c < |p.b1| ==>
              s.params.b1[c] == p.b1[c] - UnitSignal(a.active, grad, p.w2, lr, c)
  {
    var a := Forward(p, features);
    var grad := HuberGrad(a.output - labelCp, delta);
    assert TrainSample(p, features, labelCp, lr, delta) == StepFrom(p, features, a, labelCp, lr, delta);
    ApplyGradientHidden(p, features, a.hidden, a.active, grad, lr);
  }

  /** The sparse weights after one step: `w1[r][c]` moves by the unit's step
      once per occurrence of input `r` in the sample, and only for active `c`. */
  lemma TrainSampleHiddenWeights(p: Params, features: seq<int>, labelCp: real, lr: real, delta: real)
    requires Valid(p) && FeaturesIn(features, |p.w1|)
    ensures var s := TrainSample(p, features, labelCp, lr, delta);
            var a := Forward(p, features);
            var grad := HuberGrad(a.output - labelCp, delta);
            forall r, c :: 0 <= r < |p.w1| && 0 <= c < |p.b1| ==>
              s.params.w1[r][c] == p.w1[r][c] - Times(Count(features, r), UnitSignal(a.active, grad, p.w2, lr, c))
  {
    var a := Forward(p, features);
    var grad := HuberGrad(a.output - labelCp, delta);
    var q := ApplyGradient(p, features, a.hidden, a.active, grad, lr);
    assert TrainSample(p, features, labelCp, lr, delta).params == q;
    ApplyGradientHidden(p, features, a.hidden, a.active, grad, lr);
  }

  /** `train_sample` never touches a `w1` row whose input is absent from the sample. */
  lemma TrainSampleKeepsAbsentRows(p: Params, features: seq<int>, labelCp: real, lr: real, delta: real)
    requires Valid(p) && FeaturesIn(features, |p.w1|)
    ensures var s := TrainSample(p, features, labelCp, lr, delta);
            forall r :: 0 <= r < |p.w1| && r !in features ==> s.params.w1[r] == p.w1[r]
  {
    var a := Forward(p, features);
    var grad := HuberGrad(a.output - labelCp, delta);
    assert TrainSample(p, features, labelCp, lr, delta) == StepFrom(p, features, a, labelCp, lr, delta);
    ApplyGradientFrame(p, features, a.hidden, a.active, grad, lr);
  }

  /** A clamped unit (inactive after `forward`) keeps its bias and its `w1` column. */
  lemma TrainSampleKeepsInactiveUnits(p: Params, features: seq<int>, labelCp: real, lr: real, delta: real)
    requires Valid(p) && FeaturesIn(features, |p.w1|)
    ensures var s := TrainSample(p, features, labelCp, lr, delta);
            var a := Forward(p, features);
            forall c :: 0 <= c < |p.b1| && !a.active[c] ==>
              s.params.b1[c] == p.b1[c] && forall r :: 0 <= r < |p.w1| ==> s.params.w1[r][c] == p.w1[r][c]
  {
    var a := Forward(p, features);
    var grad := HuberGrad(a.output - labelCp, delta);
    assert TrainSample(p, features, labelCp, lr, delta) == StepFrom(p, features, a, labelCp, lr, delta);
    ApplyGradientFrame(p, features, a.hidden, a.active, grad, lr);
  }
}
