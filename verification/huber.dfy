/** The robust regression loss of the trainer and its gradient with respect to
    the prediction error. Quadratic inside the band |e| <= delta, linear outside. */
module Huber {

  function Abs(x: real): real {
    if x < 0.0 then -x else x
  }

  function Clamp(x: real, lo: real, hi: real): real {
    if x < lo then lo else if x > hi then hi else x
  }

  /** `huber_loss`. */
  function HuberLoss(e: real, delta: real): (l: real)
    ensures delta >= 0.0 ==> l >= 0.0
    ensures delta >= 0.0 ==> l <= e * e / 2.0
  {
    if Abs(e) <= delta then 0.5 * e * e else delta * (Abs(e) - 0.5 * delta)
  }

  /** `huber_grad`: the error itself inside the band, clipped to +-delta outside. */
  function HuberGrad(e: real, delta: real): (g: real)
    ensures delta >= 0.0 ==> Abs(g) <= delta
    ensures delta >= 0.0 ==> Abs(g) <= Abs(e)
    ensures g == e || g == delta || g == -delta
  {
    if Abs(e) <= delta then e else if e > 0.0 then delta else -delta
  }

  /** For a non-negative delta the gradient is the error clamped to [-delta, delta]. */
  lemma GradIsClampedError(e: real, delta: real)
    requires delta >= 0.0
    ensures HuberGrad(e, delta) == Clamp(e, -delta, delta)
  {
  }

  /** The loss is recovered from its gradient, for every delta:
      loss = g * e - g^2 / 2 (the convex-conjugate form of the Huber loss). */
  lemma LossFromGrad(e: real, delta: real)
    ensures HuberLoss(e, delta) == HuberGrad(e, delta) * e - HuberGrad(e, delta) * HuberGrad(e, delta) / 2.0
  {
  }

  lemma LossSymmetric(e: real, delta: real)
    ensures HuberLoss(-e, delta) == HuberLoss(e, delta)
  {
  }

  lemma GradOdd(e: real, delta: real)
    requires delta >= 0.0
    ensures HuberGrad(-e, delta) == -HuberGrad(e, delta)
  {
  }

  /** The two branches of the loss meet at the band edge. */
  lemma BranchesAgree(e: real, delta: real)
    requires Abs(e) == delta
    ensures 0.5 * e * e == delta * (Abs(e) - 0.5 * delta)
  {
  }

  /** A larger error never has a smaller loss. */
  lemma LossMonotone(e1: real, e2: real, delta: real)
    requires delta >= 0.0 && Abs(e1) <= Abs(e2)
    ensures HuberLoss(e1, delta) <= HuberLoss(e2, delta)
  {
    if Abs(e2) <= delta {
      assert e1 * e1 == Abs(e1) * Abs(e1) && e2 * e2 == Abs(e2) * Abs(e2);
      MulMonotone(Abs(e1), Abs(e2));
    } else if Abs(e1) > delta {
      MulLeft(delta, Abs(e1), Abs(e2));
    } else {
      // 0.5 * e1^2 <= 0.5 * delta^2 <= delta * (|e2| - delta / 2)
      assert e1 * e1 == Abs(e1) * Abs(e1);
      MulMonotone(Abs(e1), delta);
      assert HuberLoss(e1, delta) == 0.5 * e1 * e1 <= 0.5 * (delta * delta);
      MulLeft(delta, delta, Abs(e2));
      assert HuberLoss(e2, delta) == delta * Abs(e2) - 0.5 * (delta * delta);
    }
  }

  lemma MulMonotone(a: real, b: real)
    requires 0.0 <= a <= b
    ensures a * a <= b * b
  {
  }

  lemma MulLeft(c: real, a: real, b: real)
    requires c >= 0.0 && a <= b
    ensures c * a <= c * b
  {
  }

  lemma GradExamples()
    ensures HuberGrad(50.0, 100.0) == 50.0
    ensures HuberGrad(150.0, 100.0) == 100.0
    ensures HuberGrad(-150.0, 100.0) == -100.0
    ensures HuberLoss(150.0, 100.0) == 10000.0
  {
  }
}
