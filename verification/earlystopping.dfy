/** The epoch loop of `main` as a left fold over the validation losses of
    the successive epochs. A strictly smaller loss than the best so far
    makes its epoch the best one and refills the patience; any other loss,
    once at least `minEpochs` epochs have run, spends one unit of patience,
    and the loop breaks as soon as the patience is at or below zero. */
module EarlyStopping {
  import opened Wrappers

  datatype Settings = Settings(patience: int, minEpochs: int)

  /** `best_val` (`None` is the initial infinity), `best_epoch` (1-based, 0
      before any epoch improved), `patience_left`, the number of epochs run,
      and whether the loop has broken out. */
  datatype State = State(best: Option<real>, bestEpoch: nat, patienceLeft: int, epochsRun: nat, stopped: bool)

  function Start(cfg: Settings): State {
    State(None, 0, cfg.patience, 0, false)
  }

  /** `val_loss < best_val`. */
  predicate Improves(st: State, loss: real) {
    st.best.None? || loss < st.best.value
  }

  /** The loop body of epoch index `epoch` once its validation loss is known;
      after the break nothing changes. */
  function Observe(st: State, epoch: nat, loss: real, cfg: Settings): (next: State)
    ensures st.stopped ==> next == st
    ensures !st.stopped ==> next.epochsRun == epoch + 1
  {
    if st.stopped then st
    else if Improves(st, loss) then
      State(Some(loss), epoch + 1, cfg.patience, epoch + 1, false)
    else if epoch + 1 >= cfg.minEpochs then
      var left := st.patienceLeft - 1;
      State(st.best, st.bestEpoch, left, epoch + 1, left <= 0)
    else
      State(st.best, st.bestEpoch, st.patienceLeft, epoch + 1, false)
  }

  /** The loop over `losses`, one validation loss per epoch of `range(epochs)`.
      It runs every epoch unless it breaks, which it does only with the
      patience spent; a best epoch exists once an epoch has run, and it is
      one of the epochs run. */
  function Run(losses: seq<real>, cfg: Settings): (st: State)
    ensures st.epochsRun <= |losses|
    ensures !st.stopped ==> st.epochsRun == |losses|
    ensures st.stopped ==> st.epochsRun >= 1 && st.patienceLeft <= 0
    ensures st.best.Some? <==> st.epochsRun >= 1
    ensures st.best.Some? <==> 1 <= st.bestEpoch
    ensures st.bestEpoch <= st.epochsRun
    decreases |losses|
  {
    if |losses| == 0 then Start(cfg)
    else Observe(Run(losses[..|losses| - 1], cfg), |losses| - 1, losses[|losses| - 1], cfg)
  }

  /** Reference: `b` is the earliest position of the smallest loss of `ls`. */
  predicate EarliestMin(ls: seq<real>, b: int) {
    && 0 <= b < |ls|
    && (forall k :: 0 <= k < |ls| ==> ls[b] <= ls[k])
    && (forall k :: 0 <= k < b ==> ls[b] < ls[k])
  }

  /** Reference: after `k` epochs with best epoch `best` (1-based), the number
      of epochs since the best one that were past the minimum, each of which
      spent one unit of patience. */
  function Stale(k: nat, best: nat, minEpochs: int): nat {
    var from := if best >= minEpochs - 1 then best else minEpochs - 1;
    if k > from then k - from else 0
  }

  /** What the loop has done after seeing `ls`, stated without the loop: it
      ran every epoch unless it stopped; the best epoch is the earliest
      minimum of the epochs run; the patience left is the patience less one
      per stale epoch; and it stopped exactly when the last epoch run did not
      improve, was past the minimum and left no patience. */
  predicate Explains(ls: seq<real>, st: State, cfg: Settings) {
    && st.epochsRun <= |ls|
    && (!st.stopped ==> st.epochsRun == |ls|)
    && (st.epochsRun == 0 ==> st.best.None? && st.bestEpoch == 0 && st.patienceLeft == cfg.patience)
    && (st.epochsRun > 0 ==>
          && 1 <= st.bestEpoch <= st.epochsRun
          && EarliestMin(ls[..st.epochsRun], st.bestEpoch - 1)
          && st.best == Some(ls[st.bestEpoch - 1])
          && st.patienceLeft == cfg.patience - Stale(st.epochsRun, st.bestEpoch, cfg.minEpochs))
    && (st.stopped <==>
          st.epochsRun > 0 && st.bestEpoch < st.epochsRun && st.epochsRun >= cfg.minEpochs && st.patienceLeft <= 0)
  }

  lemma {:induction false} RunExplained(ls: seq<real>, cfg: Settings)
    ensures Explains(ls, Run(ls, cfg), cfg)
    decreases |ls|
  {
    if |ls| > 0 {
      var n := |ls|;
      var init := ls[..n - 1];
      RunExplained(init, cfg);
      var prev := Run(init, cfg);
      if prev.stopped {
        assert init[..prev.epochsRun] == ls[..prev.epochsRun];
      } else {
        StepExplained(ls, prev, cfg);
      }
    }
  }

  /** One more epoch keeps the description true. */
  lemma StepExplained(ls: seq<real>, prev: State, cfg: Settings)
    requires |ls| > 0 && !prev.stopped
    requires Explains(ls[..|ls| - 1], prev, cfg)
    ensures Explains(ls, Observe(prev, |ls| - 1, ls[|ls| - 1], cfg), cfg)
  {
    var n := |ls|;
    var init := ls[..n - 1];
    var loss := ls[n - 1];
    var next := Observe(prev, n - 1, loss, cfg);
    assert ls[..n] == ls;
    assert forall k :: 0 <= k < n - 1 ==> init[k] == ls[k];
    if Improves(prev, loss) {
      assert EarliestMin(ls, n - 1);
    } else {
      assert EarliestMin(ls, prev.bestEpoch - 1);
    }
  }

  /** With at least one epoch, some epoch runs and the best one is the
      earliest minimum of those run. */
  lemma RunBest(ls: seq<real>, cfg: Settings)
    requires |ls| > 0
    ensures var st := Run(ls, cfg);
            && 1 <= st.bestEpoch <= st.epochsRun <= |ls|
            && EarliestMin(ls[..st.epochsRun], st.bestEpoch - 1)
            && st.best == Some(ls[st.bestEpoch - 1])
  {
    RunExplained(ls, cfg);
  }

  /** Once the loop has broken out, later epochs are never run: the state
      after a prefix that stopped is the final state. */
  lemma {:induction false} StoppedIsFinal(ls: seq<real>, k: nat, cfg: Settings)
    requires k <= |ls| && Run(ls[..k], cfg).stopped
    ensures Run(ls, cfg) == Run(ls[..k], cfg)
    decreases |ls| - k
  {
    if k < |ls| {
      var longer := ls[..k + 1];
      assert longer[..k] == ls[..k];
      assert Run(longer, cfg) == Run(ls[..k], cfg);
      StoppedIsFinal(ls, k + 1, cfg);
    } else {
      assert ls[..k] == ls;
    }
  }

  /** The loop stops at the first exhausted epoch: every shorter prefix of the
      epochs it ran had not stopped. */
  lemma RunStopsFirst(ls: seq<real>, k: nat, cfg: Settings)
    requires k <= |ls| && k < Run(ls, cfg).epochsRun
    ensures !Run(ls[..k], cfg).stopped
  {
    if Run(ls[..k], cfg).stopped {
      StoppedIsFinal(ls, k, cfg);
      RunExplained(ls[..k], cfg);
    }
  }

  /** With patience 2 and every epoch counted, the fourth epoch exhausts the
      patience two epochs after the best one; with a floor of 5 epochs the
      same losses run to the end and the fifth epoch is best. */
  lemma RunExample()
    ensures var st := Run([5.0, 4.0, 4.0, 4.0, 3.0], Settings(2, 1));
            st.stopped && st.epochsRun == 4 && st.bestEpoch == 2 && st.best == Some(4.0)
    ensures var st := Run([5.0, 4.0, 4.0, 4.0, 3.0], Settings(2, 5));
            !st.stopped && st.epochsRun == 5 && st.bestEpoch == 5 && st.best == Some(3.0)
  {
    var ls := [5.0, 4.0, 4.0, 4.0, 3.0];
    assert ls[..4] == [5.0, 4.0, 4.0, 4.0];
    assert ls[..4][..3] == [5.0, 4.0, 4.0];
    assert ls[..4][..3][..2] == [5.0, 4.0];
    assert ls[..4][..3][..2][..1] == [5.0];
    assert ls[..4][..3][..2][..1][..0] == [];
    var every := Settings(2, 1);
    assert Run([5.0], every) == State(Some(5.0), 1, 2, 1, false);
    assert Run([5.0, 4.0], every) == State(Some(4.0), 2, 2, 2, false);
    assert Run([5.0, 4.0, 4.0], every) == State(Some(4.0), 2, 1, 3, false);
    assert Run([5.0, 4.0, 4.0, 4.0], every) == State(Some(4.0), 2, 0, 4, true);
    var floor := Settings(2, 5);
    assert Run([5.0], floor) == State(Some(5.0), 1, 2, 1, false);
    assert Run([5.0, 4.0], floor) == State(Some(4.0), 2, 2, 2, false);
    assert Run([5.0, 4.0, 4.0], floor) == State(Some(4.0), 2, 2, 3, false);
    assert Run([5.0, 4.0, 4.0, 4.0], floor) == State(Some(4.0), 2, 2, 4, false);
  }
}
