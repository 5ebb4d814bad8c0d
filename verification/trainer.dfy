/** The training part of `main`: epochs of online steps over the training
    samples, the validation loss after each epoch, early stopping over those
    losses, and the restoration of the best epoch's parameters. Since an
    epoch's parameters depend only on the parameters before it, the loss of
    every epoch is a well-defined value whether or not the loop gets there;
    the early-stopping fold decides how many of them are looked at. */
module Trainer {
  import opened Wrappers
  import opened Dataset
  import opened Network
  import opened Metrics
  import opened EarlyStopping

  datatype Hyper = Hyper(epochs: int, lr: real, delta: real, minEpochs: int, patience: int)

  /** `range(args.epochs)` has no element for a negative count. */
  function Epochs(h: Hyper): nat {
    if h.epochs > 0 then h.epochs else 0
  }

  /** One pass of `train_sample` over the training samples in order; the
      loss is `total_loss`. */
  function Epoch(p: Params, train: seq<Sample>, lr: real, delta: real): (r: Step)
    requires Valid(p) && AllFeaturesIn(train, |p.w1|)
    ensures Shaped(r.params, |p.w1|, |p.b1|)
    ensures delta >= 0.0 ==> r.loss >= 0.0
    decreases |train|
  {
    if |train| == 0 then Step(p, 0.0)
    else
      var first := TrainSample(p, train[0].features, train[0].labelCp, lr, delta);
      assert forall k :: 0 <= k < |train[1..]| ==> train[1..][k] == train[k + 1];
      var rest := Epoch(first.params, train[1..], lr, delta);
      Step(rest.params, first.loss + rest.loss)
  }

  /** The parameters after `k` epochs. */
  function ParamsAfter(p: Params, train: seq<Sample>, k: nat, h: Hyper): (q: Params)
    requires Valid(p) && AllFeaturesIn(train, |p.w1|)
    ensures Shaped(q, |p.w1|, |p.b1|)
  {
    if k == 0 then p else Epoch(ParamsAfter(p, train, k - 1, h), train, h.lr, h.delta).params
  }

  /** `val_loss` after epoch index `k`. */
  function ValLossAt(p: Params, train: seq<Sample>, val: seq<Sample>, k: nat, h: Hyper): real
    requires Valid(p) && AllFeaturesIn(train, |p.w1|) && AllFeaturesIn(val, |p.w1|)
  {
    Evaluate(ParamsAfter(p, train, k + 1, h), val, h.delta)
  }

  /** `val_loss` of every epoch `range(args.epochs)` would run. */
  function ValLosses(p: Params, train: seq<Sample>, val: seq<Sample>, h: Hyper): (ls: seq<real>)
    requires Valid(p) && AllFeaturesIn(train, |p.w1|) && AllFeaturesIn(val, |p.w1|)
    ensures |ls| == Epochs(h)
    ensures forall k :: 0 <= k < |ls| ==> ls[k] == ValLossAt(p, train, val, k, h)
  {
    seq(Epochs(h), k requires 0 <= k < Epochs(h) && Valid(p) && AllFeaturesIn(train, |p.w1|) && AllFeaturesIn(val, |p.w1|) =>
      ValLossAt(p, train, val, k, h))
  }

  /** One `history` entry: the 1-based epoch, `train_loss` and `val_loss`. */
  datatype EpochLog = EpochLog(epoch: nat, trainLoss: real, valLoss: real)

  /** `total_loss / max(1, len(train))` of epoch index `k`. */
  function TrainLoss(p: Params, train: seq<Sample>, k: nat, h: Hyper): real
    requires Valid(p) && AllFeaturesIn(train, |p.w1|)
  {
    var n := if |train| > 0 then |train| else 1;
    Epoch(ParamsAfter(p, train, k, h), train, h.lr, h.delta).loss / (n as real)
  }

  function History(p: Params, train: seq<Sample>, val: seq<Sample>, h: Hyper, run: nat): (hs: seq<EpochLog>)
    requires Valid(p) && AllFeaturesIn(train, |p.w1|) && AllFeaturesIn(val, |p.w1|)
    requires run <= Epochs(h)
    ensures |hs| == run
  {
    var losses := ValLosses(p, train, val, h);
    seq(run, k requires 0 <= k < run && Valid(p) && AllFeaturesIn(train, |p.w1|) =>
      EpochLog(k + 1, TrainLoss(p, train, k, h), losses[k]))
  }

  /** A feature index outside `w1` makes `forward` raise on the first epoch. */
  datatype TrainError = IndexOutOfRange

  /** The parameters written out, `best_epoch`, `best_val` (`None` for the
      initial infinity), the number of epochs run, and `history`. */
  datatype Trained = Trained(params: Params, bestEpoch: nat, bestVal: Option<real>, epochsRun: nat, history: seq<EpochLog>)

  /** The training loop of `main`, from the initial parameters `p`. */
  function Train(p: Params, train: seq<Sample>, val: seq<Sample>, h: Hyper): (r: Result<Trained, TrainError>)
    requires Valid(p)
    ensures r.Ok? ==> Shaped(r.value.params, |p.w1|, |p.b1|)
    ensures r.Ok? ==> r.value.epochsRun <= Epochs(h) && |r.value.history| == r.value.epochsRun
  {
    if Epochs(h) == 0 then Ok(Trained(p, 0, None, 0, []))
    else if !(AllFeaturesIn(train, |p.w1|) && AllFeaturesIn(val, |p.w1|)) then Err(IndexOutOfRange)
    else
      var losses := ValLosses(p, train, val, h);
      var st := Run(losses, Settings(h.patience, h.minEpochs));
      var final := if st.bestEpoch > 0 then ParamsAfter(p, train, st.bestEpoch, h)
                   else ParamsAfter(p, train, st.epochsRun, h);
      RunExplained(losses, Settings(h.patience, h.minEpochs));
      Ok(Trained(final, st.bestEpoch, st.best, st.epochsRun, History(p, train, val, h, st.epochsRun)))
  }

  /** Training fails exactly when some epoch runs and some sample names an
      input outside `w1`. */
  lemma TrainErrors(p: Params, train: seq<Sample>, val: seq<Sample>, h: Hyper)
    requires Valid(p)
    ensures Train(p, train, val, h).Err? <==>
              Epochs(h) > 0 && exists s :: s in train + val && !FeaturesIn(s.features, |p.w1|)
  {
    if !(AllFeaturesIn(train, |p.w1|) && AllFeaturesIn(val, |p.w1|)) {
      if !AllFeaturesIn(train, |p.w1|) {
        var k :| 0 <= k < |train| && !FeaturesIn(train[k].features, |p.w1|);
        assert train[k] in train + val;
      } else {
        var k :| 0 <= k < |val| && !FeaturesIn(val[k].features, |p.w1|);
        assert val[k] == (train + val)[|train| + k];
      }
    } else {
      forall s | s in train + val ensures FeaturesIn(s.features, |p.w1|) {
        var k :| 0 <= k < |train + val| && (train + val)[k] == s;
        if k < |train| {
          assert s == train[k];
        } else {
          assert s == val[k - |train|];
        }
      }
    }
  }

  /** After at least one epoch, the parameters written out are those of the
      best epoch, which is the earliest epoch with the smallest validation
      loss among the epochs run, and the reported best loss is the
      validation loss of the written parameters. */
  lemma TrainRestoresBest(p: Params, train: seq<Sample>, val: seq<Sample>, h: Hyper)
    requires Valid(p) && AllFeaturesIn(train, |p.w1|) && AllFeaturesIn(val, |p.w1|)
    requires Epochs(h) > 0
    ensures var r := Train(p, train, val, h);
            var losses := ValLosses(p, train, val, h);
            && r.Ok?
            && 1 <= r.value.bestEpoch <= r.value.epochsRun
            && r.value.params == ParamsAfter(p, train, r.value.bestEpoch, h)
            && EarliestMin(losses[..r.value.epochsRun], r.value.bestEpoch - 1)
            && r.value.bestVal == Some(Evaluate(r.value.params, val, h.delta))
  {
    var losses := ValLosses(p, train, val, h);
    var st := Run(losses, Settings(h.patience, h.minEpochs));
    RunBest(losses, Settings(h.patience, h.minEpochs));
    TrainUnfold(p, train, val, h);
    var r := Train(p, train, val, h);
    var best := ParamsAfter(p, train, st.bestEpoch, h);
    assert r.value.params == best && r.value.bestEpoch == st.bestEpoch && r.value.epochsRun == st.epochsRun;
    assert r.value.bestVal == Some(losses[st.bestEpoch - 1]);
    assert losses[st.bestEpoch - 1] == ValLossAt(p, train, val, st.bestEpoch - 1, h);
  }

  /** Every epoch run has one history entry, numbered from 1, carrying its
      validation loss and a non-negative training loss when `delta` is. */
  lemma TrainHistory(p: Params, train: seq<Sample>, val: seq<Sample>, h: Hyper)
    requires Valid(p) && AllFeaturesIn(train, |p.w1|) && AllFeaturesIn(val, |p.w1|)
    requires Epochs(h) > 0
    ensures var r := Train(p, train, val, h);
            var losses := ValLosses(p, train, val, h);
            && r.Ok?
            && (forall k :: 0 <= k < r.value.epochsRun ==>
                  && r.value.history[k].epoch == k + 1
                  && r.value.history[k].valLoss == losses[k]
                  && (h.delta >= 0.0 ==> r.value.history[k].trainLoss >= 0.0))
  {
    TrainUnfold(p, train, val, h);
    forall k | 0 <= k < Train(p, train, val, h).value.epochsRun && h.delta >= 0.0
      ensures Train(p, train, val, h).value.history[k].trainLoss >= 0.0
    {
      TrainLossNonNegative(p, train, k, h);
    }
  }

  /** The successful result in terms of the early-stopping state. */
  lemma TrainUnfold(p: Params, train: seq<Sample>, val: seq<Sample>, h: Hyper)
    requires Valid(p) && AllFeaturesIn(train, |p.w1|) && AllFeaturesIn(val, |p.w1|)
    requires Epochs(h) > 0
    ensures var losses := ValLosses(p, train, val, h);
            var st := Run(losses, Settings(h.patience, h.minEpochs));
            && 1 <= st.bestEpoch <= st.epochsRun <= Epochs(h)
            && Train(p, train, val, h) ==
                 Ok(Trained(ParamsAfter(p, train, st.bestEpoch, h), st.bestEpoch, st.best, st.epochsRun,
                            History(p, train, val, h, st.epochsRun)))
  {
    RunBest(ValLosses(p, train, val, h), Settings(h.patience, h.minEpochs));
  }

  /** With no epoch the initial parameters are written and no best epoch is reported. */
  lemma NoEpochKeepsInitial(p: Params, train: seq<Sample>, val: seq<Sample>, h: Hyper)
    requires Valid(p) && Epochs(h) == 0
    ensures Train(p, train, val, h) == Ok(Trained(p, 0, None, 0, []))
  {
  }

  /** Every recorded training loss is non-negative for a non-negative delta. */
  lemma TrainLossNonNegative(p: Params, train: seq<Sample>, k: nat, h: Hyper)
    requires Valid(p) && AllFeaturesIn(train, |p.w1|) && h.delta >= 0.0
    ensures TrainLoss(p, train, k, h) >= 0.0
  {
  }
}
