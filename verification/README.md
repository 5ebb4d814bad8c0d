# NNUE trainer — a Dafny model

This project models the core of `scripts/nnue/train_nnue.py`, the script that
trains a small NNUE evaluation network for the chess engine.

It covers:

- **Position encoding** (`feature_index`, `fen_to_features`). Every piece of
  a position string becomes one of 768 input indices: colour plane, piece
  type and square, with black's ranks mirrored.
- **Sample loading** (`load_samples`, `load_timeout_map`,
  `load_engine_color`). Each dataset row is filtered in a fixed order:
  - missing run id
  - missing per-run summary
  - timed-out game
  - row near a timeout
  - mate or missing evaluation

  A surviving row is signed from the engine's side and encoded. The loop
  stops at the sample cap. The kept samples are shuffled with a seeded
  generator, and the label statistics are taken over them.
- **The split by game** (`split_by_game`). The distinct game ids are sorted,
  shuffled and cut at 90%. Samples of the games before the cut train; all
  others validate.
- **The network** (`NnueModel.forward`, `train_sample`, `huber_loss`,
  `huber_grad`). The forward pass uses a sparse first layer and a ReLU
  clamped to [0, 127]. One online gradient step uses the Huber gradient and
  back-propagates through the pre-update output weights.
- **Monitoring** (`evaluate`, `eval_cp16_diff`). Both report 0 on an empty
  list.
- **The epoch loop of `main`**. It tracks the best validation loss, spends
  patience past the epoch floor, stops early, and restores the best epoch's
  parameters.
- **The weight file** (`write_snnue`). The layout is the magic `SNN1`, four
  little-endian u16 header fields, then every parameter as a 4-byte float.
  The write is followed by a check of the total length.

Modules follow the program's structure:

- `Text`: the Python string operations the encoder needs.
- `Features`: the encoder.
- `Huber`: the loss and its gradient.
- `Network`: forward pass and training step.
- `Dataset`: the sample record.
- `LabelStats`: the label statistics.
- `Shuffle`: `random.shuffle` as Fisher–Yates over an abstract stream of draws.
- `Loader`: the sample loader.
- `Split`: the split by game.
- `Metrics`: `evaluate` and `eval_cp16_diff`.
- `EarlyStopping`: the epoch loop's bookkeeping.
- `Trainer`: the epoch loop over the network.
- `WeightFile`: the weight file.
- `Wrappers`, `Arith` and `Seqs`: small shared helpers.

Some inputs are taken as values:

- **Files and JSON.** The model takes already-parsed rows, summaries and
  annotation records as values.
- **Randomness.** The seeded generator becomes a function
  `draw: nat -> nat`. Step `i` of a shuffle swaps position `i` with
  `draw(i) % (i + 1)`.
- **Initial weights.** The initial random weights are a parameter.
- **Float packing.** Packing a float into 4 bytes is a parameter
  `enc: real -> Cell`.
- **Numbers.** All weights and losses are reals.

### Where the model follows the code

- **Missing per-run summary.** A run's rows are skipped as lacking a
  summary when the file is missing, and also when its entries form no map.
  That includes a summary that lists no complete entry, because of
  `load_timeout_map_for_run(...) or {}` followed by `== {}`
  (`Loader.SummaryMissingExactly`).
- **Size mismatch.** On a size mismatch the weight file has already been
  written and stays on disk. `WriteError.SizeMismatch` carries the bytes
  written.
- **What the length check compares.** The check compares the total length
  only. It is computed from the declared sizes, not from the lengths of
  `w1`, `b1` and `w2` (see Findings).
- **Rank width.** `fen_to_features` does not check that a rank spans at
  most 8 files. The encoder's in-range and distinctness guarantees are
  stated under that hypothesis (`Features.RanksFit`).
- **Clamped hidden units.** A hidden unit clamped at 127 is inactive: it
  gets no gradient. It still contributes to the output.
- **Engine colours.** The valid engine colours are the strings `"w"` and
  `"b"`.
- **Sample cap.** `if max_samples and ...` treats a cap of 0 as no cap. It
  stops after the first sample for a negative cap.
- **Patience.** The patience test is `<= 0`. A patience of 0 or less stops
  at the first non-improving epoch past the floor.

## Model

| member | source | states |
|---|---|---|
| Text.DigitValue | scripts/nnue/train_nnue.py:120-121 | the value of a digit character is below 10 and names that character |
| Text.Lower | scripts/nnue/train_nnue.py:101 | lower-casing yields no upper-case letter and leaves other characters alone |
| Text.Split | scripts/nnue/train_nnue.py:112 | `split("/")` yields one more part than there are separators, none containing the separator |
| Text.JoinSplit | scripts/nnue/train_nnue.py:112 | gluing the parts back with `/` gives the original text |
| Text.TrimStart | scripts/nnue/train_nnue.py:111 | the leading characters removed are all whitespace in the sense of `str.isspace` (ASCII and the Unicode separators `split()` uses) and what is left is a suffix not starting with it |
| Text.Token | scripts/nnue/train_nnue.py:111 | the first token is a whitespace-free prefix ending at whitespace or the end |
| Text.FirstField | scripts/nnue/train_nnue.py:111 | `split()[0]` fails exactly on a blank string; otherwise it is a nonempty whitespace-free prefix of the trimmed text |
| Features.KindIndex | scripts/nnue/train_nnue.py:18-25 | every piece type has an index below 6 |
| Features.KindOfIndex | scripts/nnue/train_nnue.py:18-25 | the index table is onto 0..5: each index names a type whose index it is |
| Features.PieceOfChar | scripts/nnue/train_nnue.py:100-101 | a character that names a piece is that piece's letter |
| Features.PieceChars | scripts/nnue/train_nnue.py:18-25 | exactly the twelve letters `pnbrqkPNBRQK` name a piece |
| Features.LetterRoundTrip | scripts/nnue/train_nnue.py:100-101 | reading a piece's letter back gives the same piece |
| Features.FeatureIndex | scripts/nnue/train_nnue.py:99-107 | an on-board piece gets an index below 768 whose 64-block is its colour offset plus its type index |
| Features.EncodeDecode | scripts/nnue/train_nnue.py:99-107 | decoding an on-board piece's index gives back the piece and square |
| Features.DecodeEncode | scripts/nnue/train_nnue.py:99-107 | every index below 768 is the index of exactly the on-board placement it decodes to |
| Features.FeatureIndexInjective | scripts/nnue/train_nnue.py:99-107 | two on-board placements with the same index are the same placement |
| Features.ColorPlaneOffset | scripts/nnue/train_nnue.py:102-106 | the black piece on the mirrored rank is exactly six 64-square planes after the white one |
| Features.KingCornerExample | scripts/nnue/train_nnue.py:99-107 | white king on a1 is index 320, black king on a8 is index 704 |
| Features.WalkRank | scripts/nnue/train_nnue.py:118-125 | the placements of a rank spell its piece letters in order; a failure is an unknown piece letter |
| Features.WalkRankOk | scripts/nnue/train_nnue.py:119-123 | a rank succeeds exactly when every character is a digit or a piece letter |
| Features.WalkRankSquares | scripts/nnue/train_nnue.py:118-125 | the letter at position `j` is placement number "letters before `j`": its piece, on the start file plus the files the text before `j` spans (a digit spans its value, a letter one), on the rank |
| Features.LetterSlots | scripts/nnue/train_nnue.py:118-125 | every placement number below the letter count is the number of some letter of the rank |
| Features.WalkRankFiles | scripts/nnue/train_nnue.py:118-125 | every placement is on the rank, at a file within the text's span, and the files strictly increase |
| Features.WalkBoard | scripts/nnue/train_nnue.py:116-125 | the placements of the board spell the piece letters of all ranks in order |
| Features.WalkBoardOk | scripts/nnue/train_nnue.py:116-125 | the board succeeds exactly when every character of every rank is a digit or a piece letter |
| Features.WalkBoardSquares | scripts/nnue/train_nnue.py:116-125 | the letter at `ranks[k][j]` is placement number `Slot(ranks, k, j)`: its piece, on the file the text before it spans, on board rank `7 - (fenRank + k)` |
| Features.SlotsCover | scripts/nnue/train_nnue.py:116-125 | every placement number below the letter count is the slot of some letter |
| Features.WalkBoardOrder | scripts/nnue/train_nnue.py:116-125 | if each rank fits in 8 files, the placements are on the board, within the ranks walked, in strictly increasing reading order |
| Features.FenToFeatures | scripts/nnue/train_nnue.py:110-126 | fails on a blank string and exactly when the board does not have 8 ranks; yields one index per piece letter; on ranks that fit, all indices are below 768 and distinct |
| Features.FenToFeaturesSquares | scripts/nnue/train_nnue.py:110-126 | with 8 ranks, the encoder succeeds exactly when every character is a digit or a piece letter, and then entry `Slot(ranks, k, j)` is `feature_index` of the letter at `ranks[k][j]` on the file the text before it spans and board rank `7 - k` |
| Features.PlacementsDistinct | scripts/nnue/train_nnue.py:116-125 | on-board placements in strictly increasing reading order have in-range, pairwise distinct indices |
| Huber.HuberLoss | scripts/nnue/train_nnue.py:189-193 | the loss is non-negative and at most the squared-error half `e^2/2` |
| Huber.HuberGrad | scripts/nnue/train_nnue.py:196-200 | the gradient is the error or ±delta, bounded by delta and by the error's size |
| Huber.GradIsClampedError | scripts/nnue/train_nnue.py:196-200 | for delta ≥ 0 the gradient is the error clamped to [-delta, delta] |
| Huber.LossFromGrad | scripts/nnue/train_nnue.py:189-200 | loss = g·e − g²/2 for the gradient g, for every delta |
| Huber.LossSymmetric | scripts/nnue/train_nnue.py:189-193 | the loss of −e equals the loss of e |
| Huber.GradOdd | scripts/nnue/train_nnue.py:196-200 | the gradient of −e is minus the gradient of e |
| Huber.BranchesAgree | scripts/nnue/train_nnue.py:189-193 | the quadratic and linear branches agree at the band edge |
| Huber.LossMonotone | scripts/nnue/train_nnue.py:189-193 | a larger error never has a smaller loss |
| Huber.GradExamples | scripts/nnue/train_nnue.py:189-200 | gradients 50, 100 and −100 for errors 50, 150 and −150 at delta 100, and loss 10000 for 150 |
| Network.SparseIsDense | scripts/nnue/train_nnue.py:143-147 | the sparse accumulation over the features equals the dense product of the count vector with the column |
| Network.SkipZeroDotIsDot | scripts/nnue/train_nnue.py:158-161 | skipping zero hidden values leaves the dot product unchanged |
| Network.Forward | scripts/nnue/train_nnue.py:142-162 | the forward pass yields one hidden value and one activity flag per hidden unit |
| Network.ForwardActivation | scripts/nnue/train_nnue.py:148-157 | hidden values lie in [0, 127]; a unit is active exactly when its pre-activation is strictly inside the band, then passes it through; below the band it is 0, above it is 127 |
| Network.ForwardOutput | scripts/nnue/train_nnue.py:158-162 | the output is `b2` plus the full dot product of the hidden layer with `w2` |
| Network.Predict | scripts/nnue/train_nnue.py:184-186 | the prediction is `b2` plus the full dot product of `w2` with the clamped hidden layer |
| Network.SubtractColumn | scripts/nnue/train_nnue.py:180-181 | column `i` of row `r` loses the step once per occurrence of `r` among the features; everything else is unchanged |
| Network.BackpropHidden | scripts/nnue/train_nnue.py:173-181 | the hidden-layer loop keeps every shape |
| Network.BackpropHiddenClosedForm | scripts/nnue/train_nnue.py:173-181 | after the loop, `b1[c]` lost the unit's step once and `w1[r][c]` lost it once per occurrence of `r` |
| Network.UpdateOutputWeights | scripts/nnue/train_nnue.py:169-171 | every `w2[i]` moves by `scale · hidden[i]`, zero hidden values included |
| Network.ApplyGradient | scripts/nnue/train_nnue.py:168-181 | the update keeps the shape; `b2` moves by `lr·grad`, `w2[c]` by `lr·grad·hidden[c]` |
| Network.ApplyGradientHidden | scripts/nnue/train_nnue.py:173-181 | `b1[c]` and `w1[r][c]` move by the unit signal computed from the pre-update `w2`, weighted by the feature count |
| Network.StepFrom | scripts/nnue/train_nnue.py:165-182 | a step keeps the shape and reports a non-negative loss for delta ≥ 0 |
| Network.TrainSample | scripts/nnue/train_nnue.py:164-182 | `train_sample` keeps the shape and reports a non-negative loss for delta ≥ 0 |
| Network.ApplyGradientFrame | scripts/nnue/train_nnue.py:169-181 | rows of absent inputs and the bias and column of inactive units are unchanged |
| Network.TrainSampleLoss | scripts/nnue/train_nnue.py:165-182 | the reported loss is the Huber loss of the forward output's error |
| Network.TrainSampleOutputLayer | scripts/nnue/train_nnue.py:166-172 | `b2` and `w2` move against the Huber gradient of the forward error |
| Network.TrainSampleHiddenBias | scripts/nnue/train_nnue.py:168-179 | `b1[c]` moves by the unit's signal through the pre-update `w2`, and only for active units |
| Network.TrainSampleHiddenWeights | scripts/nnue/train_nnue.py:173-181 | `w1[r][c]` moves by the unit's signal once per occurrence of input `r` |
| Network.TrainSampleKeepsAbsentRows | scripts/nnue/train_nnue.py:180-181 | rows of `w1` for inputs absent from the sample are untouched |
| Network.TrainSampleKeepsInactiveUnits | scripts/nnue/train_nnue.py:173-175 | an inactive unit keeps its bias and its `w1` column |
| LabelStats.Min | scripts/nnue/train_nnue.py:319 | the running minimum is a label and no label is smaller |
| LabelStats.Max | scripts/nnue/train_nnue.py:320 | the running maximum is a label and no label is larger |
| LabelStats.Of | scripts/nnue/train_nnue.py:319-332 | the reported minimum and maximum are labels, and the reported variance is floored at 0 |
| LabelStats.OfBounds | scripts/nnue/train_nnue.py:319-332 | the extremes are labels bounding every label; the mean lies between them; the variance is not negative |
| LabelStats.MeanBetween | scripts/nnue/train_nnue.py:329 | the mean lies between the smallest and the largest label |
| LabelStats.StatsExample | scripts/nnue/train_nnue.py:319-332 | labels 100 and −50 give mean 25, variance 5625, min −50, max 100 |
| Shuffle.ShuffleDown | scripts/nnue/train_nnue.py:325 | the swap steps keep the length and the multiset of elements |
| Shuffle.Shuffle | scripts/nnue/train_nnue.py:325 | a shuffle is a permutation |
| Shuffle.ShuffleSameElements | scripts/nnue/train_nnue.py:338-339 | shuffling keeps membership and keeps a duplicate-free list duplicate-free |
| Shuffle.ShuffleExample | scripts/nnue/train_nnue.py:325 | with every draw 0, `[1, 2, 3]` becomes `[2, 3, 1]` |
| Loader.TimeoutMap | scripts/nnue/train_nnue.py:79-86 | the games in the map are exactly those some complete entry names |
| Loader.TimeoutMapLastWins | scripts/nnue/train_nnue.py:79-86 | a game is in the map exactly when a complete entry names it, with the count of the last such entry |
| Loader.LastForFound | scripts/nnue/train_nnue.py:80-85 | a last complete entry for a game exists exactly when some complete entry names it |
| Loader.TimeoutMapEmpty | scripts/nnue/train_nnue.py:79-86 | the map is empty exactly when no entry has both keys |
| Loader.SummaryMissingExactly | scripts/nnue/train_nnue.py:284-290 | a run counts as lacking a summary exactly when its file is missing, its entries are not a list, or no entry is complete |
| Loader.SourceOf | scripts/nnue/train_nnue.py:284-292 | the global map is used exactly when the global summary's entries form a list |
| Loader.Filter | scripts/nnue/train_nnue.py:280-303 | each filter outcome, as an if-and-only-if over the fixed order of checks: missing run id, missing summary, timed-out game, timeout nearby, mate, or admitted |
| Loader.EngineColor | scripts/nnue/train_nnue.py:239-253 | the lookup succeeds exactly when the record exists with colour `w` or `b`, returning it; otherwise the missing-file or invalid-colour error |
| Loader.Judge | scripts/nnue/train_nnue.py:279-318 | a filtered row keeps its filter outcome; an admitted row fails on colour or position errors, else is accepted; an accepted sample has the row's features, signed evaluations and game |
| Loader.AcceptedGap | scripts/nnue/train_nnue.py:305-310 | an accepted sample has a secondary evaluation exactly when the row does, and the signed gap equals the raw gap |
| Loader.Scan | scripts/nnue/train_nnue.py:274-324 | the loop never keeps more than the cap allows, and fails only with the error of a fatal row it reads |
| Loader.ScanPrefix | scripts/nnue/train_nnue.py:311-324 | the samples kept are a prefix of the accepted rows in file order |
| Loader.ScanSeen | scripts/nnue/train_nnue.py:275-303 | samples plus skips never exceed the non-blank rows |
| Loader.EveryRowAccounted | scripts/nnue/train_nnue.py:276-303 | without fatal rows, every non-blank row is either accepted or counted in exactly one skip bucket |
| Loader.ScanFatalFree | scripts/nnue/train_nnue.py:274-324 | without fatal rows the loop succeeds, and keeps a sample when some row is accepted |
| Loader.ScanUncapped | scripts/nnue/train_nnue.py:274-324 | without a cap the loop keeps exactly the accepted rows and counts exactly the skipped ones |
| Loader.ScanUpTo | scripts/nnue/train_nnue.py:274-324 | read up to line `e` with no fatal row before it and the cap unreached: at the end of the file the loop keeps exactly the accepted rows and the skip tally; a fatal row at `e` aborts it with that row's error; an accepted row at `e` that reaches the cap ends it with exactly the rows up to `e` accounted for |
| Loader.LoadFrom | scripts/nnue/train_nnue.py:256-333 | a successful load keeps at least one sample, within the cap, only accepted rows, never more samples plus skips than non-blank rows, one label per sample |
| Loader.Finish | scripts/nnue/train_nnue.py:319-325 | the shuffled samples are a permutation of the kept ones, with the skips and the labels in file order |
| Loader.LoadFromErrors | scripts/nnue/train_nnue.py:282-328 | a load fails only on a fatal row or with no samples, and succeeds without fatal rows when some row is accepted |
| Loader.LoadFromFirstFatal | scripts/nnue/train_nnue.py:274-328 | the first fatal row read before the cap stops the loop aborts the load with that row's error |
| Loader.LoadFromStopsAtCap | scripts/nnue/train_nnue.py:274-333 | the accepted row that reaches the cap ends the load: exactly the cap's number of samples, a permutation of the accepted rows up to it, the exact skip tally of the rows read, each non-blank row read kept or counted once; later rows are never read |
| Loader.LoadFromReadsAll | scripts/nnue/train_nnue.py:274-333 | with no fatal row and the cap never reached, the samples are a permutation of all accepted rows, the skips are the exact tally, and every non-blank row is kept or counted once |
| Loader.LoadFromKeeps | scripts/nnue/train_nnue.py:274-333 | with no fatal row and some row accepted, the load keeps exactly the first `min(cap, accepted)` accepted rows |
| Loader.LoadSamples | scripts/nnue/train_nnue.py:256-333 | a successful load keeps at least one and at most the cap's number of samples, each the accepted outcome of some record line; a failure other than "no samples" is the error of some fatal record line |
| Loader.LoadFromUncapped | scripts/nnue/train_nnue.py:274-333 | without a cap the samples are a permutation of the accepted rows, and the skips are the exact tally |
| Split.Insert | scripts/nnue/train_nnue.py:338 | insertion keeps a list increasing and adds exactly the new element |
| Split.SortedGames | scripts/nnue/train_nnue.py:338 | the sorted games are strictly increasing and are exactly the samples' game ids |
| Split.Cutoff | scripts/nnue/train_nnue.py:340 | the cut is at most the number of games, and strictly below it when there is a game |
| Split.Select | scripts/nnue/train_nnue.py:342-343 | a sample is selected exactly when it is in the input and its game's membership matches |
| Split.SelectInterleaves | scripts/nnue/train_nnue.py:342-343 | the two selections interleave to the input |
| Split.SplitByGame | scripts/nnue/train_nnue.py:336-344 | every sample lands in exactly one half (the multisets add up to the input), and no game has samples in both |
| Split.SplitPartition | scripts/nnue/train_nnue.py:336-344 | train and validation merge, order-preserving, into the input, and their multisets add up to it |
| Split.SplitByGameSeparates | scripts/nnue/train_nnue.py:341-343 | a sample trains exactly when its game is a training game; no game is on both sides |
| Split.TrainGameCount | scripts/nnue/train_nnue.py:338-341 | the training games are input games, and there are `n·9/10` of the `n` games |
| Split.ValidationGame | scripts/nnue/train_nnue.py:338-343 | a nonempty input has a sample whose game is not a training game |
| Split.ValidationNonEmpty | scripts/nnue/train_nnue.py:340-343 | a nonempty input always leaves validation samples; a single game goes entirely to validation |
| Split.SelectNone | scripts/nnue/train_nnue.py:341-342 | with no training game nothing trains |
| Metrics.Evaluate | scripts/nnue/train_nnue.py:347-354 | an empty list evaluates to 0, and the result is never negative for delta ≥ 0 |
| Metrics.EvaluateBounds | scripts/nnue/train_nnue.py:347-354 | an empty list evaluates to 0; otherwise the mean lies between the smallest and the largest sample loss, and is not negative for delta ≥ 0 |
| Metrics.Diffs | scripts/nnue/train_nnue.py:358-363 | no more gaps than samples, each non-negative |
| Metrics.DiffsAppend | scripts/nnue/train_nnue.py:358-363 | the gaps of two lists in a row are the gaps of each, in order |
| Metrics.DiffsAt | scripts/nnue/train_nnue.py:358-363 | a sample with a secondary evaluation contributes `abs(label16 - label)`, placed after the gaps of the samples before it |
| Metrics.DiffsFrom | scripts/nnue/train_nnue.py:358-363 | every gap is the one contributed by some sample with a secondary evaluation |
| Metrics.EvalCp16Diff | scripts/nnue/train_nnue.py:357-366 | the count is at most the number of samples, the mean is 0 when the count is 0, and never negative |
| Metrics.DiffsCount | scripts/nnue/train_nnue.py:358-363 | one gap per sample carrying a secondary evaluation |
| Metrics.EvalCp16DiffMeaning | scripts/nnue/train_nnue.py:357-366 | the count is the number of samples with a secondary evaluation; the mean lies between the smallest and largest gap |
| EarlyStopping.Observe | scripts/nnue/train_nnue.py:399-413 | after the break nothing changes; otherwise the epoch counter is the epoch just run |
| EarlyStopping.Run | scripts/nnue/train_nnue.py:399-413 | the loop runs every epoch unless it broke, and breaks only after an epoch with the patience at or below 0; a best loss exists exactly when an epoch ran, and the best epoch is one of those run |
| EarlyStopping.RunExplained | scripts/nnue/train_nnue.py:389-413 | against a loop-free description: runs every epoch unless it stopped; best epoch is the earliest minimum of those run; patience left is patience minus the stale epochs past the floor; stops exactly when the last epoch run exhausted it |
| EarlyStopping.StepExplained | scripts/nnue/train_nnue.py:399-413 | one more epoch keeps that description true |
| EarlyStopping.RunBest | scripts/nnue/train_nnue.py:399-408 | with at least one epoch, the best epoch is the earliest minimum of the losses of the epochs run and its loss is the best loss |
| EarlyStopping.StoppedIsFinal | scripts/nnue/train_nnue.py:411-413 | after the break later epochs change nothing |
| EarlyStopping.RunStopsFirst | scripts/nnue/train_nnue.py:409-413 | no shorter prefix of the epochs run had stopped |
| EarlyStopping.RunExample | scripts/nnue/train_nnue.py:399-413 | losses 5,4,4,4,3 with patience 2 stop after epoch 4 with best epoch 2; with floor 5 all five run and epoch 5 is best |
| Trainer.Epoch | scripts/nnue/train_nnue.py:390-395 | an epoch keeps the shape and accumulates a non-negative loss for delta ≥ 0 |
| Trainer.ParamsAfter | scripts/nnue/train_nnue.py:389-394 | the parameters after any number of epochs keep the initial shape |
| Trainer.ValLosses | scripts/nnue/train_nnue.py:389-396 | one validation loss per epoch of `range(epochs)`, each the evaluation after that epoch |
| Trainer.History | scripts/nnue/train_nnue.py:397 | one history entry per epoch run |
| Trainer.Train | scripts/nnue/train_nnue.py:383-416 | the written parameters keep the shape; no more epochs run than requested, one history entry each |
| Trainer.TrainErrors | scripts/nnue/train_nnue.py:389-396 | training fails exactly when an epoch runs and some sample names an input outside `w1` |
| Trainer.TrainRestoresBest | scripts/nnue/train_nnue.py:399-416 | after an epoch, the written parameters are those after the best epoch, which is the earliest minimum of the validation losses of the epochs run, and the best loss is their validation loss |
| Trainer.TrainHistory | scripts/nnue/train_nnue.py:395-397 | history entry `k` is epoch `k+1` with that epoch's validation loss and, for delta ≥ 0, a non-negative training loss |
| Trainer.TrainUnfold | scripts/nnue/train_nnue.py:389-416 | a successful run is the early-stopping state applied to the per-epoch parameters |
| Trainer.NoEpochKeepsInitial | scripts/nnue/train_nnue.py:385-416 | with no epoch the initial parameters are written and no best epoch is reported |
| Trainer.TrainLossNonNegative | scripts/nnue/train_nnue.py:395 | every recorded training loss is non-negative for delta ≥ 0 |
| WeightFile.U16 | scripts/nnue/train_nnue.py:217 | packing succeeds exactly for 0..65535, giving two little-endian bytes of that value |
| WeightFile.U16RoundTrip | scripts/nnue/train_nnue.py:217 | packing the value of two bytes gives those bytes back |
| WeightFile.WriteSnnue | scripts/nnue/train_nnue.py:203-228 | a written file has the expected length; the only failures are a header out of range and a size mismatch |
| WeightFile.ReadWritten | scripts/nnue/train_nnue.py:215-225 | reading a written file gives the declared sizes, version 1, flags 0 and the packed parameters in file order |
| WeightFile.SerializeRead | scripts/nnue/train_nnue.py:215-225 | writing out what was read gives back the same bytes |
| WeightFile.FlattenLength | scripts/nnue/train_nnue.py:218-220 | `in` rows of `hid` values flatten to `in·hid` values |
| WeightFile.FlattenAt | scripts/nnue/train_nnue.py:218-220 | `w1[r][c]` sits at position `r·hid + c` of the row-major values |
| WeightFile.WriteSucceeds | scripts/nnue/train_nnue.py:212-228 | the write succeeds exactly when both sizes fit a u16 and the value count is `in·hid + hid + hid + 1` |
| WeightFile.FloatsWeights | scripts/nnue/train_nnue.py:218-220 | a shaped network's values start with its `in·hid` weights of `w1` in row-major order |
| WeightFile.FloatsBiases | scripts/nnue/train_nnue.py:221-225 | after `w1` come `b1`, `w2` and `b2`, at the offsets the header implies |
| WeightFile.ShapedLayout | scripts/nnue/train_nnue.py:212-228 | parameters of the declared shape are always written, and read back as header plus one cell per value |
| WeightFile.MisshapenWritten | scripts/nnue/train_nnue.py:212-228 | a one-row `w1` of two values passes the check when declared as 2 × 1 |
| WeightFile.WriteSnnueChecked | scripts/nnue/train_nnue.py:212-228 | the checked writer only succeeds on parameters of the declared shape |
| WeightFile.CheckedWriteSucceeds | scripts/nnue/train_nnue.py:212-228 | the checked writer succeeds exactly on shaped parameters whose sizes fit a u16, writing what the unchecked one does |
| WeightFile.Export | scripts/nnue/train_nnue.py:419 | `main` writes the trained parameters with the writer as it stands, as 768 × 64: the file is written exactly when there are `768·64 + 64 + 64 + 1` values, and is then 197136 bytes; otherwise the error is a size mismatch |
| WeightFile.ExportSucceeds | scripts/nnue/train_nnue.py:419 | training from 768 × 64 parameters always yields a weight file of 197136 bytes |

## Left out

- **Files, JSON, paths, report, printing.** Reading files, JSON parsing,
  `resolve_analysis_root`, `parse_args`, the report and the status lines
  are left out: they are I/O. The model starts from parsed rows, summaries
  and annotation records.
- **`sha256_file`.** Hashing is a foreign computation.
- **`scripts/export_chess_standard.py`.** This file is not part of this
  model.
- **Randomness and float packing.** The random generator's stream, and
  `struct.pack("<f")` float32 rounding and overflow, are left out. They
  are parameters `draw` and `enc`, so the model proves nothing about
  IEEE-754 rounding.
- **Real arithmetic.** Weights, losses and statistics are exact reals.
  Float rounding, NaN and infinities are not modelled. The initial best
  loss `math.inf` is `None`.
- **Split.Cutoff.** `int(len(games) * 0.9)` is modelled as
  `len(games) * 9 // 10`. The double `0.9` lies slightly above nine tenths,
  so the two agree for every list length below 2^50.
- **LabelStats.OfBounds.** The standard deviation `sqrt(max(variance, 0))`
  is not modelled: it states the non-negative variance only. The
  raw-moment formula for the variance is stated as the code computes it.
  It is not shown equal to the mean squared deviation.
- **The loader caches.** The engine-colour cache and the per-run summary
  cache only avoid repeated reads. The model looks each record up afresh.
- **Missing or malformed row fields.** A row missing `gameId` or `fen`
  (a Python `KeyError`) is not modelled. A non-integer `gameId` is not
  modelled either. A missing or non-string `engineColor` is any value
  other than `"w"` and `"b"`.
- **Digits and letters.** Only ASCII digits are digits, and only ASCII
  letters change case. Python's `isdigit` also accepts other Unicode
  digits. On a decimal digit of another script (Unicode category Nd, such
  as a fullwidth `８` or an Arabic-Indic `٣`) `int(char)` returns its
  value, so Python moves that many files. It raises only on digits that
  are not decimal, such as a superscript `²`. The model rejects both kinds
  as an unknown piece letter.
- **Negative feature indices.** A negative index would wrap in Python. The
  model treats it as out of range (`Trainer.TrainErrors`).
  `fen_to_features` never produces one.
- **Directory creation.** `os.makedirs` for the output directory is
  file-system I/O.
- **WeightFile.WriteSnnue.** A header field out of range fails after the
  magic has been written. The model reports only `HeaderOutOfRange`, not
  the four bytes left in the file.

## Findings

| source | as written | input that shows it | evidently intended | confidence | as-written member | corrected member |
|---|---|---|---|---|---|---|
| scripts/nnue/train_nnue.py:212-228 | The check compares only the total number of bytes with `12 + (in·hid + hid + hid + 1)·4`. The expected length comes from the declared sizes, not from the lengths of `w1`, `b1` and `w2`. | `in = 2`, `hid = 1`, `w1 = [[1.0, 2.0]]`, `b1 = [0.0]`, `w2 = [0.0]`: five values, as declared, so the file is written. A reader then takes `w1[0][1]` as `w1[1][0]`. | Reject parameters whose shape differs from the declared sizes. The `tell()` comparison at lines 226-227 is there to catch a file whose layout does not match its header; a misshapen `w1` with the right total count is exactly such a file, and it gets through. | low: `main` always passes 768 × 64 parameters; not executed | WeightFile.MisshapenWritten | WeightFile.WriteSnnueChecked |
