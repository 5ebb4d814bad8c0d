/** `load_samples`: reads the dataset's JSON lines (already parsed here into
    `Line` values), drops rows by a fixed-order filter, labels the survivors
    from the engine's point of view, stops at the sample cap, shuffles, and
    reports skip counts and label statistics. The timeout summaries and the
    annotated-game records are lookups given as maps. */
module Loader {
  import opened Wrappers
  import opened Features
  import opened Dataset
  import LabelStats
  import Shuffle
  import Huber

  /** One dataset row with the fields the loader reads. `runId` is `None` when
      the key is absent or null; `timeoutNearby` is the truthiness of the flag. */
  datatype Row = Row(
    gameId: int,
    runId: Option<string>,
    fen: string,
    evalCp: Option<real>,
    mateIn: Option<real>,
    timeoutNearby: bool,
    evalCp16: Option<real>)

  /** A line of the file: blank after stripping, or one JSON record. */
  datatype Line = Blank | Record(row: Row)

  // ---------------------------------------------------------------------
  // Timeout summaries (`load_timeout_map`, `load_timeout_map_for_run`)
  // ---------------------------------------------------------------------

  /** One element of `timeoutMovesPerGame`; a missing or null key is `None`. */
  datatype TimeoutEntry = TimeoutEntry(gameId: Option<int>, timeoutMoves: Option<int>)

  predicate Names(e: TimeoutEntry, g: int) {
    e.gameId == Some(g) && e.timeoutMoves.Some?
  }

  /** The loop of `load_timeout_map`: entries lacking either key are skipped,
      and a later entry for the same game overrides an earlier one. */
  function TimeoutMap(entries: seq<TimeoutEntry>): (m: map<int, int>)
    ensures m.Keys == GamesListed(entries)
    decreases |entries|
  {
    if |entries| == 0 then map[]
    else
      var e := entries[|entries| - 1];
      var init := entries[..|entries| - 1];
      var m := TimeoutMap(init);
      assert GamesListed(entries) == GamesListed(init) + (if Complete(e) then {e.gameId.value} else {}) by {
        assert forall k :: 0 <= k < |init| ==> init[k] == entries[k];
      }
      if e.gameId.Some? && e.timeoutMoves.Some? then m[e.gameId.value := e.timeoutMoves.value] else m
  }

  /** The games some complete entry names. */
  function GamesListed(entries: seq<TimeoutEntry>): set<int> {
    set k | 0 <= k < |entries| && Complete(entries[k]) :: entries[k].gameId.value
  }

  /** Reference: the count of the last complete entry naming game `g`. */
  function LastFor(entries: seq<TimeoutEntry>, g: int): Option<int>
    decreases |entries|
  {
    if |entries| == 0 then None
    else if Names(entries[|entries| - 1], g) then Some(entries[|entries| - 1].timeoutMoves.value)
    else LastFor(entries[..|entries| - 1], g)
  }

  /** The map holds a game exactly when some complete entry names it, with the
      count of the last such entry. */
  lemma {:induction false} TimeoutMapLastWins(entries: seq<TimeoutEntry>, g: int)
    ensures g in TimeoutMap(entries) <==> LastFor(entries, g).Some?
    ensures g in TimeoutMap(entries) ==> TimeoutMap(entries)[g] == LastFor(entries, g).value
    decreases |entries|
  {
    if |entries| > 0 {
      TimeoutMapLastWins(entries[..|entries| - 1], g);
    }
  }

  /** A game is listed exactly when some complete entry names it. */
  lemma {:induction false} LastForFound(entries: seq<TimeoutEntry>, g: int)
    ensures LastFor(entries, g).Some? <==> exists k :: 0 <= k < |entries| && Names(entries[k], g)
    decreases |entries|
  {
    if |entries| > 0 {
      var init := entries[..|entries| - 1];
      LastForFound(init, g);
      assert forall k :: 0 <= k < |init| ==> init[k] == entries[k];
      if LastFor(init, g).Some? {
        var k :| 0 <= k < |init| && Names(init[k], g);
        assert Names(entries[k], g);
      }
    }
  }

  /** `load_timeout_map`: `None` when `timeoutMovesPerGame` is not a list. */
  function LoadTimeoutMap(entries: Option<seq<TimeoutEntry>>): Option<map<int, int>> {
    match entries
    case None => None
    case Some(es) => Some(TimeoutMap(es))
  }

  /** Where per-game timeout counts come from. `Global` is the summary given
      to `main` when its entries form a list; otherwise every run's own
      summary is consulted, a run absent from `summaries` having no file. */
  datatype TimeoutSource =
    | Global(timeouts: map<int, int>)
    | PerRun(summaries: map<string, Option<seq<TimeoutEntry>>>)

  /** `main` falls back to per-run summaries exactly when the global one is unusable. */
  function SourceOf(global: Option<seq<TimeoutEntry>>, summaries: map<string, Option<seq<TimeoutEntry>>>): (s: TimeoutSource)
    ensures s.Global? <==> global.Some?
    ensures s.Global? ==> s.timeouts == TimeoutMap(global.value)
  {
    match LoadTimeoutMap(global)
    case Some(m) => Global(m)
    case None => PerRun(summaries)
  }

  /** `load_timeout_map_for_run(...) or {}`: a missing file, a non-list entry
      field and an empty map all come out as the empty map. */
  function RunTimeouts(summaries: map<string, Option<seq<TimeoutEntry>>>, run: string): map<int, int> {
    if run in summaries then LoadTimeoutMap(summaries[run]).GetOr(map[]) else map[]
  }

  /** An entry `load_timeout_map` keeps: both keys present and non-null. */
  predicate Complete(e: TimeoutEntry) {
    e.gameId.Some? && e.timeoutMoves.Some?
  }

  /** The map is empty exactly when no entry is complete. */
  lemma TimeoutMapEmpty(entries: seq<TimeoutEntry>)
    ensures |TimeoutMap(entries)| == 0 <==> forall k :: 0 <= k < |entries| ==> !Complete(entries[k])
  {
    if k :| 0 <= k < |entries| && Complete(entries[k]) {
      var g := entries[k].gameId.value;
      assert Names(entries[k], g);
      LastForFound(entries, g);
      TimeoutMapLastWins(entries, g);
      assert g in TimeoutMap(entries);
    } else {
      NoCompleteEntry(entries);
    }
  }

  lemma {:induction false} NoCompleteEntry(entries: seq<TimeoutEntry>)
    requires forall k :: 0 <= k < |entries| ==> !Complete(entries[k])
    ensures TimeoutMap(entries) == map[]
    decreases |entries|
  {
    if |entries| > 0 {
      var init := entries[..|entries| - 1];
      assert forall k :: 0 <= k < |init| ==> init[k] == entries[k];
      NoCompleteEntry(init);
    }
  }

  /** A run's rows are skipped as lacking a summary when its file is missing,
      when its entries do not form a list, and also when none of its entries
      is complete: a summary listing no game counts as a missing one. */
  lemma SummaryMissingExactly(row: Row, summaries: map<string, Option<seq<TimeoutEntry>>>)
    requires HasRunId(row)
    ensures var run := row.runId.value;
            SummaryMissing(row, PerRun(summaries)) <==>
              || run !in summaries
              || summaries[run].None?
              || forall k :: 0 <= k < |summaries[run].value| ==> !Complete(summaries[run].value[k])
  {
    var run := row.runId.value;
    if run in summaries && summaries[run].Some? {
      TimeoutMapEmpty(summaries[run].value);
    }
  }

  // ---------------------------------------------------------------------
  // The per-row filter
  // ---------------------------------------------------------------------

  datatype Bucket = TimeoutGame | TimeoutNearby | Mate | MissingTimeoutSummary

  /** The `skipped` dictionary. */
  datatype Tally = Tally(timeoutGame: nat, timeoutNearby: nat, mate: nat, missingTimeoutSummary: nat) {
    function Total(): nat {
      timeoutGame + timeoutNearby + mate + missingTimeoutSummary
    }

    function Bump(b: Bucket): (t: Tally)
      ensures t.Total() == Total() + 1
    {
      match b
      case TimeoutGame => this.(timeoutGame := timeoutGame + 1)
      case TimeoutNearby => this.(timeoutNearby := timeoutNearby + 1)
      case Mate => this.(mate := mate + 1)
      case MissingTimeoutSummary => this.(missingTimeoutSummary := missingTimeoutSummary + 1)
    }
  }

  const NoSkips := Tally(0, 0, 0, 0)

  datatype LoadError =
    | MissingRunId
    | MissingAnnotation(runId: string, gameId: int)
    | InvalidEngineColor(runId: string, gameId: int)
    | BadFen(fenError: FenError)
    | NoSamples

  /** What becomes of one non-blank row. */
  datatype Outcome = Fatal(error: LoadError) | Skip(bucket: Bucket) | Accept(sample: Sample)

  /** `if not run_id`: absent, null and the empty string are all falsy. */
  predicate HasRunId(row: Row) {
    row.runId.Some? && row.runId.value != ""
  }

  predicate SummaryMissing(row: Row, source: TimeoutSource)
    requires HasRunId(row)
  {
    source.PerRun? && |RunTimeouts(source.summaries, row.runId.value)| == 0
  }

  /** The game's timeout-move count, 0 when the game is not listed. */
  function GameTimeout(row: Row, source: TimeoutSource): int
    requires HasRunId(row)
  {
    match source
    case Global(m) => Get(m, row.gameId, 0)
    case PerRun(summaries) => Get(RunTimeouts(summaries, row.runId.value), row.gameId, 0)
  }

  /** No centipawn evaluation, or a mate distance (even beside one). */
  predicate NoCentipawns(row: Row) {
    row.evalCp.None? || row.mateIn.Some?
  }

  /** The fixed-order decision of `load_samples` up to the engine-colour lookup:
      the first condition that holds decides, and a row none of them catches
      is admitted. */
  function Filter(row: Row, source: TimeoutSource): (v: Option<Outcome>)
    ensures v == Some(Fatal(MissingRunId)) <==> !HasRunId(row)
    ensures v == Some(Skip(MissingTimeoutSummary)) <==> HasRunId(row) && SummaryMissing(row, source)
    ensures v == Some(Skip(TimeoutGame)) <==>
              HasRunId(row) && !SummaryMissing(row, source) && GameTimeout(row, source) != 0
    ensures v == Some(Skip(TimeoutNearby)) <==>
              HasRunId(row) && !SummaryMissing(row, source) && GameTimeout(row, source) == 0
              && row.timeoutNearby
    ensures v == Some(Skip(Mate)) <==>
              HasRunId(row) && !SummaryMissing(row, source) && GameTimeout(row, source) == 0
              && !row.timeoutNearby && NoCentipawns(row)
    ensures v.None? <==>
              HasRunId(row) && !SummaryMissing(row, source) && GameTimeout(row, source) == 0
              && !row.timeoutNearby && !NoCentipawns(row)
  {
    if !HasRunId(row) then Some(Fatal(MissingRunId))
    else if SummaryMissing(row, source) then Some(Skip(MissingTimeoutSummary))
    else if GameTimeout(row, source) != 0 then Some(Skip(TimeoutGame))
    else if row.timeoutNearby then Some(Skip(TimeoutNearby))
    else if NoCentipawns(row) then Some(Skip(Mate))
    else None
  }

  /** `load_engine_color`: the annotated record of (run, game) must exist and
      name the engine's colour as "w" or "b". An absent key is a missing file;
      any other value, including a missing field, is invalid. */
  function EngineColor(annotations: map<(string, int), string>, run: string, game: int): (r: Result<string, LoadError>)
    ensures r.Ok? <==> (run, game) in annotations && annotations[(run, game)] in {"w", "b"}
    ensures r.Ok? ==> r.value == annotations[(run, game)]
    ensures r.Err? ==> r.error == (if (run, game) in annotations then InvalidEngineColor(run, game)
                                   else MissingAnnotation(run, game))
  {
    if (run, game) !in annotations then Err(MissingAnnotation(run, game))
    else
      var color := annotations[(run, game)];
      if color != "w" && color != "b" then Err(InvalidEngineColor(run, game)) else Ok(color)
  }

  /** An evaluation seen from the engine's side: kept for "w", negated for "b". */
  function Signed(color: string, v: real): real {
    if color == "w" then v else -v
  }

  /** Everything `load_samples` does with one non-blank row. */
  function Judge(row: Row, source: TimeoutSource, annotations: map<(string, int), string>): (o: Outcome)
    ensures Filter(row, source).Some? ==> o == Filter(row, source).value
    ensures Filter(row, source).None? ==>
              var color := EngineColor(annotations, row.runId.value, row.gameId);
              && (color.Err? ==> o == Fatal(color.error))
              && (color.Ok? && FenToFeatures(row.fen).Err? ==> o == Fatal(BadFen(FenToFeatures(row.fen).error)))
              && (color.Ok? && FenToFeatures(row.fen).Ok? ==> o.Accept?)
    ensures o.Accept? ==>
              && Filter(row, source).None?
              && var color := EngineColor(annotations, row.runId.value, row.gameId).value;
              && o.sample.features == FenToFeatures(row.fen).value
              && o.sample.labelCp == Signed(color, row.evalCp.value)
              && o.sample.label16 == (if row.evalCp16.Some? then Some(Signed(color, row.evalCp16.value)) else None)
              && o.sample.gameId == row.gameId
  {
    match Filter(row, source)
    case Some(v) => v
    case None =>
      match EngineColor(annotations, row.runId.value, row.gameId)
      case Err(e) => Fatal(e)
      case Ok(color) =>
        match FenToFeatures(row.fen)
        case Err(e) => Fatal(BadFen(e))
        case Ok(features) =>
          var label16 := match row.evalCp16
                         case Some(v) => Some(Signed(color, v))
                         case None => None;
          Accept(Sample(features, Signed(color, row.evalCp.value), label16, row.gameId))
  }

  /** Negating both evaluations for a black engine keeps their gap: the
      secondary-evaluation metric sees the gap of the raw evaluations. */
  lemma AcceptedGap(row: Row, source: TimeoutSource, annotations: map<(string, int), string>)
    requires Judge(row, source, annotations).Accept?
    ensures var s := Judge(row, source, annotations).sample;
            && (s.label16.Some? <==> row.evalCp16.Some?)
            && (s.label16.Some? ==>
                  Huber.Abs(s.label16.value - s.labelCp) == Huber.Abs(row.evalCp16.value - row.evalCp.value))
  {
  }

  // ---------------------------------------------------------------------
  // The row loop
  // ---------------------------------------------------------------------

  /** The lookups and the cap `load_samples` runs with. */
  datatype Config = Config(source: TimeoutSource, annotations: map<(string, int), string>, maxSamples: Option<int>)

  /** The outcome of every line, `None` for a blank one. Rows after the loop
      stops are never looked at by the script; judging them here changes
      nothing, since judging a row has no effect. */
  function Outcomes(lines: seq<Line>, cfg: Config): (os: seq<Option<Outcome>>)
    ensures |os| == |lines|
  {
    seq(|lines|, i requires 0 <= i < |lines| =>
      if lines[i].Record? then Some(Judge(lines[i].row, cfg.source, cfg.annotations)) else None)
  }

  /** `if max_samples and len(samples) >= max_samples: break`. A cap of 0 or
      none means no cap; a negative cap is reached by the first sample. */
  predicate CapReached(maxSamples: Option<int>, count: nat) {
    maxSamples.Some? && maxSamples.value != 0 && count >= maxSamples.value
  }

  predicate Capped(maxSamples: Option<int>) {
    maxSamples.Some? && maxSamples.value != 0
  }

  /** The largest number of samples a cap lets through. */
  function CapBound(maxSamples: Option<int>): nat
    requires Capped(maxSamples)
  {
    if maxSamples.value >= 1 then maxSamples.value else 1
  }

  /** What the loop collects from the rows it reads: the samples in file
      order and the skip buckets. */
  datatype Acc = Acc(samples: seq<Sample>, skipped: Tally) {
    /** Rows accounted for: each kept or counted in one bucket. */
    function Seen(): nat {
      |samples| + skipped.Total()
    }
  }

  /** Reference: the accepted samples of `os[i..]` in file order. */
  function Accepted(os: seq<Option<Outcome>>, i: nat): seq<Sample>
    requires i <= |os|
    decreases |os| - i
  {
    if i == |os| then []
    else if os[i].Some? && os[i].value.Accept? then [os[i].value.sample] + Accepted(os, i + 1)
    else Accepted(os, i + 1)
  }

  /** Reference: the number of non-blank rows in `os[i..]`. */
  function NonBlank(os: seq<Option<Outcome>>, i: nat): nat
    requires i <= |os|
    decreases |os| - i
  {
    if i == |os| then 0 else (if os[i].Some? then 1 else 0) + NonBlank(os, i + 1)
  }

  /** Reference: the skip buckets of `os[i..]`. */
  function Skips(os: seq<Option<Outcome>>, i: nat): Tally
    requires i <= |os|
    decreases |os| - i
  {
    if i == |os| then NoSkips
    else if os[i].Some? && os[i].value.Skip? then Skips(os, i + 1).Bump(os[i].value.bucket)
    else Skips(os, i + 1)
  }

  predicate FatalFree(os: seq<Option<Outcome>>, i: nat)
    requires i <= |os|
  {
    forall j :: i <= j < |os| && os[j].Some? ==> !os[j].value.Fatal?
  }

  /** The `for line in handle` loop from line `i` on, after `taken` samples
      were kept before line `i`: the first fatal row aborts the whole load,
      skipped rows bump their bucket, accepted rows are kept until the cap
      is reached, and nothing after the row that reaches it is read. */
  function Scan(os: seq<Option<Outcome>>, i: nat, taken: nat, maxSamples: Option<int>): (r: Result<Acc, LoadError>)
    requires i <= |os|
    requires taken == 0 || !CapReached(maxSamples, taken)
    ensures r.Ok? && Capped(maxSamples) ==> taken + |r.value.samples| <= CapBound(maxSamples)
    ensures r.Err? ==> exists j :: i <= j < |os| && os[j] == Some(Fatal(r.error))
    decreases |os| - i
  {
    if i == |os| then Ok(Acc([], NoSkips))
    else match os[i]
      case None => Scan(os, i + 1, taken, maxSamples)
      case Some(Fatal(e)) => Err(e)
      case Some(Skip(b)) =>
        var rest := Scan(os, i + 1, taken, maxSamples);
        if rest.Err? then rest
        else Ok(Acc(rest.value.samples, rest.value.skipped.Bump(b)))
      case Some(Accept(s)) =>
        if CapReached(maxSamples, taken + 1) then Ok(Acc([s], NoSkips))
        else
          var rest := Scan(os, i + 1, taken + 1, maxSamples);
          if rest.Err? then rest
          else Ok(Acc([s] + rest.value.samples, rest.value.skipped))
  }

  /** The kept samples are the accepted rows of `os[i..]` up to the cap, in
      file order. */
  lemma {:induction false} ScanPrefix(os: seq<Option<Outcome>>, i: nat, taken: nat, maxSamples: Option<int>)
    requires i <= |os|
    requires taken == 0 || !CapReached(maxSamples, taken)
    ensures var r := Scan(os, i, taken, maxSamples);
            r.Ok? ==> r.value.samples <= Accepted(os, i)
    decreases |os| - i
  {
    if i < |os| {
      match os[i]
      case None =>
        ScanPrefix(os, i + 1, taken, maxSamples);
      case Some(Fatal(e)) =>
      case Some(Skip(b)) =>
        ScanPrefix(os, i + 1, taken, maxSamples);
      case Some(Accept(s)) =>
        if !CapReached(maxSamples, taken + 1) {
          ScanPrefix(os, i + 1, taken + 1, maxSamples);
          var rest := Scan(os, i + 1, taken + 1, maxSamples);
          if rest.Ok? {
            PrefixCons(s, rest.value.samples, Accepted(os, i + 1));
          }
        }
    }
  }

  /** A scan never accounts for more rows than it reads. */
  lemma {:induction false} ScanSeen(os: seq<Option<Outcome>>, i: nat, taken: nat, maxSamples: Option<int>)
    requires i <= |os|
    requires taken == 0 || !CapReached(maxSamples, taken)
    ensures var r := Scan(os, i, taken, maxSamples);
            r.Ok? ==> r.value.Seen() <= NonBlank(os, i)
    decreases |os| - i
  {
    if i < |os| {
      match os[i]
      case None =>
        ScanSeen(os, i + 1, taken, maxSamples);
      case Some(Fatal(e)) =>
      case Some(Skip(b)) =>
        ScanSeen(os, i + 1, taken, maxSamples);
      case Some(Accept(s)) =>
        if !CapReached(maxSamples, taken + 1) {
          ScanSeen(os, i + 1, taken + 1, maxSamples);
        }
    }
  }

  lemma PrefixCons<T>(x: T, a: seq<T>, b: seq<T>)
    requires a <= b
    ensures [x] + a <= [x] + b
  {
    assert forall k :: 1 <= k < |[x] + a| ==> ([x] + a)[k] == a[k - 1];
  }

  /** Every non-blank row of a fatal-free file is either accepted or counted
      in exactly one bucket. */
  lemma {:induction false} EveryRowAccounted(os: seq<Option<Outcome>>, i: nat)
    requires i <= |os| && FatalFree(os, i)
    ensures |Accepted(os, i)| + Skips(os, i).Total() == NonBlank(os, i)
    decreases |os| - i
  {
    if i < |os| {
      EveryRowAccounted(os, i + 1);
    }
  }

  /** A scan that meets no fatal row succeeds, and keeps at least one sample
      when some row is accepted. */
  lemma {:induction false} ScanFatalFree(os: seq<Option<Outcome>>, i: nat, taken: nat, maxSamples: Option<int>)
    requires i <= |os|
    requires taken == 0 || !CapReached(maxSamples, taken)
    requires FatalFree(os, i)
    ensures Scan(os, i, taken, maxSamples).Ok?
    ensures |Accepted(os, i)| > 0 ==> |Scan(os, i, taken, maxSamples).value.samples| > 0
    decreases |os| - i
  {
    if i < |os| {
      match os[i]
      case None =>
        ScanFatalFree(os, i + 1, taken, maxSamples);
      case Some(Skip(b)) =>
        ScanFatalFree(os, i + 1, taken, maxSamples);
      case Some(Accept(s)) =>
        if !CapReached(maxSamples, taken + 1) {
          ScanFatalFree(os, i + 1, taken + 1, maxSamples);
        }
    }
  }

  /** Without a cap the loop reads every row: it keeps exactly the accepted
      samples in file order and fills each bucket with exactly the rows
      skipped for that reason. */
  lemma {:induction false} ScanUncapped(os: seq<Option<Outcome>>, i: nat, taken: nat, maxSamples: Option<int>)
    requires i <= |os| && !Capped(maxSamples)
    requires FatalFree(os, i)
    ensures var r := Scan(os, i, taken, maxSamples);
            && r.Ok?
            && r.value.samples == Accepted(os, i)
            && r.value.skipped == Skips(os, i)
    decreases |os| - i
  {
    if i < |os| {
      match os[i]
      case None =>
        ScanUncapped(os, i + 1, taken, maxSamples);
      case Some(Skip(b)) =>
        ScanUncapped(os, i + 1, taken, maxSamples);
      case Some(Accept(s)) =>
        ScanUncapped(os, i + 1, taken + 1, maxSamples);
    }
  }

  /** The loop read up to line `e`: when no row before `e` is fatal and the
      rows accepted before `e` leave the cap unreached, the scan's fate is
      decided at `e`. At the end of the file it keeps exactly the accepted
      rows and the skip buckets; a fatal row at `e` aborts it with that row's
      error; an accepted row at `e` that reaches the cap ends it with exactly
      the rows up to and including `e` accounted for. */
  lemma {:induction false} ScanUpTo(os: seq<Option<Outcome>>, i: nat, taken: nat, maxSamples: Option<int>, e: nat)
    requires i <= e <= |os|
    requires taken == 0 || !CapReached(maxSamples, taken)
    requires FatalFree(os[..e], i)
    requires |Accepted(os[..e], i)| == 0 || !CapReached(maxSamples, taken + |Accepted(os[..e], i)|)
    ensures e == |os| ==> Scan(os, i, taken, maxSamples) == Ok(Acc(Accepted(os, i), Skips(os, i)))
    ensures e < |os| && os[e].Some? && os[e].value.Fatal? ==>
              Scan(os, i, taken, maxSamples) == Err(os[e].value.error)
    ensures e < |os| && os[e].Some? && os[e].value.Accept?
            && CapReached(maxSamples, taken + |Accepted(os[..e], i)| + 1) ==>
              Scan(os, i, taken, maxSamples) == Ok(Acc(Accepted(os[..e + 1], i), Skips(os[..e + 1], i)))
    decreases e - i
  {
    if i == e && e < |os| && os[e].Some? && os[e].value.Accept? {
      var q := os[..e + 1];
      assert q[e] == os[e];
      assert Accepted(q, e + 1) == [] && Skips(q, e + 1) == NoSkips;
      assert Accepted(q, e) == [os[e].value.sample] && Skips(q, e) == NoSkips;
    }
    if i < e {
      assert os[..e][i] == os[i];
      if e < |os| {
        assert os[..e + 1][i] == os[i];
      }
      if os[i].None? || os[i].value.Skip? {
        assert Accepted(os[..e], i) == Accepted(os[..e], i + 1);
        ScanUpTo(os, i + 1, taken, maxSamples, e);
        if e < |os| {
          assert Accepted(os[..e + 1], i) == Accepted(os[..e + 1], i + 1);
        }
      } else {
        assert os[i].value.Accept?;
        assert |Accepted(os[..e], i)| == 1 + |Accepted(os[..e], i + 1)|;
        assert !CapReached(maxSamples, taken + 1);
        ScanUpTo(os, i + 1, taken + 1, maxSamples, e);
        if e < |os| {
          assert Accepted(os[..e + 1], i) == [os[i].value.sample] + Accepted(os[..e + 1], i + 1);
          assert Skips(os[..e + 1], i) == Skips(os[..e + 1], i + 1);
        }
      }
    }
  }

  /** The rows before `e` of a fatal-free file are fatal-free. */
  lemma FatalFreePrefix(os: seq<Option<Outcome>>, e: nat)
    requires e <= |os| && FatalFree(os, 0)
    ensures FatalFree(os[..e], 0)
  {
    forall j | 0 <= j < e ensures os[..e][j].Some? ==> !os[..e][j].value.Fatal? {
      assert os[..e][j] == os[j];
    }
  }

  /** A non-fatal row after fatal-free rows extends them fatal-free. */
  lemma FatalFreeExtend(os: seq<Option<Outcome>>, e: nat)
    requires e < |os| && FatalFree(os[..e], 0)
    requires os[e].None? || !os[e].value.Fatal?
    ensures FatalFree(os[..e + 1], 0)
  {
    var q := os[..e + 1];
    forall j | 0 <= j < |q| ensures q[j].Some? ==> !q[j].value.Fatal? {
      if j < e {
        assert q[j] == os[..e][j];
      }
    }
  }

  /** The accepted rows before line `e` open the accepted rows of the file. */
  lemma {:induction false} AcceptedPrefix(os: seq<Option<Outcome>>, i: nat, e: nat)
    requires i <= e <= |os|
    ensures Accepted(os[..e], i) <= Accepted(os, i)
    decreases e - i
  {
    if i < e {
      assert os[..e][i] == os[i];
      AcceptedPrefix(os, i + 1, e);
      if os[i].Some? && os[i].value.Accept? {
        PrefixCons(os[i].value.sample, Accepted(os[..e], i + 1), Accepted(os, i + 1));
      }
    }
  }

  /** Every accepted row has a line: the `k`-th accepted row of `os[i..]` sits
      at a line `e` with exactly `k` accepted rows between `i` and `e`. */
  lemma {:induction false} AcceptedSlot(os: seq<Option<Outcome>>, i: nat, k: nat)
    requires i <= |os| && k < |Accepted(os, i)|
    ensures exists e :: i <= e < |os| && os[e].Some? && os[e].value.Accept? && |Accepted(os[..e], i)| == k
    decreases |os| - i
  {
    if os[i].Some? && os[i].value.Accept? && k == 0 {
      assert |Accepted(os[..i], i)| == 0;
    } else {
      var k' := if os[i].Some? && os[i].value.Accept? then k - 1 else k;
      AcceptedSlot(os, i + 1, k');
      var e :| i + 1 <= e < |os| && os[e].Some? && os[e].value.Accept? && |Accepted(os[..e], i + 1)| == k';
      assert os[..e][i] == os[i];
      assert |Accepted(os[..e], i)| == k;
    }
  }

  /** A cap of `CapBound` lets `a` accepted rows through without being reached
      exactly when `a` is below it. */
  lemma BelowCap(maxSamples: Option<int>, a: nat)
    ensures (!Capped(maxSamples) || a < CapBound(maxSamples)) ==> a == 0 || !CapReached(maxSamples, a)
    ensures Capped(maxSamples) && a + 1 == CapBound(maxSamples) ==> CapReached(maxSamples, a + 1)
  {
  }

  /** The result of `load_samples`: the shuffled samples, the skip counts and
      the labels in file order, over which the label statistics are taken. */
  datatype Loaded = Loaded(samples: seq<Sample>, skipped: Tally, labels: seq<real>) {
    /** `label_stats`. */
    function Stats(): LabelStats.Stats
      requires |labels| > 0
    {
      LabelStats.Of(labels)
    }
  }

  /** `load_samples` over already-judged lines. `draw` stands for the seeded
      generator's draws. A successful load keeps at least one sample, never
      more samples plus skips than there are non-blank rows, never more than
      the cap allows, only accepted rows, and one label per sample. */
  function LoadFrom(os: seq<Option<Outcome>>, maxSamples: Option<int>, draw: nat -> nat): (r: Result<Loaded, LoadError>)
    ensures r.Ok? ==> |r.value.samples| > 0
    ensures r.Ok? ==> |r.value.samples| + r.value.skipped.Total() <= NonBlank(os, 0)
    ensures r.Ok? && Capped(maxSamples) ==> |r.value.samples| <= CapBound(maxSamples)
    ensures r.Ok? ==> multiset(r.value.samples) <= multiset(Accepted(os, 0))
    ensures r.Ok? ==> |r.value.labels| == |r.value.samples|
  {
    var scanned := Scan(os, 0, 0, maxSamples);
    if scanned.Err? then Err(scanned.error)
    else if |scanned.value.samples| == 0 then Err(NoSamples)
    else
      ScanPrefix(os, 0, 0, maxSamples);
      ScanSeen(os, 0, 0, maxSamples);
      PrefixMultiset(scanned.value.samples, Accepted(os, 0));
      Ok(Finish(scanned.value, draw))
  }

  /** The tail of `load_samples`: shuffle the kept samples and record their
      labels, in file order, for the label statistics. */
  function Finish(acc: Acc, draw: nat -> nat): (l: Loaded)
    ensures multiset(l.samples) == multiset(acc.samples)
    ensures l.skipped == acc.skipped
    ensures l.labels == Labels(acc.samples)
  {
    Loaded(Shuffle.Shuffle(acc.samples, draw), acc.skipped, Labels(acc.samples))
  }

  /** `load_samples` fails only on a fatal row or when nothing survives, and
      succeeds whenever no row is fatal and some row is accepted. */
  lemma LoadFromErrors(os: seq<Option<Outcome>>, maxSamples: Option<int>, draw: nat -> nat)
    ensures var r := LoadFrom(os, maxSamples, draw);
            r.Err? && r.error != NoSamples ==> exists j :: 0 <= j < |os| && os[j] == Some(Fatal(r.error))
    ensures FatalFree(os, 0) && |Accepted(os, 0)| > 0 ==> LoadFrom(os, maxSamples, draw).Ok?
  {
    if FatalFree(os, 0) {
      ScanFatalFree(os, 0, 0, maxSamples);
    }
  }

  /** Without a cap and without a fatal row, the samples are a permutation of
      every accepted row, the buckets hold exactly the skipped rows, every
      non-blank row is accounted for, and the statistics cover the accepted
      labels in file order. */
  lemma LoadFromUncapped(os: seq<Option<Outcome>>, maxSamples: Option<int>, draw: nat -> nat)
    requires !Capped(maxSamples) && FatalFree(os, 0) && |Accepted(os, 0)| > 0
    ensures var r := LoadFrom(os, maxSamples, draw);
            && r.Ok?
            && multiset(r.value.samples) == multiset(Accepted(os, 0))
            && r.value.skipped == Skips(os, 0)
            && |r.value.samples| + r.value.skipped.Total() == NonBlank(os, 0)
            && r.value.labels == Labels(Accepted(os, 0))
  {
    ScanUncapped(os, 0, 0, maxSamples);
    EveryRowAccounted(os, 0);
  }

  /** The first fatal row the loop reads aborts the load with its error: a
      fatal row at line `e` with no fatal row before it, reached before the
      cap stops the loop (fewer accepted rows before it than the cap lets
      through, or no cap), decides the result. */
  lemma LoadFromFirstFatal(os: seq<Option<Outcome>>, maxSamples: Option<int>, draw: nat -> nat, e: nat)
    requires e < |os| && os[e].Some? && os[e].value.Fatal?
    requires FatalFree(os[..e], 0)
    requires !Capped(maxSamples) || |Accepted(os[..e], 0)| < CapBound(maxSamples)
    ensures LoadFrom(os, maxSamples, draw) == Err(os[e].value.error)
  {
    BelowCap(maxSamples, |Accepted(os[..e], 0)|);
    ScanUpTo(os, 0, 0, maxSamples, e);
  }

  /** The row that reaches the cap ends the load: when the accepted row at
      line `e` is the last one the cap lets through and no row before it is
      fatal, the load keeps exactly the accepted rows up to `e` (as many as
      the cap allows), counts exactly the rows skipped before `e`, and every
      non-blank row read is kept or counted once. Rows after `e`, fatal or
      not, are never read. */
  lemma LoadFromStopsAtCap(os: seq<Option<Outcome>>, maxSamples: Option<int>, draw: nat -> nat, e: nat)
    requires Capped(maxSamples) && e < |os| && os[e].Some? && os[e].value.Accept?
    requires FatalFree(os[..e], 0) && |Accepted(os[..e], 0)| + 1 == CapBound(maxSamples)
    ensures var r := LoadFrom(os, maxSamples, draw);
            && r.Ok?
            && |r.value.samples| == CapBound(maxSamples)
            && multiset(r.value.samples) == multiset(Accepted(os[..e + 1], 0))
            && r.value.skipped == Skips(os[..e + 1], 0)
            && |r.value.samples| + r.value.skipped.Total() == NonBlank(os[..e + 1], 0)
            && r.value.labels == Labels(Accepted(os[..e + 1], 0))
  {
    BelowCap(maxSamples, |Accepted(os[..e], 0)|);
    ScanUpTo(os, 0, 0, maxSamples, e);
    FatalFreeExtend(os, e);
    EveryRowAccounted(os[..e + 1], 0);
    assert |Accepted(os[..e + 1], 0)| == CapBound(maxSamples) by {
      AcceptedCount(os, e);
    }
  }

  /** One more accepted row at line `e` adds one to the accepted rows before it. */
  lemma {:induction false} AcceptedCount(os: seq<Option<Outcome>>, e: nat)
    requires e < |os| && os[e].Some? && os[e].value.Accept?
    ensures |Accepted(os[..e + 1], 0)| == |Accepted(os[..e], 0)| + 1
  {
    AcceptedSnoc(os, 0, e);
  }

  lemma {:induction false} AcceptedSnoc(os: seq<Option<Outcome>>, i: nat, e: nat)
    requires i <= e < |os|
    ensures |Accepted(os[..e + 1], i)| == |Accepted(os[..e], i)| + (if os[e].Some? && os[e].value.Accept? then 1 else 0)
    decreases e - i
  {
    var q := os[..e + 1];
    if i == e {
      assert q[e] == os[e];
      assert Accepted(q, e + 1) == [];
    } else {
      assert q[i] == os[i] && os[..e][i] == os[i];
      AcceptedSnoc(os, i + 1, e);
    }
  }

  /** A load that meets no fatal row and never reaches the cap (no cap, or
      fewer accepted rows than the cap lets through) reads every row: the
      samples are a permutation of every accepted row, the buckets hold
      exactly the skipped rows, and every non-blank row is accounted for. */
  lemma LoadFromReadsAll(os: seq<Option<Outcome>>, maxSamples: Option<int>, draw: nat -> nat)
    requires FatalFree(os, 0) && |Accepted(os, 0)| > 0
    requires !Capped(maxSamples) || |Accepted(os, 0)| < CapBound(maxSamples)
    ensures var r := LoadFrom(os, maxSamples, draw);
            && r.Ok?
            && multiset(r.value.samples) == multiset(Accepted(os, 0))
            && r.value.skipped == Skips(os, 0)
            && |r.value.samples| + r.value.skipped.Total() == NonBlank(os, 0)
            && r.value.labels == Labels(Accepted(os, 0))
  {
    assert os[..|os|] == os;
    BelowCap(maxSamples, |Accepted(os, 0)|);
    ScanUpTo(os, 0, 0, maxSamples, |os|);
    EveryRowAccounted(os, 0);
  }

  /** With no fatal row and some row accepted, the load keeps exactly the
      first `min(cap, accepted rows)` accepted rows, in some order (all of
      them when there is no cap). */
  lemma LoadFromKeeps(os: seq<Option<Outcome>>, maxSamples: Option<int>, draw: nat -> nat)
    requires FatalFree(os, 0) && |Accepted(os, 0)| > 0
    ensures var n := if Capped(maxSamples) && CapBound(maxSamples) < |Accepted(os, 0)|
                     then CapBound(maxSamples) else |Accepted(os, 0)|;
            var r := LoadFrom(os, maxSamples, draw);
            && r.Ok?
            && |r.value.samples| == n
            && multiset(r.value.samples) == multiset(Accepted(os, 0)[..n])
  {
    var all := Accepted(os, 0);
    if Capped(maxSamples) && CapBound(maxSamples) <= |all| {
      var c := CapBound(maxSamples);
      AcceptedSlot(os, 0, c - 1);
      var e :| 0 <= e < |os| && os[e].Some? && os[e].value.Accept? && |Accepted(os[..e], 0)| == c - 1;
      FatalFreePrefix(os, e);
      LoadFromStopsAtCap(os, maxSamples, draw, e);
      AcceptedCount(os, e);
      AcceptedPrefix(os, 0, e + 1);
      assert Accepted(os[..e + 1], 0) == all[..c];
    } else {
      LoadFromReadsAll(os, maxSamples, draw);
      assert all[..|all|] == all;
    }
  }

  /** `load_samples`: a successful load keeps, up to the cap, at least one
      sample, each the accepted outcome of some record line; a failure other
      than "no samples" is the error of some fatal record line. */
  function LoadSamples(lines: seq<Line>, cfg: Config, draw: nat -> nat): (r: Result<Loaded, LoadError>)
    ensures r.Ok? ==> |r.value.samples| > 0 && |r.value.labels| == |r.value.samples|
    ensures r.Ok? && Capped(cfg.maxSamples) ==> |r.value.samples| <= CapBound(cfg.maxSamples)
    ensures r.Ok? ==> forall x :: x in r.value.samples ==>
              exists i :: 0 <= i < |lines| && lines[i].Record? && Judge(lines[i].row, cfg.source, cfg.annotations) == Accept(x)
    ensures r.Err? && r.error != NoSamples ==>
              exists i :: 0 <= i < |lines| && lines[i].Record? && Judge(lines[i].row, cfg.source, cfg.annotations) == Fatal(r.error)
  {
    LoadSamplesSources(lines, cfg, draw);
    LoadFrom(Outcomes(lines, cfg), cfg.maxSamples, draw)
  }

  lemma LoadSamplesSources(lines: seq<Line>, cfg: Config, draw: nat -> nat)
    ensures var r := LoadFrom(Outcomes(lines, cfg), cfg.maxSamples, draw);
            r.Ok? ==> forall x :: x in r.value.samples ==>
              exists i :: 0 <= i < |lines| && lines[i].Record? && Judge(lines[i].row, cfg.source, cfg.annotations) == Accept(x)
    ensures var r := LoadFrom(Outcomes(lines, cfg), cfg.maxSamples, draw);
            r.Err? && r.error != NoSamples ==>
              exists i :: 0 <= i < |lines| && lines[i].Record? && Judge(lines[i].row, cfg.source, cfg.annotations) == Fatal(r.error)
  {
    var os := Outcomes(lines, cfg);
    var r := LoadFrom(os, cfg.maxSamples, draw);
    LoadFromErrors(os, cfg.maxSamples, draw);
    if r.Ok? {
      AcceptedFromRows(os, 0);
      forall x | x in r.value.samples
        ensures exists i :: 0 <= i < |lines| && lines[i].Record? && Judge(lines[i].row, cfg.source, cfg.annotations) == Accept(x)
      {
        assert x in multiset(r.value.samples);
        var j :| 0 <= j < |os| && os[j] == Some(Accept(x));
        OutcomeAt(lines, cfg, j);
      }
    } else if r.error != NoSamples {
      var j :| 0 <= j < |os| && os[j] == Some(Fatal(r.error));
      OutcomeAt(lines, cfg, j);
    }
  }

  lemma OutcomeAt(lines: seq<Line>, cfg: Config, j: nat)
    requires j < |lines| && Outcomes(lines, cfg)[j].Some?
    ensures lines[j].Record? && Judge(lines[j].row, cfg.source, cfg.annotations) == Outcomes(lines, cfg)[j].value
  {
  }

  /** Every accepted sample is the outcome of some row. */
  lemma {:induction false} AcceptedFromRows(os: seq<Option<Outcome>>, i: nat)
    requires i <= |os|
    ensures forall x :: x in Accepted(os, i) ==> exists j :: i <= j < |os| && os[j] == Some(Accept(x))
    decreases |os| - i
  {
    if i < |os| {
      AcceptedFromRows(os, i + 1);
    }
  }

  lemma PrefixMultiset<T>(a: seq<T>, b: seq<T>)
    requires a <= b
    ensures multiset(a) <= multiset(b)
  {
    assert b == a + b[|a|..];
  }
}
