/** The training sample the loader produces and the split, the metrics and
    the trainer consume. */
module Dataset {
  import opened Wrappers

  /** `{"features", "label", "label16", "gameId"}`: the position's input
      indices, the sign-normalised evaluation (`labelCp`, since `label` is a
      reserved word here), the optional secondary evaluation normalised the
      same way, and the game it came from. */
  datatype Sample = Sample(features: seq<int>, labelCp: real, label16: Option<real>, gameId: int)

  function Labels(samples: seq<Sample>): (ls: seq<real>)
    ensures |ls| == |samples| && forall i :: 0 <= i < |samples| ==> ls[i] == samples[i].labelCp
  {
    seq(|samples|, i requires 0 <= i < |samples| => samples[i].labelCp)
  }

  function GameIds(samples: seq<Sample>): set<int> {
    set s | s in samples :: s.gameId
  }
}
