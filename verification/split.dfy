/** `split_by_game`: the distinct game ids, sorted and then shuffled, are cut
    at 90% (`int(len(games) * 0.9)`, modelled as `n * 9 / 10`); samples of the
    games before the cut train, all others validate. Both lists keep the
    input order. */
module Split {
  import opened Dataset
  import opened Seqs
  import Shuffle

  predicate Increasing(xs: seq<int>) {
    forall i, j :: 0 <= i < j < |xs| ==> xs[i] < xs[j]
  }

  /** Inserts `x` into an increasing list, leaving it unchanged when `x` is already there. */
  function Insert(x: int, xs: seq<int>): (r: seq<int>)
    requires Increasing(xs)
    ensures Increasing(r)
    ensures forall y :: y in r <==> y == x || y in xs
  {
    if |xs| == 0 then [x]
    else if x < xs[0] then
      assert forall y :: y in xs ==> xs[0] <= y;
      [x] + xs
    else if x == xs[0] then xs
    else
      var tail := Insert(x, xs[1..]);
      assert forall y :: y in xs[1..] ==> xs[0] < y;
      ConsIncreasing(xs[0], tail);
      assert xs == [xs[0]] + xs[1..];
      [xs[0]] + tail
  }

  /** A head below every element of an increasing list keeps it increasing. */
  lemma ConsIncreasing(h: int, t: seq<int>)
    requires Increasing(t)
    requires forall y :: y in t ==> h < y
    ensures Increasing([h] + t)
  {
    forall i, j | 0 <= i < j < |[h] + t|
      ensures ([h] + t)[i] < ([h] + t)[j]
    {
      assert ([h] + t)[j] == t[j - 1];
      if i > 0 {
        assert ([h] + t)[i] == t[i - 1];
      } else {
        assert t[j - 1] in t;
      }
    }
  }

  /** `sorted({sample["gameId"] for sample in samples})`. */
  function SortedGames(samples: seq<Sample>): (games: seq<int>)
    ensures Increasing(games)
    ensures forall g :: g in games <==> g in GameIds(samples)
  {
    if |samples| == 0 then []
    else
      var rest := SortedGames(samples[1..]);
      assert forall s :: s in samples <==> s == samples[0] || s in samples[1..];
      Insert(samples[0].gameId, rest)
  }

  /** `int(len(games) * 0.9)`. */
  function Cutoff(n: nat): (c: nat)
    ensures c <= n
    ensures n > 0 ==> c < n
  {
    n * 9 / 10
  }

  /** The games before the cut, after the seeded shuffle `draw`. */
  function TrainGames(samples: seq<Sample>, draw: nat -> nat): set<int> {
    var games := Shuffle.Shuffle(SortedGames(samples), draw);
    set g | g in games[..Cutoff(|games|)]
  }

  /** The samples of `samples` whose game is in `games` exactly when `inside`,
      in their original order (the two list comprehensions). */
  function Select(samples: seq<Sample>, games: set<int>, inside: bool): (r: seq<Sample>)
    ensures forall s :: s in r <==> s in samples && (s.gameId in games) == inside
  {
    if |samples| == 0 then []
    else
      var rest := Select(samples[1..], games, inside);
      assert forall s :: s in samples <==> s == samples[0] || s in samples[1..];
      if (samples[0].gameId in games) == inside then [samples[0]] + rest else rest
  }

  datatype Halves = Halves(train: seq<Sample>, val: seq<Sample>)

  /** `split_by_game`: every sample lands in exactly one half, and no game
      has samples in both. */
  function SplitByGame(samples: seq<Sample>, draw: nat -> nat): (h: Halves)
    ensures multiset(h.train) + multiset(h.val) == multiset(samples)
    ensures forall s, t :: s in h.train && t in h.val ==> s.gameId != t.gameId
  {
    var trainGames := TrainGames(samples, draw);
    SelectInterleaves(samples, trainGames);
    InterleavesMultiset(Select(samples, trainGames, true), Select(samples, trainGames, false), samples);
    Halves(Select(samples, trainGames, true), Select(samples, trainGames, false))
  }

  /** `c` is a merge of `a` and `b` that keeps the order of each. */
  predicate Interleaves<T(==)>(a: seq<T>, b: seq<T>, c: seq<T>)
    decreases |c|
  {
    if |c| == 0 then a == [] && b == []
    else
      || (|a| > 0 && a[0] == c[0] && Interleaves(a[1..], b, c[1..]))
      || (|b| > 0 && b[0] == c[0] && Interleaves(a, b[1..], c[1..]))
  }

  lemma {:induction false} SelectInterleaves(samples: seq<Sample>, games: set<int>)
    ensures Interleaves(Select(samples, games, true), Select(samples, games, false), samples)
  {
    if |samples| > 0 {
      SelectInterleaves(samples[1..], games);
      var a := Select(samples[1..], games, true);
      var b := Select(samples[1..], games, false);
      if samples[0].gameId in games {
        assert ([samples[0]] + a)[1..] == a;
      } else {
        assert ([samples[0]] + b)[1..] == b;
      }
    }
  }

  /** A merge holds exactly the elements of its two parts, counted with multiplicity. */
  lemma {:induction false} InterleavesMultiset<T>(a: seq<T>, b: seq<T>, c: seq<T>)
    requires Interleaves(a, b, c)
    ensures multiset(a) + multiset(b) == multiset(c)
    decreases |c|
  {
    if |c| > 0 {
      assert c == [c[0]] + c[1..];
      if |a| > 0 && a[0] == c[0] && Interleaves(a[1..], b, c[1..]) {
        InterleavesMultiset(a[1..], b, c[1..]);
        assert a == [a[0]] + a[1..];
      } else {
        InterleavesMultiset(a, b[1..], c[1..]);
        assert b == [b[0]] + b[1..];
      }
    }
  }

  /** The split is a partition that keeps the input order on both sides:
      every sample lands in exactly one half, with its multiplicity. */
  lemma SplitPartition(samples: seq<Sample>, draw: nat -> nat)
    ensures var h := SplitByGame(samples, draw);
            && Interleaves(h.train, h.val, samples)
            && multiset(h.train) + multiset(h.val) == multiset(samples)
  {
    var h := SplitByGame(samples, draw);
    SelectInterleaves(samples, TrainGames(samples, draw));
    InterleavesMultiset(h.train, h.val, samples);
  }

  /** No game has samples on both sides, and a sample trains exactly when its
      game is one of the training games. */
  lemma SplitByGameSeparates(samples: seq<Sample>, draw: nat -> nat)
    ensures var h := SplitByGame(samples, draw);
            var games := TrainGames(samples, draw);
            && (forall s :: s in h.train <==> s in samples && s.gameId in games)
            && (forall s :: s in h.val <==> s in samples && s.gameId !in games)
            && (forall s, t :: s in h.train && t in h.val ==> s.gameId != t.gameId)
  {
  }

  /** The training games are `n * 9 / 10` of the `n` distinct games of the input. */
  lemma TrainGameCount(samples: seq<Sample>, draw: nat -> nat)
    ensures TrainGames(samples, draw) <= GameIds(samples)
    ensures |TrainGames(samples, draw)| == Cutoff(|GameIds(samples)|)
  {
    var sorted := SortedGames(samples);
    var games := Shuffle.Shuffle(sorted, draw);
    assert Distinct(sorted);
    Shuffle.ShuffleSameElements(sorted, draw);
    DistinctCardinality(sorted);
    assert (set x | x in sorted) == GameIds(samples);
    var prefix := games[..Cutoff(|games|)];
    assert Distinct(prefix) by {
      forall i, j | 0 <= i < j < |prefix| ensures prefix[i] != prefix[j] {
        assert prefix[i] == games[i] && prefix[j] == games[j];
      }
    }
    DistinctCardinality(prefix);
    forall g | g in prefix ensures g in GameIds(samples) {
      assert g in games;
    }
  }

  /** A smaller subset leaves some element out. */
  lemma Leftover<T>(a: set<T>, b: set<T>) returns (x: T)
    requires a <= b && |a| < |b|
    ensures x in b && x !in a
  {
    assert b == a + (b - a);
    assert |b - a| > 0;
    x :| x in b - a;
  }

  /** Some game of a nonempty input is not a training game. */
  lemma ValidationGame(samples: seq<Sample>, draw: nat -> nat) returns (s: Sample)
    requires |samples| > 0
    ensures s in samples && s.gameId !in TrainGames(samples, draw)
  {
    var all := GameIds(samples);
    TrainGameCount(samples, draw);
    assert samples[0].gameId in all;
    var g := Leftover(TrainGames(samples, draw), all);
    s :| s in samples && s.gameId == g;
  }

  /** Whenever there is a sample, some game is left for validation, so the
      validation half is never empty; a single game validates entirely. */
  lemma ValidationNonEmpty(samples: seq<Sample>, draw: nat -> nat)
    requires |samples| > 0
    ensures |SplitByGame(samples, draw).val| > 0
    ensures |GameIds(samples)| == 1 ==> SplitByGame(samples, draw).train == []
  {
    var h := SplitByGame(samples, draw);
    var s := ValidationGame(samples, draw);
    SplitByGameSeparates(samples, draw);
    assert s in h.val;
    if |GameIds(samples)| == 1 {
      TrainGameCount(samples, draw);
      assert TrainGames(samples, draw) == {};
      SelectNone(samples);
    }
  }

  /** With no training game nothing trains. */
  lemma {:induction false} SelectNone(samples: seq<Sample>)
    ensures Select(samples, {}, true) == []
  {
    if |samples| > 0 {
      SelectNone(samples[1..]);
    }
  }
}
