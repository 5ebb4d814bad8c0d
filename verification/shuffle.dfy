/** `random.shuffle` as CPython performs it: Fisher–Yates from the last
    position down to 1, swapping position `i` with a drawn `j` in `[0, i]`.
    The generator is abstract: `draw(i)` is whatever the Mersenne Twister
    yields at step `i`, reduced to the range the generator's `_randbelow`
    guarantees. */
module Shuffle {
  import opened Seqs

  function Swap<T>(xs: seq<T>, i: nat, j: nat): (ys: seq<T>)
    requires i < |xs| && j < |xs|
    ensures |ys| == |xs| && ys[i] == xs[j] && ys[j] == xs[i]
    ensures forall k :: 0 <= k < |xs| && k != i && k != j ==> ys[k] == xs[k]
    ensures multiset(ys) == multiset(xs)
  {
    xs[i := xs[j]][j := xs[i]]
  }

  /** The shuffle steps `i, i - 1, ..., 1`. */
  function ShuffleDown<T>(xs: seq<T>, i: nat, draw: nat -> nat): (ys: seq<T>)
    requires i < |xs|
    ensures |ys| == |xs|
    ensures multiset(ys) == multiset(xs)
    decreases i
  {
    if i == 0 then xs
    else ShuffleDown(Swap(xs, i, draw(i) % (i + 1)), i - 1, draw)
  }

  /** `rng.shuffle(xs)`: a permutation of `xs`. */
  function Shuffle<T>(xs: seq<T>, draw: nat -> nat): (ys: seq<T>)
    ensures |ys| == |xs|
    ensures multiset(ys) == multiset(xs)
  {
    if |xs| == 0 then xs else ShuffleDown(xs, |xs| - 1, draw)
  }

  /** Shuffling keeps the same elements, and keeps a duplicate-free list duplicate-free. */
  lemma ShuffleSameElements<T>(xs: seq<T>, draw: nat -> nat)
    ensures forall x :: x in Shuffle(xs, draw) <==> x in xs
    ensures Distinct(xs) ==> Distinct(Shuffle(xs, draw))
  {
    var ys := Shuffle(xs, draw);
    forall x ensures x in ys <==> x in xs {
      assert x in ys <==> x in multiset(ys);
      assert x in xs <==> x in multiset(xs);
    }
    if Distinct(xs) {
      DistinctPermutation(xs, ys);
    }
  }

  function AlwaysFirst(i: nat): nat {
    0
  }

  /** With every draw 0, the last element is swapped to the front first,
      then each earlier position with position 0 in turn. */
  lemma ShuffleExample()
    ensures Shuffle([1, 2, 3], AlwaysFirst) == [2, 3, 1]
  {
    var s0 := [1, 2, 3];
    ShuffleExampleFirstStep();
    assert ShuffleDown(s0, 2, AlwaysFirst) == ShuffleDown([3, 2, 1], 1, AlwaysFirst);
    ShuffleExampleSecondStep();
  }

  lemma ShuffleExampleFirstStep()
    ensures ShuffleDown([1, 2, 3], 2, AlwaysFirst) == ShuffleDown([3, 2, 1], 1, AlwaysFirst)
  {
    var s0 := [1, 2, 3];
    assert AlwaysFirst(2) % 3 == 0;
    assert Swap(s0, 2, 0) == [3, 2, 1];
  }

  lemma ShuffleExampleSecondStep()
    ensures ShuffleDown([3, 2, 1], 1, AlwaysFirst) == [2, 3, 1]
  {
    var s1 := [3, 2, 1];
    assert AlwaysFirst(1) % 2 == 0;
    assert Swap(s1, 1, 0) == [2, 3, 1];
    assert ShuffleDown([2, 3, 1], 0, AlwaysFirst) == [2, 3, 1];
  }
}
