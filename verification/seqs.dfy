/** Sequence vocabulary shared by the feature encoder, the shuffles and the split. */
module Seqs {

  predicate Distinct<T(==)>(xs: seq<T>) {
    forall i, j :: 0 <= i < j < |xs| ==> xs[i] != xs[j]
  }

  /** A sequence is duplicate-free exactly when no element occurs twice in its multiset. */
  lemma {:induction false} DistinctMultiset<T>(xs: seq<T>)
    ensures Distinct(xs) <==> forall x :: multiset(xs)[x] <= 1
  {
    if |xs| > 0 {
      DistinctMultiset(xs[1..]);
      assert xs == [xs[0]] + xs[1..];
      assert multiset(xs) == multiset{xs[0]} + multiset(xs[1..]);
      if Distinct(xs) {
        assert Distinct(xs[1..]) by {
          forall i, j | 0 <= i < j < |xs[1..]| ensures xs[1..][i] != xs[1..][j] {
            assert xs[1..][i] == xs[i + 1] && xs[1..][j] == xs[j + 1];
          }
        }
        assert xs[0] !in xs[1..] by {
          forall k | 0 <= k < |xs[1..]| ensures xs[1..][k] != xs[0] {
            assert xs[1..][k] == xs[k + 1];
          }
        }
      } else {
        var i, j :| 0 <= i < j < |xs| && xs[i] == xs[j];
        if i == 0 {
          assert xs[1..][j - 1] == xs[0];
          assert multiset(xs)[xs[0]] >= 2;
        } else {
          assert xs[1..][i - 1] == xs[1..][j - 1];
          assert !Distinct(xs[1..]);
          var x :| multiset(xs[1..])[x] > 1;
          assert multiset(xs)[x] > 1;
        }
      }
    }
  }

  /** Rearranging a duplicate-free sequence keeps it duplicate-free. */
  lemma DistinctPermutation<T>(xs: seq<T>, ys: seq<T>)
    requires multiset(xs) == multiset(ys) && Distinct(xs)
    ensures Distinct(ys)
  {
    DistinctMultiset(xs);
    DistinctMultiset(ys);
  }

  /** In a duplicate-free sequence the set of elements has one member per position. */
  lemma {:induction false} DistinctCardinality<T>(xs: seq<T>)
    requires Distinct(xs)
    ensures |set x | x in xs| == |xs|
  {
    if |xs| > 0 {
      var rest := xs[1..];
      assert Distinct(rest) by {
        forall i, j | 0 <= i < j < |rest| ensures rest[i] != rest[j] {
          assert rest[i] == xs[i + 1] && rest[j] == xs[j + 1];
        }
      }
      DistinctCardinality(rest);
      assert xs[0] !in rest by {
        forall k | 0 <= k < |rest| ensures rest[k] != xs[0] {
          assert rest[k] == xs[k + 1];
        }
      }
      assert (set x | x in xs) == (set x | x in rest) + {xs[0]};
    }
  }

  /** Some element of a nonempty set. */
  lemma Pick<T>(s: set<T>) returns (x: T)
    requires |s| > 0
    ensures x in s
  {
    x :| x in s;
  }

  /** Shifting every element by one keeps the number of elements. */
  lemma {:induction false} ShiftCard(s: set<int>)
    ensures |set k | k in s :: k + 1| == |s|
    decreases |s|
  {
    if |s| > 0 {
      var x := Pick(s);
      ShiftCard(s - {x});
      ShiftStep(s, x);
    }
  }

  lemma ShiftStep(s: set<int>, x: int)
    requires x in s
    ensures (set k | k in s :: k + 1) == (set k | k in s - {x} :: k + 1) + {x + 1}
    ensures x + 1 !in (set k | k in s - {x} :: k + 1)
  {
    var t := set k | k in s :: k + 1;
    var u := set k | k in s - {x} :: k + 1;
    forall y | y in t ensures y in u + {x + 1} {
      var k :| k in s && y == k + 1;
      if k != x {
        assert k in s - {x};
      }
    }
  }
}
