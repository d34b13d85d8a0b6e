/**
  The complete binary tree that both balancers keep in a vector: the children of position `i`
  are `2 * i + 1` and `2 * i + 2`. Everything here is about plain sequences of integers; the
  classes and the transition system that use the tree state their invariants with these
  functions.
 */
module WeightTree {
  import opened Options

  function Parent(x: nat): nat
    requires x != 0
  {
    (x - 1) / 2
  }

  /** Position `x` lies in the subtree rooted at position `r`. */
  predicate InSubtree(r: nat, x: nat)
    decreases x
  {
    x == r || (x > r && InSubtree(r, Parent(x)))
  }

  /** Position `x` lies in the left subtree of position `j`. */
  predicate InLeft(j: nat, x: nat) {
    InSubtree(2 * j + 1, x)
  }

  function Sum(c: seq<int>): int {
    if c == [] then 0 else Sum(c[..|c| - 1]) + c[|c| - 1]
  }

  /** The sum of `c[x]` over all positions `x` inside the subtree of `r`. */
  function SubtreeSum(c: seq<int>, r: nat): int {
    if c == [] then 0
    else SubtreeSum(c[..|c| - 1], r) + if InSubtree(r, |c| - 1) then c[|c| - 1] else 0
  }

  /** What the `left` counter of position `j` has to hold. */
  function LeftSum(c: seq<int>, j: nat): int {
    SubtreeSum(c, 2 * j + 1)
  }

  // ----- Shape -----

  lemma SubtreeIsBelow(r: nat, x: nat)
    ensures InSubtree(r, x) ==> r <= x
  {
  }

  lemma {:induction false} SubtreeNests(r: nat, x: nat, y: nat)
    requires InSubtree(r, x) && InSubtree(x, y)
    ensures InSubtree(r, y)
    decreases y
  {
    if x != y {
      SubtreeNests(r, x, Parent(y));
      SubtreeIsBelow(r, Parent(y));
    }
  }

  lemma {:induction false} RootContainsAll(x: nat)
    ensures InSubtree(0, x)
    decreases x
  {
    if x != 0 {
      RootContainsAll(Parent(x));
    }
  }

  /** A subtree is its root, its left subtree and its right subtree, and these do not meet. */
  lemma {:induction false} SubtreeSplits(r: nat, x: nat)
    ensures InSubtree(r, x) <==> x == r || InSubtree(2 * r + 1, x) || InSubtree(2 * r + 2, x)
    ensures InSubtree(2 * r + 1, x) ==> x > r && !InSubtree(2 * r + 2, x)
    ensures InSubtree(2 * r + 2, x) ==> x > r
    decreases x
  {
    if x > r {
      SubtreeSplits(r, Parent(x));
      if x == 2 * r + 1 || x == 2 * r + 2 {
        assert Parent(x) == r;
      }
    }
  }

  /** One step of the climb: the positions that have `x` on their left are `x`'s parent, when `x` is
      its left child, and those that have that parent on their left. */
  lemma ClimbStep(j: nat, x: nat)
    requires x != 0
    ensures InLeft(j, x) <==> x == 2 * j + 1 || InLeft(j, Parent(x))
    ensures x == 2 * j + 1 ==> j == Parent(x) && !InLeft(j, Parent(x))
    ensures InLeft(j, x) ==> j < x
  {
    SubtreeIsBelow(2 * j + 1, x);
    SubtreeIsBelow(2 * j + 1, Parent(x));
  }

  lemma NothingLeftOfRoot(j: nat)
    ensures !InLeft(j, 0)
  {
  }

  // ----- Sums under changes of the vector -----

  lemma {:induction false} SumUpdate(c: seq<int>, x: nat, v: int)
    requires x < |c|
    ensures Sum(c[x := v]) == Sum(c) - c[x] + v
  {
    var n := |c| - 1;
    if x == n {
      assert c[x := v][..n] == c[..n];
    } else {
      assert c[x := v][..n] == c[..n][x := v];
      SumUpdate(c[..n], x, v);
    }
  }

  lemma {:induction false} SubtreeSumUpdate(c: seq<int>, r: nat, x: nat, v: int)
    requires x < |c|
    ensures SubtreeSum(c[x := v], r) == SubtreeSum(c, r) + if InSubtree(r, x) then v - c[x] else 0
  {
    var n := |c| - 1;
    if x == n {
      assert c[x := v][..n] == c[..n];
    } else {
      assert c[x := v][..n] == c[..n][x := v];
      SubtreeSumUpdate(c[..n], r, x, v);
    }
  }

  lemma SumAppend(c: seq<int>, v: int)
    ensures Sum(c + [v]) == Sum(c) + v
  {
    assert (c + [v])[..|c|] == c;
  }

  lemma SubtreeSumAppend(c: seq<int>, r: nat, v: int)
    ensures SubtreeSum(c + [v], r) == SubtreeSum(c, r) + if InSubtree(r, |c|) then v else 0
  {
    assert (c + [v])[..|c|] == c;
  }

  lemma {:induction false} SubtreeSumBeyond(c: seq<int>, r: nat)
    requires r >= |c|
    ensures SubtreeSum(c, r) == 0
  {
    if c != [] {
      SubtreeSumBeyond(c[..|c| - 1], r);
      SubtreeIsBelow(r, |c| - 1);
    }
  }

  lemma {:induction false} SubtreeSumOfRoot(c: seq<int>)
    ensures SubtreeSum(c, 0) == Sum(c)
  {
    if c != [] {
      SubtreeSumOfRoot(c[..|c| - 1]);
      RootContainsAll(|c| - 1);
    }
  }

  /** The recursive reading of a subtree sum, on which the search rests. */
  lemma {:induction false} SubtreeSumSplits(c: seq<int>, r: nat)
    ensures SubtreeSum(c, r) ==
            (if r < |c| then c[r] else 0) + SubtreeSum(c, 2 * r + 1) + SubtreeSum(c, 2 * r + 2)
  {
    if c != [] {
      SubtreeSumSplits(c[..|c| - 1], r);
      SubtreeSplits(r, |c| - 1);
      if r >= |c| - 1 {
        SubtreeSumBeyond(c[..|c| - 1], r);
      }
    }
  }

  ghost predicate AllAtLeast(c: seq<int>, m: int) {
    forall i :: 0 <= i < |c| ==> c[i] >= m
  }

  lemma {:induction false} SubtreeSumNonNegative(c: seq<int>, r: nat)
    requires AllAtLeast(c, 0)
    ensures SubtreeSum(c, r) >= 0
  {
    if c != [] {
      SubtreeSumNonNegative(c[..|c| - 1], r);
    }
  }

  lemma {:induction false} SumAtLeast(c: seq<int>, m: int)
    requires AllAtLeast(c, m)
    ensures Sum(c) >= |c| * m
  {
    if c != [] {
      SumAtLeast(c[..|c| - 1], m);
      assert |c| * m == (|c| - 1) * m + m;
    }
  }

  lemma {:induction false} SumAtMost(c: seq<int>, m: int)
    requires forall i :: 0 <= i < |c| ==> c[i] <= m
    ensures Sum(c) <= |c| * m
  {
    if c != [] {
      SumAtMost(c[..|c| - 1], m);
      assert |c| * m == (|c| - 1) * m + m;
    }
  }

  /** No subtree outweighs the whole tree. */
  lemma {:induction false} SubtreeSumAtMostSum(c: seq<int>, r: nat)
    requires AllAtLeast(c, 0)
    ensures SubtreeSum(c, r) <= Sum(c)
  {
    if c != [] {
      SubtreeSumAtMostSum(c[..|c| - 1], r);
    }
  }
}
