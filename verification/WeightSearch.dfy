/**
  The search both balancers run in their weight tree, set against a search that needs no tree:
  walk the nodes in in-order, subtracting weights from the dice, and stop at the first node whose
  weight exceeds what is left of it.
 */
module WeightSearch {
  import opened Options
  import opened WeightTree

  /** The descent: where it stops, or None when it walks off the right edge of the vector. */
  function Descend(ws: seq<int>, r: nat, dice: int): Option<nat>
    decreases |ws| - r
  {
    if r >= |ws| then None
    else
      var left := LeftSum(ws, r);
      if dice < left then Descend(ws, 2 * r + 1, dice)
      else if dice >= left + ws[r] then Descend(ws, 2 * r + 2, dice - left - ws[r])
      else Some(r)
  }

  /** How many nodes the descent looks at. */
  function Visited(ws: seq<int>, r: nat, dice: int): nat
    decreases |ws| - r
  {
    if r >= |ws| then 0
    else
      var left := LeftSum(ws, r);
      if dice < left then 1 + Visited(ws, 2 * r + 1, dice)
      else if dice >= left + ws[r] then 1 + Visited(ws, 2 * r + 2, dice - left - ws[r])
      else 1
  }

  // ----- The linear scan -----

  /** The positions of the subtree of `r` in a vector of length `n`, left to right. */
  function InOrder(n: nat, r: nat): seq<nat>
    decreases n - r
  {
    if r >= n then [] else InOrder(n, 2 * r + 1) + [r] + InOrder(n, 2 * r + 2)
  }

  ghost predicate Within(order: seq<nat>, n: nat) {
    forall k :: 0 <= k < |order| ==> order[k] < n
  }

  ghost predicate Unique(order: seq<nat>) {
    forall k, l :: 0 <= k < l < |order| ==> order[k] != order[l]
  }

  lemma {:induction false} InOrderWithin(n: nat, r: nat)
    ensures Within(InOrder(n, r), n)
    decreases n - r
  {
    if r < n {
      InOrderWithin(n, 2 * r + 1);
      InOrderWithin(n, 2 * r + 2);
    }
  }

  lemma {:induction false} InOrderMembers(n: nat, r: nat, x: nat)
    ensures x in InOrder(n, r) <==> x < n && InSubtree(r, x)
    decreases n - r
  {
    SubtreeIsBelow(r, x);
    if r < n {
      InOrderMembers(n, 2 * r + 1, x);
      InOrderMembers(n, 2 * r + 2, x);
      SubtreeSplits(r, x);
    }
  }

  lemma {:induction false} InOrderUnique(n: nat, r: nat)
    ensures Unique(InOrder(n, r))
    decreases n - r
  {
    if r < n {
      var a, b := InOrder(n, 2 * r + 1), InOrder(n, 2 * r + 2);
      InOrderUnique(n, 2 * r + 1);
      InOrderUnique(n, 2 * r + 2);
      forall x: nat ensures !(x in a && x in b) && (x == r ==> x !in a && x !in b) {
        InOrderMembers(n, 2 * r + 1, x);
        InOrderMembers(n, 2 * r + 2, x);
        SubtreeSplits(r, x);
      }
      UniqueAround(a, r, b);
    }
  }

  lemma UniqueAround(a: seq<nat>, r: nat, b: seq<nat>)
    requires Unique(a) && Unique(b) && r !in a && r !in b && forall x: nat :: !(x in a && x in b)
    ensures Unique(a + [r] + b)
  {
    var all := a + [r] + b;
    forall k, l | 0 <= k < l < |all| ensures all[k] != all[l] {
      assert k < |a| ==> all[k] in a;
      assert l > |a| ==> all[l] in b;
    }
  }

  function WeightOf(ws: seq<int>, order: seq<nat>): int
    requires Within(order, |ws|)
  {
    if order == [] then 0 else ws[order[0]] + WeightOf(ws, order[1..])
  }

  /** The first position of `order` at which the running weight exceeds `dice`. */
  function Scan(ws: seq<int>, order: seq<nat>, dice: int): Option<nat>
    requires Within(order, |ws|)
  {
    if order == [] then None
    else if dice < ws[order[0]] then Some(order[0])
    else Scan(ws, order[1..], dice - ws[order[0]])
  }

  lemma {:induction false} WeightOfConcat(ws: seq<int>, a: seq<nat>, b: seq<nat>)
    requires Within(a, |ws|) && Within(b, |ws|)
    ensures Within(a + b, |ws|) && WeightOf(ws, a + b) == WeightOf(ws, a) + WeightOf(ws, b)
  {
    if a == [] {
      assert a + b == b;
    } else {
      assert (a + b)[1..] == a[1..] + b;
      WeightOfConcat(ws, a[1..], b);
    }
  }

  lemma {:induction false} WeightOfNonNegative(ws: seq<int>, order: seq<nat>)
    requires Within(order, |ws|) && AllAtLeast(ws, 0)
    ensures WeightOf(ws, order) >= 0
  {
    if order != [] {
      WeightOfNonNegative(ws, order[1..]);
    }
  }

  lemma {:induction false} ScanConcat(ws: seq<int>, a: seq<nat>, b: seq<nat>, dice: int)
    requires Within(a, |ws|) && Within(b, |ws|) && AllAtLeast(ws, 0) && dice >= 0
    ensures Within(a + b, |ws|)
    ensures Scan(ws, a + b, dice) ==
            if dice < WeightOf(ws, a) then Scan(ws, a, dice) else Scan(ws, b, dice - WeightOf(ws, a))
    ensures dice < WeightOf(ws, a) ==> Scan(ws, a, dice).Some?
    decreases a
  {
    if a == [] {
      assert a + b == b;
    } else {
      assert (a + b)[1..] == a[1..] + b;
      WeightOfNonNegative(ws, a[1..]);
      if dice >= ws[a[0]] {
        ScanConcat(ws, a[1..], b, dice - ws[a[0]]);
      }
    }
  }

  lemma {:induction false} WeightOfInOrder(ws: seq<int>, r: nat)
    ensures Within(InOrder(|ws|, r), |ws|)
    ensures WeightOf(ws, InOrder(|ws|, r)) == SubtreeSum(ws, r)
    decreases |ws| - r
  {
    InOrderWithin(|ws|, r);
    if r < |ws| {
      var a, b := InOrder(|ws|, 2 * r + 1), InOrder(|ws|, 2 * r + 2);
      WeightOfInOrder(ws, 2 * r + 1);
      WeightOfInOrder(ws, 2 * r + 2);
      WeightOfConcat(ws, [r], b);
      WeightOfConcat(ws, a, [r] + b);
      assert a + ([r] + b) == InOrder(|ws|, r);
      assert [r][1..] == [];
      SubtreeSumSplits(ws, r);
    } else {
      SubtreeSumBeyond(ws, r);
    }
  }

  /** The tree search finds exactly what the linear scan over the in-order finds, for every dice. */
  lemma {:induction false} DescendIsScan(ws: seq<int>, r: nat, dice: int)
    requires AllAtLeast(ws, 0) && dice >= 0
    ensures Within(InOrder(|ws|, r), |ws|)
    ensures Descend(ws, r, dice) == Scan(ws, InOrder(|ws|, r), dice)
    decreases |ws| - r
  {
    InOrderWithin(|ws|, r);
    if r < |ws| {
      var a, b := InOrder(|ws|, 2 * r + 1), InOrder(|ws|, 2 * r + 2);
      InOrderWithin(|ws|, 2 * r + 1);
      InOrderWithin(|ws|, 2 * r + 2);
      WeightOfInOrder(ws, 2 * r + 1);
      ScanConcat(ws, a, [r] + b, dice);
      assert a + ([r] + b) == InOrder(|ws|, r);
      assert ([r] + b)[1..] == b;
      var left := LeftSum(ws, r);
      if dice < left {
        DescendIsScan(ws, 2 * r + 1, dice);
      } else if dice >= left + ws[r] {
        DescendIsScan(ws, 2 * r + 2, dice - left - ws[r]);
      }
    }
  }

  // ----- Which dice reach which node -----

  /** The weight in front of the `k`th position of `order`. */
  function Before(ws: seq<int>, order: seq<nat>, k: nat): int
    requires Within(order, |ws|) && k <= |order|
  {
    WeightOf(ws, order[..k])
  }

  lemma {:induction false} ScanHits(ws: seq<int>, order: seq<nat>, k: nat, dice: int)
    requires Within(order, |ws|) && Unique(order) && k < |order| && AllAtLeast(ws, 0) && dice >= 0
    ensures Scan(ws, order, dice) == Some(order[k]) <==>
            Before(ws, order, k) <= dice < Before(ws, order, k) + ws[order[k]]
    decreases order
  {
    var lo := Before(ws, order, k);
    ScanConcat(ws, order[..k], order[k..], dice);
    assert order[..k] + order[k..] == order;
    if dice < lo {
      ScanMember(ws, order[..k], dice);
      assert order[k] !in order[..k];
    } else {
      ScanFirst(ws, order[k..], dice - lo);
    }
  }

  lemma ScanFirst(ws: seq<int>, order: seq<nat>, dice: int)
    requires Within(order, |ws|) && Unique(order) && order != [] && AllAtLeast(ws, 0) && dice >= 0
    ensures Scan(ws, order, dice) == Some(order[0]) <==> dice < ws[order[0]]
  {
    if dice >= ws[order[0]] {
      ScanMember(ws, order[1..], dice - ws[order[0]]);
    }
  }

  lemma {:induction false} ScanMember(ws: seq<int>, order: seq<nat>, dice: int)
    requires Within(order, |ws|)
    ensures var s := Scan(ws, order, dice); s.Some? ==> s.value in order
  {
    if order != [] {
      ScanMember(ws, order[1..], dice - ws[order[0]]);
    }
  }

  /** A dice of exactly the total weight is the one that falls off the right edge. */
  lemma DescendFallsOff(ws: seq<int>, dice: int)
    requires AllAtLeast(ws, 0) && dice >= 0
    ensures Descend(ws, 0, dice) == None <==> dice >= Sum(ws)
    ensures dice < Sum(ws) ==> Descend(ws, 0, dice).Some?
  {
    var order := InOrder(|ws|, 0);
    DescendIsScan(ws, 0, dice);
    WeightOfInOrder(ws, 0);
    SubtreeSumOfRoot(ws);
    ScanConcat(ws, order, [], dice);
    assert order + [] == order;
  }

  /** The position whose interval starts at 0: the leftmost one. */
  function Leftmost(n: nat, r: nat): nat
    requires r < n
    decreases n - r
  {
    if 2 * r + 1 < n then Leftmost(n, 2 * r + 1) else r
  }

  lemma {:induction false} LeftmostIsFirst(n: nat, r: nat)
    requires r < n
    ensures InOrder(n, r) != [] && InOrder(n, r)[0] == Leftmost(n, r)
    decreases n - r
  {
    if 2 * r + 1 < n {
      LeftmostIsFirst(n, 2 * r + 1);
    } else {
      assert InOrder(n, 2 * r + 1) == [];
    }
  }

  ghost function DiceHitting(ws: seq<int>, i: nat): set<int> {
    set dice | 1 <= dice <= Sum(ws) && Descend(ws, 0, dice) == Some(i)
  }

  ghost function Interval(lo: int, hi: int): set<int>
    decreases hi - lo
  {
    if lo >= hi then {} else Interval(lo, hi - 1) + {hi - 1}
  }

  lemma {:induction false} IntervalMembers(lo: int, hi: int)
    ensures forall x :: x in Interval(lo, hi) <==> lo <= x < hi
    ensures |Interval(lo, hi)| == if lo <= hi then hi - lo else 0
    decreases hi - lo
  {
    if lo < hi {
      IntervalMembers(lo, hi - 1);
    }
  }

  /** The dice that reach the `k`th node of the in-order are those between the weight in front of it
      and that plus its own. */
  lemma HitInterval(ws: seq<int>, k: nat, dice: int)
    requires AllAtLeast(ws, 0) && k < |InOrder(|ws|, 0)| && dice >= 0
    ensures Within(InOrder(|ws|, 0), |ws|)
    ensures var order := InOrder(|ws|, 0);
            Descend(ws, 0, dice) == Some(order[k]) <==>
            Before(ws, order, k) <= dice < Before(ws, order, k) + ws[order[k]]
  {
    InOrderWithin(|ws|, 0);
    InOrderUnique(|ws|, 0);
    DescendIsScan(ws, 0, dice);
    ScanHits(ws, InOrder(|ws|, 0), k, dice);
  }

  lemma BeforeBounds(ws: seq<int>, k: nat)
    requires AllAtLeast(ws, 0) && k < |InOrder(|ws|, 0)|
    ensures Within(InOrder(|ws|, 0), |ws|)
    ensures var order := InOrder(|ws|, 0);
            0 <= Before(ws, order, k) && Before(ws, order, k) + ws[order[k]] <= Sum(ws)
  {
    var order := InOrder(|ws|, 0);
    WeightOfInOrder(ws, 0);
    SubtreeSumOfRoot(ws);
    WeightOfConcat(ws, order[..k], order[k..]);
    assert order[..k] + order[k..] == order;
    WeightOfNonNegative(ws, order[..k]);
    WeightOfNonNegative(ws, order[k..][1..]);
  }

  lemma BeforePositive(ws: seq<int>, order: seq<nat>, k: nat)
    requires AllAtLeast(ws, 1) && Within(order, |ws|) && 0 < k <= |order|
    ensures Before(ws, order, k) >= 1
  {
    assert order[..k][0] == order[0];
    WeightOfNonNegative(ws, order[..k][1..]);
  }

  /**
    The distribution of the selection: of the dice 1 .. total, a node is reached by exactly as many
    as its weight, the leftmost node by one fewer, because the dice 0 is never thrown; the dice
    `total` reaches none.
   */
  lemma HitsAreWeights(ws: seq<int>, i: nat)
    requires i < |ws| && AllAtLeast(ws, 1)
    ensures |DiceHitting(ws, i)| == ws[i] - if i == Leftmost(|ws|, 0) then 1 else 0
    ensures Descend(ws, 0, Sum(ws)) == None
  {
    SumAtLeast(ws, 1);
    DescendFallsOff(ws, Sum(ws));
    InOrderMembers(|ws|, 0, i);
    RootContainsAll(i);
    var k: nat :| k < |InOrder(|ws|, 0)| && InOrder(|ws|, 0)[k] == i;
    hide InOrder, DiceHitting, Descend, Sum, Leftmost;
    var lo := DiceAreInterval(ws, k);
    IntervalMembers(if k == 0 then 1 else lo, lo + ws[i]);
    FirstIsLeftmost(|ws|, k);
  }

  /** A dice that is thrown hits the `k`th node of the in-order exactly if it falls into the node's interval. */
  lemma HitsInside(ws: seq<int>, k: nat, lo: int, dice: int)
    requires AllAtLeast(ws, 0) && k < |InOrder(|ws|, 0)|
    requires Within(InOrder(|ws|, 0), |ws|) && lo == Before(ws, InOrder(|ws|, 0), k) && 0 <= lo && (k > 0 ==> lo >= 1)
    requires lo + ws[InOrder(|ws|, 0)[k]] <= Sum(ws) && (k == 0 ==> lo == 0)
    ensures var i := InOrder(|ws|, 0)[k];
            dice in DiceHitting(ws, i) <==> (if k == 0 then 1 else lo) <= dice < lo + ws[i]
  {
    hide InOrder, Before, Descend;
    if dice >= 1 {
      HitInterval(ws, k, dice);
    }
  }

  lemma DiceAreInterval(ws: seq<int>, k: nat) returns (lo: int)
    requires AllAtLeast(ws, 1) && k < |InOrder(|ws|, 0)|
    ensures InOrder(|ws|, 0)[k] < |ws| && lo >= 0 && (k == 0 ==> lo == 0)
    ensures var i := InOrder(|ws|, 0)[k];
            DiceHitting(ws, i) == Interval(if k == 0 then 1 else lo, lo + ws[i])
  {
    var order := InOrder(|ws|, 0);
    BeforeBounds(ws, k);
    lo := Before(ws, order, k);
    assert order[..0] == [];
    if k > 0 {
      BeforePositive(ws, order, k);
    }
    var first, beyond := if k == 0 then 1 else lo, lo + ws[order[k]];
    hide InOrder, Before, DiceHitting;
    IntervalMembers(first, beyond);
    forall dice ensures dice in DiceHitting(ws, order[k]) <==> dice in Interval(first, beyond) {
      HitsInside(ws, k, lo, dice);
    }
  }

  lemma FirstIsLeftmost(n: nat, k: nat)
    requires n > 0 && k < |InOrder(n, 0)|
    ensures k == 0 <==> InOrder(n, 0)[k] == Leftmost(n, 0)
  {
    LeftmostIsFirst(n, 0);
    InOrderUnique(n, 0);
  }

  // ----- How much of a dice is left where it stops -----

  function RestOf(ws: seq<int>, r: nat, dice: int): int
    decreases |ws| - r
  {
    if r >= |ws| then dice
    else
      var left := LeftSum(ws, r);
      if dice < left then RestOf(ws, 2 * r + 1, dice)
      else if dice >= left + ws[r] then RestOf(ws, 2 * r + 2, dice - left - ws[r])
      else dice - left
  }

  lemma {:induction false} RestIsSmaller(ws: seq<int>, r: nat, dice: int)
    requires dice >= 0 && Descend(ws, r, dice).Some?
    ensures Descend(ws, r, dice).value < |ws| && 0 <= RestOf(ws, r, dice) < ws[Descend(ws, r, dice).value]
    decreases |ws| - r
  {
    var left := LeftSum(ws, r);
    if dice < left {
      RestIsSmaller(ws, 2 * r + 1, dice);
    } else if dice >= left + ws[r] {
      RestIsSmaller(ws, 2 * r + 2, dice - left - ws[r]);
    }
  }

  ghost function Place(n: nat, i: nat): (k: nat)
    requires i < n
    ensures k < |InOrder(n, 0)| && InOrder(n, 0)[k] == i
  {
    InOrderMembers(n, 0, i);
    RootContainsAll(i);
    var k: nat :| k < |InOrder(n, 0)| && InOrder(n, 0)[k] == i;
    k
  }

  /** The weight of all nodes that come before `i` in the in-order. */
  ghost function InFront(ws: seq<int>, i: nat): int
    requires i < |ws|
  {
    InOrderWithin(|ws|, 0);
    Before(ws, InOrder(|ws|, 0), Place(|ws|, i))
  }

  lemma InFrontOfPlace(ws: seq<int>, k: nat)
    requires k < |InOrder(|ws|, 0)|
    ensures Within(InOrder(|ws|, 0), |ws|)
    ensures InFront(ws, InOrder(|ws|, 0)[k]) == Before(ws, InOrder(|ws|, 0), k)
  {
    InOrderWithin(|ws|, 0);
    InOrderUnique(|ws|, 0);
    assert Place(|ws|, InOrder(|ws|, 0)[k]) == k;
  }

  lemma DescendMember(ws: seq<int>, r: nat, dice: int)
    requires AllAtLeast(ws, 0) && dice >= 0
    ensures Descend(ws, r, dice).Some? ==> Descend(ws, r, dice).value in InOrder(|ws|, r)
  {
    DescendIsScan(ws, r, dice);
    ScanMember(ws, InOrder(|ws|, r), dice);
  }

  /** In `a + [r] + b`, without repetitions, the place of an element tells which part it is in. */
  lemma PlaceAround(a: seq<nat>, r: nat, b: seq<nat>, k: nat)
    requires Unique(a + [r] + b) && k < |a + [r] + b|
    ensures (a + [r] + b)[k] in a <==> k < |a|
    ensures (a + [r] + b)[k] == r <==> k == |a|
    ensures (a + [r] + b)[k] in b <==> k > |a|
  {
    var all := a + [r] + b;
    assert all[|a|] == r;
    if all[k] in a {
      var l :| 0 <= l < |a| && a[l] == all[k];
      assert all[l] == all[k];
    }
    if all[k] in b {
      var l :| 0 <= l < |b| && b[l] == all[k];
      assert all[|a| + 1 + l] == all[k];
    }
  }

  /** Where a descent stops, the dice has lost exactly the weight that comes before that node. */
  lemma {:induction false} RestIsBehind(ws: seq<int>, r: nat, dice: int, k: nat)
    requires AllAtLeast(ws, 0) && dice >= 0 && k < |InOrder(|ws|, r)|
    requires Descend(ws, r, dice) == Some(InOrder(|ws|, r)[k])
    ensures Within(InOrder(|ws|, r), |ws|)
    ensures RestOf(ws, r, dice) == dice - WeightOf(ws, InOrder(|ws|, r)[..k])
    decreases |ws| - r
  {
    InOrderWithin(|ws|, r);
    var order := InOrder(|ws|, r);
    if r < |ws| {
      var a, b := InOrder(|ws|, 2 * r + 1), InOrder(|ws|, 2 * r + 2);
      InOrderWithin(|ws|, 2 * r + 1);
      InOrderWithin(|ws|, 2 * r + 2);
      InOrderUnique(|ws|, r);
      PlaceAround(a, r, b, k);
      WeightOfInOrder(ws, 2 * r + 1);
      assert order == a + [r] + b && LeftSum(ws, r) == WeightOf(ws, a);
      hide InOrder, Unique, WeightOf, LeftSum, AllAtLeast;
      if dice < LeftSum(ws, r) {
        DescendMember(ws, 2 * r + 1, dice);
        RestIsBehind(ws, 2 * r + 1, dice, k);
        assert order[..k] == a[..k];
      } else if dice >= LeftSum(ws, r) + ws[r] {
        var further := dice - LeftSum(ws, r) - ws[r];
        DescendMember(ws, 2 * r + 2, further);
        RestIsBehind(ws, 2 * r + 2, further, k - |a| - 1);
        FrontPart(ws, a, r, b, k);
      } else {
        assert order[..k] == a;
      }
    }
  }

  lemma FrontPart(ws: seq<int>, a: seq<nat>, r: nat, b: seq<nat>, k: nat)
    requires r < |ws| && Within(a, |ws|) && Within(b, |ws|) && Within(a + [r] + b, |ws|) && |a| < k <= |a| + 1 + |b|
    ensures WeightOf(ws, (a + [r] + b)[..k]) == WeightOf(ws, a) + ws[r] + WeightOf(ws, b[..k - |a| - 1])
  {
    var rest := b[..k - |a| - 1];
    FrontOfThree(a, r, b, k);
    WeightOfConcat(ws, a, [r] + rest);
    assert ([r] + rest)[1..] == rest;
  }

  lemma FrontOfThree(a: seq<nat>, r: nat, b: seq<nat>, k: nat)
    requires |a| < k <= |a| + 1 + |b|
    ensures (a + [r] + b)[..k] == a + ([r] + b[..k - |a| - 1])
  {
  }

  /** The rest of a dice is the dice less all that comes before the node it finds. */
  lemma RestIsBehindFound(ws: seq<int>, dice: int)
    requires AllAtLeast(ws, 0) && dice >= 0 && Descend(ws, 0, dice).Some?
    ensures var i := Descend(ws, 0, dice).value; i < |ws| && RestOf(ws, 0, dice) == dice - InFront(ws, i)
  {
    DescendMember(ws, 0, dice);
    InOrderWithin(|ws|, 0);
    var i := Descend(ws, 0, dice).value;
    RestIsBehind(ws, 0, dice, Place(|ws|, i));
  }

  // ----- The length of a descent -----

  function Log2(n: nat): nat
    requires n >= 1
  {
    if n == 1 then 0 else 1 + Log2(n / 2)
  }

  lemma {:induction false} Log2Monotone(a: nat, b: nat)
    requires 1 <= a <= b
    ensures Log2(a) <= Log2(b)
  {
    if a > 1 {
      Log2Monotone(a / 2, b / 2);
    }
  }

  /** A descent that starts at `r` looks at no more nodes than the tree has levels from `r` down. */
  lemma {:induction false} VisitedAtMostDepth(ws: seq<int>, r: nat, dice: int)
    requires r < |ws|
    ensures Visited(ws, r, dice) + Log2(r + 1) <= Log2(|ws|) + 1
    decreases |ws| - r
  {
    Log2Monotone(r + 1, |ws|);
    var left := LeftSum(ws, r);
    if dice < left {
      if 2 * r + 1 < |ws| {
        VisitedAtMostDepth(ws, 2 * r + 1, dice);
        assert (2 * r + 2) / 2 == r + 1;
      }
    } else if dice >= left + ws[r] {
      if 2 * r + 2 < |ws| {
        VisitedAtMostDepth(ws, 2 * r + 2, dice - left - ws[r]);
        assert (2 * r + 3) / 2 == r + 1;
      }
    }
  }
}
