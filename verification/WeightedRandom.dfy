/**
  The weighted-random balancer: the tree of the locality-aware one, with weights that no feedback
  changes. Its selection is the plain search, repeated while the dice falls off the right edge.
 */
module WeightedRandom {
  import opened Options
  import opened WeightTree
  import opened WeightSearch
  import opened WeightScale
  import opened ServerLayout
  import opened ChangedWeights

  /** Positions with the values of their counters and weights. */
  type Tree = seq<Entry<int, int>>

  function WeightsOf(tree: Tree): (ws: seq<int>)
    ensures |ws| == |tree| && forall i :: 0 <= i < |tree| ==> ws[i] == tree[i].weight
  {
    seq(|tree|, i requires 0 <= i < |tree| => tree[i].weight)
  }

  ghost predicate Exact(tree: Tree) {
    && AllAtLeast(WeightsOf(tree), 1)
    && forall j :: 0 <= j < |tree| ==> tree[j].left == LeftSum(WeightsOf(tree), j)
  }

  /** The numbers drawn are all in 1 .. total, and there are enough of them. */
  ghost predicate Draws(dices: seq<int>, n: nat, total: int) {
    |dices| >= n && forall t :: 0 <= t < |dices| ==> 1 <= dices[t] <= total
  }

  /** The selection with the numbers `dices` drawn one after the other. It fails only when each of the
      n draws is the total itself; otherwise the first other draw decides, by the plain search. */
  method SelectServer(tree: Tree, total: int, dices: seq<int>) returns (chosen: Option<ServerName>, ghost tries: nat)
    requires tree != [] && Exact(tree) && total == Sum(WeightsOf(tree)) && Draws(dices, |tree|, total)
    ensures 1 <= tries <= |tree|
    ensures forall t :: 0 <= t < tries - 1 ==> dices[t] == total
    ensures chosen == None <==> forall t :: 0 <= t < |tree| ==> dices[t] == total
    ensures var hit := Descend(WeightsOf(tree), 0, dices[tries - 1]);
            if hit.None? then chosen == None && tries == |tree|
            else hit.value < |tree| && chosen == Some(tree[hit.value].name)
  {
    ghost var ws := WeightsOf(tree);
    var n := |tree|;
    var nTry, index, dice := 0, 0, dices[0];
    SumAtLeast(ws, 1);
    tries := 1;
    while total > 0
      invariant 0 <= nTry < n && tries == nTry + 1
      invariant 0 <= index < n && dice >= 0
      invariant Descend(ws, 0, dices[nTry]) == Descend(ws, index, dice)
      invariant forall t :: 0 <= t < nTry ==> dices[t] == total
      decreases n - nTry, n - index
    {
      DescendFallsOff(ws, dices[nTry]);
      var left, self := tree[index].left, tree[index].weight;
      if dice < left {
        if 2 * index + 1 >= n {
          SubtreeSumBeyond(ws, 2 * index + 1);
        }
        index := 2 * index + 1;
        continue;
      } else if dice >= left + self {
        index := 2 * index + 2;
        dice := dice - (left + self);
        if index < n {
          continue;
        }
      } else {
        return Some(tree[index].name), tries;
      }
      nTry := nTry + 1;
      if nTry >= n {
        break;
      }
      dice, index, tries := dices[nTry], 0, nTry + 1;
    }
    chosen := None;
  }

  // ----- Weights that nothing but additions and removals changes -----

  datatype Change = Added | RemovedAt(k: nat)

  ghost predicate Applicable(ws: seq<int>, c: Change) {
    c.RemovedAt? ==> c.k < |ws|
  }

  /** What one addition or removal does to the weights; `LocalityAware` proves that its code, which is
      the same, does this. */
  function Changed(ws: seq<int>, c: Change): seq<int>
    requires Applicable(ws, c)
  {
    match c
    case Added => ws + [InitialWeight(Sum(ws), |ws|)]
    case RemovedAt(k) => Removed(ws, k)
  }

  ghost predicate IsHistory(states: seq<seq<int>>, changes: seq<Change>) {
    && |states| == |changes| + 1 && states[0] == []
    && forall t :: 0 <= t < |changes| ==>
         Applicable(states[t], changes[t]) && states[t + 1] == Changed(states[t], changes[t])
  }

  ghost predicate AllEqual(ws: seq<int>, v: int) {
    forall i :: 0 <= i < |ws| ==> ws[i] == v
  }

  lemma {:induction false} SumOfEqual(ws: seq<int>, v: int)
    requires AllEqual(ws, v)
    ensures Sum(ws) == |ws| * v
  {
    if ws != [] {
      SumOfEqual(ws[..|ws| - 1], v);
      assert |ws| * v == (|ws| - 1) * v + v;
    }
  }

  lemma AverageOfEqual(ws: seq<int>, v: int)
    requires AllEqual(ws, v) && ws != []
    ensures Sum(ws) / |ws| == v
  {
    SumOfEqual(ws, v);
    QuotientWithin(Sum(ws), |ws|, v, v);
  }

  lemma RemovalKeepsEqual(ws: seq<int>, k: nat, v: int)
    requires AllEqual(ws, v) && k < |ws|
    ensures AllEqual(Removed(ws, k), v)
  {
  }

  lemma ChangeKeepsEqual(ws: seq<int>, c: Change)
    requires AllEqual(ws, WEIGHT_SCALE) && Applicable(ws, c)
    ensures AllEqual(Changed(ws, c), WEIGHT_SCALE)
  {
    if c.RemovedAt? {
      RemovalKeepsEqual(ws, c.k, WEIGHT_SCALE);
    } else if ws != [] {
      AverageOfEqual(ws, WEIGHT_SCALE);
    }
  }

  /** A new server gets the average of the weights there are, so all weights stay what the first was. */
  lemma {:induction false} WeightsStayEqual(states: seq<seq<int>>, changes: seq<Change>, t: nat)
    requires IsHistory(states, changes) && t < |states|
    ensures AllEqual(states[t], WEIGHT_SCALE)
  {
    if t > 0 {
      WeightsStayEqual(states, changes, t - 1);
      ChangeKeepsEqual(states[t - 1], changes[t - 1]);
      assert states[t - 1 + 1] == Changed(states[t - 1], changes[t - 1]);
    }
  }

  /** Additions less removals. */
  function Balance(changes: seq<Change>): int {
    if changes == [] then 0
    else Balance(changes[..|changes| - 1]) + if changes[|changes| - 1].Added? then 1 else -1
  }

  lemma {:induction false} ServersAreBalance(states: seq<seq<int>>, changes: seq<Change>, t: nat)
    requires IsHistory(states, changes) && t < |states|
    ensures |states[t]| == Balance(changes[..t])
  {
    if t > 0 {
      ServersAreBalance(states, changes, t - 1);
      assert changes[..t][..t - 1] == changes[..t - 1];
      assert states[t - 1 + 1] == Changed(states[t - 1], changes[t - 1]);
    }
  }

  /** The "weighted" random balancer is thus a uniform one: after any additions and removals every server
      is reached by the same number of dice, but for the leftmost, which is short of one. */
  lemma SelectionIsUniform(states: seq<seq<int>>, changes: seq<Change>, t: nat, i: nat)
    requires IsHistory(states, changes) && t < |states| && i < |states[t]|
    ensures Sum(states[t]) == |states[t]| * WEIGHT_SCALE
    ensures |DiceHitting(states[t], i)| == WEIGHT_SCALE - if i == Leftmost(|states[t]|, 0) then 1 else 0
  {
    WeightsStayEqual(states, changes, t);
    SumOfEqual(states[t], WEIGHT_SCALE);
    HitsAreWeights(states[t], i);
  }

  /** With a single server, the selection fails for exactly one dice in `WEIGHT_SCALE`. */
  lemma SingleServerMisses(dice: int)
    requires 1 <= dice <= WEIGHT_SCALE
    ensures Descend([WEIGHT_SCALE], 0, dice) == None <==> dice == WEIGHT_SCALE
  {
    assert [WEIGHT_SCALE][..0] == [];
    assert Sum([WEIGHT_SCALE]) == WEIGHT_SCALE;
    DescendFallsOff([WEIGHT_SCALE], dice);
  }
}
