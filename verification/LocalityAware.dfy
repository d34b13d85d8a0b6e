/**
  The locality-aware balancer as one thread sees it: every operation runs from start to end.
  Both buffers share the counters and the weights. Weights are objects; a counter, which the source
  keeps behind a shared pointer, is a slot of `lefts`, and the pointer is the number of the slot.
 */
module LocalityAware {
  import opened Options
  import opened WeightTree
  import opened WeightSearch
  import opened WeightScale
  import opened ChangedWeights
  import opened ServerLayout
  import opened Weights
  import opened Selections
  import opened BoundedQueues
  import opened LatencyWindow

  type Buffer = Layout<nat, Weight>
  type Tree = seq<Entry<nat, Weight>>

  /** Every position has a counter of its own. */
  ghost predicate CountersSeparate(tree: Tree, n: nat) {
    && (forall i :: 0 <= i < |tree| ==> tree[i].left < n)
    && (forall i, j :: 0 <= i < j < |tree| ==> tree[i].left != tree[j].left)
  }

  /** Every position has a weight of its own, out of `weights`. */
  ghost predicate WeightsSeparate(tree: Tree, weights: set<Weight>) {
    && (forall i :: 0 <= i < |tree| ==> tree[i].weight in weights)
    && (forall i, j :: 0 <= i < j < |tree| ==> tree[i].weight != tree[j].weight)
  }

  /** The first `n` counters are what the weights `ws` demand. */
  ghost predicate CountersHold(tree: Tree, n: nat, ws: seq<int>, lefts: seq<int>)
    requires n <= |tree|
  {
    forall j :: 0 <= j < n ==> tree[j].left < |lefts| && lefts[tree[j].left] == LeftSum(ws, j)
  }

  /** The counters moved from `before` to `after` as a change of `diff` at position `at` demands. */
  ghost predicate Climbed(tree: Tree, at: nat, diff: int, before: seq<int>, after: seq<int>) {
    && |before| == |after|
    && forall j :: 0 <= j < |tree| ==>
         && tree[j].left < |before|
         && after[tree[j].left] == before[tree[j].left] + if InLeft(j, at) then diff else 0
  }

  /** The counters moved from `before` to `after` as the removal at `k` demands. */
  ghost predicate RecountedAll(tree: Tree, k: nat, removed: int, added: int, oldWeight: int, saved: int,
                               before: seq<int>, after: seq<int>) {
    && |before| == |after|
    && forall j :: 0 <= j < |tree| ==>
         && tree[j].left < |before|
         && after[tree[j].left] ==
            before[tree[j].left] + Recounted(|tree|, k, removed, added, oldWeight, saved, j)
  }

  /** What a removal at `k` finds: the removed weight, and of the server that moves its weight (first
      application) or what was marked and saved (second application). */
  ghost function Owed(tree: Tree, k: nat, weights: set<Weight>): (int, int, int, int)
    requires k < |tree| && forall i :: 0 <= i < |tree| ==> tree[i].weight in weights
    reads weights
  {
    var last := |tree| - 1;
    var removed, moved := tree[k].weight.weight, tree[last].weight;
    if k == last then (removed, 0, 0, 0)
    else if removed != 0 then (removed, moved.weight, 0, 0)
    else (removed, 0, moved.oldWeight, moved.oldDiffSum)
  }

  /** A weight outside any removal, of value `v`. */
  ghost predicate Regular(w: Weight, v: int)
    reads w
  {
    w.Sound() && w.Enabled() && w.Unmarked() && w.weight == v
  }

  ghost predicate AllRegular(tree: Tree, ws: seq<int>, weights: set<Weight>)
    requires forall i :: 0 <= i < |tree| ==> tree[i].weight in weights
    reads weights
  {
    |ws| == |tree| && forall i :: 0 <= i < |tree| ==> Regular(tree[i].weight, ws[i])
  }

  /** The weights between the two applications of Remove: the one at `k` is disabled, the one that moves
      is marked, has saved nothing yet and is otherwise as it was. */
  ghost predicate HalfRetired(tree: Tree, k: nat, ws: seq<int>, weights: set<Weight>)
    requires forall i :: 0 <= i < |tree| ==> tree[i].weight in weights
    reads weights
  {
    var last := |tree| - 1;
    && |ws| == |tree| && k <= last
    && !tree[k].weight.Enabled() && tree[k].weight.weight == 0 && tree[k].weight.Sound()
    && (forall i :: 0 <= i < last && i != k ==> Regular(tree[i].weight, ws[i]))
    && (k != last ==>
          var moved := tree[last].weight;
          && moved.Sound() && moved.Enabled() && moved.weight == moved.oldWeight == ws[last]
          && moved.oldDiffSum == 0 && moved.oldIndex == Some(last))
  }

  /** The weights after both: regular again, but for the one at `k`. */
  ghost predicate FullyRetired(tree: Tree, k: nat, ws: seq<int>, weights: set<Weight>)
    requires forall i :: 0 <= i < |tree| ==> tree[i].weight in weights
    reads weights
  {
    && |ws| == |tree|
    && forall i :: 0 <= i < |tree| && i != k ==> Regular(tree[i].weight, ws[i])
  }

  lemma FirstCounters(tree: Tree, shorter: Tree, ws: seq<int>, k: nat, before: seq<int>, after: seq<int>)
    requires |ws| == |tree| == |shorter| + 1 && k < |ws| && ws[k] != 0
    requires forall i :: 0 <= i < |shorter| ==> shorter[i].left == tree[i].left
    requires CountersHold(tree, |tree|, ws, before)
    requires RecountedAll(shorter, k, ws[k], if k == |shorter| then 0 else ws[|ws| - 1], 0, 0, before, after)
    ensures CountersHold(tree, |shorter|, HalfRemoved(ws, k), after) && |before| == |after|
  {
    forall j | 0 <= j < |shorter| ensures after[tree[j].left] == LeftSum(HalfRemoved(ws, k), j) {
      FirstPassCounts(ws, k, j);
    }
  }

  lemma SecondCounters(tree: Tree, shorter: Tree, ws: seq<int>, k: nat, before: seq<int>, after: seq<int>)
    requires |ws| == |tree| == |shorter| + 1 && k < |ws|
    requires forall i :: 0 <= i < |shorter| ==> shorter[i].left == tree[i].left
    requires CountersHold(tree, |shorter|, HalfRemoved(ws, k), before)
    requires RecountedAll(shorter, k, 0, 0, if k == |shorter| then 0 else ws[|ws| - 1], 0, before, after)
    ensures CountersHold(shorter, |shorter|, Removed(ws, k), after) && |before| == |after|
  {
    forall j | 0 <= j < |shorter| ensures after[shorter[j].left] == LeftSum(Removed(ws, k), j) {
      SecondPassCounts(ws, k, j);
    }
  }

  /** Counters of up to 72 weights fit. */
  lemma CountersFit(tree: Tree, n: nat, c: seq<int>, lefts: seq<int>)
    requires n <= |tree| && CountersHold(tree, n, c, lefts)
    requires |c| <= MAX_SERVERS && forall i :: 0 <= i < |c| ==> 0 <= c[i] <= MAX_WEIGHT
    ensures 0 <= Sum(c) && FitsInt64(Sum(c))
    ensures forall j :: 0 <= j < n ==>
              tree[j].left < |lefts| && 0 <= lefts[tree[j].left] && FitsInt64(lefts[tree[j].left])
  {
    SumAtMost(c, MAX_WEIGHT);
    SumAtLeast(c, 0);
    SumOfWeightsFits(|c|, Sum(c));
    forall j | 0 <= j < n ensures lefts[tree[j].left] >= 0 && FitsInt64(lefts[tree[j].left]) {
      SubtreeSumNonNegative(c, 2 * j + 1);
      SubtreeSumAtMostSum(c, 2 * j + 1);
    }
  }

  lemma RegularAt(tree: Tree, k: nat, ws: seq<int>, weights: set<Weight>)
    requires k < |tree| && WeightsSeparate(tree, weights) && AllRegular(tree, ws, weights)
    ensures |ws| == |tree| && Regular(tree[k].weight, ws[k])
  {
  }

  lemma HalfRetiredOwes(tree: Tree, k: nat, ws: seq<int>, weights: set<Weight>)
    requires k < |tree| && WeightsSeparate(tree, weights)
    requires HalfRetired(tree, k, ws, weights)
    ensures |ws| == |tree| && Owed(tree, k, weights) == (0, 0, if k == |tree| - 1 then 0 else ws[|tree| - 1], 0)
    ensures tree[k].weight.Sound() && tree[|tree| - 1].weight.Sound()
  {
  }

  lemma RegularAgain(tree: Tree, shorter: Tree, k: nat, ws: seq<int>, weights: set<Weight>)
    requires |ws| == |tree| == |shorter| + 1 && k < |ws| && WeightsSeparate(tree, weights)
    requires forall i :: 0 <= i < |shorter| && i != k ==> shorter[i] == tree[i]
    requires k < |shorter| ==> shorter[k].weight == tree[|shorter|].weight
    requires FullyRetired(tree, k, ws, weights)
    ensures AllRegular(shorter, Removed(ws, k), weights)
  {
  }

  lemma WeightsWithin(tree: Tree, ws: seq<int>, weights: set<Weight>)
    requires WeightsSeparate(tree, weights) && AllRegular(tree, ws, weights)
    ensures |ws| == |tree| && forall i :: 0 <= i < |ws| ==> MIN_WEIGHT <= ws[i] == tree[i].weight.weight <= MAX_WEIGHT
  {
    forall i | 0 <= i < |ws| ensures MIN_WEIGHT <= ws[i] == tree[i].weight.weight <= MAX_WEIGHT {
      assert Regular(tree[i].weight, ws[i]);
    }
  }

  /** The half-removed weights are weights still, and the disabled server weighs nothing. */
  lemma HalfRetiredWithin(tree: Tree, k: nat, ws: seq<int>, weights: set<Weight>)
    requires k < |tree| && WeightsSeparate(tree, weights) && HalfRetired(tree, k, ws, weights)
    ensures |ws| == |tree|
    ensures forall i :: 0 <= i < |tree| ==> 0 <= HalfRemoved(ws, k)[i] <= MAX_WEIGHT
    ensures forall i :: 0 <= i < |tree| ==> 0 <= tree[i].weight.weight <= MAX_WEIGHT
  {
    forall i | 0 <= i < |tree| ensures 0 <= tree[i].weight.weight <= MAX_WEIGHT {
      if i != k && i != |tree| - 1 {
        assert Regular(tree[i].weight, ws[i]);
      }
    }
    forall i | 0 <= i < |tree| ensures 0 <= HalfRemoved(ws, k)[i] <= MAX_WEIGHT {
      if i != k && i != |tree| - 1 {
        assert Regular(tree[i].weight, ws[i]);
      }
    }
  }

  lemma InitialWeightWithin(tree: Tree, ws: seq<int>, weights: set<Weight>)
    requires WeightsSeparate(tree, weights) && AllRegular(tree, ws, weights)
    ensures |ws| == |tree| && MIN_WEIGHT <= InitialWeight(Sum(ws), |tree|) <= MAX_WEIGHT
    ensures InitialWeight(Sum(ws), |tree|) == if tree == [] then WEIGHT_SCALE else Sum(ws) / |tree|
  {
    WeightsWithin(tree, ws, weights);
    if ws != [] {
      SumAtLeast(ws, 0);
      AverageWithin(ws, MIN_WEIGHT, MAX_WEIGHT);
    }
  }

  lemma TotalPositive(tree: Tree, ws: seq<int>, weights: set<Weight>)
    requires WeightsSeparate(tree, weights) && AllRegular(tree, ws, weights)
    ensures |ws| == |tree| && AllAtLeast(ws, MIN_WEIGHT)
    ensures tree != [] ==> Sum(ws) > 0
  {
    WeightsWithin(tree, ws, weights);
    SumAtLeast(ws, MIN_WEIGHT);
  }

  lemma LogOfOne()
    ensures Log2(1) == 0
  {
  }

  /** A random number from 1 to n. */
  method GetRand(n: int) returns (dice: int)
    requires n >= 1
    ensures 1 <= dice <= n
  {
    dice :| 1 <= dice <= n;
  }

  /** A new last position with weight `v` moves the counters of its ancestors only. */
  lemma AddCounters(tree: Tree, longer: Tree, ws: seq<int>, v: int, before: seq<int>, after: seq<int>)
    requires |longer| == |tree| + 1 && |ws| == |tree| && longer[..|tree|] == tree
    requires CountersHold(tree, |tree|, ws, before)
    requires CountersSeparate(longer, |after|) && CountersSeparate(tree, |before|)
    requires longer[|tree|].left == |before| && Climbed(longer, |tree|, v, before + [0], after)
    ensures CountersHold(longer, |longer|, ws + [v], after)
  {
    forall j | 0 <= j < |longer| ensures after[longer[j].left] == LeftSum(ws + [v], j) {
      SubtreeSumAppend(ws, 2 * j + 1, v);
      if j == |tree| {
        SubtreeSumBeyond(ws, 2 * j + 1);
        SubtreeSumBeyond(ws + [v], 2 * j + 1);
      } else {
        assert longer[j] == tree[j];
      }
    }
  }

  /** A change of the weight at `i` by `v - ws[i]` that has climbed leaves every counter exact. */
  lemma ClimbKeepsCounters(tree: Tree, ws: seq<int>, i: nat, v: int, before: seq<int>, after: seq<int>)
    requires |ws| == |tree| && i < |ws| && CountersHold(tree, |tree|, ws, before)
    requires Climbed(tree, i, v - ws[i], before, after)
    ensures CountersHold(tree, |tree|, ws[i := v], after)
  {
    forall j | 0 <= j < |tree| ensures after[tree[j].left] == LeftSum(ws[i := v], j) {
      SubtreeSumUpdate(ws, 2 * j + 1, i, v);
    }
  }

  ghost function Snap(w: Weight): Snapshot
    reads w
  {
    Snapshot(w.baseWeight, w.avgLatency, w.beginTimeSum, w.beginTimeCount, w.outstanding)
  }

  ghost function Snaps(tree: Tree, weights: set<Weight>): (snaps: seq<Snapshot>)
    requires forall i :: 0 <= i < |tree| ==> tree[i].weight in weights
    reads weights
    ensures |snaps| == |tree| && forall i :: 0 <= i < |tree| ==> snaps[i] == Snap(tree[i].weight)
  {
    seq(|tree|, i requires 0 <= i < |tree| reads weights => Snap(tree[i].weight))
  }

  /** The weight `after` is `before`, or `before` refreshed at `now`. */
  ghost predicate Refreshed(s: Snapshot, before: int, after: int, now: int) {
    after == before || after == RefreshedWeight(s, now)
  }

  /** The node at `at` is the one that `thrown` finds among the weights `shown`, and only its weight may
      have changed since. */
  ghost predicate PickedBy(thrown: int, shown: seq<int>, after: seq<int>, at: nat) {
    && 1 <= thrown <= Sum(shown) && Descend(shown, 0, thrown) == Some(at)
    && at < |after| == |shown| && after == shown[at := after[at]]
  }

  /** The call is counted at the server that was taken, if one was, and nowhere else. */
  ghost predicate Counted(w: Weight, s: Snapshot, taken: bool, now: int)
    reads w
  {
    if taken then Snap(w) == Snapshot(s.base, s.avg, s.beginSum + now, s.beginCount + 1, s.outstanding + [now])
    else Snap(w) == s
  }

  ghost predicate AllCounted(tree: Tree, snaps: seq<Snapshot>, before: seq<int>, after: seq<int>,
                             taken: Option<nat>, now: int, weights: set<Weight>)
    requires forall i :: 0 <= i < |tree| ==> tree[i].weight in weights
    reads weights
  {
    && |snaps| == |before| == |after| == |tree|
    && forall i :: 0 <= i < |tree| ==>
         Counted(tree[i].weight, snaps[i], taken == Some(i), now) && Refreshed(snaps[i], before[i], after[i], now)
  }

  lemma NothingCounted(tree: Tree, ws: seq<int>, now: int, weights: set<Weight>)
    requires |ws| == |tree| && forall i :: 0 <= i < |tree| ==> tree[i].weight in weights
    ensures AllCounted(tree, Snaps(tree, weights), ws, ws, None, now, weights)
  {
  }

  /** Weights that no feedback has been measured for stay what they are. */
  lemma UnservedStay(tree: Tree, snaps: seq<Snapshot>, before: seq<int>, after: seq<int>, taken: Option<nat>, now: int,
                     weights: set<Weight>)
    requires forall i :: 0 <= i < |tree| ==> tree[i].weight in weights
    requires AllCounted(tree, snaps, before, after, taken, now, weights) && AllAtLeast(before, MIN_WEIGHT)
    ensures forall i :: 0 <= i < |tree| && snaps[i].avg == 0 && snaps[i].base == before[i] ==>
              after[i] == before[i] && tree[i].weight.avgLatency == 0 && tree[i].weight.baseWeight == before[i]
  {
    forall i | 0 <= i < |tree| && snaps[i].avg == 0 && snaps[i].base == before[i]
      ensures after[i] == before[i] && tree[i].weight.avgLatency == 0 && tree[i].weight.baseWeight == before[i]
    {
      assert Counted(tree[i].weight, snaps[i], taken == Some(i), now) && Refreshed(snaps[i], before[i], after[i], now);
      NewWeightBeforeFeedback(snaps[i].base, snaps[i].beginSum, snaps[i].beginCount, now);
    }
  }

  /** The structure after a removal keeps what the structure before it had. */
  lemma RemoveKeepsSeparation(b: Buffer, name: ServerName, n: nat, weights: set<Weight>)
    requires Lookup(b, name) < |b.tree| && CountersSeparate(b.tree, n) && WeightsSeparate(b.tree, weights)
    ensures var t := RemoveEntry(b, name).tree; CountersSeparate(t, n) && WeightsSeparate(t, weights)
  {
    RemoveEntryShape(b, name);
  }

  ghost predicate AllAccounted(tree: Tree, weights: set<Weight>)
    requires forall i :: 0 <= i < |tree| ==> tree[i].weight in weights
    reads weights`beginTimeCount, weights`beginTimeSum, weights`outstanding
  {
    forall i :: 0 <= i < |tree| ==> tree[i].weight.Accounted()
  }

  /** Counting a call where it was sent keeps the accounts in order. */
  lemma CountingKeepsAccounts(tree: Tree, snaps: seq<Snapshot>, before: seq<int>, after: seq<int>,
                              taken: Option<nat>, now: int, weights: set<Weight>)
    requires forall i :: 0 <= i < |tree| ==> tree[i].weight in weights
    requires AllCounted(tree, snaps, before, after, taken, now, weights)
    requires forall i :: 0 <= i < |tree| ==>
               snaps[i].beginCount == |snaps[i].outstanding| && snaps[i].beginSum == SumOf(snaps[i].outstanding)
    ensures AllAccounted(tree, weights)
  {
    forall i | 0 <= i < |tree| ensures tree[i].weight.Accounted() {
      var s := snaps[i];
      assert Counted(tree[i].weight, s, taken == Some(i), now);
      assert (s.outstanding + [now])[..|s.outstanding|] == s.outstanding;
    }
  }

  /** Removal brings no weight into the tree. */
  lemma RemoveKeepsWeights(b: Buffer, name: ServerName, weights: set<Weight>)
    requires Lookup(b, name) < |b.tree| && WeightsSeparate(b.tree, weights)
    ensures var t := RemoveEntry(b, name).tree;
            forall i :: 0 <= i < |t| ==> exists j :: 0 <= j < |b.tree| && t[i].weight == b.tree[j].weight
  {
    var t := RemoveEntry(b, name).tree;
    RemoveEntryShape(b, name);
    forall i | 0 <= i < |t| ensures exists j :: 0 <= j < |b.tree| && t[i].weight == b.tree[j].weight {
      if i != Lookup(b, name) {
        assert t[i].weight == b.tree[i].weight;
      } else {
        assert t[i].weight == b.tree[|b.tree| - 1].weight;
      }
    }
  }

  class LocalityAwareLoadBalancer {
    var buffers: seq<Buffer>
    var index: nat                          // the foreground buffer
    var lefts: seq<int>                     // all counters ever made
    var totalWeight: int
    var serverMap: map<ServerName, int>     // consulted before anything is modified
    ghost var weights: set<Weight>          // all weights ever made
    ghost var queues: set<BoundedQueue<TimeInfo>>
    ghost var stores: set<array<TimeInfo>>  // the latency queues of these weights and their storage
    ghost var ws: seq<int>                  // the current weights by position

    ghost predicate BuffersAgree()
      reads this`buffers, this`index, this`lefts, this`weights
    {
      && |buffers| == 2 && index < 2
      && buffers[0] == buffers[1]
      && Aligned(buffers[0])
      && CountersSeparate(buffers[0].tree, |lefts|) && WeightsSeparate(buffers[0].tree, weights)
    }

    ghost predicate TreeExact(tree: Tree)
      requires WeightsSeparate(tree, weights)
      reads this`weights, this`ws, this`lefts, this`totalWeight, weights
    {
      && AllRegular(tree, ws, weights)
      && CountersHold(tree, |tree|, ws, lefts)
      && totalWeight == Sum(ws)
    }

    /** No two weights share a latency queue, and every queue holds what was measured. */
    ghost predicate WindowsExact()
      reads this`weights, this`queues, this`stores, weights`history, queues, stores
    {
      && (forall w :: w in weights ==> w.timeQ in queues && w.timeQ.items in stores && Holds(w.timeQ, w.history))
      && (forall w, v :: w in weights && v in weights && w != v ==>
            w.timeQ != v.timeQ && w.timeQ.items != v.timeQ.items)
    }

    /** Both buffers hold the same names in the same order and share the counter and the weight of every
        position, the maps invert the name vector, every counter is the sum of the weights to its left,
        and the total is the sum of all weights. */
    ghost predicate Valid()
      reads this, weights, queues, stores
    {
      && BuffersAgree() && serverMap.Keys == buffers[0].index.Keys && (forall s :: s in serverMap ==> serverMap[s] >= 1)
      && TreeExact(buffers[0].tree) && WindowsExact()
    }

    /** Every server's inflight numbers are those of the calls outstanding at it. */
    ghost predicate Accounted()
      requires BuffersAgree()
      reads this`buffers, this`index, this`lefts, this`weights
      reads weights`beginTimeCount, weights`beginTimeSum, weights`outstanding
    {
      AllAccounted(buffers[0].tree, weights)
    }

    constructor ()
      ensures Valid() && Accounted() && serverMap == map[] && ws == [] && weights == {}
    {
      buffers := [Layout([], map[]), Layout([], map[])];
      index, lefts, totalWeight := 0, [], 0;
      serverMap := map[];
      weights, queues, stores, ws := {}, {}, {}, [];
    }

    /** Adds `diff` to the counters of exactly those positions that have `at` on their left; position
        `at` itself need not exist. */
    method UpdateParentWeight(tree: Tree, diff: int, at: nat)
      requires at <= |tree| && CountersSeparate(tree, |lefts|)
      modifies this`lefts
      ensures Climbed(tree, at, diff, old(lefts), lefts)
    {
      var x: nat := at;
      while x != 0
        invariant x <= at && |lefts| == |old(lefts)|
        invariant forall j :: 0 <= j < |tree| ==>
                    lefts[tree[j].left] + (if InLeft(j, x) then diff else 0) ==
                    old(lefts)[tree[j].left] + if InLeft(j, at) then diff else 0
      {
        var parent: nat := (x - 1) / 2;
        forall j | 0 <= j < |tree|
          ensures InLeft(j, x) <==> (x == 2 * parent + 1 && j == parent) || InLeft(j, parent)
          ensures x == 2 * parent + 1 && j == parent ==> !InLeft(j, parent)
        {
          ClimbStep(j, x);
        }
        if 2 * parent + 1 == x {
          var slot := tree[parent].left;
          lefts := lefts[slot := lefts[slot] + diff];
        }
        x := parent;
      }
      forall j | 0 <= j < |tree| ensures !InLeft(j, 0) {
        NothingLeftOfRoot(j);
      }
    }

    /** With at most 72 servers no number of the balancer exceeds 64 bits. */
    lemma EverythingFitsInt64()
      requires Valid() && |buffers[0].tree| <= MAX_SERVERS
      ensures 0 <= totalWeight && FitsInt64(totalWeight)
      ensures forall j :: 0 <= j < |buffers[0].tree| ==>
                && buffers[0].tree[j].left < |lefts|
                && 0 <= lefts[buffers[0].tree[j].left] && FitsInt64(lefts[buffers[0].tree[j].left])
                && FitsInt64(buffers[0].tree[j].weight.weight)
    {
      hide CountersSeparate, Holds, CountersHold, AllRegular, Regular, WeightsSeparate, WindowsExact, Aligned;
      var tree := buffers[0].tree;
      WeightsWithin(tree, ws, weights);
      CountersFit(tree, |tree|, ws, lefts);
    }

    // ----- Remove -----

    /** A weight at position `at` has changed by `diff`. */
    method Spread(tree: Tree, diff: int, at: nat)
      requires at <= |tree| && CountersSeparate(tree, |lefts|)
      modifies this`totalWeight, this`lefts
      ensures totalWeight == old(totalWeight) + diff && Climbed(tree, at, diff, old(lefts), lefts)
    {
      if diff != 0 {
        UpdateParentWeight(tree, diff, at);
        totalWeight := totalWeight + diff;
      }
    }

    /** What `Remove` does to the counters and to the total, once the last position is gone. */
    method Recount(tree: Tree, k: nat, removed: int, added: int, oldWeight: int, saved: int)
      requires k <= |tree| && CountersSeparate(tree, |lefts|)
      modifies this`totalWeight, this`lefts
      ensures |lefts| == |old(lefts)|
      ensures totalWeight == old(totalWeight) + if k == |tree| || removed != 0 then added - removed else -oldWeight
      ensures RecountedAll(tree, k, removed, added, oldWeight, saved, old(lefts), lefts)
    {
      if k == |tree| || removed != 0 {
        Spread(tree, added - removed, k);
      } else {
        if saved != 0 {
          UpdateParentWeight(tree, saved, k);
        }
        if -oldWeight - saved != 0 {
          UpdateParentWeight(tree, -oldWeight - saved, |tree|);
        }
        totalWeight := totalWeight - oldWeight;
      }
    }

    /** What `Remove` does to the weights: Disable, and for the server that moves MarkOld or ClearOld. */
    method Retire(tree: Tree, k: nat) returns (removed: int, added: int, oldWeight: int, saved: int)
      requires k < |tree| && WeightsSeparate(tree, weights)
      requires tree[k].weight.Sound() && tree[|tree| - 1].weight.Sound()
      modifies weights`weight, weights`baseWeight, weights`oldWeight, weights`oldDiffSum, weights`oldIndex
      ensures old(AllRegular(tree, ws, weights)) ==> HalfRetired(tree, k, ws, weights)
      ensures old(HalfRetired(tree, k, ws, weights)) ==> FullyRetired(tree, k, ws, weights)
      ensures (removed, added, oldWeight, saved) == old(Owed(tree, k, weights))
    {
      var last := |tree| - 1;
      var deleted, moved := tree[k].weight, tree[last].weight;
      removed := deleted.Disable();
      added, oldWeight, saved := 0, 0, 0;
      if k != last {
        if removed != 0 {
          // the first buffer
          added := moved.MarkOld(last);
        } else {
          // the second buffer
          oldWeight, saved := moved.ClearOld();
        }
      }
    }

    /** The structural half of `Remove`. */
    method Unlink(b: nat, name: ServerName)
      requires |buffers| == 2 && b < 2 && name in buffers[b].index && Aligned(buffers[b])
      modifies this`buffers
      ensures buffers == old(buffers)[b := RemoveEntry(old(buffers)[b], name)]
    {
      var k, tree, map1 := buffers[b].index[name], buffers[b].tree, buffers[b].index - {name};
      var last := |tree| - 1;
      if k != last {
        var moved := tree[last];
        tree := tree[k := Entry(moved.name, tree[k].left, moved.weight)];
        map1 := map1[moved.name := k];
      }
      buffers := buffers[b := Layout(tree[..last], map1)];
    }

    /** What either application of `Remove` finds: buffer `b` is in order and the two weights it touches
        are sound, whatever else is going on. */
    ghost predicate CanRemove(b: nat, name: ServerName)
      reads this, weights
    {
      && |buffers| == 2 && b < 2 && name in buffers[b].index && Aligned(buffers[b])
      && CountersSeparate(buffers[b].tree, |lefts|) && WeightsSeparate(buffers[b].tree, weights)
      && var tree, k := buffers[b].tree, buffers[b].index[name];
         tree[k].weight.Sound() && tree[|tree| - 1].weight.Sound()
    }

    /** `Remove` up to the counters. */
    method TakeOut(b: nat, name: ServerName) returns (removed: int, added: int, oldWeight: int, saved: int)
      requires CanRemove(b, name)
      modifies this`buffers
      modifies weights`weight, weights`baseWeight, weights`oldWeight, weights`oldDiffSum, weights`oldIndex
      ensures buffers == old(buffers)[b := RemoveEntry(old(buffers)[b], name)]
      ensures CountersSeparate(buffers[b].tree, |lefts|) && WeightsSeparate(buffers[b].tree, weights)
      ensures var tree, k := old(buffers)[b].tree, old(buffers)[b].index[name];
              && (old(AllRegular(buffers[b].tree, ws, weights)) ==> HalfRetired(tree, k, ws, weights))
              && (old(HalfRetired(buffers[b].tree, buffers[b].index[name], ws, weights)) ==>
                    FullyRetired(tree, k, ws, weights))
      ensures (removed, added, oldWeight, saved) == old(Owed(buffers[b].tree, buffers[b].index[name], weights))
    {
      hide HalfRetired, FullyRetired, AllRegular, Owed, RemoveEntry, CountersSeparate, WeightsSeparate;
      RemoveKeepsSeparation(buffers[b], name, |lefts|, weights);
      removed, added, oldWeight, saved := Retire(buffers[b].tree, buffers[b].index[name]);
      Unlink(b, name);
    }

    /** The code of `Remove`, for either application. */
    method Remove(b: nat, name: ServerName) returns (removed: int, added: int, oldWeight: int, saved: int)
      requires CanRemove(b, name)
      modifies this`totalWeight, this`buffers, this`lefts
      modifies weights`weight, weights`baseWeight, weights`oldWeight, weights`oldDiffSum, weights`oldIndex
      ensures buffers == old(buffers)[b := RemoveEntry(old(buffers)[b], name)] && |lefts| == |old(lefts)|
      ensures CountersSeparate(buffers[b].tree, |lefts|) && WeightsSeparate(buffers[b].tree, weights)
      ensures var tree, k := old(buffers)[b].tree, old(buffers)[b].index[name];
              && (old(AllRegular(buffers[b].tree, ws, weights)) ==> HalfRetired(tree, k, ws, weights))
              && (old(HalfRetired(buffers[b].tree, buffers[b].index[name], ws, weights)) ==>
                    FullyRetired(tree, k, ws, weights))
      ensures (removed, added, oldWeight, saved) == old(Owed(buffers[b].tree, buffers[b].index[name], weights))
      ensures var n, k := |old(buffers)[b].tree| - 1, old(buffers)[b].index[name];
              && totalWeight == old(totalWeight) + (if k == n || removed != 0 then added - removed else -oldWeight)
              && RecountedAll(buffers[b].tree, k, removed, added, oldWeight, saved, old(lefts), lefts)
    {
      hide RemoveEntry, CountersSeparate, WeightsSeparate, HalfRetired, FullyRetired, AllRegular, Owed, RecountedAll;
      var k := buffers[b].index[name];
      RemoveEntryShape(buffers[b], name);
      removed, added, oldWeight, saved := TakeOut(b, name);
      Recount(buffers[b].tree, k, removed, added, oldWeight, saved);
    }

    /** Between the two applications of Remove the counters hold the half-removed weights. */
    ghost predicate HalfRemovedAt(tree: Tree, k: nat)
      requires forall i :: 0 <= i < |tree| ==> tree[i].weight in weights
      reads this, weights
    {
      && HalfRetired(tree, k, ws, weights)
      && totalWeight == Sum(HalfRemoved(ws, k))
      && CountersHold(tree, |tree| - 1, HalfRemoved(ws, k), lefts)
    }

    /** That window, in which one server counts twice, keeps to 64 bits too: the disabled weight has left the sums
        before the moving one enters them again. */
    lemma HalfRemovedFitsInt64(tree: Tree, k: nat)
      requires k < |tree| <= MAX_SERVERS && WeightsSeparate(tree, weights) && HalfRemovedAt(tree, k)
      ensures 0 <= totalWeight && FitsInt64(totalWeight)
      ensures forall j :: 0 <= j < |tree| - 1 ==>
                && tree[j].left < |lefts| && 0 <= lefts[tree[j].left] && FitsInt64(lefts[tree[j].left])
      ensures forall i :: 0 <= i < |tree| ==> 0 <= tree[i].weight.weight && FitsInt64(tree[i].weight.weight)
    {
      HalfRetiredWithin(tree, k, ws, weights);
      hide HalfRetired, WeightsSeparate, HalfRemoved, CountersHold;
      CountersFit(tree, |tree| - 1, HalfRemoved(ws, k), lefts);
    }

    /** The first application: it finds a weight that is not 0, which is how it knows to be the first. */
    method RemoveFirst(b: nat, name: ServerName) returns (removed: int)
      requires CanRemove(b, name) && TreeExact(buffers[b].tree)
      modifies this`totalWeight, this`buffers, this`lefts
      modifies weights`weight, weights`baseWeight, weights`oldWeight, weights`oldDiffSum, weights`oldIndex
      ensures removed != 0 && |lefts| == |old(lefts)|
      ensures buffers == old(buffers)[b := RemoveEntry(old(buffers)[b], name)]
      ensures HalfRemovedAt(old(buffers)[b].tree, old(buffers)[b].index[name])
    {
      hide RemoveEntry, CountersSeparate, WeightsSeparate, HalfRemoved, RecountedAll, CountersHold, HalfRetired,
           FullyRetired;
      ghost var tree, k := buffers[b].tree, buffers[b].index[name];
      ghost var before := lefts;
      RemoveEntryShape(buffers[b], name);
      assert Regular(tree[k].weight, ws[k]) && Regular(tree[|tree| - 1].weight, ws[|tree| - 1]);
      var added, oldWeight, saved;
      removed, added, oldWeight, saved := Remove(b, name);
      FirstPassCounts(ws, k, 0);
      FirstCounters(tree, buffers[b].tree, ws, k, before, lefts);
    }

    /** The second application: it finds the weight 0 that the first one left. */
    method RemoveSecond(b: nat, name: ServerName) returns (removed: int)
      requires CanRemove(b, name) && HalfRemovedAt(buffers[b].tree, buffers[b].index[name])
      modifies this`totalWeight, this`buffers, this`lefts, this`ws
      modifies weights`weight, weights`baseWeight, weights`oldWeight, weights`oldDiffSum, weights`oldIndex
      ensures removed == 0 && |lefts| == |old(lefts)|
      ensures buffers == old(buffers)[b := RemoveEntry(old(buffers)[b], name)]
      ensures ws == Removed(old(ws), old(buffers)[b].index[name])
      ensures WeightsSeparate(buffers[b].tree, weights) && TreeExact(buffers[b].tree)
    {
      hide RemoveEntry, CountersSeparate, WeightsSeparate, HalfRemoved, Removed, RecountedAll, CountersHold,
           HalfRetired, FullyRetired, AllRegular, Owed;
      ghost var tree, k := buffers[b].tree, buffers[b].index[name];
      HalfRetiredOwes(tree, k, ws, weights);
      ghost var before := lefts;
      RemoveEntryShape(buffers[b], name);
      var added, oldWeight, saved;
      removed, added, oldWeight, saved := Remove(b, name);
      SecondPassCounts(ws, k, 0);
      SecondCounters(tree, buffers[b].tree, ws, k, before, lefts);
      RegularAgain(tree, buffers[b].tree, k, ws, weights);
      ws := Removed(ws, k);
    }

    /** `Modify` with `Remove`, as one thread runs it: apply to the background, flip, apply to the other. */
    method ModifyRemove(name: ServerName)
      requires BuffersAgree() && name in buffers[0].index && TreeExact(buffers[0].tree)
      modifies this`totalWeight, this`buffers, this`lefts, this`ws, this`index
      modifies weights`weight, weights`baseWeight, weights`oldWeight, weights`oldDiffSum, weights`oldIndex
      ensures BuffersAgree() && TreeExact(buffers[0].tree) && index == 1 - old(index)
      ensures buffers[0].index.Keys == old(buffers[0].index.Keys) - {name}
      ensures buffers[0] == RemoveEntry(old(buffers)[0], name)
      ensures ws == Removed(old(ws), old(buffers)[0].index[name])
    {
      hide RemoveEntry, CountersSeparate, WeightsSeparate, HalfRemoved, Removed, CountersHold, AllRegular, HalfRetired;
      ghost var tree, k := buffers[0].tree, buffers[0].index[name];
      RegularAt(tree, k, ws, weights);
      RegularAt(tree, |tree| - 1, ws, weights);
      RemoveKeepsAligned(buffers[0], name);
      RemoveKeepsSeparation(buffers[0], name, |lefts|, weights);
      var first := RemoveFirst(1 - index, name);
      index := 1 - index;
      HalfRetiredOwes(tree, k, ws, weights);
      var second := RemoveSecond(1 - index, name);
    }

    /** The same, with the accounts. */
    method ModifyRemoveAccounted(name: ServerName)
      requires BuffersAgree() && name in buffers[0].index && TreeExact(buffers[0].tree)
      modifies this`totalWeight, this`buffers, this`lefts, this`ws, this`index
      modifies weights`weight, weights`baseWeight, weights`oldWeight, weights`oldDiffSum, weights`oldIndex
      ensures BuffersAgree() && TreeExact(buffers[0].tree)
      ensures buffers[0].index.Keys == old(buffers[0].index.Keys) - {name}
      ensures buffers[0] == RemoveEntry(old(buffers)[0], name)
      ensures ws == Removed(old(ws), old(buffers)[0].index[name])
      ensures old(Accounted()) ==> Accounted()
    {
      hide RemoveEntry, Removed, TreeExact, CountersSeparate, Weight.Accounted;
      RemoveKeepsWeights(buffers[0], name, weights);
      ModifyRemove(name);
    }

    method RemoveServer(name: ServerName)
      requires Valid()
      modifies this
      modifies weights`weight, weights`baseWeight, weights`oldWeight, weights`oldDiffSum, weights`oldIndex
      ensures Valid() && serverMap.Keys == old(serverMap.Keys) - {name}
      ensures weights == old(weights) && queues == old(queues) && stores == old(stores)
      ensures name !in old(serverMap) ==> buffers == old(buffers) && ws == old(ws)
      ensures name in old(serverMap) ==>
                && buffers[0] == RemoveEntry(old(buffers)[0], name)
                && ws == Removed(old(ws), old(buffers)[0].index[name])
      ensures old(Accounted()) ==> Accounted()
    {
      hide RemoveEntry, Removed, BuffersAgree, WindowsExact, TreeExact;
      if name in serverMap {
        serverMap := serverMap - {name};
        ModifyRemoveAccounted(name);
      }
    }

    // ----- Add -----

    /** The branch of `Add` for the second application: the foreground has the server already, so its
        position with counter and weight is shared. */
    method CopyEntry(b: nat, name: ServerName)
      requires |buffers| == 2 && b < 2 && Aligned(buffers[1 - b]) && name in buffers[1 - b].index
      modifies this`buffers
      ensures var fg := old(buffers)[1 - b];
              buffers == old(buffers)[b := AddEntry(old(buffers)[b], fg.tree[fg.index[name]], fg.index[name])]
    {
      var bg, fg := buffers[b], buffers[1 - b];
      var at := fg.index[name];
      buffers := buffers[b := Layout(bg.tree + [fg.tree[at]], bg.index[name := at])];
    }

    /** `ServerInfo(name, initialWeight)`: a new counter and a new weight, shared with nothing in `tree`. */
    method NewServerInfo(name: ServerName, initialWeight: int, ghost tree: Tree) returns (node: Entry<nat, Weight>)
      requires MIN_WEIGHT <= initialWeight <= MAX_WEIGHT
      requires CountersSeparate(tree, |lefts|) && WeightsSeparate(tree, weights) && AllRegular(tree, ws, weights)
      requires WindowsExact()
      modifies this`lefts, this`weights, this`queues, this`stores
      ensures node.name == name && node.left == |old(lefts)| && lefts == old(lefts) + [0]
      ensures CountersSeparate(tree + [node], |lefts|) && WeightsSeparate(tree + [node], weights)
      ensures AllRegular(tree + [node], ws + [initialWeight], weights) && node.weight.weight == initialWeight
      ensures WindowsExact()
      ensures fresh(weights - old(weights)) && fresh(queues - old(queues)) && fresh(stores - old(stores))
      ensures node.weight.Accounted() && node.weight.outstanding == [] && node.weight.Unserved()
    {
      hide Holds, Weight.Sound;
      var w := new Weight(initialWeight);
      node := Entry(name, |lefts|, w);
      lefts := lefts + [0];
      weights, queues, stores := weights + {w}, queues + {w.timeQ}, stores + {w.timeQ.items};
    }

    /** The branch of `Add` for the first application. */
    method CreateEntry(b: nat, name: ServerName) returns (ghost e: Entry<nat, Weight>)
      requires BuffersAgree() && b < 2 && name !in buffers[b].index
      requires TreeExact(buffers[b].tree) && WindowsExact()
      modifies this`totalWeight, this`buffers, this`lefts, this`ws, this`weights, this`queues, this`stores
      ensures e.name == name && buffers == old(buffers)[b := AddEntry(old(buffers)[b], e, |old(buffers)[b].tree|)]
      ensures CountersSeparate(buffers[b].tree, |lefts|) && WeightsSeparate(buffers[b].tree, weights)
      ensures ws == old(ws) + [InitialWeight(old(totalWeight), |old(buffers)[b].tree|)]
      ensures TreeExact(buffers[b].tree) && WindowsExact()
      ensures fresh(weights - old(weights)) && fresh(queues - old(queues)) && fresh(stores - old(stores))
      ensures e.weight.Accounted() && e.weight.outstanding == [] && e.weight.Unserved()
    {
      hide Aligned, CountersSeparate, WeightsSeparate, AllRegular, CountersHold, WindowsExact, Climbed, InitialWeight;
      var bg := buffers[b];
      var n := |bg.tree|;
      var initialWeight := WEIGHT_SCALE;
      if n != 0 {
        initialWeight := totalWeight / n;
      }
      InitialWeightWithin(bg.tree, ws, weights);
      ghost var before := lefts;
      var node := NewServerInfo(name, initialWeight, bg.tree);
      var longer := bg.tree + [node];
      buffers := buffers[b := Layout(longer, bg.index[name := n])];
      Spread(longer, node.weight.weight, n);
      AddCounters(bg.tree, longer, ws, initialWeight, before, lefts);
      SumAppend(ws, initialWeight);
      ws := ws + [initialWeight];
      e := node;
    }

    /** The code of `Add`, for either application: which branch is taken shows which application it is. */
    method Add(b: nat, name: ServerName) returns (ghost e: Entry<nat, Weight>)
      requires |buffers| == 2 && b < 2 && Aligned(buffers[1 - b])
      requires name !in buffers[1 - b].index ==> BuffersAgree() && TreeExact(buffers[b].tree) && WindowsExact()
      modifies this`totalWeight, this`buffers, this`lefts, this`ws, this`weights, this`queues, this`stores
      ensures var fg, bg := old(buffers)[1 - b], old(buffers)[b];
              if name in fg.index
              then
                && buffers == old(buffers)[b := AddEntry(bg, fg.tree[fg.index[name]], fg.index[name])]
                && lefts == old(lefts) && totalWeight == old(totalWeight) && ws == old(ws)
                && weights == old(weights) && queues == old(queues) && stores == old(stores)
              else
                && e.name == name && buffers == old(buffers)[b := AddEntry(bg, e, |bg.tree|)]
                && CountersSeparate(buffers[b].tree, |lefts|) && WeightsSeparate(buffers[b].tree, weights)
                && ws == old(ws) + [InitialWeight(old(totalWeight), |bg.tree|)]
                && TreeExact(buffers[b].tree) && WindowsExact()
                && fresh(weights - old(weights)) && fresh(queues - old(queues)) && fresh(stores - old(stores))
                && e.weight.Accounted() && e.weight.outstanding == [] && e.weight.Unserved()
    {
      if name in buffers[1 - b].index {
        CopyEntry(b, name);
        e := old(buffers)[1 - b].tree[old(buffers)[1 - b].index[name]];
      } else {
        e := CreateEntry(b, name);
      }
    }

    /** `ModifyWithForeground` with `Add`. */
    method ModifyAdd(name: ServerName)
      requires BuffersAgree() && name !in buffers[0].index && TreeExact(buffers[0].tree) && WindowsExact()
      modifies this`totalWeight, this`buffers, this`lefts, this`ws, this`index, this`weights, this`queues, this`stores
      ensures BuffersAgree() && TreeExact(buffers[0].tree) && WindowsExact() && index == 1 - old(index)
      ensures fresh(weights - old(weights)) && fresh(queues - old(queues)) && fresh(stores - old(stores))
      ensures |buffers[0].tree| == |old(buffers[0].tree)| + 1
      ensures var e := buffers[0].tree[|old(buffers[0].tree)|];
              && e.name == name && buffers[0] == AddEntry(old(buffers[0]), e, |old(buffers[0].tree)|)
              && e.weight.Accounted() && e.weight.outstanding == [] && e.weight.Unserved()
      ensures buffers[0].index.Keys == old(buffers[0].index.Keys) + {name}
      ensures ws == old(ws) + [InitialWeight(old(totalWeight), |old(buffers[0].tree)|)]
    {
      hide Aligned, CountersSeparate, WeightsSeparate, WindowsExact, TreeExact, InitialWeight;
      var e := Add(1 - index, name);
      AddKeepsAligned(buffers[index], e);
      index := 1 - index;
      e := Add(1 - index, name);
    }

    /** The same, with the accounts. */
    method ModifyAddAccounted(name: ServerName)
      requires BuffersAgree() && name !in buffers[0].index && TreeExact(buffers[0].tree) && WindowsExact()
      modifies this`totalWeight, this`buffers, this`lefts, this`ws, this`index, this`weights, this`queues, this`stores
      ensures BuffersAgree() && TreeExact(buffers[0].tree) && WindowsExact()
      ensures fresh(weights - old(weights)) && fresh(queues - old(queues)) && fresh(stores - old(stores))
      ensures |buffers[0].tree| == |old(buffers[0].tree)| + 1
      ensures var e := buffers[0].tree[|old(buffers[0].tree)|];
              && e.name == name && buffers[0] == AddEntry(old(buffers[0]), e, |old(buffers[0].tree)|)
              && e.weight.Accounted() && e.weight.outstanding == [] && e.weight.Unserved()
      ensures buffers[0].index.Keys == old(buffers[0].index.Keys) + {name}
      ensures ws == old(ws) + [InitialWeight(old(totalWeight), |old(buffers[0].tree)|)]
      ensures old(Accounted()) ==> Accounted()
    {
      hide Aligned, CountersSeparate, WindowsExact, TreeExact, InitialWeight, Weight.Accounted;
      ModifyAdd(name);
    }

    /** Servers are counted, but only the first addition of a name counts. */
    method AddServer(name: ServerName)
      requires Valid()
      modifies this
      ensures Valid() && serverMap.Keys == old(serverMap.Keys) + {name}
      ensures fresh(weights - old(weights)) && fresh(queues - old(queues)) && fresh(stores - old(stores))
      ensures name in old(serverMap) ==> buffers == old(buffers) && ws == old(ws) && lefts == old(lefts)
      ensures name !in old(serverMap) ==>
                && |buffers[0].tree| == |old(buffers[0].tree)| + 1
                && (var e := buffers[0].tree[|old(buffers[0].tree)|];
                    && e.name == name && buffers[0] == AddEntry(old(buffers[0]), e, |old(buffers[0].tree)|)
                    && e.weight.Accounted() && e.weight.outstanding == [] && e.weight.Unserved())
                && ws == old(ws) + [InitialWeight(old(totalWeight), |old(buffers[0].tree)|)]
      ensures old(Accounted()) ==> Accounted()
    {
      hide AddEntry, Aligned, CountersSeparate, WeightsSeparate, WindowsExact, TreeExact;
      var count := if name in serverMap then serverMap[name] + 1 else 1;
      serverMap := serverMap[name := count];
      if count != 1 {
        return;
      }
      ModifyAddAccounted(name);
    }

    // ----- Selection and feedback -----

    /** One search: from the root down until a node takes the dice or the vector ends. */
    method Search(dice: int) returns (found: Option<nat>, rest: int, ghost steps: nat)
      requires BuffersAgree() && TreeExact(buffers[0].tree) && dice >= 0
      ensures found == Descend(ws, 0, dice) && steps == Visited(ws, 0, dice)
      ensures found.Some? ==> found.value < |ws| && 0 <= rest < ws[found.value]
      ensures found.Some? ==> rest == dice - InFront(ws, found.value)
    {
      hide Aligned, CountersSeparate, WeightsSeparate, Weight.Sound, Sum, SubtreeSum, InFront;
      TotalPositive(buffers[0].tree, ws, weights);
      if Descend(ws, 0, dice).Some? {
        RestIsBehindFound(ws, dice);
      }
      var tree := buffers[index].tree;
      var n := |tree|;
      var at: nat := 0;
      found, rest, steps := None, dice, 0;
      while at < n
        invariant rest >= 0
        invariant Descend(ws, 0, dice) == Descend(ws, at, rest)
        invariant Visited(ws, 0, dice) == steps + Visited(ws, at, rest)
        invariant RestOf(ws, 0, dice) == RestOf(ws, at, rest)
        decreases n - at
      {
        steps := steps + 1;
        assert Regular(tree[at].weight, ws[at]);
        var left, self := lefts[tree[at].left], tree[at].weight.weight;
        if rest < left {
          if 2 * at + 1 >= n {
            SubtreeSumBeyond(ws, 2 * at + 1);
          }
          // the left child exists, although the source does not look
          assert 2 * at + 1 < n;
          at := 2 * at + 1;
        } else if rest >= left + self {
          at := 2 * at + 2;
          rest := rest - (left + self);
        } else {
          return Some(at), rest - left, steps;
        }
      }
    }

    /** The dice has stopped at position `at`: the weight there is refreshed, and the node is taken if it
        still covers the dice. */
    method Try(at: nat, beginTime: int, rest: int) returns (accepted: bool)
      requires BuffersAgree() && TreeExact(buffers[0].tree) && at < |buffers[0].tree|
      modifies this`lefts, this`totalWeight, this`ws
      modifies buffers[0].tree[at].weight`weight, buffers[0].tree[at].weight`oldDiffSum
      modifies buffers[0].tree[at].weight`beginTimeSum, buffers[0].tree[at].weight`beginTimeCount
      modifies buffers[0].tree[at].weight`outstanding
      ensures BuffersAgree() && TreeExact(buffers[0].tree)
      ensures var w := buffers[0].tree[at].weight;
              && ws == old(ws)[at := NewWeight(w.baseWeight, w.avgLatency, old(w.beginTimeSum),
                                               old(w.beginTimeCount), beginTime)]
              && accepted == (rest <= ws[at])
              && Counted(w, old(Snap(w)), accepted, beginTime)
    {
      hide Aligned, CountersSeparate, CountersHold, Climbed, NewWeight, Sum, SubtreeSum, Weight.Sound;
      var tree := buffers[index].tree;
      var w := tree[at].weight;
      assert Regular(w, ws[at]);
      ghost var counters := lefts;
      var diff;
      accepted, diff := w.AddInflight(beginTime, at, rest);
      Spread(tree, diff, at);
      ClimbKeepsCounters(tree, ws, at, w.weight, counters, lefts);
      SumUpdate(ws, at, w.weight);
      ws := ws[at := w.weight];
    }

    /** One search and, if it ends at a node, the try there, with an account of the whole tree since the
        selection began. */
    method Round(dice: int, beginTime: int, ghost snaps: seq<Snapshot>, ghost before: seq<int>)
      returns (found: Option<nat>, accepted: bool, ghost steps: nat)
      requires BuffersAgree() && TreeExact(buffers[0].tree) && buffers[0].tree != [] && 1 <= dice <= Sum(ws)
      requires AllCounted(buffers[0].tree, snaps, before, ws, None, beginTime, weights)
      modifies this`lefts, this`totalWeight, this`ws
      modifies weights`weight, weights`oldDiffSum, weights`beginTimeSum, weights`beginTimeCount, weights`outstanding
      ensures BuffersAgree() && TreeExact(buffers[0].tree) && |ws| == |old(ws)|
      ensures found == Descend(old(ws), 0, dice) && steps <= Log2(|buffers[0].tree|) + 1
      ensures found.Some? ==> found.value < |buffers[0].tree|
      ensures accepted ==> found.Some? && PickedBy(dice, old(ws), ws, found.value)
      ensures var t := Throw(dice, old(ws));
              && IsThrow(t, |snaps|) && ws == Left(t, snaps, beginTime)
              && if accepted then Hits(t, snaps, beginTime, found.value) else Misses(t, snaps, beginTime)
      ensures AllCounted(buffers[0].tree, snaps, before, ws, if accepted then found else None, beginTime, weights)
    {
      hide Aligned, CountersSeparate, AllRegular, CountersHold, NewWeight, Sum, Log2, Visited, Descend, InFront;
      TotalPositive(buffers[0].tree, ws, weights);
      VisitedAtMostDepth(ws, 0, dice);
      DescendFallsOff(ws, dice);
      assert Log2(0 + 1) == 0 by {
        LogOfOne();
      }
      var rest;
      found, rest, steps := Search(dice);
      accepted := false;
      if found.Some? {
        accepted := Try(found.value, beginTime, rest);
      }
    }

    /** The loop of the selection, with all its throws. The node that is taken is the one that the last dice
        finds among the weights shown to it. */
    method Select(beginTime: int)
      returns (chosen: Option<ServerName>, ghost taken: Option<nat>, ghost steps: nat, ghost throws: seq<Throw>)
      requires BuffersAgree() && TreeExact(buffers[0].tree) && buffers[0].tree != []
      modifies this`lefts, this`totalWeight, this`ws
      modifies weights`weight, weights`oldDiffSum, weights`beginTimeSum, weights`beginTimeCount, weights`outstanding
      ensures BuffersAgree() && TreeExact(buffers[0].tree)
      ensures IsSelection(throws, old(ws), ws, old(Snaps(buffers[0].tree, weights)), taken, beginTime)
      ensures |throws| <= |buffers[0].tree| && steps <= |throws| * (Log2(|buffers[0].tree|) + 1)
      ensures Spent(throws[..|throws| - 1]) < |buffers[0].tree|
      ensures if taken.None? then chosen == None && |buffers[0].tree| <= Spent(throws) <= 2 * |throws|
              else
                && taken.value < |buffers[0].tree| && chosen == Some(buffers[0].tree[taken.value].name)
                && PickedBy(throws[|throws| - 1].dice, throws[|throws| - 1].shown, ws, taken.value)
      ensures AllCounted(buffers[0].tree, old(Snaps(buffers[0].tree, weights)), old(ws), ws, taken, beginTime, weights)
    {
      hide Aligned, CountersSeparate, CountersHold, AllRegular, AllCounted, PickedBy, Sum, Log2, Descend;
      hide IsSelection, AllMissed, Left, Hits, Misses, IsThrow, Spent;
      chosen, taken, steps, throws := None, None, 0, [];
      ghost var tree, snaps := buffers[0].tree, Snaps(buffers[0].tree, weights);
      TotalPositive(tree, ws, weights);
      NothingCounted(tree, ws, beginTime, weights);
      NothingThrown(ws, snaps, beginTime);
      var n := |buffers[index].tree|;
      var nTry := 0;
      var total := totalWeight;
      var dice := GetRand(total);
      ghost var depth := Log2(n) + 1;
      while total > 0
        invariant BuffersAgree() && TreeExact(tree)
        invariant nTry == Spent(throws) < n && |throws| <= nTry
        invariant AllMissed(throws, old(ws), ws, snaps, beginTime)
        invariant total == Sum(ws) > 0 && 1 <= dice <= total
        invariant steps <= |throws| * depth
        invariant AllCounted(tree, snaps, old(ws), ws, None, beginTime, weights)
        decreases n - nTry
      {
        ghost var thrown := Throw(dice, ws);
        var found, accepted, visited := Round(dice, beginTime, snaps, old(ws));
        MissedOnceMore(throws, thrown, old(ws), snaps, beginTime);
        SpentBounds(throws + [thrown]);
        assert (|throws| + 1) * depth == |throws| * depth + depth;
        throws, steps := throws + [thrown], steps + visited;
        if found.Some? {
          if accepted {
            return Some(buffers[index].tree[found.value].name), found, steps, throws;
          }
          nTry := nTry + 1;
          if nTry >= n {
            break;
          }
        }
        nTry := nTry + 1;
        if nTry >= n {
          break;
        }
        TotalPositive(tree, ws, weights);
        total := totalWeight;
        dice := GetRand(total);
      }
    }

    /** One selection. There are at most n searches of at most depth steps, whatever the dice, and it fails
        only when `n_try` has reached n. Every dice before the last one was the total or was rejected by the
        refreshed weight of the node it found; the call is counted at the chosen server and nowhere else, and
        weights change by being refreshed only, those of servers without any feedback not at all. */
    method SelectServer(beginTime: int)
      returns (chosen: Option<ServerName>, ghost taken: Option<nat>, ghost steps: nat, ghost throws: seq<Throw>)
      requires Valid() && buffers[0].tree != []
      modifies this`lefts, this`totalWeight, this`ws
      modifies weights`weight, weights`oldDiffSum, weights`beginTimeSum, weights`beginTimeCount, weights`outstanding
      ensures Valid()
      ensures IsSelection(throws, old(ws), ws, old(Snaps(buffers[0].tree, weights)), taken, beginTime)
      ensures |throws| <= |buffers[0].tree| && steps <= |throws| * (Log2(|buffers[0].tree|) + 1)
      ensures Spent(throws[..|throws| - 1]) < |buffers[0].tree|
      ensures if taken.None? then chosen == None && |buffers[0].tree| <= Spent(throws) <= 2 * |throws|
              else
                && taken.value < |buffers[0].tree| && chosen == Some(buffers[0].tree[taken.value].name)
                && PickedBy(throws[|throws| - 1].dice, throws[|throws| - 1].shown, ws, taken.value)
      ensures AllCounted(buffers[0].tree, old(Snaps(buffers[0].tree, weights)), old(ws), ws, taken, beginTime, weights)
      ensures forall i :: 0 <= i < |buffers[0].tree| && old(buffers[0].tree[i].weight.Unserved()) ==>
                buffers[0].tree[i].weight.Unserved() && ws[i] == old(ws)[i]
      ensures old(Accounted()) ==> Accounted()
    {
      hide Aligned, CountersSeparate, TreeExact, WindowsExact, AllCounted, PickedBy, Log2, IsSelection, Spent;
      ghost var snaps := Snaps(buffers[0].tree, weights);
      ShownWeights();
      chosen, taken, steps, throws := Select(beginTime);
      ShownWeights();
      UnservedStay(buffers[0].tree, snaps, old(ws), ws, taken, beginTime, weights);
      if old(Accounted()) {
        CountingKeepsAccounts(buffers[0].tree, snaps, old(ws), ws, taken, beginTime, weights);
      }
    }

    lemma ShownWeights()
      requires BuffersAgree() && TreeExact(buffers[0].tree)
      ensures |ws| == |buffers[0].tree| && AllAtLeast(ws, MIN_WEIGHT)
      ensures forall i :: 0 <= i < |ws| ==> buffers[0].tree[i].weight.weight == ws[i]
    {
      hide Aligned, CountersSeparate, CountersHold;
      TotalPositive(buffers[0].tree, ws, weights);
      WeightsWithin(buffers[0].tree, ws, weights);
    }

    /** A server that has just been added keeps the weight it starts with through any number of selections,
        whatever calls they put in flight, until its first feedback. */
    method AddAndSelect(name: ServerName, times: seq<int>)
      requires Valid() && name !in serverMap
      modifies this, weights
      ensures Valid() && serverMap.Keys == old(serverMap.Keys) + {name}
      ensures |ws| == |buffers[0].tree| == |old(buffers[0].tree)| + 1
      ensures var k := |old(buffers[0].tree)|;
              && buffers[0].tree[k].name == name && buffers[0].tree[k].weight.Unserved()
              && buffers[0].tree[k].weight.weight == ws[k] == InitialWeight(old(totalWeight), k)
    {
      hide AddEntry, Aligned, CountersSeparate, WeightsSeparate, WindowsExact, TreeExact, InitialWeight, AllCounted;
      hide IsSelection, PickedBy, Spent, Log2;
      ghost var k, initial := |buffers[0].tree|, InitialWeight(totalWeight, |buffers[0].tree|);
      ShownWeights();
      AddServer(name);
      for i := 0 to |times|
        invariant Valid() && serverMap.Keys == old(serverMap.Keys) + {name} && fresh(weights - old(weights))
        invariant |buffers[0].tree| == |ws| == k + 1 && buffers[0].tree[k].name == name
        invariant buffers[0].tree[k].weight.Unserved() && ws[k] == initial
      {
        var _, _, _, _ := SelectServer(times[i]);
        ShownWeights();
      }
      ShownWeights();
    }

    /** What the feedback of a successful call leaves at its server. */
    twostate predicate Absorbed(w: Weight, beginTime: int, endTime: int, k: nat)
      reads w
    {
      && w.outstanding == Settled(old(w.outstanding), k, beginTime)
      && w.beginTimeCount == old(w.beginTimeCount) - 1 && w.beginTimeSum == old(w.beginTimeSum) - beginTime
      && (old(w.Accounted()) ==> (w.Accounted() <==> IsOutstanding(old(w.outstanding), k, beginTime)))
      && w.history == old(w.history) + (if endTime > beginTime then [Sample(endTime - beginTime, endTime)] else [])
      && (if endTime > beginTime then w.Measured(old(w.avgLatency), old(w.baseWeight), old(w.weight), endTime)
              && Rated(w.history, w.avgLatency, w.baseWeight)
          else w.weight == old(w.weight))
    }

    /** The feedback of a call to the server at position `at`. */
    method Absorb(at: nat, beginTime: int, endTime: int, ghost k: nat)
      requires BuffersAgree() && TreeExact(buffers[0].tree) && WindowsExact() && at < |buffers[0].tree|
      modifies this`lefts, this`totalWeight, this`ws
      modifies buffers[0].tree[at].weight, buffers[0].tree[at].weight.timeQ, buffers[0].tree[at].weight.timeQ.items
      ensures BuffersAgree() && TreeExact(buffers[0].tree)
      ensures |ws| == |old(ws)| && ws == old(ws)[at := ws[at]]
      ensures var w := buffers[0].tree[at].weight;
              && Holds(w.timeQ, w.history)
              && Absorbed(w, beginTime, endTime, k)
    {
      hide Aligned, CountersSeparate, CountersHold, Climbed, Sum, SubtreeSum, Weight.Sound, Weight.Measured, Holds;
      var tree := buffers[index].tree;
      var w := tree[at].weight;
      assert Regular(w, ws[at]);
      ghost var counters := lefts;
      var diff := w.Update(beginTime, at, endTime, k);
      Spread(tree, diff, at);
      ClimbKeepsCounters(tree, ws, at, w.weight, counters, lefts);
      SumUpdate(ws, at, w.weight);
      ws := ws[at := w.weight];
    }

    /** The same with the accounts of the whole tree. */
    method AbsorbAt(at: nat, beginTime: int, endTime: int, ghost k: nat)
      requires BuffersAgree() && TreeExact(buffers[0].tree) && WindowsExact() && at < |buffers[0].tree|
      modifies this`lefts, this`totalWeight, this`ws
      modifies buffers[0].tree[at].weight, buffers[0].tree[at].weight.timeQ, buffers[0].tree[at].weight.timeQ.items
      ensures BuffersAgree() && TreeExact(buffers[0].tree) && WindowsExact()
      ensures |ws| == |old(ws)| && ws == old(ws)[at := ws[at]]
      ensures Absorbed(buffers[0].tree[at].weight, beginTime, endTime, k)
      ensures old(Accounted()) ==>
                (Accounted() <==> IsOutstanding(old(buffers[0].tree[at].weight.outstanding), k, beginTime))
    {
      hide Aligned, CountersSeparate, TreeExact, Holds, Settled, IsOutstanding, Weight.Measured;
      Absorb(at, beginTime, endTime, k);
      assert forall i :: 0 <= i < |buffers[0].tree| && i != at ==>
        buffers[0].tree[i].weight.Accounted() == old(buffers[0].tree[i].weight.Accounted());
    }

    lemma KnownServer(name: ServerName)
      requires Valid() && name in serverMap
      ensures name in buffers[0].index && buffers[0].index[name] < |buffers[0].tree|
      ensures var w := buffers[0].tree[buffers[0].index[name]].weight;
              w in weights && w.timeQ in queues && w.timeQ.items in stores
    {
      hide CountersSeparate, TreeExact, Holds;
    }

    /** The feedback of a successful call to `name`; a server that is gone is ignored. The accounts stay in
        order if and only if the call is one of those outstanding at the server, the `k`th. */
    method Feedback(name: ServerName, beginTime: int, endTime: int, ghost k: nat)
      requires Valid()
      modifies this`lefts, this`totalWeight, this`ws, weights, queues, stores
      ensures Valid()
      ensures name !in serverMap ==> ws == old(ws) && forall w :: w in weights ==> unchanged(w)
      ensures name in serverMap ==>
                var at := buffers[0].index[name];
                && |ws| == |old(ws)| && ws == old(ws)[at := ws[at]]
                && Absorbed(buffers[0].tree[at].weight, beginTime, endTime, k)
                && (forall w :: w in weights && w != buffers[0].tree[at].weight ==> unchanged(w))
                && (old(Accounted()) ==>
                      (Accounted() <==>
                         IsOutstanding(old(buffers[0].tree[buffers[0].index[name]].weight.outstanding), k, beginTime)))
    {
      hide Aligned, CountersSeparate, WeightsSeparate, TreeExact, WindowsExact, Absorbed, Accounted, IsOutstanding;
      if name !in serverMap {
        return;
      }
      KnownServer(name);
      AbsorbAt(buffers[index].index[name], beginTime, endTime, k);
    }

    /** The server at `at` is `name`, and no call to it is outstanding. */
    ghost predicate Unused(at: nat, name: ServerName)
      reads this`buffers, this`weights, weights`beginTimeCount, weights`beginTimeSum, weights`outstanding
    {
      && |buffers| == 2 && at < |buffers[0].tree| && buffers[0].tree[at].weight in weights
      && buffers[0].tree[at].name == name && name in buffers[0].index && buffers[0].index[name] == at
      && buffers[0].tree[at].weight.Accounted() && buffers[0].tree[at].weight.outstanding == []
    }

    /** A server that is removed and added again gets a weight that has counted no call. */
    method Replace(name: ServerName)
      requires Valid() && name in serverMap
      modifies this, weights
      ensures Valid() && serverMap.Keys == old(serverMap.Keys)
      ensures fresh(weights - old(weights)) && fresh(queues - old(queues)) && fresh(stores - old(stores))
      ensures buffers[0].tree != [] && Unused(|buffers[0].tree| - 1, name)
    {
      hide RemoveEntry, Removed, Aligned, CountersSeparate, TreeExact, WindowsExact;
      RemoveServer(name);
      AddServer(name);
    }

    /** The feedback of a call to `name` after the server has been removed and added again: it finds the new
        weight, which has never counted the call, and leaves that one without any call outstanding and with
        -1 calls inflight. */
    method FeedbackAfterReplacement(name: ServerName, beginTime: int, endTime: int, ghost k: nat)
      requires Valid() && name in serverMap
      modifies this, weights, queues, stores
      ensures Valid() && serverMap.Keys == old(serverMap.Keys) && !Accounted()
      ensures buffers[0].tree != []
      ensures var e := buffers[0].tree[|buffers[0].tree| - 1];
              && e.name == name && e.weight.outstanding == []
              && e.weight.beginTimeCount == -1 && e.weight.beginTimeSum == -beginTime
    {
      hide Aligned, CountersSeparate, WeightsSeparate, TreeExact, WindowsExact, Holds, Weight.Measured;
      Replace(name);
      Feedback(name, beginTime, endTime, k);
    }
  }
}
