/**
  One selection of the locality-aware balancer as a sequence of dice: which weights each of them was thrown
  against, and whether the node it found still covered it once its weight was refreshed.
 */
module Selections {
  import opened Options
  import opened WeightTree
  import opened WeightSearch
  import opened WeightScale
  import opened Weights

  /** What a search does not change of a weight it does not pick. */
  datatype Snapshot = Snapshot(base: int, avg: int, beginSum: int, beginCount: int, outstanding: seq<int>)

  /** What the weight becomes when a selection at `now` refreshes it. */
  function RefreshedWeight(s: Snapshot, now: int): int {
    NewWeight(s.base, s.avg, s.beginSum, s.beginCount, now)
  }

  /** By the calls that are in flight at the server. */
  lemma RefreshedIsFair(s: Snapshot, now: int)
    requires s.base >= 0 && s.avg >= 0 && BegunBy(s.outstanding, now)
    requires s.beginCount == |s.outstanding| && s.beginSum == SumOf(s.outstanding)
    ensures Fair(RefreshedWeight(s, now), s.base, s.avg, s.outstanding, now)
  {
    NewWeightIsFair(s.base, s.avg, s.outstanding, now);
  }

  /** A dice, and the weights at the time. */
  datatype Throw = Throw(dice: int, shown: seq<int>)

  ghost predicate IsThrow(t: Throw, n: nat) {
    |t.shown| == n && AllAtLeast(t.shown, MIN_WEIGHT) && 1 <= t.dice <= Sum(t.shown)
  }

  /** The dice finds node `i`, and what is left of it behind all nodes that come before `i` is at most the
      refreshed weight. */
  ghost predicate Hits(t: Throw, snaps: seq<Snapshot>, now: int, i: nat)
    requires |snaps| == |t.shown|
  {
    && i < |snaps| && Descend(t.shown, 0, t.dice) == Some(i)
    && t.dice - InFront(t.shown, i) <= RefreshedWeight(snaps[i], now)
  }

  /** The dice is the total, or the node that it finds has become too light for it. */
  ghost predicate Misses(t: Throw, snaps: seq<Snapshot>, now: int)
    requires |snaps| == |t.shown|
  {
    match Descend(t.shown, 0, t.dice)
    case None => t.dice == Sum(t.shown)
    case Some(i) => i < |snaps| && t.dice - InFront(t.shown, i) > RefreshedWeight(snaps[i], now)
  }

  /** The weights after the throw: that of the node it finds is refreshed. */
  ghost function Left(t: Throw, snaps: seq<Snapshot>, now: int): (ws: seq<int>)
    requires |snaps| == |t.shown|
    ensures |ws| == |t.shown|
  {
    match Descend(t.shown, 0, t.dice)
    case None => t.shown
    case Some(i) => if i < |snaps| then t.shown[i := RefreshedWeight(snaps[i], now)] else t.shown
  }

  /** All throws have missed, one after the other, and the weights have gone from `before` to `after`. */
  ghost predicate AllMissed(throws: seq<Throw>, before: seq<int>, after: seq<int>, snaps: seq<Snapshot>, now: int) {
    if throws == [] then after == before
    else
      var t := throws[|throws| - 1];
      && AllMissed(throws[..|throws| - 1], before, t.shown, snaps, now)
      && IsThrow(t, |snaps|) && Misses(t, snaps, now) && after == Left(t, snaps, now)
  }

  /** All throws but the last have missed, and the last has hit the node that is taken, if one is. */
  ghost predicate IsSelection(throws: seq<Throw>, before: seq<int>, after: seq<int>, snaps: seq<Snapshot>,
                              taken: Option<nat>, now: int) {
    && throws != []
    && var t := throws[|throws| - 1];
       && AllMissed(throws[..|throws| - 1], before, t.shown, snaps, now)
       && IsThrow(t, |snaps|) && after == Left(t, snaps, now)
       && match taken case None => Misses(t, snaps, now) case Some(i) => Hits(t, snaps, now, i)
  }

  /** What the throws count in the loop's `n_try`: a node that was found and rejected counts twice. */
  ghost function Spent(throws: seq<Throw>): nat {
    if throws == [] then 0
    else
      var t := throws[|throws| - 1];
      Spent(throws[..|throws| - 1]) + if Descend(t.shown, 0, t.dice).None? then 1 else 2
  }

  lemma {:induction false} SpentBounds(throws: seq<Throw>)
    ensures |throws| <= Spent(throws) <= 2 * |throws|
  {
    if throws != [] {
      SpentBounds(throws[..|throws| - 1]);
    }
  }

  lemma NothingThrown(ws: seq<int>, snaps: seq<Snapshot>, now: int)
    ensures AllMissed([], ws, ws, snaps, now) && Spent([]) == 0
  {
  }

  lemma MissedOnceMore(throws: seq<Throw>, t: Throw, before: seq<int>, snaps: seq<Snapshot>, now: int)
    requires AllMissed(throws, before, t.shown, snaps, now) && IsThrow(t, |snaps|)
    ensures var more := throws + [t];
            && more[..|throws|] == throws && more[|throws|] == t
            && Spent(more) == Spent(throws) + (if Descend(t.shown, 0, t.dice).None? then 1 else 2)
            && (Misses(t, snaps, now) ==>
                  && AllMissed(more, before, Left(t, snaps, now), snaps, now)
                  && IsSelection(more, before, Left(t, snaps, now), snaps, None, now))
            && (forall i: nat :: Hits(t, snaps, now, i) ==>
                  IsSelection(more, before, Left(t, snaps, now), snaps, Some(i), now))
  {
    var more := throws + [t];
    assert more[..|throws|] == throws;
  }

  /** In terms of the in-order: of the node whose interval the dice falls into, the weight has to cover the dice
      less all that comes before the node. */
  lemma HitsByInterval(t: Throw, snaps: seq<Snapshot>, now: int, k: nat)
    requires |snaps| == |t.shown| && IsThrow(t, |snaps|) && k < |InOrder(|snaps|, 0)|
    ensures Within(InOrder(|snaps|, 0), |snaps|)
    ensures var order := InOrder(|snaps|, 0);
            var i, lo := order[k], Before(t.shown, order, k);
            lo <= t.dice < lo + t.shown[i] ==>
              && (Hits(t, snaps, now, i) <==> t.dice - lo <= RefreshedWeight(snaps[i], now))
              && (Misses(t, snaps, now) <==> t.dice - lo > RefreshedWeight(snaps[i], now))
  {
    HitInterval(t.shown, k, t.dice);
    InFrontOfPlace(t.shown, k);
  }

  /** Every throw but the last one has missed, and so has the last if nothing was taken. */
  lemma {:induction false} EarlierThrowsMissed(throws: seq<Throw>, before: seq<int>, after: seq<int>,
                                               snaps: seq<Snapshot>, now: int, j: nat)
    requires AllMissed(throws, before, after, snaps, now) && j < |throws|
    ensures IsThrow(throws[j], |snaps|) && Misses(throws[j], snaps, now)
    ensures throws[0].shown == before
    ensures Left(throws[j], snaps, now) == if j + 1 < |throws| then throws[j + 1].shown else after
  {
    var front := throws[..|throws| - 1];
    if front != [] {
      EarlierThrowsMissed(front, before, throws[|throws| - 1].shown, snaps, now, if j < |front| then j else 0);
    }
  }

  lemma {:induction false} MissedTotals(throws: seq<Throw>, before: seq<int>, after: seq<int>,
                                        snaps: seq<Snapshot>, now: int)
    requires AllMissed(throws, before, after, snaps, now) && |before| == |snaps|
    requires forall i :: 0 <= i < |snaps| ==> RefreshedWeight(snaps[i], now) == before[i]
    ensures after == before
    ensures forall j :: 0 <= j < |throws| ==> throws[j].shown == before && throws[j].dice == Sum(before)
  {
    if throws != [] {
      var t := throws[|throws| - 1];
      MissedTotals(throws[..|throws| - 1], before, t.shown, snaps, now);
      Decides(t, snaps, now);
    }
  }

  /** Against weights that refreshing does not change, a dice hits exactly if it is below the total. */
  lemma Decides(t: Throw, snaps: seq<Snapshot>, now: int)
    requires IsThrow(t, |snaps|)
    requires forall i :: 0 <= i < |snaps| ==> RefreshedWeight(snaps[i], now) == t.shown[i]
    ensures Misses(t, snaps, now) <==> t.dice == Sum(t.shown)
    ensures t.dice < Sum(t.shown) <==> Descend(t.shown, 0, t.dice).Some?
    ensures Left(t, snaps, now) == t.shown
  {
    DescendFallsOff(t.shown, t.dice);
    if t.dice < Sum(t.shown) {
      RestIsBehindFound(t.shown, t.dice);
      RestIsSmaller(t.shown, 0, t.dice);
    }
  }

  /** So the first dice below the total decides, by the plain search, and all before it were the total. */
  lemma FirstDiceDecides(throws: seq<Throw>, before: seq<int>, after: seq<int>, snaps: seq<Snapshot>,
                         taken: Option<nat>, now: int)
    requires IsSelection(throws, before, after, snaps, taken, now) && |before| == |snaps|
    requires forall i :: 0 <= i < |snaps| ==> RefreshedWeight(snaps[i], now) == before[i]
    ensures after == before
    ensures forall j :: 0 <= j < |throws| - 1 ==> throws[j].dice == Sum(before)
    ensures taken == Descend(before, 0, throws[|throws| - 1].dice)
    ensures taken.None? <==> throws[|throws| - 1].dice == Sum(before)
  {
    var t := throws[|throws| - 1];
    MissedTotals(throws[..|throws| - 1], before, t.shown, snaps, now);
    Decides(t, snaps, now);
  }
}
