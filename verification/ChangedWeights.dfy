/** How Add and Remove change the weights of the tree, and by how much the counters and the total follow. */
module ChangedWeights {
  import opened WeightTree
  import opened WeightScale

  /** The first application of Remove leaves the removed server's position with the weight of the last
      server, which is still counted at the last position too. */
  function HalfRemoved(ws: seq<int>, k: nat): seq<int>
    requires k < |ws|
  {
    if k == |ws| - 1 then ws[k := 0] else ws[k := ws[|ws| - 1]]
  }

  /** After the second application the last position is gone. */
  function Removed(ws: seq<int>, k: nat): seq<int>
    requires k < |ws|
  {
    HalfRemoved(ws, k)[..|ws| - 1]
  }

  lemma HalfRemovedSums(ws: seq<int>, k: nat, j: nat)
    requires k < |ws|
    ensures var diff := (if k == |ws| - 1 then 0 else ws[|ws| - 1]) - ws[k];
            && LeftSum(HalfRemoved(ws, k), j) == LeftSum(ws, j) + (if InLeft(j, k) then diff else 0)
            && Sum(HalfRemoved(ws, k)) == Sum(ws) + diff
  {
    var v := if k == |ws| - 1 then 0 else ws[|ws| - 1];
    SubtreeSumUpdate(ws, 2 * j + 1, k, v);
    SumUpdate(ws, k, v);
  }

  lemma RemovedSums(ws: seq<int>, k: nat, j: nat)
    requires k < |ws|
    ensures var last := |ws| - 1;
            var gone := if k == last then 0 else ws[last];
            && LeftSum(Removed(ws, k), j) == LeftSum(HalfRemoved(ws, k), j) - (if InLeft(j, last) then gone else 0)
            && Sum(Removed(ws, k)) == Sum(HalfRemoved(ws, k)) - gone
  {
    var h := HalfRemoved(ws, k);
    assert h == h[..|ws| - 1] + [h[|ws| - 1]];
    SubtreeSumAppend(h[..|ws| - 1], 2 * j + 1, h[|ws| - 1]);
    SumAppend(h[..|ws| - 1], h[|ws| - 1]);
  }

  /** An average of weights lies between the bounds of the weights. */
  lemma AverageWithin(ws: seq<int>, lo: int, hi: int)
    requires ws != [] && forall i :: 0 <= i < |ws| ==> lo <= ws[i] <= hi
    ensures lo <= Sum(ws) / |ws| <= hi
  {
    SumAtLeast(ws, lo);
    SumAtMost(ws, hi);
    QuotientWithin(Sum(ws), |ws|, lo, hi);
  }

  /** What a removal at `k`, out of `last + 1` positions, adds to the counter of `j`. */
  function Recounted(last: nat, k: nat, removed: int, added: int, oldWeight: int, saved: int, j: nat): int {
    if k == last || removed != 0 then if InLeft(j, k) then added - removed else 0
    else (if InLeft(j, k) then saved else 0) - if InLeft(j, last) then oldWeight + saved else 0
  }

  lemma FirstPassCounts(ws: seq<int>, k: nat, j: nat)
    requires k < |ws| && ws[k] != 0
    ensures LeftSum(ws, j) + Recounted(|ws| - 1, k, ws[k], if k == |ws| - 1 then 0 else ws[|ws| - 1], 0, 0, j)
            == LeftSum(HalfRemoved(ws, k), j)
    ensures Sum(ws) + (if k == |ws| - 1 then 0 else ws[|ws| - 1]) - ws[k] == Sum(HalfRemoved(ws, k))
  {
    HalfRemovedSums(ws, k, j);
  }

  lemma SecondPassCounts(ws: seq<int>, k: nat, j: nat)
    requires k < |ws|
    ensures LeftSum(HalfRemoved(ws, k), j)
            + Recounted(|ws| - 1, k, 0, 0, if k == |ws| - 1 then 0 else ws[|ws| - 1], 0, j)
            == LeftSum(Removed(ws, k), j)
    ensures Sum(HalfRemoved(ws, k)) - (if k == |ws| - 1 then 0 else ws[|ws| - 1]) == Sum(Removed(ws, k))
  {
    RemovedSums(ws, k, j);
  }
}
