/** The samples behind the latency queue of a weight. */
module LatencyWindow {
  import opened BoundedQueues

  /** One successful call. */
  datatype Sample = Sample(latency: int, end: int)

  /** What the queue stores for it: the latencies of all calls so far, added up. */
  datatype TimeInfo = TimeInfo(latencySum: int, end: int)

  function LatencySum(h: seq<Sample>): int {
    if h == [] then 0 else LatencySum(h[..|h| - 1]) + h[|h| - 1].latency
  }

  function Entries(h: seq<Sample>): (e: seq<TimeInfo>)
    ensures |e| == |h|
  {
    if h == [] then []
    else Entries(h[..|h| - 1]) + [TimeInfo(LatencySum(h), h[|h| - 1].end)]
  }

  function Newest<T>(s: seq<T>, n: nat): seq<T> {
    if |s| <= n then s else s[|s| - n..]
  }

  ghost predicate Positive(h: seq<Sample>) {
    forall i :: 0 <= i < |h| ==> h[i].latency >= 1
  }

  lemma EntriesAppend(h: seq<Sample>, x: Sample)
    ensures Entries(h + [x]) == Entries(h) + [TimeInfo(LatencySum(h) + x.latency, x.end)]
  {
    assert (h + [x])[..|h|] == h;
  }

  /** Every entry is the sum of all latencies up to its own call. */
  lemma {:induction false} EntryAt(h: seq<Sample>, i: nat)
    requires i < |h|
    ensures Entries(h)[i] == TimeInfo(LatencySum(h[..i + 1]), h[i].end)
  {
    if i == |h| - 1 {
      assert h[..i + 1] == h;
    } else {
      EntryAt(h[..|h| - 1], i);
      assert h[..|h| - 1][..i + 1] == h[..i + 1];
    }
  }

  lemma NewestPush<T>(s: seq<T>, n: nat, x: T)
    requires n > 0
    ensures ElimPushed(Newest(s, n), n, x) == Newest(s + [x], n)
  {
  }

  lemma {:induction false} LatencySumSplits(h: seq<Sample>, k: nat)
    requires k <= |h|
    ensures LatencySum(h) == LatencySum(h[..k]) + LatencySum(h[k..])
  {
    if k == |h| {
      assert h[..k] == h;
    } else {
      LatencySumSplits(h[..|h| - 1], k);
      assert h[..|h| - 1][..k] == h[..k];
      assert h[k..][..|h[k..]| - 1] == h[..|h| - 1][k..];
    }
  }

  lemma {:induction false} LatencySumAtLeastLength(h: seq<Sample>)
    requires Positive(h)
    ensures LatencySum(h) >= |h|
  {
    if h != [] {
      LatencySumAtLeastLength(h[..|h| - 1]);
    }
  }

  /** The queue after a sample has been pushed with its latency added to the sum so far. */
  lemma RecordedEntries(h: seq<Sample>, n: nat, x: Sample)
    requires n > 0
    ensures ElimPushed(Newest(Entries(h), n), n, TimeInfo(LatencySum(h) + x.latency, x.end))
            == Newest(Entries(h + [x]), n)
  {
    hide Newest, ElimPushed;
    EntriesAppend(h, x);
    NewestPush(Entries(h), n, TimeInfo(LatencySum(h) + x.latency, x.end));
  }

  lemma NewestEnds<T>(s: seq<T>, n: nat)
    requires n > 0
    ensures s == [] ==> Newest(s, n) == []
    ensures s != [] ==> Newest(s, n) != [] && Newest(s, n)[|Newest(s, n)| - 1] == s[|s| - 1]
  {
  }

  /** The bottom entry carries the sum so far. */
  lemma BottomEntry(h: seq<Sample>, n: nat)
    requires n > 0
    ensures h == [] ==> Newest(Entries(h), n) == [] && LatencySum(h) == 0
    ensures h != [] ==> Newest(Entries(h), n) != []
                        && Newest(Entries(h), n)[|Newest(Entries(h), n)| - 1].latencySum == LatencySum(h)
  {
    hide Newest;
    NewestEnds(Entries(h), n);
    if h != [] {
      EntryAt(h, |h| - 1);
      assert h[..|h|] == h;
    }
  }

  /** Of the entries in the window, the last has the sum over the whole history, and the first differs
      from it by the latencies of all calls in the window but the oldest. */
  lemma WindowDifference(h: seq<Sample>, n: nat)
    requires h != [] && n > 0
    ensures |Newest(Entries(h), n)| == |Newest(h, n)| > 0
    ensures Newest(Entries(h), n)[0].end == Newest(h, n)[0].end
    ensures Newest(Entries(h), n)[|Newest(h, n)| - 1].latencySum - Newest(Entries(h), n)[0].latencySum
            == LatencySum(Newest(h, n)[1..])
    ensures |Newest(h, n)| == 1 && n > 1 ==> Newest(Entries(h), n)[0].latencySum == Newest(h, n)[0].latency
    ensures Newest(h, n)[|Newest(h, n)| - 1] == h[|h| - 1]
  {
    hide Entries, LatencySum;
    var k := |h| - |Newest(h, n)|;
    EntryAt(h, k);
    EntryAt(h, |h| - 1);
    assert h[..|h|] == h;
    LatencySumSplits(h, k + 1);
    assert h[k + 1..] == Newest(h, n)[1..];
    FirstLatency(h);
  }

  lemma FirstLatency(h: seq<Sample>)
    requires h != []
    ensures LatencySum(h[..1]) == h[0].latency
  {
    assert h[..1][..0] == [];
  }
}
