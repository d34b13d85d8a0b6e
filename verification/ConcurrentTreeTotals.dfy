/** That the bounds of the total are attained, and with that exactly when it fits 64 bits and when it is positive. */
module ConcurrentTreeTotals {
  import opened Options
  import opened WeightTree
  import opened WeightScale
  import opened ServerLayout
  import opened PendingAdds
  import opened SharedWeights
  import opened ConcurrentTree
  import opened ConcurrentTreeProofs
  import opened ConcurrentTreeTheorems
  import opened ConcurrentTreeTraces
  import opened ConcurrentTreeBounds
  import opened ConcurrentTreeLimits
  import DB = DoubleBuffer

  // ----- Servers at rest, with every thread inside a scope -----

  /** Servers of the weights `ws` at rest, a scope of every thread, and nothing to add from thread `r` on. */
  ghost predicate Shown(s: State, ws: seq<int>, threads: nat, r: nat) {
    && AtRest(s) && s.ctl.index < 2
    && Numbered(s.bufs[0], |ws|) && |s.nodes| == |ws| && |s.work| == threads
    && (forall i :: 0 <= i < |ws| ==> s.nodes[i] == Fresh(ws[i]))
    && (forall t :: 0 <= t < threads ==> s.ctl.readers[t] == DB.Holding(s.ctl.index))
    && forall t :: r <= t < threads ==> s.work[t] == []
  }

  function Same(n: nat, w: int): (ws: seq<int>)
    ensures |ws| == n && forall i :: 0 <= i < n ==> ws[i] == w
  {
    seq(n, _ => w)
  }

  lemma {:induction false} SumOfSame(ws: seq<int>, w: int)
    requires forall i :: 0 <= i < |ws| ==> ws[i] == w
    ensures Sum(ws) == |ws| * w
  {
    if ws != [] {
      SumOfSame(ws[..|ws| - 1], w);
      assert |ws| * w == (|ws| - 1) * w + w;
    }
  }

  lemma ShownTotal(s: State, ws: seq<int>, threads: nat, r: nat)
    requires Inv(s) && Shown(s, ws, threads, r)
    ensures s.total + WorkTotal(s.work) == Sum(ws)
  {
    CalmAtRest(s);
    CalmView(s);
    QuietContributions(ViewOf(s));
    hide Inv, Contributions;
    assert Contributions(ViewOf(s)) == ws;
  }

  lemma ServingIsShown(s: State, s': State, n: nat, threads: nat)
    requires Serving(s, n, threads) && s' == s.(ctl := s'.ctl) && HaveOpened(s.ctl, s'.ctl, 0, threads)
    ensures Shown(s', Same(n, WEIGHT_SCALE), threads, 0)
  {
  }

  lemma Open(n: nat, threads: nat, m: int) returns (tr: Trace)
    requires WEIGHT_SCALE <= m
    ensures IsTrace(tr, UpTo(m)) && Shown(tr.last, Same(n, WEIGHT_SCALE), threads, 0)
  {
    hide IsTrace, Serving, CanOpen, HaveOpened, Shown;
    var before := Serve(n, threads, UpTo(m));
    ServingCanOpen(before.last, n, threads, 0, threads);
    tr := OpenScopes(before, UpTo(m), 0, threads);
    ServingIsShown(before.last, tr.last, n, threads);
  }

  // ----- One change of a weight -----

  lemma ChangeStep(s: State, ws: seq<int>, threads: nat, r: nat, t: nat, i: nat, x: int)
    requires Shown(s, ws, threads, r) && t < threads && s.work[t] == [] && i < |ws| && MIN_WEIGHT <= x
    ensures WellFormed(s) && Enabled(s, Reweigh(t, i, x))
    ensures var s' := Apply(s, Reweigh(t, i, x));
            && Shown(s', ws[i := x], threads, if t < r then r else t + 1)
            && s'.work == s.work[t := Propagate(x - ws[i], i)] && s'.ctl == s.ctl
  {
  }

  lemma Change(tr: Trace, m: int, ws: seq<int>, threads: nat, r: nat, t: nat, i: nat, x: int) returns (longer: Trace)
    requires IsTrace(tr, UpTo(m)) && Shown(tr.last, ws, threads, r) && t < threads && tr.last.work[t] == []
    requires i < |ws| && MIN_WEIGHT <= x <= m
    ensures IsTrace(longer, UpTo(m)) && longer.last.work == tr.last.work[t := Propagate(x - ws[i], i)]
    ensures Shown(longer.last, ws[i := x], threads, if t < r then r else t + 1)
  {
    hide IsTrace, Shown, Apply, Enabled;
    ChangeStep(tr.last, ws, threads, r, t, i, x);
    longer := Extend(tr, UpTo(m), Reweigh(t, i, x));
  }

  lemma FinishedIsShown(s: State, s': State, ws: seq<int>, threads: nat, r: nat, t: nat)
    requires Shown(s, ws, threads, t + 1) && t < threads && (forall p :: r <= p < t ==> s.work[p] == [])
    requires s' == s.(lefts := s'.lefts, total := s'.total, work := s.work[t := []])
    ensures Shown(s', ws, threads, r)
  {
  }

  lemma ShownHolds(s: State, ws: seq<int>, threads: nat, r: nat, t: nat)
    requires Shown(s, ws, threads, r) && t < threads
    ensures WellFormed(s) && |s.work| == threads && s.ctl.readers[t].Holding? && s.ctl.readers[t].buf < 2
    ensures t >= r ==> s.work[t] == []
  {
  }

  /** The last thread changes a weight and makes its additions. */
  lemma Settle(tr: Trace, m: int, ws: seq<int>, threads: nat, r: nat, i: nat, x: int) returns (longer: Trace)
    requires IsTrace(tr, UpTo(m)) && Shown(tr.last, ws, threads, r) && r < threads
    requires i < |ws| && MIN_WEIGHT <= x <= m
    ensures IsTrace(longer, UpTo(m)) && longer.last.work == tr.last.work && Shown(longer.last, ws[i := x], threads, r)
  {
    hide IsTrace, Shown;
    var t := threads - 1;
    ShownHolds(tr.last, ws, threads, r, t);
    var changed := Change(tr, m, ws, threads, r, t, i, x);
    ShownHolds(changed.last, ws[i := x], threads, threads, t);
    longer := FinishReader(changed, UpTo(m), t);
    forall p | r <= p < t ensures changed.last.work[p] == [] {
      ShownHolds(tr.last, ws, threads, r, p);
    }
    FinishedIsShown(changed.last, longer.last, ws[i := x], threads, r, t);
  }

  /** The first `k` of the servers weigh `x`, the others what they started with. */
  function Leveled(n: nat, k: nat, x: int): (ws: seq<int>)
    ensures |ws| == n
  {
    seq(n, i => if i < k then x else WEIGHT_SCALE)
  }

  lemma {:induction false} Level(n: nat, k: nat, x: int, threads: nat, m: int) returns (tr: Trace)
    requires k <= n && threads >= 1 && WEIGHT_SCALE <= m && MIN_WEIGHT <= x <= m
    ensures IsTrace(tr, UpTo(m)) && Shown(tr.last, Leveled(n, k, x), threads, 0)
  {
    hide IsTrace, Shown;
    if k == 0 {
      tr := Open(n, threads, m);
      assert Leveled(n, 0, x) == Same(n, WEIGHT_SCALE);
    } else {
      tr := Level(n, k - 1, x, threads, m);
      tr := Settle(tr, m, Leveled(n, k - 1, x), threads, 0, k - 1, x);
      assert Leveled(n, k - 1, x)[k - 1 := x] == Leveled(n, k, x);
    }
  }

  // ----- Swings -----

  /** `r` threads have changed the first server's weight from `x` to `y` and not added that yet, and each
      time the last thread has changed it back. */
  lemma {:induction false} Swing(n: nat, x: int, y: int, threads: nat, r: nat, m: int) returns (tr: Trace)
    requires n >= 1 && r < threads && MIN_WEIGHT <= x <= m && MIN_WEIGHT <= y <= m && WEIGHT_SCALE <= m
    ensures IsTrace(tr, UpTo(m)) && Shown(tr.last, Same(n, x), threads, r) && WorkTotal(tr.last.work) == r * (y - x)
  {
    hide IsTrace, Shown;
    var ws := Same(n, x);
    if r == 0 {
      tr := Level(n, n, x, threads, m);
      assert Leveled(n, n, x) == ws;
      NothingToAdd(tr.last, ws, threads);
    } else {
      var before := Swing(n, x, y, threads, r - 1, m);
      ShownHolds(before.last, ws, threads, r - 1, r - 1);
      tr := Change(before, m, ws, threads, r - 1, r - 1, 0, y);
      tr := Settle(tr, m, ws[0 := y], threads, r, 0, x);
      assert ws[0 := y][0 := x] == ws;
      WorkUpdate(before.last.work, r - 1, Propagate(y - x, 0), 0);
      PropagateAmounts(y - x, 0, 0);
      assert r * (y - x) == (r - 1) * (y - x) + (y - x);
    }
  }

  lemma NothingToAdd(s: State, ws: seq<int>, threads: nat)
    requires Shown(s, ws, threads, 0)
    ensures WorkTotal(s.work) == 0
  {
    NoWork(s.work, 0);
  }

  lemma ShownAtRest(s: State, ws: seq<int>, threads: nat, r: nat)
    requires Shown(s, ws, threads, r)
    ensures WellFormed(s) && s.ctl.writer.NoModify? && |s.Fg().tree| == |ws| && |s.work| == threads
    ensures r == 0 ==> Quiet(s)
  {
  }

  /** Every total that is `r` swings off from `n` servers of weight `x` is reached between modifications. */
  lemma Reach(n: nat, x: int, y: int, threads: nat, r: nat, m: int) returns (tr: Trace)
    requires n >= 1 && r < threads && MIN_WEIGHT <= x <= m && MIN_WEIGHT <= y <= m && WEIGHT_SCALE <= m
    ensures IsRunWithin(tr.States(), UpTo(m)) && tr.States()[|tr.front|] == tr.last && |tr.States()[0].work| == threads
    ensures WellFormed(tr.last) && tr.last.ctl.writer.NoModify? && |tr.last.Fg().tree| == n
    ensures r == 0 ==> Quiet(tr.last)
    ensures tr.last.total == n * x + r * (x - y)
  {
    hide IsTrace, Shown, Inv, WeightsWithin, IsRunWithin;
    tr := Swing(n, x, y, threads, r, m);
    TraceKeepsWithin(tr, m);
    ShownTotal(tr.last, Same(n, x), threads, r);
    SumOfSame(Same(n, x), x);
    ShownAtRest(tr.last, Same(n, x), threads, r);
    ThreadsStay(tr.States(), |tr.front|, m);
    assert r * (y - x) + r * (x - y) == 0;
  }

  lemma {:induction false} ThreadsStay(run: seq<State>, i: nat, m: int)
    requires IsRunWithin(run, UpTo(m)) && i < |run|
    ensures |run[i].work| == |run[0].work|
  {
    if i > 0 {
      ThreadsStay(run, i - 1, m);
      assert NextWithin(run[i - 1], run[i - 1 + 1], UpTo(m));
    }
  }

  // ----- When the total is positive, and when it fits -----

  /** `run` has `threads` threads, sets no weight above `m`, and no server in it starts below the minimum. */
  ghost predicate IsRunOf(run: seq<State>, threads: nat, m: int) {
    IsRunWithin(run, UpTo(m)) && |run[0].work| == threads
  }

  /** Between modifications, with `n` servers, the total is at least 1. */
  ghost predicate PositiveAtRest(run: seq<State>, n: nat) {
    forall i :: 0 <= i < |run| && WellFormed(run[i]) && run[i].ctl.writer.NoModify? && |run[i].Fg().tree| == n ==>
      run[i].total >= 1
  }

  /** Between modifications the total of `n` servers is positive in all runs of `threads` threads if and only
      if `n` minimum weights exceed the swings of all threads but one. */
  lemma PositiveAtRestIff(n: nat, threads: nat, m: int)
    requires n >= 1 && threads >= 1 && m >= WEIGHT_SCALE
    ensures (forall run :: IsRunOf(run, threads, m) ==> PositiveAtRest(run, n))
            <==> n * MIN_WEIGHT > (threads - 1) * (m - MIN_WEIGHT)
  {
    if n * MIN_WEIGHT > (threads - 1) * (m - MIN_WEIGHT) {
      forall run: seq<State> | IsRunOf(run, threads, m) ensures PositiveAtRest(run, n) {
        forall i | 0 <= i < |run| && WellFormed(run[i]) && run[i].ctl.writer.NoModify? && |run[i].Fg().tree| == n
          ensures run[i].total >= 1
        {
          ThreadsStay(run, i, m);
          RestBounds(run, i, m);
        }
      }
    } else {
      var tr := Reach(n, MIN_WEIGHT, m, threads, threads - 1, m);
      assert (threads - 1) * (MIN_WEIGHT - m) == -((threads - 1) * (m - MIN_WEIGHT));
      assert IsRunOf(tr.States(), threads, m) && !PositiveAtRest(tr.States(), n);
    }
  }

  /** With weights up to the largest there are, and whatever servers there are, that needs a single thread. */
  lemma PositiveAtRestIffOneThread(threads: nat)
    ensures (forall run, n: nat :: n >= 1 && IsRunOf(run, threads, MAX_WEIGHT) ==> PositiveAtRest(run, n))
            <==> threads <= 1
  {
    if threads <= 1 {
      forall run: seq<State>, n: nat | n >= 1 && IsRunOf(run, threads, MAX_WEIGHT) ensures PositiveAtRest(run, n) {
        forall i | 0 <= i < |run| && WellFormed(run[i]) && run[i].ctl.writer.NoModify? && |run[i].Fg().tree| == n
          ensures run[i].total >= 1
        {
          ThreadsStay(run, i, MAX_WEIGHT);
          if threads == 1 {
            RestBounds(run, i, MAX_WEIGHT);
          } else {
            TotalFloor(run, i, MAX_WEIGHT);
            RestingShort(run, i, MAX_WEIGHT);
          }
        }
      }
    } else {
      var tr := Reach(1, MIN_WEIGHT, MAX_WEIGHT, threads, 1, MAX_WEIGHT);
      assert IsRunOf(tr.States(), threads, MAX_WEIGHT) && !PositiveAtRest(tr.States(), 1);
    }
  }

  lemma RestingShort(run: seq<State>, i: nat, m: int)
    requires IsRunWithin(run, UpTo(m)) && i < |run| && run[i].ctl.writer.NoModify? && m >= 0
    ensures WellFormed(run[i]) && Short(run[i].bufs) == run[i].Fg()
  {
    RunKeepsWithin(run, i, m);
  }

  /** Between modifications, with `n` servers, the total fits 64 bits. */
  ghost predicate FitsAtRest(run: seq<State>, n: nat) {
    forall i :: 0 <= i < |run| && WellFormed(run[i]) && run[i].ctl.writer.NoModify? && |run[i].Fg().tree| == n ==>
      FitsInt64(run[i].total)
  }

  /** It does in all runs within the largest weight if and only if servers and threads together are at
      most 73. */
  lemma FitsAtRestIff(n: nat, threads: nat)
    requires n >= 1 && threads >= 1
    ensures (forall run :: IsRunOf(run, threads, MAX_WEIGHT) ==> FitsAtRest(run, n)) <==> n + threads <= MAX_SERVERS + 1
  {
    if n + threads <= MAX_SERVERS + 1 {
      forall run: seq<State> | IsRunOf(run, threads, MAX_WEIGHT) ensures FitsAtRest(run, n) {
        forall i | 0 <= i < |run| && WellFormed(run[i]) && run[i].ctl.writer.NoModify? && |run[i].Fg().tree| == n
          ensures FitsInt64(run[i].total)
        {
          ThreadsStay(run, i, MAX_WEIGHT);
          RestBounds(run, i, MAX_WEIGHT);
          RoomFor(n, threads - 1);
        }
      }
    } else {
      var tr := Reach(n, MAX_WEIGHT, MIN_WEIGHT, threads, threads - 1, MAX_WEIGHT);
      NoRoomFor(n, threads - 1);
      assert IsRunOf(tr.States(), threads, MAX_WEIGHT) && !FitsAtRest(tr.States(), n);
    }
  }

  lemma SwingsBound(n: nat, others: nat, hi: int, lo: int)
    requires 0 <= lo <= hi
    ensures (n + others) * (hi - lo) <= n * hi + others * (hi - lo) <= (n + others) * hi
    ensures n * lo - others * (hi - lo) >= -((n + others) * hi)
  {
    MulMonotone(0, n, lo);
    MulMonotone(0, others, lo);
    MulMonotone(0, n, hi);
    assert (n + others) * hi == n * hi + others * hi;
    assert (n + others) * (hi - lo) == n * hi - n * lo + others * (hi - lo);
    assert others * (hi - lo) == others * hi - others * lo;
  }

  lemma RoomFor(n: nat, others: nat)
    requires n + others <= MAX_SERVERS
    ensures n * MAX_WEIGHT + others * (MAX_WEIGHT - MIN_WEIGHT) <= INT64_MAX
    ensures n * MIN_WEIGHT - others * (MAX_WEIGHT - MIN_WEIGHT) >= -INT64_MAX
  {
    assert MAX_SERVERS * MAX_WEIGHT <= INT64_MAX;
    SwingsBound(n, others, MAX_WEIGHT, MIN_WEIGHT);
    MulMonotone(n + others, MAX_SERVERS, MAX_WEIGHT);
  }

  lemma NoRoomFor(n: nat, others: nat)
    requires n + others > MAX_SERVERS
    ensures n * MAX_WEIGHT + others * (MAX_WEIGHT - MIN_WEIGHT) > INT64_MAX
  {
    assert (MAX_SERVERS + 1) * (MAX_WEIGHT - MIN_WEIGHT) > INT64_MAX;
    SwingsBound(n, others, MAX_WEIGHT, MIN_WEIGHT);
    MulMonotone(MAX_SERVERS + 1, n + others, MAX_WEIGHT - MIN_WEIGHT);
  }

  /** In every state without pending additions between modifications, with `n` servers, the total fits 64 bits. */
  ghost predicate FitsWhenQuiet(run: seq<State>, n: nat) {
    forall i :: 0 <= i < |run| && WellFormed(run[i]) && Quiet(run[i]) && |run[i].Fg().tree| == n ==>
      FitsInt64(run[i].total)
  }

  /** That is so, for any number of threads, if and only if there are at most 72 servers. */
  lemma FitsWhenQuietIff(n: nat)
    ensures (forall run :: IsRunWithin(run, UpTo(MAX_WEIGHT)) ==> FitsWhenQuiet(run, n)) <==> n <= MAX_SERVERS
  {
    if n <= MAX_SERVERS {
      forall run: seq<State> | IsRunWithin(run, UpTo(MAX_WEIGHT)) ensures FitsWhenQuiet(run, n) {
        forall i | 0 <= i < |run| && WellFormed(run[i]) && Quiet(run[i]) && |run[i].Fg().tree| == n
          ensures FitsInt64(run[i].total)
        {
          RestingShort(run, i, MAX_WEIGHT);
          QuietFits(run, i);
        }
      }
    } else {
      var tr := Reach(n, MAX_WEIGHT, MAX_WEIGHT, 1, 0, MAX_WEIGHT);
      MaxServersIsTight(n);
      assert !FitsWhenQuiet(tr.States(), n);
    }
  }

  lemma QuietFits(run: seq<State>, i: nat)
    requires IsRunWithin(run, UpTo(MAX_WEIGHT)) && i < |run| && WellFormed(run[i]) && Quiet(run[i])
    requires |run[i].Fg().tree| <= MAX_SERVERS
    ensures FitsInt64(run[i].total)
  {
    RunKeepsWithin(run, i, MAX_WEIGHT);
    NoWork(run[i].work, 0);
    CalmAtRest(run[i]);
    CalmView(run[i]);
    CalmContributions(run[i], MAX_WEIGHT);
    hide Inv, PendingWithin, IsRunWithin, Contributions, ViewOf;
    var c := Contributions(ViewOf(run[i]));
    WeightsBound(c, MAX_WEIGHT);
    SumOfWeightsFits(|c|, Sum(c));
  }

  // ----- In every state -----

  /** In every state with `n` positions, also in the middle of a modification, the total fits 64 bits. */
  ghost predicate FitsThroughout(run: seq<State>, n: nat) {
    forall i :: 0 <= i < |run| && WellFormed(run[i]) && Positions(run[i]) == n ==> FitsInt64(run[i].total)
  }

  /** The total is never off from the bounds by more than one swing of a weight for every thread. */
  lemma AllBounds(run: seq<State>, i: nat, m: int)
    requires IsRunWithin(run, UpTo(m)) && m >= MIN_WEIGHT && i < |run|
    ensures WellFormed(run[i])
    ensures var swings := |run[i].work| * (m - MIN_WEIGHT);
            -swings <= run[i].total <= Positions(run[i]) * m + swings
  {
    hide Inv, PendingWithin, WeightsWithin, Carried, OneChange;
    TotalFloor(run, i, m);
    TotalCeiling(run, i, m);
    RunKeepsSwings(run, i, m);
    hide IsRunWithin, Positions;
    WorkAmounts(run[i].work, m - MIN_WEIGHT, 0);
    MulMonotone(0, |Short(run[i].bufs).tree|, MIN_WEIGHT);
  }

  lemma ShownRemovable(s: State, ws: seq<int>, threads: nat, r: nat)
    requires Shown(s, ws, threads, r) && |ws| >= 2
    ensures Removable(s, 0, |ws| - 1) && |s.nodes| == |ws| && |s.work| == threads
    ensures forall i :: 0 <= i < |ws| ==> s.nodes[i].weight == ws[i]
  {
  }

  lemma SumOfAllButFirst(n: nat, x: int, y: int)
    requires n >= 1
    ensures Sum(Same(n, x)[0 := y]) == (n - 1) * x + y
  {
    SumUpdate(Same(n, x), 0, y);
    SumOfSame(Same(n, x), x);
    assert n * x == (n - 1) * x + x;
  }

  lemma OneMoreSwing(work: seq<seq<Task>>, t: nat, x: int, y: int)
    requires t < |work| && work[t] == [] && WorkTotal(work) == t * (y - x)
    ensures WorkTotal(work[t := Propagate(y - x, 0)]) == (t + 1) * (y - x)
  {
    WorkUpdate(work, t, Propagate(y - x, 0), 0);
    PropagateAmounts(y - x, 0, 0);
  }

  lemma LowerByAll(n: nat, x: int, y: int, threads: nat, m: int) returns (tr: Trace)
    requires n >= 2 && threads >= 1 && MIN_WEIGHT <= x <= m && MIN_WEIGHT <= y <= m && WEIGHT_SCALE <= m
    ensures IsTrace(tr, UpTo(m)) && Shown(tr.last, Same(n, x)[0 := y], threads, threads)
    ensures WorkTotal(tr.last.work) == threads * (y - x)
  {
    hide IsTrace, Shown, WorkTotal, Propagate;
    var before := Swing(n, x, y, threads, threads - 1, m);
    ShownHolds(before.last, Same(n, x), threads, threads - 1, threads - 1);
    tr := Change(before, m, Same(n, x), threads, threads - 1, threads - 1, 0, y);
    OneMoreSwing(before.last.work, threads - 1, x, y);
  }

  /** Every thread has lowered the first server from `x` to `y` and not added that yet. */
  lemma Lowered(n: nat, x: int, y: int, threads: nat, m: int) returns (tr: Trace)
    requires n >= 2 && threads >= 1 && MIN_WEIGHT <= x <= m && MIN_WEIGHT <= y <= m && WEIGHT_SCALE <= m
    ensures IsTrace(tr, UpTo(m)) && Removable(tr.last, 0, n - 1) && |tr.last.work| == threads
    ensures tr.last.nodes[0].weight == y && tr.last.nodes[n - 1].weight == x
    ensures tr.last.total == (n - 1) * x + y + threads * (x - y)
  {
    hide IsTrace, Shown, Removable, Inv, WeightsWithin, IsRunWithin;
    var ws := Same(n, x)[0 := y];
    tr := LowerByAll(n, x, y, threads, m);
    TraceKeepsWithin(tr, m);
    ShownTotal(tr.last, ws, threads, threads);
    SumOfAllButFirst(n, x, y);
    ShownRemovable(tr.last, ws, threads, threads);
    assert threads * (x - y) + threads * (y - x) == 0;
  }

  lemma FlippedPositions(s: State, s': State, last: nat)
    requires Removable(s, 0, last)
    requires s' == s.(ctl := s.ctl.(index := 1 - s.ctl.index, writer := DB.Flipped),
                      bufs := s.bufs[1 - s.ctl.index := RemoveEntry(s.bufs[0], NameOf(0))],
                      nodes := s'.nodes, lefts := s'.lefts, total := s'.total, op := s'.op)
    ensures WellFormed(s') && Positions(s') == last + 1
  {
    RemoveEntryShape(s.bufs[0], NameOf(0));
    hide RemoveEntry, NameOf;
  }

  /** The removal of that server makes up in the total for its lowered weight, while all that the threads owe
      is still missing. */
  lemma RemovedWhileLowered(n: nat, x: int, y: int, threads: nat, m: int) returns (tr: Trace)
    requires n >= 2 && threads >= 1 && MIN_WEIGHT <= x <= m && MIN_WEIGHT <= y <= m && WEIGHT_SCALE <= m
    ensures IsRunWithin(tr.States(), UpTo(m)) && tr.States()[|tr.front|] == tr.last && |tr.States()[0].work| == threads
    ensures WellFormed(tr.last) && Positions(tr.last) == n && tr.last.total == n * x + threads * (x - y)
  {
    hide IsTrace, RemoveEntry, Inv, WeightsWithin, IsRunWithin, Positions;
    var before := Lowered(n, x, y, threads, m);
    tr := RemoveFirstPass(before, UpTo(m), 0, n - 1);
    TraceKeepsWithin(tr, m);
    FlippedPositions(before.last, tr.last, n - 1);
    ThreadsStay(tr.States(), |tr.front|, m);
    assert n * x == (n - 1) * x + x;
  }

  lemma FitsWithRoom(run: seq<State>, i: nat, n: nat, threads: nat)
    requires IsRunOf(run, threads, MAX_WEIGHT) && i < |run| && n + threads <= MAX_SERVERS
    requires WellFormed(run[i]) && Positions(run[i]) == n
    ensures FitsInt64(run[i].total)
  {
    ThreadsStay(run, i, MAX_WEIGHT);
    AllBounds(run, i, MAX_WEIGHT);
    hide IsRunOf, Positions;
    RoomFor(n, threads);
    MulMonotone(0, n, MIN_WEIGHT);
  }

  /** In all states of all runs within the largest weight the total of `n` positions fits if and only if
      positions and threads together are at most 72. */
  lemma FitsThroughoutIff(n: nat, threads: nat)
    requires n >= 2 && threads >= 1
    ensures (forall run :: IsRunOf(run, threads, MAX_WEIGHT) ==> FitsThroughout(run, n)) <==> n + threads <= MAX_SERVERS
  {
    hide IsRunWithin, Positions;
    if n + threads <= MAX_SERVERS {
      forall run: seq<State> | IsRunOf(run, threads, MAX_WEIGHT) ensures FitsThroughout(run, n) {
        forall i | 0 <= i < |run| && WellFormed(run[i]) && Positions(run[i]) == n ensures FitsInt64(run[i].total) {
          FitsWithRoom(run, i, n, threads);
        }
      }
    } else {
      var tr := RemovedWhileLowered(n, MAX_WEIGHT, MIN_WEIGHT, threads, MAX_WEIGHT);
      NoRoomFor(n, threads);
      assert IsRunOf(tr.States(), threads, MAX_WEIGHT) && !FitsThroughout(tr.States(), n);
    }
  }

  // ----- While servers are removed -----

  /** Whenever both buffers have servers, also in the middle of a modification, the total is at least 1. */
  ghost predicate PositiveThroughout(run: seq<State>) {
    forall i :: 0 <= i < |run| && WellFormed(run[i]) && Short(run[i].bufs).tree != [] ==> run[i].total >= 1
  }

  /** Two servers, the first of which has been raised to `m` by thread 0, which has not added that. */
  ghost predicate Raised(s: State, m: int) {
    && AtRest(s) && s.ctl.index < 2 && Numbered(s.bufs[0], 2)
    && s.nodes == [Fresh(m), Fresh(WEIGHT_SCALE)] && WorkTotal(s.work) == m - WEIGHT_SCALE
  }

  /** Two servers, and thread 0 inside a scope. */
  ghost predicate Paired(s: State) {
    && AtRest(s) && s.ctl.index < 2 && Numbered(s.bufs[0], 2) && s.nodes == [Fresh(WEIGHT_SCALE), Fresh(WEIGHT_SCALE)]
    && |s.work| > 0 && s.ctl.readers[0] == DB.Holding(s.ctl.index) && Idle(s)
  }

  lemma Pair(threads: nat, m: int) returns (tr: Trace)
    requires threads >= 1 && WEIGHT_SCALE <= m
    ensures IsTrace(tr, UpTo(m)) && Paired(tr.last) && |tr.last.work| == threads
  {
    hide IsTrace;
    var before := Serve(2, threads, UpTo(m));
    assert before.last.nodes == [Fresh(WEIGHT_SCALE), Fresh(WEIGHT_SCALE)] && Numbered(before.last.bufs[0], 2);
    tr := OpenScope(before, UpTo(m), 0);
  }

  lemma RaiseFirst(threads: nat, m: int) returns (tr: Trace)
    requires threads >= 1 && WEIGHT_SCALE <= m
    ensures IsTrace(tr, UpTo(m)) && Raised(tr.last, m) && |tr.last.work| == threads
  {
    hide IsTrace;
    var before := Pair(threads, m);
    tr := Extend(before, UpTo(m), Reweigh(0, 0, m));
    NoWork(before.last.work, 0);
    WorkUpdate(before.last.work, 0, Propagate(m - WEIGHT_SCALE, 0), 0);
    PropagateAmounts(m - WEIGHT_SCALE, 0, 0);
  }

  /** The state after the flip of its removal. */
  ghost predicate RetiredFirst(s: State, s': State) {
    && WellFormed(s) && s.ctl.index < 2 && |s.nodes| == 2 && Numbered(s.bufs[0], 2)
    && s' == s.(ctl := s.ctl.(index := 1 - s.ctl.index, writer := DB.Flipped),
                bufs := s.bufs[1 - s.ctl.index := RemoveEntry(s.bufs[0], NameOf(0))],
                nodes := Retired(s.nodes, 0, 1), lefts := s'.lefts, total := s'.total,
                op := Some(RemoveServer(NameOf(0))))
  }

  function MovedView(): View {
    View([0, 1], [1], Some(0), [Node(0, false, 0, 0, None), Node(WEIGHT_SCALE, true, WEIGHT_SCALE, 0, Some(1))])
  }

  lemma MovedSum()
    ensures ViewOk(MovedView()) && Sum(Contributions(MovedView())) == 2 * WEIGHT_SCALE
  {
    var c := Contributions(MovedView());
    assert c == [WEIGHT_SCALE, WEIGHT_SCALE];
    SumOfSame(c, WEIGHT_SCALE);
  }

  lemma RemovalGap(s: State, name: ServerName)
    requires WellFormed(s) && s.op == Some(RemoveServer(name)) && Split(s.bufs)
    ensures Gap(s) == Some(Lookup(Long(s.bufs), name))
  {
  }

  lemma RetiredBuffers(s: State, s': State, m: int)
    requires Raised(s, m) && RetiredFirst(s, s')
    ensures Long(s'.bufs) == s.bufs[0] && Ids(Short(s'.bufs)) == [1] && Gap(s') == Some(0)
  {
    RemoveEntryShape(s.bufs[0], NameOf(0));
    var removed := RemoveEntry(s.bufs[0], NameOf(0));
    hide RemoveEntry;
    assert s'.bufs[s.ctl.index] == s.bufs[0] && s'.bufs[1 - s.ctl.index] == removed && |removed.tree| == 1;
    assert Ids(removed) == [1];
    RemovalGap(s', NameOf(0));
  }

  lemma RetiredView(s: State, s': State, m: int)
    requires Raised(s, m) && RetiredFirst(s, s')
    ensures ViewOf(s') == MovedView()
  {
    RetiredBuffers(s, s', m);
    hide RemoveEntry, Gap;
    assert Ids(s.bufs[0]) == [0, 1];
  }

  /** All of the raise is still missing in the total then, while the raised weight is gone. */
  lemma RetiredTotal(s: State, s': State, m: int)
    requires Raised(s, m) && RetiredFirst(s, s') && Inv(s')
    ensures s'.total == 3 * WEIGHT_SCALE - m && Short(s'.bufs).tree != []
  {
    RetiredView(s, s', m);
    MovedSum();
    hide RemoveEntry, DB.Inv, PhaseFits, WorkFits, LayoutsFit, Contributions, MovedView;
    RetiredBuffers(s, s', m);
    assert |Ids(Short(s'.bufs))| == 1;
  }

  /** A thread that raises a server which is then removed takes the total below 0. */
  lemma RemovedWhileRaised(threads: nat, m: int) returns (tr: Trace)
    requires threads >= 1 && WEIGHT_SCALE <= m
    ensures IsRunWithin(tr.States(), UpTo(m)) && tr.States()[|tr.front|] == tr.last && |tr.States()[0].work| == threads
    ensures WellFormed(tr.last) && Short(tr.last.bufs).tree != [] && tr.last.total == 3 * WEIGHT_SCALE - m
  {
    hide IsTrace, RemoveEntry, Inv, WeightsWithin, IsRunWithin;
    var before := RaiseFirst(threads, m);
    tr := RemoveFirstPass(before, UpTo(m), 0, 1);
    TraceKeepsWithin(tr, m);
    RetiredTotal(before.last, tr.last, m);
    ThreadsStay(tr.States(), |tr.front|, m);
  }

  /** So in the middle of modifications the total is sure to be positive only if there is no reader at all. */
  lemma PositiveThroughoutIff(threads: nat)
    ensures (forall run :: IsRunOf(run, threads, MAX_WEIGHT) ==> PositiveThroughout(run)) <==> threads == 0
  {
    if threads == 0 {
      forall run: seq<State> | IsRunOf(run, threads, MAX_WEIGHT) ensures PositiveThroughout(run) {
        forall i | 0 <= i < |run| && WellFormed(run[i]) && Short(run[i].bufs).tree != [] ensures run[i].total >= 1 {
          ThreadsStay(run, i, MAX_WEIGHT);
          TotalFloor(run, i, MAX_WEIGHT);
        }
      }
    } else {
      var tr := RemovedWhileRaised(threads, MAX_WEIGHT);
      assert IsRunOf(tr.States(), threads, MAX_WEIGHT) && !PositiveThroughout(tr.States());
    }
  }
}
