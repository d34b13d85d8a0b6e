/** Where the bounds of module ConcurrentTreeBounds end: runs that leave them, and exactly when none does. */
module ConcurrentTreeLimits {
  import opened Options
  import opened WeightTree
  import opened WeightScale
  import opened ServerLayout
  import opened PendingAdds
  import opened SharedWeights
  import opened ConcurrentTree
  import opened ConcurrentTreeProofs
  import opened ConcurrentTreeTheorems
  import opened ConcurrentTreeTraces
  import opened ConcurrentTreeBounds
  import DB = DoubleBuffer

  // ----- A counter during a Remove -----

  /** A removal of the server at `k` out of `last + 1` positions is under way. */
  ghost predicate Removing(s: State, k: nat, last: nat) {
    && WellFormed(s) && s.op.Some? && s.op.value.RemoveServer? && |Long(s.bufs).tree| == last + 1
    && s.op.value.name in Long(s.bufs).index && Long(s.bufs).index[s.op.value.name] == k
  }

  /** What the counter of position `j` amounts to once everything pending is added. */
  ghost function SettledLeft(s: State, j: nat): int
    requires WellFormed(s) && j < |Long(s.bufs).tree| && Long(s.bufs).tree[j].left < |s.lefts|
  {
    s.lefts[Long(s.bufs).tree[j].left] + PendingLeft(s.work, OwnTasks(s.body), j)
  }

  /** Both positions of the moving server are to the left of `j`, or neither is. */
  predicate Balanced(k: nat, last: nat, j: nat) {
    InLeft(j, k) <==> InLeft(j, last)
  }

  /** In the middle of a Remove, a counter is off from a sum of weights by exactly the amount saved in
      `_old_diff_sum`, once for each position of the moving server that is to its left. */
  lemma LeftIsShifted(c: seq<int>, k: nat, weight: int, oldWeight: int, saved: int, j: nat)
    requires k + 1 < |c| && c[k] == weight - saved && c[|c| - 1] == oldWeight + saved
    ensures LeftSum(c, j) == LeftSum(Unshifted(c, k, weight, oldWeight), j)
            + (if InLeft(j, |c| - 1) then saved else 0) - (if InLeft(j, k) then saved else 0)
  {
    SubtreeSumUpdate(c, 2 * j + 1, k, weight);
    SubtreeSumUpdate(c[k := weight], 2 * j + 1, |c| - 1, oldWeight);
  }

  lemma SettledLeftIsSum(s: State, j: nat)
    requires Inv(s) && j < |Long(s.bufs).tree|
    ensures Long(s.bufs).tree[j].left < |s.lefts| && SettledLeft(s, j) == LeftSum(Contributions(ViewOf(s)), j)
  {
    assert LeftExact(Long(s.bufs), s.lefts, Contributions(ViewOf(s)), s.work, OwnTasks(s.body), j);
  }

  // ----- Readers of both layouts -----

  /** The threads below `held` hold buffer `layout`, those from there up to `ready` the other one, and the rest
      have read nothing. */
  ghost predicate Scopes(c: DB.State, layout: nat, held: nat, ready: nat) {
    && held <= ready <= |c.readers| == |c.keys| && layout < 2
    && (forall t :: 0 <= t < |c.keys| ==> c.keys[t] == t)
    && (forall t :: 0 <= t < held ==> c.readers[t] == DB.Holding(layout))
    && (forall t :: held <= t < ready ==> c.readers[t] == DB.Holding(1 - layout))
    && forall t: nat :: ready <= t < |c.readers| ==> c.readers[t].Idle? && t !in c.locked
  }

  ghost predicate Idle(s: State) {
    forall t :: 0 <= t < |s.work| ==> s.work[t] == []
  }

  /** Servers at rest, with `half` of the threads holding the layout. */
  ghost predicate Held(s: State, k: nat, last: nat, half: nat) {
    && AtRest(s) && Numbered(s.bufs[0], last + 1) && Idle(s) && |s.work| == 2 * half
    && Scopes(s.ctl, s.ctl.index, half, half)
    && |s.nodes| == last + 1 && forall i :: 0 <= i <= last ==> s.nodes[i] == Fresh(WEIGHT_SCALE)
  }

  lemma ServingIsHeld(s: State, s': State, k: nat, last: nat, half: nat)
    requires k < last && Serving(s, last + 1, 2 * half)
    requires s' == s.(ctl := s'.ctl) && HaveOpened(s.ctl, s'.ctl, 0, half)
    ensures Held(s', k, last, half)
  {
    assert Numbered(s'.bufs[0], last + 1);
  }

  lemma ServingCanOpen(s: State, n: nat, threads: nat, lo: nat, hi: nat)
    requires Serving(s, n, threads) && lo <= hi <= threads
    ensures WellFormed(s) && CanOpen(s.ctl, lo, hi)
  {
  }

  lemma HoldOldLayout(k: nat, last: nat, half: nat, m: int) returns (tr: Trace)
    requires k < last && WEIGHT_SCALE <= m
    ensures IsTrace(tr, UpTo(m)) && tr.reweighers == [] && Held(tr.last, k, last, half)
  {
    hide IsTrace, Serving, CanOpen, HaveOpened, Held;
    var before := Serve(last + 1, 2 * half, UpTo(m));
    ServingCanOpen(before.last, last + 1, 2 * half, 0, half);
    tr := OpenScopes(before, UpTo(m), 0, half);
    ServingIsHeld(before.last, tr.last, k, last, half);
  }

  /** After the flip of a removal at `k`: half of the threads hold the old layout, half the new one. */
  ghost predicate Window(s: State, k: nat, last: nat, half: nat) {
    && WellFormed(s) && k < last && s.ctl.writer.Flipped? && s.body == Adding([])
    && s.op == Some(RemoveServer(NameOf(k)))
    && |s.nodes| == last + 1 && Numbered(s.Bg(), last + 1) && s.Fg() == RemoveEntry(s.Bg(), NameOf(k))
    && |s.work| == 2 * half && Scopes(s.ctl, 1 - s.ctl.index, half, 2 * half)
  }

  /** What the moving server weighs and has saved, and that all others are as they were added. */
  ghost predicate Seesawed(s: State, k: nat, last: nat, weight: int, saved: int) {
    && k < last && |s.nodes| == last + 1
    && (forall i :: 0 <= i < last && i != k ==> s.nodes[i] == Fresh(WEIGHT_SCALE))
    && s.nodes[k] == Disabled(Fresh(WEIGHT_SCALE))
    && s.nodes[last] == Node(weight, true, WEIGHT_SCALE, saved, Some(last))
  }

  /** Threads of the old layout from `lo` on and threads of the new one from `hi` on have nothing to add. */
  ghost predicate IdleFrom(s: State, half: nat, lo: nat, hi: nat) {
    forall t :: 0 <= t < |s.work| && (lo <= t < half || half + hi <= t) ==> s.work[t] == []
  }

  lemma HeldOpensWindow(s: State, s': State, c: DB.State, k: nat, last: nat, half: nat)
    requires Held(s, k, last, half) && k < last
    requires s' == s.(ctl := c, bufs := s.bufs[1 - s.ctl.index := RemoveEntry(s.bufs[0], NameOf(k))],
                      nodes := Retired(s.nodes, k, last), lefts := s'.lefts, total := s'.total,
                      op := Some(RemoveServer(NameOf(k))))
    requires var flipped := s.ctl.(index := 1 - s.ctl.index, writer := DB.Flipped);
             HaveOpened(flipped, c, half, 2 * half)
    ensures Window(s', k, last, half) && Seesawed(s', k, last, WEIGHT_SCALE, 0) && IdleFrom(s', half, 0, 0)
  {
    hide RemoveEntry;
    var flipped := s.ctl.(index := 1 - s.ctl.index, writer := DB.Flipped);
    HeldScopes(s.ctl, flipped, c, half);
    assert s'.Bg() == s.bufs[0];
  }

  lemma HeldScopes(c: DB.State, flipped: DB.State, c': DB.State, half: nat)
    requires Scopes(c, c.index, half, half) && |c.readers| == 2 * half
    requires flipped == c.(index := 1 - c.index, writer := DB.Flipped) && HaveOpened(flipped, c', half, 2 * half)
    ensures Scopes(c', 1 - c'.index, half, 2 * half)
  {
  }

  lemma OpenWindow(k: nat, last: nat, half: nat, m: int) returns (tr: Trace)
    requires k < last && WEIGHT_SCALE <= m
    ensures IsTrace(tr, UpTo(m)) && tr.reweighers == []
    ensures Window(tr.last, k, last, half) && Seesawed(tr.last, k, last, WEIGHT_SCALE, 0)
    ensures IdleFrom(tr.last, half, 0, 0)
  {
    hide IsTrace, RemoveEntry, Window, Seesawed, IdleFrom, HaveOpened;
    var before := HoldOldLayout(k, last, half, m);
    var flipped := RemoveFirstPass(before, UpTo(m), k, last);
    tr := OpenScopes(flipped, UpTo(m), half, 2 * half);
    HeldOpensWindow(before.last, tr.last, tr.last.ctl, k, last, half);
  }

  /** The threads that have reweighed so far, each once. */
  ghost predicate Reweighed(threads: seq<nat>, half: nat, r: nat) {
    && (forall x :: x in threads ==> x < r || half <= x < half + r)
    && OncePerThread(threads)
  }

  ghost predicate OncePerThread(threads: seq<nat>) {
    forall x, y :: 0 <= x < y < |threads| ==> threads[x] != threads[y]
  }

  /** A thread of the new layout lowers the moving server. */
  lemma Lower(s: State, k: nat, last: nat, half: nat, m: int, r: nat, weight: int, saved: int)
    requires r < half && Window(s, k, last, half) && Seesawed(s, k, last, weight, saved) && IdleFrom(s, half, r, r)
    ensures var step := Reweigh(half + r, k, MIN_WEIGHT);
            && Enabled(s, step)
            && var s' := Apply(s, step);
               Window(s', k, last, half) && Seesawed(s', k, last, MIN_WEIGHT, saved) && IdleFrom(s', half, r, r + 1)
  {
    RemoveEntryShape(s.Bg(), NameOf(k));
    hide RemoveEntry;
    assert s.Fg().tree[k].weight == last;
  }

  /** A thread of the old layout raises it again. */
  lemma Raise(s: State, k: nat, last: nat, half: nat, m: int, r: nat, saved: int)
    requires r < half && m >= MIN_WEIGHT && Window(s, k, last, half)
    requires Seesawed(s, k, last, MIN_WEIGHT, saved) && IdleFrom(s, half, r, r + 1)
    ensures var step := Reweigh(r, last, m);
            && Enabled(s, step)
            && var s' := Apply(s, step);
               && Window(s', k, last, half) && IdleFrom(s', half, r + 1, r + 1)
               && Seesawed(s', k, last, m, saved + m - MIN_WEIGHT)
  {
    hide RemoveEntry;
    assert s.Bg().tree[last].weight == last;
  }

  /** The moving server is lowered through the new layout and raised through the old one, by two threads
      that have not reweighed before. */
  lemma Round(tr: Trace, k: nat, last: nat, half: nat, m: int, r: nat, weight: int, saved: int)
    returns (longer: Trace)
    requires IsTrace(tr, UpTo(m)) && r < half && WEIGHT_SCALE <= m && IdleFrom(tr.last, half, r, r)
    requires Window(tr.last, k, last, half) && Seesawed(tr.last, k, last, weight, saved)
    ensures IsTrace(longer, UpTo(m)) && longer.reweighers == tr.reweighers + [half + r, r]
    ensures Window(longer.last, k, last, half) && IdleFrom(longer.last, half, r + 1, r + 1)
    ensures Seesawed(longer.last, k, last, m, saved + m - MIN_WEIGHT)
  {
    hide IsTrace, Window, Seesawed, IdleFrom, Apply, Enabled, WellFormed;
    WindowWellFormed(tr.last, k, last, half);
    Lower(tr.last, k, last, half, m, r, weight, saved);
    longer := Extend(tr, UpTo(m), Reweigh(half + r, k, MIN_WEIGHT));
    WindowWellFormed(longer.last, k, last, half);
    Raise(longer.last, k, last, half, m, r, saved);
    longer := Extend(longer, UpTo(m), Reweigh(r, last, m));
    assert tr.reweighers + [half + r] + [r] == tr.reweighers + [half + r, r];
  }

  lemma WindowWellFormed(s: State, k: nat, last: nat, half: nat)
    requires Window(s, k, last, half)
    ensures WellFormed(s) && k < last && s.ctl.writer.Flipped?
  {
  }

  lemma OnceMore(threads: seq<nat>, half: nat, r: nat)
    requires Reweighed(threads, half, r) && r < half
    ensures Reweighed(threads + [half + r, r], half, r + 1)
  {
    var longer := threads + [half + r, r];
    forall x, y | 0 <= x < y < |longer| ensures longer[x] != longer[y] {
      if x < |threads| {
        assert longer[x] in threads;
      }
    }
  }

  lemma NoneReweighed(half: nat)
    ensures Reweighed([], half, 0)
  {
  }

  lemma {:induction false} Rounds(k: nat, last: nat, half: nat, m: int, r: nat)
    returns (tr: Trace, weight: int, saved: int)
    requires k < last && WEIGHT_SCALE <= m && r <= half
    ensures IsTrace(tr, UpTo(m)) && Reweighed(tr.reweighers, half, r) && saved == r * (m - MIN_WEIGHT)
    ensures Window(tr.last, k, last, half) && Seesawed(tr.last, k, last, weight, saved)
    ensures IdleFrom(tr.last, half, r, r) && 0 <= weight <= m
  {
    hide IsTrace, Window, Seesawed, IdleFrom, Reweighed;
    if r == 0 {
      tr := OpenWindow(k, last, half, m);
      weight, saved := WEIGHT_SCALE, 0;
      NoneReweighed(half);
    } else {
      tr, weight, saved := Rounds(k, last, half, m, r - 1);
      var before := tr.reweighers;
      tr := Round(tr, k, last, half, m, r - 1, weight, saved);
      OnceMore(before, half, r - 1);
      weight, saved := m, saved + m - MIN_WEIGHT;
      assert r * (m - MIN_WEIGHT) == (r - 1) * (m - MIN_WEIGHT) + (m - MIN_WEIGHT);
    }
  }

  // ----- How far the counter gets -----

  lemma WindowIsRemoving(s: State, k: nat, last: nat, half: nat)
    requires Window(s, k, last, half)
    ensures Removing(s, k, last) && Gap(s) == Some(k) && OwnTasks(s.body) == []
    ensures Long(s.bufs).tree[last].weight == last
  {
    RemoveEntryShape(s.Bg(), NameOf(k));
    hide RemoveEntry, NameOf, Scopes;
    assert |s.Fg().tree| == last && Long(s.bufs) == s.Bg();
  }

  lemma WindowView(s: State, k: nat, last: nat, half: nat, weight: int, saved: int)
    requires Inv(s) && Window(s, k, last, half) && Seesawed(s, k, last, weight, saved)
    ensures Removing(s, k, last) && OwnTasks(s.body) == []
    ensures var v := ViewOf(s);
            && NodesOk(v, Some(k)) && ViewOk(v) && v.gap == Some(k) && |v.long| == last + 1
            && v.long[last] == last < |v.nodes|
            && v.nodes[last] == Node(weight, true, WEIGHT_SCALE, saved, Some(last))
  {
    WindowIsRemoving(s, k, last, half);
    hide Window, DB.Inv, Conserved, WorkFits, NodeOk, LayoutsFit, PhaseFits, PassDetected;
  }

  lemma WindowContributions(s: State, k: nat, last: nat, half: nat, weight: int, saved: int, m: int)
    requires Inv(s) && Window(s, k, last, half) && Seesawed(s, k, last, weight, saved)
    requires WeightsWithin(s, m) && m >= 0
    ensures ViewOk(ViewOf(s)) && k < last
    ensures var c := Contributions(ViewOf(s));
            && |c| == last + 1 && c[k] == weight - saved && c[last] == WEIGHT_SCALE + saved
            && forall i :: 0 <= i <= last ==> 0 <= Unshifted(c, k, weight, WEIGHT_SCALE)[i] <= m
  {
    hide Inv, Window, Seesawed, ViewOk, NodesOk, NodeOk, Contributions, Unshifted, ViewWithin, WeightsWithin;
    WindowWellFormed(s, k, last, half);
    hide ViewOf;
    WindowView(s, k, last, half, weight, saved);
    WindowWithin(s, m);
    UnshiftedContributions(ViewOf(s), k, m);
  }

  lemma WindowWithin(s: State, m: int)
    requires WellFormed(s) && WeightsWithin(s, m)
    ensures ViewWithin(ViewOf(s), m)
  {
  }

  /** The counter of position `j` is off from a sum of weights by all that was saved. */
  lemma WindowCounter(s: State, k: nat, last: nat, half: nat, weight: int, saved: int, m: int, j: nat)
    requires Inv(s) && Window(s, k, last, half) && Seesawed(s, k, last, weight, saved)
    requires WeightsWithin(s, m) && m >= 0 && j <= last && saved >= 0 && !Balanced(k, last, j)
    ensures Removing(s, k, last) && Long(s.bufs).tree[j].left < |s.lefts|
    ensures SettledLeft(s, j) >= saved || SettledLeft(s, j) <= (last + 1) * m - saved
  {
    hide Inv, ViewOk, Contributions, Window, WeightsWithin, Seesawed, Unshifted, Balanced, SettledLeft, ViewOf;
    WindowIsRemoving(s, k, last, half);
    WindowContributions(s, k, last, half, weight, saved, m);
    SettledLeftIsSum(s, j);
    ShiftedSum(Contributions(ViewOf(s)), k, last, weight, saved, m, j);
  }

  lemma ShiftedSum(c: seq<int>, k: nat, last: nat, weight: int, saved: int, m: int, j: nat)
    requires k < last && |c| == last + 1 && c[k] == weight - saved && c[last] == WEIGHT_SCALE + saved && saved >= 0
    requires m >= 0 && forall i :: 0 <= i <= last ==> 0 <= Unshifted(c, k, weight, WEIGHT_SCALE)[i] <= m
    requires !Balanced(k, last, j)
    ensures LeftSum(c, j) >= saved || LeftSum(c, j) <= (last + 1) * m - saved
  {
    LeftIsShifted(c, k, weight, WEIGHT_SCALE, saved, j);
    var plain := Unshifted(c, k, weight, WEIGHT_SCALE);
    hide Unshifted;
    WeightsBound(plain, m);
  }

  lemma TraceKeepsWithin(tr: Trace, m: int)
    requires IsTrace(tr, UpTo(m)) && m >= 0
    ensures IsRunWithin(tr.States(), UpTo(m)) && tr.States()[|tr.front|] == tr.last
    ensures Inv(tr.last) && WeightsWithin(tr.last, m)
  {
    TraceIsRun(tr, UpTo(m));
    RunKeepsWithin(tr.States(), |tr.front|, m);
  }

  /** `half` threads of either layout reweigh once each, and all additions are made. */
  lemma SeesawWindow(k: nat, last: nat, half: nat, m: int) returns (tr: Trace, weight: int, saved: int)
    requires k < last && m >= WEIGHT_SCALE
    ensures IsTrace(tr, UpTo(m)) && OncePerThread(tr.reweighers) && 0 <= saved == half * (m - MIN_WEIGHT)
    ensures Window(tr.last, k, last, half) && Seesawed(tr.last, k, last, weight, saved)
    ensures tr.last.ctl.writer.Flipped?
    ensures |tr.last.work| == 2 * half && NoWorkBelow(tr.last, 2 * half) && tr.last.body == Adding([])
  {
    hide IsTrace, OncePerThread, Seesawed, Window, Reweighed, IdleFrom;
    var before, weight', saved' := Rounds(k, last, half, m, half);
    weight, saved := weight', saved';
    MulMonotone(0, half, m - MIN_WEIGHT);
    WindowWellFormed(before.last, k, last, half);
    tr := FinishReaders(before, UpTo(m), |before.last.work|);
    StillOpen(before.last, tr.last, k, last, half, weight, saved);
    WindowWellFormed(tr.last, k, last, half);
    OnceEach(tr.reweighers, half, half);
  }

  lemma Seesaw(k: nat, last: nat, half: nat, m: int, j: nat) returns (tr: Trace)
    requires k <= last && j <= last && !Balanced(k, last, j) && m >= WEIGHT_SCALE
    ensures IsTrace(tr, UpTo(m)) && IsRunWithin(tr.States(), UpTo(m)) && OncePerThread(tr.reweighers)
    ensures Removing(tr.last, k, last) && |tr.last.work| == 2 * half && tr.last.ctl.writer.Flipped?
    ensures NoWorkBelow(tr.last, 2 * half) && tr.last.body == Adding([])
    ensures Long(tr.last.bufs).tree[j].left < |tr.last.lefts|
    ensures var saved := half * (m - MIN_WEIGHT);
            SettledLeft(tr.last, j) >= saved || SettledLeft(tr.last, j) <= (last + 1) * m - saved
  {
    hide IsTrace, Inv, WeightsWithin, IsRunWithin, OncePerThread, Seesawed, Removing, Window, SettledLeft;
    var weight, saved;
    tr, weight, saved := SeesawWindow(k, last, half, m);
    TraceKeepsWithin(tr, m);
    WindowCounter(tr.last, k, last, half, weight, saved, m, j);
  }

  lemma OnceEach(threads: seq<nat>, half: nat, r: nat)
    requires Reweighed(threads, half, r)
    ensures OncePerThread(threads)
  {
  }

  lemma StillOpen(s: State, s': State, k: nat, last: nat, half: nat, weight: int, saved: int)
    requires Window(s, k, last, half) && Seesawed(s, k, last, weight, saved)
    requires s' == s.(lefts := s'.lefts, total := s'.total, work := s'.work) && |s'.work| == |s.work|
    ensures Window(s', k, last, half) && Seesawed(s', k, last, weight, saved)
    ensures |s'.work| == 2 * half && s'.body == Adding([])
  {
  }

  /** A run that overflows the counter of any position that has one of the two positions on its left, with
      weights that are all within the bound, a single reweighing by each of 300 threads, and nothing
      pending at the end. */
  lemma CounterOverflows(k: nat, last: nat, j: nat) returns (tr: Trace)
    requires k <= last < MAX_SERVERS && j <= last && !Balanced(k, last, j)
    ensures IsTrace(tr, UpTo(MAX_WEIGHT)) && IsRunWithin(tr.States(), UpTo(MAX_WEIGHT)) && OncePerThread(tr.reweighers)
    ensures Removing(tr.last, k, last) && |tr.last.work| == 300 && tr.last.ctl.writer.Flipped?
    ensures NoWorkBelow(tr.last, 300) && tr.last.body == Adding([])
    ensures Long(tr.last.bufs).tree[j].left < |tr.last.lefts|
    ensures !FitsInt64(tr.last.lefts[Long(tr.last.bufs).tree[j].left])
  {
    hide IsTrace, IsRunWithin, OncePerThread, Removing;
    tr := Seesaw(k, last, 150, MAX_WEIGHT, j);
    NoWork(tr.last.work, j);
    MulMonotone(last + 1, MAX_SERVERS, MAX_WEIGHT);
  }

  /** With two servers, removing the first one does it for the counter of the root. */
  lemma RootCounterOverflows() returns (tr: Trace)
    ensures IsRunWithin(tr.States(), UpTo(MAX_WEIGHT)) && OncePerThread(tr.reweighers) && Removing(tr.last, 0, 1)
    ensures Long(tr.last.bufs).tree[0].left < |tr.last.lefts|
    ensures !FitsInt64(tr.last.lefts[Long(tr.last.bufs).tree[0].left])
  {
    assert InLeft(0, 1) && !InLeft(0, 0);
    tr := CounterOverflows(0, 1, 0);
  }
}
