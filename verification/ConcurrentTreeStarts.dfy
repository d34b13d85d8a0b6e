/**
  What servers start with. Add divides the total by the number of servers, and the total may lack what
  readers still owe to it. A server that starts with weight 0 looks to Remove as if its second application
  were running already, and the counters stay wrong for good. With a single thread that cannot happen.
 */
module ConcurrentTreeStarts {
  import opened Options
  import opened WeightTree
  import opened WeightScale
  import opened ServerLayout
  import opened PendingAdds
  import opened SharedWeights
  import opened ConcurrentTree
  import opened ConcurrentTreeProofs
  import opened ConcurrentTreeTheorems
  import opened ConcurrentTreeTraces
  import opened ConcurrentTreeBounds
  import opened ConcurrentTreeLimits
  import opened ConcurrentTreeTotals
  import DB = DoubleBuffer

  // ----- A single thread -----

  /** A step of which no reader sets a weight above `m`. */
  ghost predicate NextUpTo(s: State, s': State, m: int) {
    WellFormed(s) && exists step :: Enabled(s, step) && (step.Reweigh? ==> step.weight <= m) && s' == Apply(s, step)
  }

  ghost predicate ReweighsUpTo(run: seq<State>, m: int) {
    forall i :: 0 <= i < |run| - 1 ==> NextUpTo(run[i], run[i + 1], m)
  }

  lemma {:induction false} LargestReweigh(run: seq<State>, i: nat) returns (m: int)
    requires IsRun(run) && i < |run|
    ensures m >= WEIGHT_SCALE && forall j :: 0 <= j < i ==> NextUpTo(run[j], run[j + 1], m)
  {
    m := WEIGHT_SCALE;
    if i > 0 {
      var m' := LargestReweigh(run, i - 1);
      assert Next(run[i - 1], run[i - 1 + 1]);
      var step :| Enabled(run[i - 1], step) && run[i] == Apply(run[i - 1], step);
      m := if step.Reweigh? && step.weight > m' then step.weight else m';
      assert NextUpTo(run[i - 1], run[i - 1 + 1], m);
      forall j | 0 <= j < i - 1 ensures NextUpTo(run[j], run[j + 1], m) {
        assert NextUpTo(run[j], run[j + 1], m');
      }
    }
  }

  /** The average that a new server starts with is within the bounds of the weights. */
  lemma StartWithin(run: seq<State>, i: nat, m: int)
    requires IsRunWithin(run, UpTo(m)) && m >= WEIGHT_SCALE && i < |run| && |run[i].work| <= 1
    requires WellFormed(run[i]) && Enabled(run[i], RunAdd)
    ensures StepWithin(run[i], RunAdd, UpTo(m))
  {
    hide Inv, PendingWithin, WeightsWithin;
    var s := run[i];
    if s.op.value.name !in s.Fg().index {
      RunKeepsWithin(run, i, m);
      CalmBeforeAdd(s);
      SingleThreadBounds(run, i, m);
      var n := |s.Bg().tree|;
      if n > 0 {
        MulMonotone(0, n, MIN_WEIGHT);
        QuotientWithin(s.total, n, MIN_WEIGHT, m);
      }
    }
  }

  lemma OneMoreWithin(run: seq<State>, s: State, m: Span)
    requires IsRunWithin(run, m) && NextWithin(run[|run| - 1], s, m)
    ensures IsRunWithin(run + [s], m)
  {
    hide NextWithin;
    var longer := run + [s];
    forall j | 0 <= j < |longer| - 1 ensures NextWithin(longer[j], longer[j + 1], m) {
      if j < |run| - 1 {
        assert NextWithin(run[j], run[j + 1], m);
      }
    }
  }

  lemma StepStaysWithin(run: seq<State>, s: State, m: int)
    requires IsRunWithin(run, UpTo(m)) && m >= WEIGHT_SCALE && |run[|run| - 1].work| <= 1
    requires NextUpTo(run[|run| - 1], s, m)
    ensures NextWithin(run[|run| - 1], s, UpTo(m))
  {
    var last := run[|run| - 1];
    var step :| Enabled(last, step) && (step.Reweigh? ==> step.weight <= m) && s == Apply(last, step);
    hide Enabled, Apply, IsRunWithin;
    if step.RunAdd? {
      StartWithin(run, |run| - 1, m);
    }
  }

  lemma {:induction false} SingleThreadWithin(run: seq<State>, i: nat, m: int)
    requires IsRun(run) && ReweighsUpTo(run, m) && m >= WEIGHT_SCALE && i < |run| && |run[0].work| <= 1
    ensures IsRunWithin(run[..i + 1], UpTo(m))
  {
    if i == 0 {
      assert run[..1] == [run[0]];
    } else {
      SingleThreadWithin(run, i - 1, m);
      hide NextUpTo, NextWithin, Next, Init;
      var before := run[..i];
      assert before[i - 1] == run[i - 1] && before[0] == run[0] && run[..i + 1] == before + [run[i]];
      ThreadsStay(before, i - 1, m);
      assert NextUpTo(run[i - 1], run[i - 1 + 1], m);
      StepStaysWithin(before, run[i], m);
      OneMoreWithin(before, run[i], UpTo(m));
    }
  }

  /** Every run with at most one thread keeps within bounds all weights that servers start with. */
  lemma SingleThreadStarts(run: seq<State>) returns (m: int)
    requires IsRun(run) && |run[0].work| <= 1
    ensures m >= WEIGHT_SCALE && IsRunWithin(run, UpTo(m))
  {
    m := LargestReweigh(run, |run| - 1);
    SingleThreadWithin(run, |run| - 1, m);
    assert run[..|run|] == run;
  }

  // ----- Two threads -----

  /** Servers at rest, no scopes, no counter that counts anything. */
  ghost predicate Resting(s: State, ws: seq<int>, threads: nat) {
    && AtRest(s) && s.ctl.index < 2 && s.ctl.locked == map[] && Numbered(s.bufs[0], |ws|)
    && |s.nodes| == |ws| && (forall i :: 0 <= i < |ws| ==> s.nodes[i] == Fresh(ws[i]))
    && |s.lefts| == |ws| && (forall i :: 0 <= i < |ws| ==> s.lefts[i] == 0)
    && s.total == Sum(ws) && |s.work| == threads && Idle(s)
    && |s.ctl.keys| == threads && (forall t :: 0 <= t < threads ==> s.ctl.keys[t] == t && s.ctl.readers[t].Idle?)
  }

  const FREE: Span := Span(0, MAX_WEIGHT)

  lemma RestingReady(s: State, ws: seq<int>, threads: nat)
    requires Resting(s, ws, threads)
    ensures AtRest(s) && s.ctl.locked == map[] && |s.bufs[0].tree| == |ws| && s.total == Sum(ws)
    ensures NameOf(|ws|) !in s.bufs[0].index && |s.ctl.readers| == threads && CanOpen(s.ctl, 0, threads)
  {
    OneMoreNumbered(s.bufs[0], |ws|);
  }

  lemma RestingGrown(s: State, s': State, ws: seq<int>, w: int, threads: nat)
    requires Resting(s, ws, threads) && AtRest(s')
    requires var name := NameOf(|ws|);
             s' == s.(ctl := s.ctl.(index := 1 - s.ctl.index), bufs := [Grown(s, name), Grown(s, name)],
                      nodes := s.nodes + [Fresh(w)], lefts := s.lefts + [0], total := s.total + w)
    ensures Resting(s', ws + [w], threads)
  {
    OneMoreNumbered(s.bufs[0], |ws|);
    SumAppend(ws, w);
    hide Numbered, NameOf;
  }

  /** A server more, at a position that is on the left of none or with a weight that is none. */
  lemma AddResting(tr: Trace, ws: seq<int>, threads: nat) returns (longer: Trace)
    requires IsTrace(tr, FREE) && Resting(tr.last, ws, threads) && Rightmost(|ws|)
    requires 0 <= InitialWeight(Sum(ws), |ws|) <= MAX_WEIGHT
    ensures IsTrace(longer, FREE) && Resting(longer.last, ws + [InitialWeight(Sum(ws), |ws|)], threads)
  {
    hide IsTrace, Resting, InitialWeight, AtRest, Rightmost, CanOpen;
    RestingReady(tr.last, ws, threads);
    longer := AddOne(tr, FREE, NameOf(|ws|));
    RestingGrown(tr.last, longer.last, ws, InitialWeight(Sum(ws), |ws|), threads);
  }

  lemma FirstServer(threads: nat) returns (tr: Trace)
    ensures IsTrace(tr, FREE) && Resting(tr.last, [WEIGHT_SCALE], threads)
  {
    var empty := NothingServed(threads, FREE);
    hide IsTrace;
    tr := AddResting(empty, [], threads);
    assert [] + [WEIGHT_SCALE] == [WEIGHT_SCALE];
  }

  /** One server; threads 0 and 1 hold the layout and still have to add `own0` and `own1`. */
  ghost predicate Busy(s: State, w: int, total: int, own0: seq<Task>, own1: seq<Task>, threads: nat) {
    && AtRest(s) && s.ctl.index < 2 && Numbered(s.bufs[0], 1)
    && s.nodes == [Fresh(w)] && s.lefts == [0] && s.total == total
    && |s.work| == threads >= 2 && s.work[0] == own0 && s.work[1] == own1
    && (forall t :: 2 <= t < threads ==> s.work[t] == [])
    && TwoScopes(s.ctl, s.ctl.index)
  }

  ghost predicate TwoScopes(c: DB.State, buf: nat) {
    && |c.keys| == |c.readers| >= 2 && buf < 2
    && (forall t :: 0 <= t < |c.keys| ==> c.keys[t] == t)
    && c.readers[0] == c.readers[1] == DB.Holding(buf)
    && (forall t :: 2 <= t < |c.readers| ==> c.readers[t].Idle?)
    && forall k :: k in c.locked ==> k == 0 || k == 1
  }

  lemma RestingOpened(s: State, s': State, threads: nat)
    requires Resting(s, [WEIGHT_SCALE], threads) && threads >= 2
    requires s' == s.(ctl := s'.ctl) && HaveOpened(s.ctl, s'.ctl, 0, 2)
    ensures Busy(s', WEIGHT_SCALE, WEIGHT_SCALE, [], [], threads)
  {
    SumOfSame([WEIGHT_SCALE], WEIGHT_SCALE);
  }

  lemma BusyReweigh(s: State, w: int, total: int, own0: seq<Task>, own1: seq<Task>, threads: nat, t: nat, x: int)
    requires Busy(s, w, total, own0, own1, threads) && x >= MIN_WEIGHT
    requires t < 2 && (if t == 0 then own0 else own1) == []
    ensures WellFormed(s) && Enabled(s, Reweigh(t, 0, x))
    ensures var s', own := Apply(s, Reweigh(t, 0, x)), Propagate(x - w, 0);
            if t == 0 then Busy(s', x, total, own, own1, threads) else Busy(s', x, total, own0, own, threads)
  {
  }

  lemma BusyFinished(s: State, s': State, w: int, total: int, own0: seq<Task>, own1: seq<Task>, threads: nat)
    requires Busy(s, w, total, own0, own1, threads)
    requires s' == s.(lefts := s.lefts, work := s.work[1 := []], total := s.total + TasksTotal(own1))
    ensures Busy(s', w, total + TasksTotal(own1), own0, [], threads)
  {
  }

  lemma BusyHolds(s: State, w: int, total: int, own0: seq<Task>, own1: seq<Task>, threads: nat)
    requires Busy(s, w, total, own0, own1, threads)
    ensures WellFormed(s) && |s.work| >= 2 && s.ctl.readers[1] == DB.Holding(s.ctl.index) && s.ctl.index < 2
    ensures s.work[1] == own1 && AtRest(s) && |s.bufs[0].tree| == 1 && s.total == total
    ensures NameOf(1) !in s.bufs[0].index
  {
    OneMoreNumbered(s.bufs[0], 1);
  }

  /** The first server's weight is doubled and halved again, and only the second change has been added: the
      total is 0. */
  lemma Halve(threads: nat) returns (tr: Trace)
    requires threads >= 2
    ensures IsTrace(tr, FREE) && Busy(tr.last, WEIGHT_SCALE, 0, Propagate(WEIGHT_SCALE, 0), [], threads)
  {
    hide IsTrace, Resting, Busy, CanOpen, HaveOpened, Enabled, Apply, AtRest;
    var w := WEIGHT_SCALE;
    var rest := FirstServer(threads);
    RestingReady(rest.last, [w], threads);
    assert CanOpen(rest.last.ctl, 0, 2) by {
      CanOpenFewer(rest.last.ctl, 2, threads);
    }
    var tr0 := OpenScopes(rest, FREE, 0, 2);
    RestingOpened(rest.last, tr0.last, threads);
    BusyReweigh(tr0.last, w, w, [], [], threads, 0, 2 * w);
    var tr1 := Extend(tr0, FREE, Reweigh(0, 0, 2 * w));
    BusyReweigh(tr1.last, 2 * w, w, Propagate(w, 0), [], threads, 1, w);
    var tr2 := Extend(tr1, FREE, Reweigh(1, 0, w));
    var own0, own1 := Propagate(w, 0), Propagate(-w, 0);
    BusyHolds(tr2.last, w, w, own0, own1, threads);
    tr := FinishReader(tr2, FREE, 1);
    PropagateAmounts(-w, 0, 0);
    assert OnTheRight(own1);
    BusyFinished(tr2.last, tr.last, w, w, own0, own1, threads);
  }

  lemma CanOpenFewer(c: DB.State, n: nat, threads: nat)
    requires CanOpen(c, 0, threads) && n <= threads
    ensures CanOpen(c, 0, n)
  {
  }

  /** After the flip of the addition of a second server, which has started with 0. */
  ghost predicate Added(s: State, total: int, own0: seq<Task>, threads: nat) {
    && WellFormed(s) && s.ctl.index < 2 && s.ctl.writer.Flipped? && s.body == Adding([])
    && s.op == Some(AddServer(NameOf(1)))
    && Numbered(s.Bg(), 1) && s.Fg() == AddEntry(s.Bg(), Entry(NameOf(1), 1, 1), 1)
    && s.nodes == [Fresh(WEIGHT_SCALE), Fresh(0)] && s.lefts == [0, 0] && s.total == total
    && |s.work| == threads >= 2 && s.work[0] == own0 && (forall t :: 1 <= t < threads ==> s.work[t] == [])
  }

  lemma BusyAdded(s: State, s': State, threads: nat)
    requires Busy(s, WEIGHT_SCALE, 0, Propagate(WEIGHT_SCALE, 0), [], threads)
    requires s' == s.(ctl := s.ctl.(index := 1 - s.ctl.index, writer := DB.Flipped),
                      bufs := s.bufs[1 - s.ctl.index := Grown(s, NameOf(1))], nodes := s.nodes + [Fresh(0)],
                      lefts := s.lefts + [0], op := Some(AddServer(NameOf(1))))
    ensures Added(s', 0, Propagate(WEIGHT_SCALE, 0), threads) && TwoScopes(s'.ctl, 1 - s'.ctl.index)
  {
  }

  lemma AddZero(threads: nat) returns (tr: Trace)
    requires threads >= 2
    ensures IsTrace(tr, FREE) && Added(tr.last, 0, Propagate(WEIGHT_SCALE, 0), threads)
    ensures TwoScopes(tr.last.ctl, 1 - tr.last.ctl.index)
  {
    hide IsTrace, Busy, Added, AtRest, TwoScopes;
    var before := Halve(threads);
    BusyHolds(before.last, WEIGHT_SCALE, 0, Propagate(WEIGHT_SCALE, 0), [], threads);
    assert InitialWeight(0, 1) == 0;
    tr := AddFirstPass(before, FREE, NameOf(1));
    BusyAdded(before.last, tr.last, threads);
  }

  ghost predicate NobodyReads(c: DB.State) {
    |c.keys| == |c.readers| && forall t :: 0 <= t < |c.keys| ==> c.keys[t] == t && c.readers[t].Idle?
  }

  lemma NoOtherKey(locked: map<nat, nat>)
    requires forall k :: k in locked ==> (k == 0 || k == 1) && k != 0 && k != 1
    ensures locked == map[]
  {
  }

  lemma BothLeave(tr: Trace, buf: nat) returns (longer: Trace)
    requires IsTrace(tr, FREE) && WellFormed(tr.last) && TwoScopes(tr.last.ctl, buf)
    requires tr.last.work[0] == [] && tr.last.work[1] == []
    ensures IsTrace(longer, FREE) && longer.last.ctl.locked == map[] && NobodyReads(longer.last.ctl)
    ensures longer.last == tr.last.(ctl := tr.last.ctl.(readers := longer.last.ctl.readers, locked := map[]))
  {
    hide IsTrace;
    longer := LeaveScopes(tr, FREE, 2);
    assert tr.last.ctl.keys[0] == 0 && tr.last.ctl.keys[1] == 1;
    NoOtherKey(longer.last.ctl.locked);
  }

  /** Thread 0 makes its additions, and both threads leave. */
  lemma Leave(tr: Trace, threads: nat) returns (longer: Trace)
    requires IsTrace(tr, FREE) && Added(tr.last, 0, Propagate(WEIGHT_SCALE, 0), threads)
    requires TwoScopes(tr.last.ctl, 1 - tr.last.ctl.index)
    ensures IsTrace(longer, FREE) && Added(longer.last, WEIGHT_SCALE, [], threads)
    ensures longer.last.ctl.locked == map[] && NobodyReads(longer.last.ctl)
  {
    hide IsTrace, Numbered, NameOf, AddEntry;
    PropagateAmounts(WEIGHT_SCALE, 0, 0);
    longer := FinishReader(tr, FREE, 0);
    assert Added(longer.last, WEIGHT_SCALE, [], threads);
    longer := BothLeave(longer, 1 - tr.last.ctl.index);
  }

  lemma AddedTwice(s: State, s': State, threads: nat)
    requires Added(s, WEIGHT_SCALE, [], threads) && s.ctl.locked == map[] && NobodyReads(s.ctl)
    requires NameOf(1) in s.Fg().index && s.Fg().index[NameOf(1)] == 1 && |s.Fg().tree| == 2
    requires var fg := s.Fg();
             s' == s.(ctl := s.ctl.(writer := DB.NoModify), op := None, body := Adding([]),
                      bufs := s.bufs[1 - s.ctl.index := AddEntry(s.Bg(), fg.tree[1], 1)])
    ensures Resting(s', [WEIGHT_SCALE, 0], threads)
  {
    OneMoreNumbered(s.Bg(), 1);
    hide Numbered, NameOf;
    var ws := [WEIGHT_SCALE];
    SumOfSame(ws, WEIGHT_SCALE);
    SumAppend(ws, 0);
    assert ws + [0] == [WEIGHT_SCALE, 0];
  }

  lemma AddedFinds(s: State, total: int, own0: seq<Task>, threads: nat)
    requires Added(s, total, own0, threads)
    ensures WellFormed(s) && s.ctl.writer.Flipped? && s.op == Some(AddServer(NameOf(1)))
    ensures NameOf(1) in s.Fg().index && s.Fg().index[NameOf(1)] == 1 && |s.Fg().tree| == 2
  {
  }

  /** Two servers at rest, of which the second weighs nothing. */
  lemma TwoServers(threads: nat) returns (tr: Trace)
    requires threads >= 2
    ensures IsTrace(tr, FREE) && Resting(tr.last, [WEIGHT_SCALE, 0], threads)
  {
    hide IsTrace, Added, TwoScopes, Resting, AddEntry, NobodyReads;
    tr := AddZero(threads);
    var left := Leave(tr, threads);
    AddedFinds(left.last, WEIGHT_SCALE, [], threads);
    tr := AddSecondPass(left, FREE, NameOf(1));
    AddedTwice(left.last, tr.last, threads);
  }

  /** A third server, on the right of the first. */
  lemma ThreeServers(threads: nat) returns (tr: Trace)
    requires threads >= 2
    ensures IsTrace(tr, FREE) && Resting(tr.last, [WEIGHT_SCALE, 0, WEIGHT_SCALE / 2], threads)
  {
    hide IsTrace, Resting;
    var w := WEIGHT_SCALE;
    tr := TwoServers(threads);
    SumOfSame([w], w);
    SumAppend([w], 0);
    assert [w] + [0] == [w, 0];
    assert Rightmost(2) && InitialWeight(w, 2) == w / 2;
    tr := AddResting(tr, [w, 0], threads);
    assert [w, 0] + [w / 2] == [w, 0, w / 2];
  }

  // ----- Its removal -----

  /** Either application of the removal of the second server, once it has been disabled. */
  ghost predicate Unlinkable(s: State, b: Buffer, threads: nat) {
    && WellFormed(s) && s.ctl.Applying() && s.op == Some(RemoveServer(NameOf(1))) && s.body == Unlinking(1, 0)
    && s.Bg() == b && Numbered(b, 3) && |s.work| == threads && Idle(s) && s.ctl.locked == map[]
    && s.nodes == [Fresh(WEIGHT_SCALE), Disabled(Fresh(0)), Fresh(WEIGHT_SCALE / 2)] && s.lefts == [0, 0, 0]
  }

  /** It adds nothing to any counter: Remove takes a weight of 0 for its own second application. */
  lemma Unlink(tr: Trace, b: Buffer, threads: nat) returns (longer: Trace)
    requires IsTrace(tr, FREE) && Unlinkable(tr.last, b, threads)
    ensures IsTrace(longer, FREE)
    ensures var s := tr.last;
            longer.last == s.(bufs := s.bufs[1 - s.ctl.index := RemoveEntry(b, NameOf(1))], body := Adding([]))
  {
    hide IsTrace, RemoveEntry, Idle;
    longer := Extend(tr, FREE, RunUnlink);
    assert longer.last.nodes == tr.last.nodes;
    assert longer.last.body.tasks == [AddTotal(0)] && [AddTotal(0)][1..] == [];
    longer := Extend(longer, FREE, RunTask);
  }

  lemma StartRemoval(threads: nat) returns (tr: Trace)
    requires threads >= 2
    ensures IsTrace(tr, FREE) && WellFormed(tr.last) && tr.last.ctl.writer.Pass1?
    ensures Unlinkable(tr.last, tr.last.Fg(), threads)
  {
    hide IsTrace;
    tr := ThreeServers(threads);
    tr := Disable(tr, FREE, 1, 2);
  }

  /** From the end of the first application to the second one. */
  lemma SecondDisable(tr: Trace, b: Buffer, threads: nat) returns (longer: Trace)
    requires IsTrace(tr, FREE) && WellFormed(tr.last) && tr.last.ctl.writer.Pass1? && tr.last.ctl.locked == map[]
    requires tr.last.op == Some(RemoveServer(NameOf(1))) && tr.last.body == Adding([])
    requires tr.last.Fg() == b && Numbered(b, 3) && |tr.last.work| == threads && Idle(tr.last)
    requires tr.last.lefts == [0, 0, 0]
    requires tr.last.nodes == [Fresh(WEIGHT_SCALE), Disabled(Fresh(0)), Fresh(WEIGHT_SCALE / 2)]
    ensures IsTrace(longer, FREE) && Unlinkable(longer.last, b, threads) && longer.last.ctl.writer.Pass2?
    ensures longer.last.Fg() == tr.last.Bg() && longer.last.total == tr.last.total
  {
    hide IsTrace;
    longer := Extend(tr, FREE, Flip);
    longer := StartSecondPass(longer, FREE);
    longer := Extend(longer, FREE, RunDisable);
    assert longer.last.nodes == tr.last.nodes;
  }

  /** The first and the third server, with the counter of the first one still at 0. */
  ghost predicate Miscounted(s: State) {
    && WellFormed(s) && Quiet(s) && |s.Fg().tree| == 2 && s.Fg().tree[0].left == 0 && s.lefts == [0, 0, 0]
    && WeightsOf(s) == [WEIGHT_SCALE, WEIGHT_SCALE / 2]
  }

  lemma Miscount(threads: nat) returns (tr: Trace)
    requires threads >= 2
    ensures IsTrace(tr, FREE) && |tr.last.work| == threads && Miscounted(tr.last)
  {
    hide IsTrace, RemoveEntry, Numbered;
    var start := StartRemoval(threads);
    var b := start.last.Fg();
    WithoutSecond(b);
    var first := Unlink(start, b, threads);
    var second := SecondDisable(first, b, threads);
    tr := Unlink(second, b, threads);
    tr := Extend(tr, FREE, End);
    assert tr.last.Fg() == RemoveEntry(b, NameOf(1));
    assert WeightsOf(tr.last) == [WEIGHT_SCALE, WEIGHT_SCALE / 2];
  }

  lemma WithoutSecond(b: Buffer)
    requires Numbered(b, 3)
    ensures Lookup(b, NameOf(1)) == 1 && |b.tree| == 3
    ensures var tree := RemoveEntry(b, NameOf(1)).tree;
            |tree| == 2 && tree[0].left == tree[0].weight == 0 && tree[1].weight == 2
  {
    assert Lookup(b, NameOf(1)) == 1;
    RemoveEntryShape(b, NameOf(1));
  }

  // ----- The exact condition -----

  /** The counters and the total are what the weights demand. */
  ghost predicate CountersExact(s: State)
    requires WellFormed(s)
  {
    && s.total == Sum(WeightsOf(s))
    && forall j :: 0 <= j < |s.Fg().tree| ==>
         s.Fg().tree[j].left < |s.lefts| && s.lefts[s.Fg().tree[j].left] == LeftSum(WeightsOf(s), j)
  }

  ghost predicate ExactWhenQuiet(run: seq<State>) {
    forall i :: 0 <= i < |run| && WellFormed(run[i]) && Quiet(run[i]) ==> CountersExact(run[i])
  }

  lemma MiscountedIsNotExact(s: State)
    requires Miscounted(s)
    ensures !CountersExact(s)
  {
    var ws := WeightsOf(s);
    assert InLeft(0, 1) && !InLeft(0, 0);
    SubtreeSumAppend([], 1, WEIGHT_SCALE);
    SubtreeSumAppend([WEIGHT_SCALE], 1, WEIGHT_SCALE / 2);
    assert [] + [WEIGHT_SCALE] == [WEIGHT_SCALE] && [WEIGHT_SCALE] + [WEIGHT_SCALE / 2] == ws;
    assert LeftSum(ws, 0) == WEIGHT_SCALE / 2;
  }

  /** Once nothing is pending, counters and total are exact in every run of `threads` threads if and only if
      there is at most one thread. */
  lemma ExactWhenQuietIff(threads: nat)
    ensures (forall run: seq<State> :: IsRun(run) && |run[0].work| == threads ==> ExactWhenQuiet(run)) <==> threads <= 1
  {
    if threads <= 1 {
      forall run: seq<State> | IsRun(run) && |run[0].work| == threads ensures ExactWhenQuiet(run) {
        var m := SingleThreadStarts(run);
        WithinStartsNonzero(run, UpTo(m));
        forall i | 0 <= i < |run| && WellFormed(run[i]) && Quiet(run[i]) ensures CountersExact(run[i]) {
          QuietCountersExact(run, i);
        }
      }
    } else {
      var run := MiscountRun(threads);
      assert IsRun(run) && |run[0].work| == threads && !ExactWhenQuiet(run);
    }
  }

  lemma MiscountRun(threads: nat) returns (run: seq<State>)
    requires threads >= 2
    ensures IsRun(run) && |run[0].work| == threads && !ExactWhenQuiet(run)
  {
    hide IsTrace, Miscounted, CountersExact, IsRun, IsRunWithin;
    var tr := Miscount(threads);
    MiscountedIsNotExact(tr.last);
    TraceIsRun(tr, FREE);
    run := tr.States();
    WithinIsRun(run, FREE);
    ThreadsStayIn(run, |tr.front|);
    assert run[|tr.front|] == tr.last;
    assert WellFormed(tr.last) && Quiet(tr.last) by {
      MiscountedIsQuiet(tr.last);
    }
  }

  lemma MiscountedIsQuiet(s: State)
    requires Miscounted(s)
    ensures WellFormed(s) && Quiet(s)
  {
  }

  lemma {:induction false} ThreadsStayIn(run: seq<State>, i: nat)
    requires IsRun(run) && i < |run|
    ensures |run[i].work| == |run[0].work|
  {
    if i > 0 {
      ThreadsStayIn(run, i - 1);
      assert Next(run[i - 1], run[i - 1 + 1]);
    }
  }

  // ----- A negative total -----

  lemma OneMoreStep(run: seq<State>, step: Step, m: int) returns (longer: seq<State>)
    requires IsRun(run) && ReweighsUpTo(run, m) && WellFormed(run[|run| - 1]) && Enabled(run[|run| - 1], step)
    requires step.Reweigh? ==> step.weight <= m
    ensures IsRun(longer) && ReweighsUpTo(longer, m) && longer == run + [Apply(run[|run| - 1], step)]
  {
    longer := run + [Apply(run[|run| - 1], step)];
    hide Enabled, Apply;
    forall j | 0 <= j < |longer| - 1 ensures Next(longer[j], longer[j + 1]) && NextUpTo(longer[j], longer[j + 1], m) {
      if j < |run| - 1 {
        assert Next(run[j], run[j + 1]) && NextUpTo(run[j], run[j + 1], m);
      }
    }
  }

  lemma WithinReweighs(run: seq<State>, m: Span)
    requires IsRunWithin(run, m)
    ensures ReweighsUpTo(run, m.hi)
  {
    forall i | 0 <= i < |run| - 1 ensures NextUpTo(run[i], run[i + 1], m.hi) {
      assert NextWithin(run[i], run[i + 1], m);
    }
  }

  /** Two minimum weights, of which the first was raised as far as it goes by thread 0, which has not added
      that, and lowered again by the last thread. */
  lemma Overdraw(threads: nat) returns (run: seq<State>)
    requires threads >= 2
    ensures IsRun(run) && ReweighsUpTo(run, MAX_WEIGHT) && |run[0].work| == threads
    ensures var s := run[|run| - 1];
            && AtRest(s) && s.ctl.index < 2 && |s.bufs[0].tree| == 2 && NameOf(2) !in s.bufs[0].index
            && s.total == 3 * MIN_WEIGHT - MAX_WEIGHT
  {
    hide IsTrace, Shown, Inv, WeightsWithin, IsRunWithin, IsRun, ReweighsUpTo;
    var m, ws := MAX_WEIGHT, Same(2, MIN_WEIGHT);
    var tr := Swing(2, MIN_WEIGHT, m, threads, 1, m);
    TraceKeepsWithin(tr, m);
    ShownTotal(tr.last, ws, threads, 1);
    SumOfSame(ws, MIN_WEIGHT);
    ShownRests(tr.last, ws, threads, 1);
    run := tr.States();
    ThreadsStay(run, |tr.front|, m);
    WithinIsRun(run, UpTo(m));
    WithinReweighs(run, UpTo(m));
  }

  lemma ShownRests(s: State, ws: seq<int>, threads: nat, r: nat)
    requires Shown(s, ws, threads, r)
    ensures AtRest(s) && s.ctl.index < 2 && |s.bufs[0].tree| == |ws| && |s.work| == threads
    ensures NameOf(|ws|) !in s.bufs[0].index
  {
  }

  /** A server that is added then starts with almost half of what 64 bits hold, although no reader has ever set
      a weight above the largest. */
  lemma HugeStart(threads: nat) returns (run: seq<State>)
    requires threads >= 2
    ensures IsRun(run) && ReweighsUpTo(run, MAX_WEIGHT) && |run[0].work| == threads
    ensures run[|run| - 1].nodes != []
    ensures var nodes := run[|run| - 1].nodes; nodes[|nodes| - 1].weight > (MAX_SERVERS - 1) * MAX_WEIGHT
  {
    hide Next, ReweighsUpTo;
    var before := Overdraw(threads);
    var begun := OneMoreStep(before, Begin(AddServer(NameOf(2))), MAX_WEIGHT);
    run := OneMoreStep(begun, RunAdd, MAX_WEIGHT);
    assert InitialWeight(3 * MIN_WEIGHT - MAX_WEIGHT, 2) > (MAX_SERVERS - 1) * MAX_WEIGHT;
  }
}
