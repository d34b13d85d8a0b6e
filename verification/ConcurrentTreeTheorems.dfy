/** What holds in every state of every run of the concurrent balancer. */
module ConcurrentTreeTheorems {
  import opened Options
  import opened WeightTree
  import opened WeightScale
  import opened ServerLayout
  import opened PendingAdds
  import opened SharedWeights
  import opened ConcurrentTree
  import opened ConcurrentTreeProofs
  import DB = DoubleBuffer

  /** Conservation: however the additions of readers and of a modification interleave, every counter
      plus what is still to be added to it is the sum of what the positions to its left contribute,
      and the total plus what is still to be added to it is the sum of all contributions. */
  lemma CountersExactUpToPending(run: seq<State>, i: nat)
    requires IsRun(run) && StartsNonzero(run) && i < |run|
    ensures WellFormed(run[i]) && ViewOk(ViewOf(run[i]))
    ensures var s := run[i];
            var c, own := Contributions(ViewOf(s)), OwnTasks(s.body);
            && s.total + PendingTotal(s.work, own) == Sum(c)
            && forall j :: 0 <= j < |Long(s.bufs).tree| ==> LeftExact(Long(s.bufs), s.lefts, c, s.work, own, j)
  {
    RunInv(run, i);
  }

  /** No additions are pending and no modification runs. */
  ghost predicate Quiet(s: State) {
    s.ctl.writer.NoModify? && forall t :: 0 <= t < |s.work| ==> s.work[t] == []
  }

  function WeightsOf(s: State): (ws: seq<int>)
    requires WellFormed(s)
    ensures |ws| == |s.Fg().tree|
  {
    seq(|s.Fg().tree|, i requires 0 <= i < |s.Fg().tree| => NodeAt(s, s.Fg(), i).weight)
  }

  /** Eventual consistency: in a quiet state both buffers are the same, their maps invert their name
      vectors, every weight is enabled and not 0, and every counter and the total are
      exact. */
  lemma QuietCountersExact(run: seq<State>, i: nat)
    requires IsRun(run) && StartsNonzero(run) && i < |run| && Quiet(run[i])
    ensures WellFormed(run[i])
    ensures var s := run[i];
            && s.bufs[0] == s.bufs[1] && Aligned(s.Fg())
            && s.total == Sum(WeightsOf(s))
            && forall j :: 0 <= j < |s.Fg().tree| ==>
                 && NodeAt(s, s.Fg(), j).enabled && WeightsOf(s)[j] != 0
                 && s.Fg().tree[j].left < |s.lefts|
                 && s.lefts[s.Fg().tree[j].left] == LeftSum(WeightsOf(s), j)
  {
    var s := run[i];
    RunInv(run, i);
    assert Long(s.bufs) == Short(s.bufs) == s.Fg();
    var v := ViewOf(s);
    QuietContributions(v);
    assert Contributions(v) == WeightsOf(s);
    NoWork(s.work, 0);
    forall j | 0 <= j < |s.Fg().tree|
      ensures NodeAt(s, s.Fg(), j).enabled && WeightsOf(s)[j] != 0 && s.Fg().tree[j].left < |s.lefts|
              && s.lefts[s.Fg().tree[j].left] == LeftSum(WeightsOf(s), j)
    {
      assert NodeOk(v, None, j);
      assert LeftExact(Long(s.bufs), s.lefts, Contributions(v), s.work, OwnTasks(s.body), j);
      NoWork(s.work, j);
    }
  }

  /** `weight_rm != 0` holds exactly in the first of the two applications of Remove. */
  lemma PassDetectionIsSound(run: seq<State>, i: nat)
    requires IsRun(run) && StartsNonzero(run) && i < |run| && run[i].body.Unlinking?
    ensures run[i].body.removed != 0 <==> run[i].ctl.writer.Pass1?
    ensures run[i].ctl.writer.Pass1? || run[i].ctl.writer.Pass2?
  {
    RunInv(run, i);
  }

  /** The first application of Add never finds the name in the foreground, the second always does. */
  lemma AddFindsTheForeground(run: seq<State>, i: nat)
    requires IsRun(run) && StartsNonzero(run) && i < |run| && WellFormed(run[i]) && Enabled(run[i], RunAdd)
    ensures run[i].op.value.name in run[i].Fg().index <==> run[i].ctl.writer.Pass2?
  {
    RunInv(run, i);
    var s := run[i];
    if s.ctl.writer.Pass2? {
      assert s.Fg() == Long(s.bufs);
      assert s.Fg().tree[|Short(s.bufs).tree|].name == s.op.value.name;
    }
  }

  /** Every climb in progress, of a reader or of the modification, stays inside the buffer it goes
      through, and every buffer position has a counter: no addition goes astray. */
  lemma ClimbsStayInside(run: seq<State>, i: nat)
    requires IsRun(run) && StartsNonzero(run) && i < |run|
    ensures WellFormed(run[i])
    ensures forall t :: 0 <= t < |run[i].work| && run[i].work[t] != [] ==>
              && run[i].ctl.readers[t].Holding? && run[i].ctl.readers[t].buf < 2
              && TasksWithin(run[i].work[t], |run[i].bufs[run[i].ctl.readers[t].buf].tree|)
    ensures run[i].body.Adding? && run[i].body.tasks != [] ==>
              run[i].ctl.Applying() && TasksWithin(run[i].body.tasks, |run[i].Bg().tree|)
    ensures forall b, p :: 0 <= b < 2 && 0 <= p < |run[i].bufs[b].tree| ==> run[i].bufs[b].tree[p].left < |run[i].lefts|
  {
    RunInv(run, i);
    var s := run[i];
    forall t | 0 <= t < |s.work| && s.work[t] != []
      ensures s.ctl.readers[t].Holding? && s.ctl.readers[t].buf < 2
              && TasksWithin(s.work[t], |s.bufs[s.ctl.readers[t].buf].tree|)
    {
      assert ThreadFits(s, t);
    }
    forall b, p | 0 <= b < 2 && 0 <= p < |s.bufs[b].tree| ensures s.bufs[b].tree[p].left < |s.lefts| {
      BufferSharesLefts(s, b);
    }
  }

  /** The buffer a thread holds does not change under it. */
  lemma HeldBufferIsStable(run: seq<State>, i: nat, t: nat)
    requires IsRun(run) && StartsNonzero(run) && i + 1 < |run|
    requires WellFormed(run[i]) && t < |run[i].ctl.readers| && run[i].ctl.readers[t].Holding?
    ensures run[i].ctl.readers[t].buf < 2 && |run[i + 1].bufs| == 2
    ensures run[i + 1].bufs[run[i].ctl.readers[t].buf] == run[i].bufs[run[i].ctl.readers[t].buf]
  {
    RunInv(run, i);
    assert run[i].ctl.Applying() ==> !run[i].ctl.Holds(t, run[i].ctl.Background());
    assert Next(run[i], run[i + 1]);
    var step :| Enabled(run[i], step) && run[i + 1] == Apply(run[i], step);
    hide PhaseFits, LayoutsFit, NodesOk, WorkFits, Conserved, IsRun, StartsNonzero, Apply, Enabled, DB.LocksAgree;
    OnlyBackgroundChanges(run[i], step);
  }

  lemma OnlyBackgroundChanges(s: State, step: Step)
    requires WellFormed(s) && Enabled(s, step)
    ensures |Apply(s, step).bufs| == 2 && Apply(s, step).bufs[s.ctl.index] == s.bufs[s.ctl.index]
    ensures !s.ctl.Applying() ==> Apply(s, step).bufs == s.bufs
  {
    hide AddEntry, RemoveEntry, DB.Apply, DB.Enabled;
  }
}
