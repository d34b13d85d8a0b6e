/**
  Every step of the concurrent balancer keeps the invariant of module ConcurrentTree; hence the
  counters and the total are exact, up to the additions still pending, in every state of every run.
 */
module ConcurrentTreeProofs {
  import opened Options
  import opened WeightTree
  import opened WeightScale
  import opened ServerLayout
  import opened PendingAdds
  import opened SharedWeights
  import opened ConcurrentTree
  import DB = DoubleBuffer

  // ----- Conservation, away from the rest of the state -----

  /** Positions of `b` have the counters they have in `long`. */
  ghost predicate SharesLefts(long: Buffer, b: Buffer) {
    && |b.tree| <= |long.tree|
    && forall i :: 0 <= i < |b.tree| ==> b.tree[i].left == long.tree[i].left
  }

  lemma AddAtEffect(long: Buffer, b: Buffer, lefts: seq<int>, tasks: seq<Task>, j: nat)
    requires LeftsDistinct(long) && SharesLefts(long, b) && j < |long.tree| && long.tree[j].left < |lefts|
    requires forall i :: 0 <= i < |long.tree| ==> long.tree[i].left < |lefts|
    requires tasks != [] && TasksWithin(tasks, |b.tree|)
    ensures var lefts', id := AddAt(lefts, b, tasks), long.tree[j].left;
            && |lefts'| == |lefts|
            && lefts'[id] == lefts[id] + if AddsAt(tasks, j) then tasks[0].diff else 0
  {
    AdvanceStaysWithin(tasks, |b.tree|);
    if tasks[0].Climb? && tasks[0].at != 0 {
      var parent := Parent(tasks[0].at);
      if tasks[0].at == 2 * parent + 1 {
        assert AddsAt(tasks, parent);
      }
    }
  }

  lemma ReaderTaskConserves(long: Buffer, b: Buffer, lefts: seq<int>, total: int, c: seq<int>,
                            work: seq<seq<Task>>, own: seq<Task>, t: nat)
    requires Conserved(long, lefts, total, c, work, own) && LeftsDistinct(long) && SharesLefts(long, b)
    requires t < |work| && work[t] != [] && TasksWithin(work[t], |b.tree|)
    ensures Conserved(long, AddAt(lefts, b, work[t]), total + TaskTotal(work[t][0]), c,
                      work[t := Advanced(work[t])], own)
  {
    var lefts', work' := AddAt(lefts, b, work[t]), work[t := Advanced(work[t])];
    forall i | 0 <= i < |long.tree| ensures long.tree[i].left < |lefts| {
      assert LeftExact(long, lefts, c, work, own, i);
    }
    forall j | 0 <= j < |long.tree| ensures LeftExact(long, lefts', c, work', own, j) {
      assert LeftExact(long, lefts, c, work, own, j);
      AddAtEffect(long, b, lefts, work[t], j);
      AdvanceConserves(work[t], j);
      WorkUpdate(work, t, Advanced(work[t]), j);
    }
    AdvanceConserves(work[t], 0);
    WorkUpdate(work, t, Advanced(work[t]), 0);
  }

  lemma OwnTaskConserves(long: Buffer, b: Buffer, lefts: seq<int>, total: int, c: seq<int>,
                         work: seq<seq<Task>>, own: seq<Task>)
    requires Conserved(long, lefts, total, c, work, own) && LeftsDistinct(long) && SharesLefts(long, b)
    requires own != [] && TasksWithin(own, |b.tree|)
    ensures Conserved(long, AddAt(lefts, b, own), total + TaskTotal(own[0]), c, work, Advanced(own))
  {
    var lefts' := AddAt(lefts, b, own);
    forall i | 0 <= i < |long.tree| ensures long.tree[i].left < |lefts| {
      assert LeftExact(long, lefts, c, work, own, i);
    }
    forall j | 0 <= j < |long.tree| ensures LeftExact(long, lefts', c, work, Advanced(own), j) {
      assert LeftExact(long, lefts, c, work, own, j);
      AddAtEffect(long, b, lefts, own, j);
      AdvanceConserves(own, j);
    }
    AdvanceConserves(own, 0);
  }

  lemma ReweighConserves(long: Buffer, lefts: seq<int>, total: int, c: seq<int>,
                         work: seq<seq<Task>>, own: seq<Task>, t: nat, i: nat, diff: int)
    requires Conserved(long, lefts, total, c, work, own)
    requires t < |work| && work[t] == [] && i < |c|
    ensures Conserved(long, lefts, total, c[i := c[i] + diff], work[t := Propagate(diff, i)], own)
  {
    var c', work' := c[i := c[i] + diff], work[t := Propagate(diff, i)];
    forall j | 0 <= j < |long.tree| ensures LeftExact(long, lefts, c', work', own, j) {
      assert LeftExact(long, lefts, c, work, own, j);
      PropagateAmounts(diff, i, j);
      WorkUpdate(work, t, Propagate(diff, i), j);
      SubtreeSumUpdate(c, 2 * j + 1, i, c[i] + diff);
    }
    PropagateAmounts(diff, i, 0);
    WorkUpdate(work, t, Propagate(diff, i), 0);
    SumUpdate(c, i, c[i] + diff);
  }

  /** The modifying thread changes a contribution and owes the difference. */
  lemma OwnChangeConserves(long: Buffer, lefts: seq<int>, total: int, c: seq<int>, work: seq<seq<Task>>,
                           own: seq<Task>, own': seq<Task>, i: nat, diff: int)
    requires Conserved(long, lefts, total, c, work, own) && i < |c|
    requires forall j: nat :: TasksLeft(own', j) == TasksLeft(own, j) + if InLeft(j, i) then diff else 0
    requires TasksTotal(own') == TasksTotal(own) + diff
    ensures Conserved(long, lefts, total, c[i := c[i] + diff], work, own')
  {
    var c' := c[i := c[i] + diff];
    forall j | 0 <= j < |long.tree| ensures LeftExact(long, lefts, c', work, own', j) {
      assert LeftExact(long, lefts, c, work, own, j);
      SubtreeSumUpdate(c, 2 * j + 1, i, c[i] + diff);
    }
    SumUpdate(c, i, c[i] + diff);
  }

  lemma GrowConserves(long: Buffer, e: Entry<nat, nat>, lefts: seq<int>, total: int, c: seq<int>,
                      work: seq<seq<Task>>, initial: int)
    requires Conserved(long, lefts, total, c, work, []) && e.left == |lefts|
    requires forall t :: 0 <= t < |work| ==> TasksWithin(work[t], |long.tree|)
    ensures Conserved(Layout(long.tree + [e], long.index[e.name := |long.tree|]), lefts + [0], total, c + [initial],
                      work, Propagate(initial, |long.tree|))
  {
    var n := |long.tree|;
    var long' := Layout(long.tree + [e], long.index[e.name := n]);
    forall j | 0 <= j < |long'.tree|
      ensures LeftExact(long', lefts + [0], c + [initial], work, Propagate(initial, n), j)
    {
      PropagateAmounts(initial, n, j);
      SubtreeSumAppend(c, 2 * j + 1, initial);
      if j < n {
        assert LeftExact(long, lefts, c, work, [], j);
      } else {
        SubtreeIsBelow(2 * n + 1, n);
        SubtreeSumBeyond(c, 2 * n + 1);
        NoWorkBeyond(work, n, n);
      }
    }
    PropagateAmounts(initial, n, 0);
    SumAppend(c, initial);
  }

  /** The last position goes; what it contributed is owed. */
  lemma ShrinkConserves(long: Buffer, long': Buffer, lefts: seq<int>, total: int, c: seq<int>, work: seq<seq<Task>>,
                        own: seq<Task>, own': seq<Task>, gone: int)
    requires Conserved(long, lefts, total, c + [gone], work, own)
    requires |long'.tree| == |c| && SharesLefts(long, long')
    requires forall j: nat :: TasksLeft(own', j) == TasksLeft(own, j) - if InLeft(j, |c|) then gone else 0
    requires TasksTotal(own') == TasksTotal(own) - gone
    ensures Conserved(long', lefts, total, c, work, own')
  {
    forall j | 0 <= j < |long'.tree| ensures LeftExact(long', lefts, c, work, own', j) {
      assert LeftExact(long, lefts, c + [gone], work, own, j);
      SubtreeSumAppend(c, 2 * j + 1, gone);
    }
    SumAppend(c, gone);
  }

  // ----- Steps of readers and of the protocol -----

  lemma ProtocolPhase(s: State, p: DB.Step)
    requires WellFormed(s) && Enabled(s, Protocol(p)) && DB.Inv(s.ctl) && PhaseFits(s)
    ensures var s' := Apply(s, Protocol(p)); WellFormed(s') && DB.Inv(s'.ctl) && PhaseFits(s')
  {
    DB.StepInv(s.ctl, p);
  }

  lemma ProtocolWork(s: State, p: DB.Step)
    requires WellFormed(s) && Enabled(s, Protocol(p)) && PhaseFits(s) && WorkFits(s)
    ensures var s' := Apply(s, Protocol(p)); WellFormed(s') && WorkFits(s')
  {
    var s' := Apply(s, Protocol(p));
    forall t | 0 <= t < |s'.work| ensures ThreadFits(s', t) {
      assert ThreadFits(s, t);
    }
  }

  lemma ProtocolInv(s: State, p: DB.Step)
    requires Inv(s) && Enabled(s, Protocol(p))
    ensures Inv(Apply(s, Protocol(p)))
  {
    ProtocolPhase(s, p);
    ProtocolWork(s, p);
    assert p.UnlockRegistry? ==> FnReturned(s);
  }

  lemma BeginInv(s: State, step: Step)
    requires Inv(s) && Enabled(s, step) && step.Begin?
    ensures Inv(Apply(s, step))
  {
    hide DB.Inv, NodeOk, ViewOk, Conserved;
    var s' := Apply(s, step);
    DB.StepInv(s.ctl, DB.BeginModify);
    forall t | 0 <= t < |s'.work| ensures ThreadFits(s', t) {
      assert ThreadFits(s, t);
    }
  }

  lemma FlipInv(s: State, step: Step)
    requires Inv(s) && Enabled(s, step) && step.Flip?
    ensures Inv(Apply(s, step))
  {
    hide DB.Inv, NodeOk, ViewOk, Conserved, Aligned, LeftsDistinct, OneOpApart;
    var s' := Apply(s, step);
    DB.StepInv(s.ctl, DB.Flip);
    forall t | 0 <= t < |s'.work| ensures ThreadFits(s', t) {
      assert ThreadFits(s, t);
    }
  }

  lemma EndInv(s: State, step: Step)
    requires Inv(s) && Enabled(s, step) && step.End?
    ensures Inv(Apply(s, step))
  {
    hide DB.Inv, NodeOk, ViewOk, Conserved;
    var s' := Apply(s, step);
    DB.StepInv(s.ctl, DB.EndModify);
    forall t | 0 <= t < |s'.work| ensures ThreadFits(s', t) {
      assert ThreadFits(s, t);
    }
  }

  lemma BufferSharesLefts(s: State, b: nat)
    requires WellFormed(s) && LayoutsFit(s) && b < 2
    ensures SharesLefts(Long(s.bufs), s.bufs[b])
  {
    if Split(s.bufs) && s.op.value.RemoveServer? {
      RemoveEntryShape(Long(s.bufs), s.op.value.name);
    }
  }

  /** A step of one reader changes no more of the work than that reader's own. */
  lemma WorkStep(s: State, s': State, t: nat, tasks: seq<Task>)
    requires WellFormed(s) && WellFormed(s') && WorkFits(s) && t < |s.work|
    requires s'.ctl == s.ctl && s'.bufs == s.bufs && s'.body == s.body && s'.work == s.work[t := tasks]
    requires s.ctl.readers[t].Holding? && s.ctl.readers[t].buf < 2
    requires TasksWithin(tasks, |s.bufs[s.ctl.readers[t].buf].tree|)
    ensures WorkFits(s')
  {
    forall u | 0 <= u < |s'.work| ensures ThreadFits(s', u) {
      assert ThreadFits(s, u);
    }
  }

  /** A step that leaves the protocol and the structure of both buffers alone. */
  lemma StructureStep(s: State, s': State)
    requires WellFormed(s) && WellFormed(s') && PhaseFits(s) && LayoutsFit(s) && PassDetected(s)
    requires s'.ctl == s.ctl && s'.bufs == s.bufs && s'.op == s.op && |s'.lefts| == |s.lefts|
    requires s'.body == s.body || (s.ctl.Applying() && s.body.Adding? && s'.body.Adding?)
    ensures PhaseFits(s') && LayoutsFit(s') && PassDetected(s') && Gap(s') == Gap(s) && Doomed(s') == Doomed(s)
  {
    hide Aligned, LeftsDistinct, OneOpApart;
  }

  lemma ReaderTaskCounts(s: State, t: nat)
    requires WellFormed(s) && Enabled(s, ReaderTask(t)) && LayoutsFit(s) && WorkFits(s) && NodesOk(ViewOf(s), Doomed(s))
    requires Conserved(Long(s.bufs), s.lefts, s.total, Contributions(ViewOf(s)), s.work, OwnTasks(s.body))
    ensures var s' := Apply(s, ReaderTask(t));
            && WellFormed(s') && WorkFits(s') && |s'.lefts| == |s.lefts|
            && Conserved(Long(s.bufs), s'.lefts, s'.total, Contributions(ViewOf(s)), s'.work, OwnTasks(s.body))
  {
    hide Conserved, ViewOk, NodeOk;
    var s' := Apply(s, ReaderTask(t));
    var b := s.ctl.readers[t].buf;
    assert ThreadFits(s, t);
    BufferSharesLefts(s, b);
    ReaderTaskConserves(Long(s.bufs), s.bufs[b], s.lefts, s.total, Contributions(ViewOf(s)),
                        s.work, OwnTasks(s.body), t);
    AdvanceStaysWithin(s.work[t], |s.bufs[b].tree|);
    WorkStep(s, s', t, Advanced(s.work[t]));
  }

  lemma ReaderTaskInv(s: State, t: nat)
    requires Inv(s) && Enabled(s, ReaderTask(t))
    ensures Inv(Apply(s, ReaderTask(t)))
  {
    hide DB.Inv, LayoutsFit, NodesOk, WorkFits, Conserved;
    var s' := Apply(s, ReaderTask(t));
    ReaderTaskCounts(s, t);
    StructureStep(s, s');
    assert ViewOf(s') == ViewOf(s);
  }

  lemma RunTaskCounts(s: State)
    requires WellFormed(s) && Enabled(s, RunTask) && LayoutsFit(s) && WorkFits(s) && NodesOk(ViewOf(s), Doomed(s))
    requires Conserved(Long(s.bufs), s.lefts, s.total, Contributions(ViewOf(s)), s.work, OwnTasks(s.body))
    ensures var s' := Apply(s, RunTask);
            && WellFormed(s') && WorkFits(s') && |s'.lefts| == |s.lefts|
            && Conserved(Long(s.bufs), s'.lefts, s'.total, Contributions(ViewOf(s)), s'.work, OwnTasks(s'.body))
  {
    hide Conserved, ViewOk, NodeOk;
    var s' := Apply(s, RunTask);
    BufferSharesLefts(s, 1 - s.ctl.index);
    OwnTaskConserves(Long(s.bufs), s.Bg(), s.lefts, s.total, Contributions(ViewOf(s)), s.work, s.body.tasks);
    AdvanceStaysWithin(s.body.tasks, |s.Bg().tree|);
    forall u | 0 <= u < |s'.work| ensures ThreadFits(s', u) {
      assert ThreadFits(s, u);
    }
  }

  lemma RunTaskInv(s: State)
    requires Inv(s) && Enabled(s, RunTask)
    ensures Inv(Apply(s, RunTask))
  {
    hide DB.Inv, LayoutsFit, NodesOk, WorkFits, Conserved;
    var s' := Apply(s, RunTask);
    RunTaskCounts(s);
    StructureStep(s, s');
    assert ViewOf(s') == ViewOf(s);
  }

  lemma ReweighView(s: State, t: nat, i: nat, weight: int)
    requires WellFormed(s) && Enabled(s, Reweigh(t, i, weight)) && NodesOk(ViewOf(s), Doomed(s))
    ensures var s' := Apply(s, Reweigh(t, i, weight));
            var c := Contributions(ViewOf(s));
            && WellFormed(s') && NodesOk(ViewOf(s'), Doomed(s')) && i < |c|
            && Contributions(ViewOf(s')) ==
               c[i := c[i] + (weight - NodeAt(s, s.bufs[s.ctl.readers[t].buf], i).weight)]
  {
    var s' := Apply(s, Reweigh(t, i, weight));
    var b := s.ctl.readers[t].buf;
    var id := s.bufs[b].tree[i].weight;
    var v := ViewOf(s);
    ReweighedPosition(s, b, i);
    ReweighNodes(v, Doomed(s), i, id, weight);
    ReweighContributions(v, Doomed(s), i, id, weight);
    assert ViewOf(s') == v.(nodes := s'.nodes);
  }

  lemma ReweighedPosition(s: State, b: nat, i: nat)
    requires WellFormed(s) && NodesOk(ViewOf(s), Doomed(s)) && b < 2 && i < |s.bufs[b].tree|
    ensures var v, id := ViewOf(s), s.bufs[b].tree[i].weight;
            && id < |s.nodes| && i < |v.long|
            && (id == v.long[i] || (i < |v.short| && id == v.short[i]))
  {
    assert s.bufs[b] == Long(s.bufs) || s.bufs[b] == Short(s.bufs);
  }

  lemma ReweighCounts(s: State, t: nat, i: nat, weight: int)
    requires WellFormed(s) && Enabled(s, Reweigh(t, i, weight)) && NodesOk(ViewOf(s), Doomed(s))
    requires Conserved(Long(s.bufs), s.lefts, s.total, Contributions(ViewOf(s)), s.work, OwnTasks(s.body))
    ensures var s' := Apply(s, Reweigh(t, i, weight));
            && WellFormed(s') && NodesOk(ViewOf(s'), Doomed(s'))
            && Conserved(Long(s'.bufs), s'.lefts, s'.total, Contributions(ViewOf(s')), s'.work, OwnTasks(s'.body))
  {
    hide Conserved, ViewOk, NodeOk;
    ReweighView(s, t, i, weight);
    ReweighConserves(Long(s.bufs), s.lefts, s.total, Contributions(ViewOf(s)), s.work, OwnTasks(s.body), t, i,
                     weight - NodeAt(s, s.bufs[s.ctl.readers[t].buf], i).weight);
  }

  lemma ReweighWork(s: State, t: nat, i: nat, weight: int)
    requires WellFormed(s) && Enabled(s, Reweigh(t, i, weight)) && WorkFits(s)
    ensures var s' := Apply(s, Reweigh(t, i, weight)); WellFormed(s') && WorkFits(s')
  {
    WorkStep(s, Apply(s, Reweigh(t, i, weight)), t, Apply(s, Reweigh(t, i, weight)).work[t]);
  }

  lemma ReweighInv(s: State, t: nat, i: nat, weight: int)
    requires Inv(s) && Enabled(s, Reweigh(t, i, weight))
    ensures Inv(Apply(s, Reweigh(t, i, weight)))
  {
    hide DB.Inv, LayoutsFit, NodesOk, WorkFits, Conserved;
    ReweighCounts(s, t, i, weight);
    ReweighWork(s, t, i, weight);
    StructureStep(s, Apply(s, Reweigh(t, i, weight)));
  }

  // ----- Steps of the modifying thread -----

  /** A step inside `fn` touches the background only, and no reader looks at that. */
  lemma FnWork(s: State, s': State)
    requires WellFormed(s) && WellFormed(s') && WorkFits(s) && DB.Inv(s.ctl) && s.ctl.Applying()
    requires s'.ctl == s.ctl && s'.bufs[s.ctl.index] == s.bufs[s.ctl.index] && s'.work == s.work
    requires s'.body.Adding? ==> TasksWithin(s'.body.tasks, |s'.Bg().tree|)
    ensures WorkFits(s')
  {
    forall t | 0 <= t < |s'.work| ensures ThreadFits(s', t) {
      assert ThreadFits(s, t);
      assert !s.ctl.Holds(t, s.ctl.Background());
    }
  }

  /** The first application of Add: the background grows by a new server. */
  ghost predicate GrewBy(s: State, s': State, e: Entry<nat, nat>, initial: int)
    requires WellFormed(s) && WellFormed(s')
  {
    && e.left == |s.lefts| && e.weight == |s.nodes|
    && Short(s.bufs) == Long(s.bufs) == Short(s'.bufs)
    && Long(s'.bufs) == AddEntry(Long(s.bufs), e, |Long(s.bufs).tree|)
    && Gap(s) == Gap(s') == None && Doomed(s) == Doomed(s') == None
    && s'.nodes == s.nodes + [Node(initial, true, 0, 0, None)] && s'.lefts == s.lefts + [0]
    && s'.total == s.total && s'.work == s.work
    && OwnTasks(s.body) == [] && s'.body == Adding(Propagate(initial, |Long(s.bufs).tree|))
  }

  lemma AddFirstApplied(s: State)
    requires WellFormed(s) && Enabled(s, RunAdd) && s.ctl.writer.Pass1? && PhaseFits(s) && LayoutsFit(s)
    ensures var bg, n := s.Bg(), |s.Bg().tree|;
            var w := InitialWeight(s.total, n);
            && bg == s.Fg() == Long(s.bufs) == Short(s.bufs) && s.op.value.name !in bg.index
            && Gap(s) == None && Doomed(s) == None && OwnTasks(s.body) == []
            && Apply(s, RunAdd) ==
               s.(bufs := s.bufs[1 - s.ctl.index := AddEntry(bg, Entry(s.op.value.name, |s.lefts|, |s.nodes|), n)],
                  nodes := s.nodes + [Node(w, true, 0, 0, None)], lefts := s.lefts + [0],
                  body := Adding(Propagate(w, n)))
  {
    hide InitialWeight, Propagate, Aligned, LeftsDistinct;
  }

  lemma AddFirstShape(s: State)
    requires WellFormed(s) && Enabled(s, RunAdd) && s.ctl.writer.Pass1?
    requires PhaseFits(s) && LayoutsFit(s) && PassDetected(s)
    ensures var s' := Apply(s, RunAdd);
            && WellFormed(s') && PhaseFits(s') && LayoutsFit(s') && PassDetected(s')
            && GrewBy(s, s', Entry(s.op.value.name, |s.lefts|, |s.nodes|), InitialWeight(s.total, |s.Bg().tree|))
  {
    AddFirstApplied(s);
    hide InitialWeight, Propagate, Apply, Aligned, LeftsDistinct, PhaseFits, LayoutsFit;
    var s', e := Apply(s, RunAdd), Entry(s.op.value.name, |s.lefts|, |s.nodes|);
    assert s'.Bg() == AddEntry(Long(s.bufs), e, |Long(s.bufs).tree|) && s'.Fg() == Long(s.bufs);
    AddFirstStructure(s, s', e, InitialWeight(s.total, |s.Bg().tree|));
  }

  lemma AddFirstStructure(s: State, s': State, e: Entry<nat, nat>, initial: int)
    requires WellFormed(s) && WellFormed(s') && LayoutsFit(s) && GrewBy(s, s', e, initial)
    requires s'.op == s.op == Some(AddServer(e.name)) && e.name !in Long(s.bufs).index && s'.Bg() == Long(s'.bufs)
    requires s'.ctl == s.ctl && s.ctl.writer.Pass1?
    ensures PhaseFits(s') && LayoutsFit(s') && PassDetected(s')
  {
    AddKeepsAligned(Long(s.bufs), e);
    hide Propagate, Aligned;
  }

  lemma GrewByView(s: State, s': State, e: Entry<nat, nat>, initial: int)
    requires WellFormed(s) && WellFormed(s') && GrewBy(s, s', e, initial) && initial != 0
    requires NodesOk(ViewOf(s), Doomed(s))
    ensures NodesOk(ViewOf(s'), Doomed(s')) && Contributions(ViewOf(s')) == Contributions(ViewOf(s)) + [initial]
  {
    var v := ViewOf(s);
    AddFirst(v, initial);
    assert ViewOf(s') == View(v.long + [|v.nodes|], v.short, None, v.nodes + [Node(initial, true, 0, 0, None)]);
  }

  lemma GrewByCounts(s: State, s': State, e: Entry<nat, nat>, initial: int)
    requires WellFormed(s) && WellFormed(s') && GrewBy(s, s', e, initial) && WorkFits(s)
    requires ViewOk(ViewOf(s)) && ViewOk(ViewOf(s'))
    requires Contributions(ViewOf(s')) == Contributions(ViewOf(s)) + [initial]
    requires Conserved(Long(s.bufs), s.lefts, s.total, Contributions(ViewOf(s)), s.work, OwnTasks(s.body))
    ensures Conserved(Long(s'.bufs), s'.lefts, s'.total, Contributions(ViewOf(s')), s'.work, OwnTasks(s'.body))
  {
    forall t | 0 <= t < |s.work| ensures TasksWithin(s.work[t], |Long(s.bufs).tree|) {
      assert ThreadFits(s, t);
    }
    GrowConserves(Long(s.bufs), e, s.lefts, s.total, Contributions(ViewOf(s)), s.work, initial);
  }

  lemma AddFirstInv(s: State)
    requires Inv(s) && Enabled(s, RunAdd) && s.ctl.writer.Pass1? && StartNonzero(s, Apply(s, RunAdd))
    ensures Inv(Apply(s, RunAdd))
  {
    hide DB.Inv, LayoutsFit, ViewOk, NodeOk, WorkFits, Conserved;
    var s' := Apply(s, RunAdd);
    var e := Entry(s.op.value.name, |s.lefts|, |s.nodes|);
    AddFirstShape(s);
    var initial := InitialWeight(s.total, |s.Bg().tree|);
    hide InitialWeight;
    GrewByView(s, s', e, initial);
    GrewByCounts(s, s', e, initial);
    FnWork(s, s');
  }

  lemma AddSecondShape(s: State)
    requires WellFormed(s) && Enabled(s, RunAdd) && s.ctl.writer.Pass2?
    requires PhaseFits(s) && LayoutsFit(s) && PassDetected(s)
    ensures var s' := Apply(s, RunAdd);
            && WellFormed(s') && PhaseFits(s') && LayoutsFit(s') && PassDetected(s')
            && Long(s'.bufs) == Short(s'.bufs) == Long(s.bufs)
            && s'.nodes == s.nodes && s'.lefts == s.lefts && s'.body == Adding([])
            && Gap(s) == Gap(s') == None && Doomed(s) == Doomed(s') == None
  {
    var s' := Apply(s, RunAdd);
    var name := s.op.value.name;
    var n := |Short(s.bufs).tree|;
    assert s.Fg() == Long(s.bufs) && s.Bg() == Short(s.bufs);
    assert s.Fg().tree[n].name == name && name in s.Fg().index && s.Fg().index[name] == n;
    assert s'.Bg() == s.Fg();
    assert s'.Fg() == s.Fg();
    assert s'.bufs[0] == s'.bufs[1];
  }

  lemma AddSecondView(s: State, s': State)
    requires WellFormed(s) && WellFormed(s') && NodesOk(ViewOf(s), Doomed(s))
    requires Long(s'.bufs) == Short(s'.bufs) == Long(s.bufs) && s'.nodes == s.nodes
    requires Gap(s) == Gap(s') == None && Doomed(s) == Doomed(s') == None
    ensures NodesOk(ViewOf(s'), Doomed(s')) && Contributions(ViewOf(s')) == Contributions(ViewOf(s))
  {
    AddSecond(ViewOf(s));
    assert ViewOf(s') == ViewOf(s).(short := ViewOf(s).long);
  }

  lemma AddSecondInv(s: State)
    requires Inv(s) && Enabled(s, RunAdd) && s.ctl.writer.Pass2?
    ensures Inv(Apply(s, RunAdd))
  {
    hide DB.Inv, LayoutsFit, NodesOk, WorkFits, Conserved;
    var s' := Apply(s, RunAdd);
    AddSecondShape(s);
    AddSecondView(s, s');
    FnWork(s, s');
  }

  lemma DisableFirstInv(s: State)
    requires Inv(s) && Enabled(s, RunDisable) && s.ctl.writer.Pass1?
    ensures Inv(Apply(s, RunDisable))
  {
    hide DB.Inv, NodeOk, ViewOk, WorkFits, Conserved;
    var s' := Apply(s, RunDisable);
    var k := Lookup(s.Bg(), s.op.value.name);
    assert s.Bg() == Long(s.bufs) == Short(s.bufs);
    DisableFirstView(s, s', k);
    DisableFirstCounts(s, s', k);
    FnWork(s, s');
  }

  ghost predicate DisabledAt(s: State, s': State, k: nat)
    requires WellFormed(s) && WellFormed(s')
  {
    && k < |Long(s.bufs).tree| && !Split(s.bufs) && Long(s.bufs) == Short(s.bufs)
    && s'.bufs == s.bufs && s'.lefts == s.lefts && s'.total == s.total && s'.work == s.work
    && Gap(s) == Gap(s') == None && Doomed(s) == None && Doomed(s') == Some(k)
    && (var id := Long(s.bufs).tree[k].weight;
        var node := GetNode(s.nodes, id);
        s'.nodes == SetNode(s.nodes, id, Disabled(node)) && s'.body == Unlinking(k, node.weight))
    && OwnTasks(s.body) == []
  }

  lemma DisableFirstView(s: State, s': State, k: nat)
    requires WellFormed(s) && WellFormed(s') && DisabledAt(s, s', k) && NodesOk(ViewOf(s), Doomed(s))
    ensures NodesOk(ViewOf(s'), Doomed(s'))
    ensures Contributions(ViewOf(s')) == Contributions(ViewOf(s))[k := 0]
    ensures s'.body.Unlinking? && s'.body.removed == Contributions(ViewOf(s))[k] && s'.body.removed != 0
  {
    var v := ViewOf(s);
    DisableFirst(v, k);
    assert ViewOf(s') == v.(nodes := s'.nodes);
  }

  lemma DisableFirstCounts(s: State, s': State, k: nat)
    requires WellFormed(s) && WellFormed(s') && DisabledAt(s, s', k)
    requires ViewOk(ViewOf(s)) && ViewOk(ViewOf(s')) && Contributions(ViewOf(s')) == Contributions(ViewOf(s))[k := 0]
    requires s'.body.removed == Contributions(ViewOf(s))[k]
    requires Conserved(Long(s.bufs), s.lefts, s.total, Contributions(ViewOf(s)), s.work, OwnTasks(s.body))
    ensures Conserved(Long(s'.bufs), s'.lefts, s'.total, Contributions(ViewOf(s')), s'.work, OwnTasks(s'.body))
  {
    assert TasksTotal([]) == 0 && forall j: nat :: TasksLeft([], j) == 0;
    hide Conserved, InLeft, Propagate, TasksLeft, TasksTotal, ViewOk, Contributions;
    var removed := s'.body.removed;
    forall j: nat ensures TasksLeft(Propagate(-removed, k), j) == if InLeft(j, k) then -removed else 0 {
      PropagateAmounts(-removed, k, j);
    }
    PropagateAmounts(-removed, k, 0);
    OwnChangeConserves(Long(s.bufs), s.lefts, s.total, Contributions(ViewOf(s)), s.work,
                       [], Propagate(-removed, k), k, -removed);
  }

  lemma DisableSecondInv(s: State)
    requires Inv(s) && Enabled(s, RunDisable) && s.ctl.writer.Pass2?
    ensures Inv(Apply(s, RunDisable))
  {
    hide DB.Inv, LayoutsFit, NodesOk, WorkFits, Conserved;
    DisableSecondView(s);
    FnWork(s, Apply(s, RunDisable));
  }

  /** Nothing is left to disable. */
  lemma DisableSecondView(s: State)
    requires WellFormed(s) && Enabled(s, RunDisable) && s.ctl.writer.Pass2? && PhaseFits(s) && LayoutsFit(s)
    requires NodesOk(ViewOf(s), Doomed(s))
    ensures var k := Lookup(s.Bg(), s.op.value.name);
            var s' := Apply(s, RunDisable);
            && s.op.value.name in s.Bg().index && Gap(s) == Some(k) && Propagate(-0, k) == []
            && s' == s.(body := Unlinking(k, 0))
            && WellFormed(s') && PhaseFits(s') && LayoutsFit(s') && Gap(s') == Doomed(s') == Doomed(s) == Some(k)
            && ViewOf(s') == ViewOf(s)
  {
    hide NodeOk, ViewOk, Aligned, LeftsDistinct, RemoveEntry, AddEntry;
    var k := Lookup(s.Bg(), s.op.value.name);
    assert s.Bg() == Long(s.bufs);
    DisableSecond(ViewOf(s), k);
    assert Apply(s, RunDisable).nodes == s.nodes;
  }

  lemma RemoveIds(b: Buffer, name: ServerName)
    requires Lookup(b, name) < |b.tree|
    ensures var k, last, ids := Lookup(b, name), |b.tree| - 1, Ids(b);
            Ids(RemoveEntry(b, name)) == if k == last then ids[..k] else ids[k := ids[last]][..last]
  {
  }

  /** The first application of Remove has unlinked position `k` of the background. */
  ghost predicate UnlinkedFirst(s: State, s': State, name: ServerName, k: nat)
    requires WellFormed(s) && WellFormed(s')
  {
    && k == Lookup(Long(s.bufs), name) < |Long(s.bufs).tree|
    && Long(s.bufs) == Short(s.bufs) == Long(s'.bufs) && Short(s'.bufs) == RemoveEntry(Long(s.bufs), name)
    && Gap(s) == None && Gap(s') == Doomed(s) == Doomed(s') == Some(k)
    && s'.lefts == s.lefts && s'.total == s.total && s'.work == s.work
  }

  lemma UnlinkFirstApplied(s: State)
    requires WellFormed(s) && Enabled(s, RunUnlink) && s.ctl.writer.Pass1? && PhaseFits(s) && LayoutsFit(s)
    ensures var s', name := Apply(s, RunUnlink), s.op.value.name;
            && s.Bg() == s.Fg() == Long(s.bufs) == Short(s.bufs) && s.op.value == RemoveServer(name)
            && s.body.k == Lookup(s.Bg(), name) < |s.Bg().tree| && Gap(s) == None && Doomed(s) == Some(s.body.k)
            && s'.body.Adding?
            && s' == s.(bufs := s.bufs[1 - s.ctl.index := RemoveEntry(s.Bg(), name)],
                        nodes := s'.nodes, body := s'.body)
  {
    hide RemoveEntry, Aligned, LeftsDistinct, OneOpApart, Propagate, ClimbOnly;
  }

  lemma UnlinkFirstShape(s: State)
    requires WellFormed(s) && Enabled(s, RunUnlink) && s.ctl.writer.Pass1? && PhaseFits(s) && LayoutsFit(s)
    ensures var s' := Apply(s, RunUnlink);
            && WellFormed(s') && UnlinkedFirst(s, s', s.op.value.name, s.body.k)
            && s'.Bg() == Short(s'.bufs) && s'.body.Adding? && s'.ctl == s.ctl && s'.op == s.op
  {
    UnlinkFirstApplied(s);
    RemoveEntryShape(s.Bg(), s.op.value.name);
    hide RemoveEntry, LayoutsFit, PhaseFits, Apply;
  }

  lemma UnlinkFirstStructure(s: State, s': State, name: ServerName, k: nat)
    requires WellFormed(s) && WellFormed(s') && LayoutsFit(s) && s.ctl.writer.Pass1?
    requires UnlinkedFirst(s, s', name, k) && s'.Bg() == Short(s'.bufs) && s'.body.Adding? && s'.ctl == s.ctl
    requires s'.op == s.op && s.op.Some? && s.op.value == RemoveServer(name) && name in Long(s.bufs).index
    ensures PhaseFits(s') && LayoutsFit(s') && PassDetected(s')
  {
    RemoveKeepsAligned(Long(s.bufs), name);
  }

  lemma UnlinkLastFirstCounts(s: State, s': State, name: ServerName, k: nat)
    requires WellFormed(s) && WellFormed(s') && UnlinkedFirst(s, s', name, k) && NodesOk(ViewOf(s), Doomed(s))
    requires k + 1 == |Long(s.bufs).tree| && s'.nodes == s.nodes && OwnTasks(s'.body) == OwnTasks(s.body)
    requires Conserved(Long(s.bufs), s.lefts, s.total, Contributions(ViewOf(s)), s.work, OwnTasks(s.body))
    ensures NodesOk(ViewOf(s'), Doomed(s'))
    ensures Conserved(Long(s'.bufs), s'.lefts, s'.total, Contributions(ViewOf(s')), s'.work, OwnTasks(s'.body))
  {
    var v := ViewOf(s);
    UnlinkLastFirst(v, k);
    RemoveIds(Long(s.bufs), name);
    assert ViewOf(s') == v.(short := v.short[..k], gap := Some(k));
  }

  lemma UnlinkFirstView(s: State, s': State, name: ServerName, k: nat)
    requires WellFormed(s) && WellFormed(s') && UnlinkedFirst(s, s', name, k) && NodesOk(ViewOf(s), Doomed(s))
    requires k + 1 < |Long(s.bufs).tree|
    requires var last := |Long(s.bufs).tree| - 1;
             var id := Long(s.bufs).tree[last].weight;
             s'.nodes == SetNode(s.nodes, id, Marked(GetNode(s.nodes, id), last))
    ensures NodesOk(ViewOf(s'), Doomed(s')) && Contributions(ViewOf(s))[k] == 0
    ensures Contributions(ViewOf(s')) ==
            Contributions(ViewOf(s))[k := NodeAt(s, Long(s.bufs), |Long(s.bufs).tree| - 1).weight]
  {
    UnlinkFirst(ViewOf(s), k);
    UnlinkFirstMarks(s, s', name, k);
    hide NodesOk, MarkedView, Contributions;
  }

  lemma UnlinkFirstMarks(s: State, s': State, name: ServerName, k: nat)
    requires WellFormed(s) && WellFormed(s') && UnlinkedFirst(s, s', name, k) && ViewOk(ViewOf(s))
    requires k + 1 < |Long(s.bufs).tree|
    requires var last := |Long(s.bufs).tree| - 1;
             var id := Long(s.bufs).tree[last].weight;
             s'.nodes == SetNode(s.nodes, id, Marked(GetNode(s.nodes, id), last))
    ensures |ViewOf(s).long| == |ViewOf(s).short| && ViewOf(s').gap == Some(k)
    ensures ViewOf(s') == MarkedView(ViewOf(s), k)
  {
    var v := ViewOf(s);
    var last := |Long(s.bufs).tree| - 1;
    RemoveIds(Long(s.bufs), name);
    assert v.long[last] == Long(s.bufs).tree[last].weight;
    hide RemoveEntry;
  }

  lemma UnlinkFirstCounts(s: State, s': State, name: ServerName, k: nat, removed: int, weight: int)
    requires WellFormed(s) && WellFormed(s') && UnlinkedFirst(s, s', name, k)
    requires ViewOk(ViewOf(s)) && ViewOk(ViewOf(s')) && Contributions(ViewOf(s))[k] == 0
    requires Contributions(ViewOf(s')) == Contributions(ViewOf(s))[k := weight]
    requires OwnTasks(s.body) == Propagate(-removed, k) && OwnTasks(s'.body) == Propagate(weight - removed, k)
    requires Conserved(Long(s.bufs), s.lefts, s.total, Contributions(ViewOf(s)), s.work, OwnTasks(s.body))
    ensures Conserved(Long(s'.bufs), s'.lefts, s'.total, Contributions(ViewOf(s')), s'.work, OwnTasks(s'.body))
  {
    hide Conserved, InLeft, Propagate, TasksLeft, TasksTotal, ViewOk;
    var own, own' := OwnTasks(s.body), OwnTasks(s'.body);
    forall j: nat ensures TasksLeft(own', j) == TasksLeft(own, j) + if InLeft(j, k) then weight else 0 {
      PropagateAmounts(-removed, k, j);
      PropagateAmounts(weight - removed, k, j);
    }
    PropagateAmounts(-removed, k, 0);
    PropagateAmounts(weight - removed, k, 0);
    OwnChangeConserves(Long(s.bufs), s.lefts, s.total, Contributions(ViewOf(s)), s.work, own, own', k, weight);
  }

  lemma UnlinkFirstData(s: State)
    requires WellFormed(s) && Enabled(s, RunUnlink) && s.Bg() == Long(s.bufs) && s.body.removed != 0
    requires NodesOk(ViewOf(s), Doomed(s))
    requires Conserved(Long(s.bufs), s.lefts, s.total, Contributions(ViewOf(s)), s.work, OwnTasks(s.body))
    requires var s' := Apply(s, RunUnlink); WellFormed(s') && UnlinkedFirst(s, s', s.op.value.name, s.body.k)
    ensures var s' := Apply(s, RunUnlink);
            && WellFormed(s') && NodesOk(ViewOf(s'), Doomed(s'))
            && Conserved(Long(s'.bufs), s'.lefts, s'.total, Contributions(ViewOf(s')), s'.work, OwnTasks(s'.body))
            && TasksWithin(OwnTasks(s'.body), |Short(s'.bufs).tree|)
  {
    hide Conserved, ViewOk, NodeOk;
    var s' := Apply(s, RunUnlink);
    var name, k, removed := s.op.value.name, s.body.k, s.body.removed;
    if k + 1 == |Long(s.bufs).tree| {
      UnlinkLastFirstCounts(s, s', name, k);
    } else {
      var weight := NodeAt(s, Long(s.bufs), |Long(s.bufs).tree| - 1).weight;
      UnlinkFirstView(s, s', name, k);
      UnlinkFirstCounts(s, s', name, k, removed, weight);
    }
  }

  lemma UnlinkFirstInv(s: State)
    requires Inv(s) && Enabled(s, RunUnlink) && s.ctl.writer.Pass1?
    ensures Inv(Apply(s, RunUnlink))
  {
    hide DB.Inv, LayoutsFit, NodesOk, WorkFits, Conserved;
    var s' := Apply(s, RunUnlink);
    UnlinkFirstShape(s);
    UnlinkFirstStructure(s, s', s.op.value.name, s.body.k);
    UnlinkFirstData(s);
    FnWork(s, s');
  }

  /** The second application of Remove has made the buffers equal again. */
  ghost predicate UnlinkedSecond(s: State, s': State, k: nat)
    requires WellFormed(s) && WellFormed(s')
  {
    && Split(s.bufs) && k < |Long(s.bufs).tree| == |Short(s.bufs).tree| + 1
    && Long(s'.bufs) == Short(s'.bufs) == Short(s.bufs)
    && Gap(s) == Doomed(s) == Some(k) && Gap(s') == Doomed(s') == None
    && s'.lefts == s.lefts && s'.total == s.total && s'.work == s.work
    && SharesLefts(Long(s.bufs), Short(s.bufs))
    && OwnTasks(s.body) == []
  }

  lemma UnlinkSecondShape(s: State)
    requires WellFormed(s) && Enabled(s, RunUnlink) && s.ctl.writer.Pass2?
    requires PhaseFits(s) && LayoutsFit(s) && PassDetected(s)
    ensures var s' := Apply(s, RunUnlink);
            && WellFormed(s') && PhaseFits(s') && LayoutsFit(s') && PassDetected(s')
            && UnlinkedSecond(s, s', s.body.k)
  {
    hide Aligned;
    var s' := Apply(s, RunUnlink);
    assert s.Bg() == Long(s.bufs) && s.Fg() == Short(s.bufs);
    RemoveEntryShape(s.Bg(), s.op.value.name);
    assert s'.Fg() == s.Fg() && s'.Bg() == s.Fg();
    assert s'.bufs[0] == s'.bufs[1];
  }

  lemma UnlinkLastSecondCounts(s: State, s': State, k: nat)
    requires WellFormed(s) && WellFormed(s') && UnlinkedSecond(s, s', k) && NodesOk(ViewOf(s), Doomed(s))
    requires k + 1 == |Long(s.bufs).tree| && s'.nodes == s.nodes && OwnTasks(s'.body) == []
    requires Conserved(Long(s.bufs), s.lefts, s.total, Contributions(ViewOf(s)), s.work, OwnTasks(s.body))
    ensures NodesOk(ViewOf(s'), Doomed(s'))
    ensures Conserved(Long(s'.bufs), s'.lefts, s'.total, Contributions(ViewOf(s')), s'.work, OwnTasks(s'.body))
  {
    var v := ViewOf(s);
    UnlinkLastSecond(v, k);
    assert ViewOf(s') == v.(long := v.short, gap := None);
    ShrinkConserves(Long(s.bufs), Short(s.bufs), s.lefts, s.total, Contributions(ViewOf(s')), s.work, [], [], 0);
  }

  lemma UnlinkSecondView(s: State, s': State, k: nat, node: Node)
    requires WellFormed(s) && WellFormed(s') && UnlinkedSecond(s, s', k) && NodesOk(ViewOf(s), Doomed(s))
    requires k + 1 < |Long(s.bufs).tree|
    requires var id := Long(s.bufs).tree[|Long(s.bufs).tree| - 1].weight;
             node == GetNode(s.nodes, id) && s'.nodes == SetNode(s.nodes, id, Cleared(node))
    ensures NodesOk(ViewOf(s'), Doomed(s'))
    ensures var c, c' := Contributions(ViewOf(s)), Contributions(ViewOf(s'));
            k < |c'| && c == c'[k := c'[k] - node.oldDiff] + [node.oldWeight + node.oldDiff]
  {
    var v := ViewOf(s);
    var last := |Long(s.bufs).tree| - 1;
    UnlinkSecond(v, k);
    assert v.long[last] == Long(s.bufs).tree[last].weight;
    assert ViewOf(s') == View(v.short, v.short, None, s'.nodes);
  }

  /** Against taking the moving server's whole contribution out of the last position. */
  lemma ClearOldOwes(k: nat, last: nat, oldWeight: int, oldDiff: int, j: nat)
    ensures var own1 := Propagate(-oldWeight - oldDiff, last);
            var own2 := ClimbOnly(oldDiff, k) + ClimbOnly(-oldWeight - oldDiff, last) + [AddTotal(-oldWeight)];
            && TasksLeft(own1, j) == -(if InLeft(j, last) then oldWeight + oldDiff else 0)
            && TasksLeft(own2, j) == TasksLeft(own1, j) + (if InLeft(j, k) then oldDiff else 0)
            && TasksTotal(own1) == -(oldWeight + oldDiff) && TasksTotal(own2) == TasksTotal(own1) + oldDiff
  {
    PropagateAmounts(-oldWeight - oldDiff, last, j);
    ClearOldAmounts(oldWeight, oldDiff, k, last, j);
  }

  lemma ClearOldConserves(long: Buffer, long': Buffer, lefts: seq<int>, total: int, c: seq<int>, work: seq<seq<Task>>,
                          k: nat, oldWeight: int, oldDiff: int)
    requires k < |c| == |long'.tree| && SharesLefts(long, long')
    requires Conserved(long, lefts, total, c[k := c[k] - oldDiff] + [oldWeight + oldDiff], work, [])
    ensures Conserved(long', lefts, total, c, work,
                      ClimbOnly(oldDiff, k) + ClimbOnly(-oldWeight - oldDiff, |c|) + [AddTotal(-oldWeight)])
  {
    assert TasksTotal([]) == 0 && forall j: nat :: TasksLeft([], j) == 0;
    hide Conserved, InLeft, ClimbOnly, Propagate, TasksLeft, TasksTotal;
    var last := |c|;
    var own1 := Propagate(-oldWeight - oldDiff, last);
    var own2 := ClimbOnly(oldDiff, k) + ClimbOnly(-oldWeight - oldDiff, last) + [AddTotal(-oldWeight)];
    forall j: nat
      ensures TasksLeft(own1, j) == -(if InLeft(j, last) then oldWeight + oldDiff else 0)
      ensures TasksLeft(own2, j) == TasksLeft(own1, j) + if InLeft(j, k) then oldDiff else 0
    {
      ClearOldOwes(k, last, oldWeight, oldDiff, j);
    }
    ClearOldOwes(k, last, oldWeight, oldDiff, 0);
    var c1 := c[k := c[k] - oldDiff];
    ShrinkConserves(long, long', lefts, total, c1, work, [], own1, oldWeight + oldDiff);
    OwnChangeConserves(long', lefts, total, c1, work, own1, own2, k, oldDiff);
    assert c1[k := c1[k] + oldDiff] == c;
  }

  lemma UnlinkSecondCounts(s: State, s': State, k: nat, node: Node)
    requires WellFormed(s) && WellFormed(s') && UnlinkedSecond(s, s', k) && NodesOk(ViewOf(s), Doomed(s))
    requires k + 1 < |Long(s.bufs).tree|
    requires var id := Long(s.bufs).tree[|Long(s.bufs).tree| - 1].weight;
             node == GetNode(s.nodes, id) && s'.nodes == SetNode(s.nodes, id, Cleared(node))
    requires OwnTasks(s'.body) ==
             ClimbOnly(node.oldDiff, k) + ClimbOnly(-node.oldWeight - node.oldDiff, |Short(s.bufs).tree|)
             + [AddTotal(-node.oldWeight)]
    requires Conserved(Long(s.bufs), s.lefts, s.total, Contributions(ViewOf(s)), s.work, OwnTasks(s.body))
    ensures NodesOk(ViewOf(s'), Doomed(s'))
    ensures Conserved(Long(s'.bufs), s'.lefts, s'.total, Contributions(ViewOf(s')), s'.work, OwnTasks(s'.body))
  {
    hide Conserved, ViewOk, NodeOk;
    UnlinkSecondView(s, s', k, node);
    ClearOldConserves(Long(s.bufs), Short(s.bufs), s.lefts, s.total, Contributions(ViewOf(s')), s.work, k,
                      node.oldWeight, node.oldDiff);
  }

  lemma UnlinkSecondTasks(s: State)
    requires WellFormed(s) && Enabled(s, RunUnlink) && s.Bg() == Long(s.bufs) && s.body.removed == 0
    requires s.body.k < |Long(s.bufs).tree| == |Short(s.bufs).tree| + 1
    ensures var s' := Apply(s, RunUnlink);
            s'.body.Adding? && TasksWithin(s'.body.tasks, |Short(s.bufs).tree|)
  {
  }

  /** What the second unlink does to the weights, and the additions it leaves. */
  ghost predicate ClearedLast(s: State, s': State, k: nat)
    requires WellFormed(s) && k < |Long(s.bufs).tree|
  {
    var last := |Long(s.bufs).tree| - 1;
    var id := Long(s.bufs).tree[last].weight;
    var node := GetNode(s.nodes, id);
    if k == last then s'.nodes == s.nodes && OwnTasks(s'.body) == []
    else
      && s'.nodes == SetNode(s.nodes, id, Cleared(node))
      && OwnTasks(s'.body) == ClimbOnly(node.oldDiff, k) + ClimbOnly(-node.oldWeight - node.oldDiff, last)
                              + [AddTotal(-node.oldWeight)]
  }

  lemma UnlinkSecondApplied(s: State)
    requires WellFormed(s) && Enabled(s, RunUnlink) && s.Bg() == Long(s.bufs) && s.body.removed == 0
    requires s.body.k < |Long(s.bufs).tree|
    ensures ClearedLast(s, Apply(s, RunUnlink), s.body.k)
  {
    hide RemoveEntry, ClimbOnly, Long, Short;
  }

  lemma UnlinkSecondChange(s: State, s': State, k: nat)
    requires WellFormed(s) && WellFormed(s') && UnlinkedSecond(s, s', k) && ClearedLast(s, s', k)
    requires NodesOk(ViewOf(s), Doomed(s))
    requires Conserved(Long(s.bufs), s.lefts, s.total, Contributions(ViewOf(s)), s.work, OwnTasks(s.body))
    ensures NodesOk(ViewOf(s'), Doomed(s'))
    ensures Conserved(Long(s'.bufs), s'.lefts, s'.total, Contributions(ViewOf(s')), s'.work, OwnTasks(s'.body))
  {
    hide Conserved, NodesOk, ViewOk, ClimbOnly;
    if k + 1 == |Long(s.bufs).tree| {
      UnlinkLastSecondCounts(s, s', k);
    } else {
      UnlinkSecondCounts(s, s', k, NodeAt(s, Long(s.bufs), |Long(s.bufs).tree| - 1));
    }
  }

  lemma UnlinkSecondData(s: State)
    requires WellFormed(s) && Enabled(s, RunUnlink) && s.Bg() == Long(s.bufs) && s.body.removed == 0
    requires NodesOk(ViewOf(s), Doomed(s))
    requires Conserved(Long(s.bufs), s.lefts, s.total, Contributions(ViewOf(s)), s.work, OwnTasks(s.body))
    requires var s' := Apply(s, RunUnlink); WellFormed(s') && UnlinkedSecond(s, s', s.body.k)
    ensures var s' := Apply(s, RunUnlink);
            && WellFormed(s') && NodesOk(ViewOf(s'), Doomed(s'))
            && Conserved(Long(s'.bufs), s'.lefts, s'.total, Contributions(ViewOf(s')), s'.work, OwnTasks(s'.body))
  {
    UnlinkSecondApplied(s);
    hide Conserved, NodesOk, Apply, ClearedLast;
    UnlinkSecondChange(s, Apply(s, RunUnlink), s.body.k);
  }

  lemma UnlinkSecondInv(s: State)
    requires Inv(s) && Enabled(s, RunUnlink) && s.ctl.writer.Pass2?
    ensures Inv(Apply(s, RunUnlink))
  {
    hide DB.Inv, LayoutsFit, NodesOk, WorkFits, Conserved;
    var s' := Apply(s, RunUnlink);
    UnlinkSecondShape(s);
    assert s.Bg() == Long(s.bufs);
    UnlinkSecondData(s);
    UnlinkSecondTasks(s);
    FnWork(s, s');
  }

  // ----- Runs -----

  lemma StepInv(s: State, step: Step)
    requires Inv(s) && Enabled(s, step) && StartNonzero(s, Apply(s, step))
    ensures Inv(Apply(s, step))
  {
    match step {
      case Protocol(p) => ProtocolInv(s, p);
      case RunAdd =>
        if s.ctl.writer.Pass1? {
          AddFirstInv(s);
        } else {
          AddSecondInv(s);
        }
      case RunDisable =>
        if s.ctl.writer.Pass1? {
          DisableFirstInv(s);
        } else {
          DisableSecondInv(s);
        }
      case RunUnlink =>
        if s.ctl.writer.Pass1? {
          UnlinkFirstInv(s);
        } else {
          UnlinkSecondInv(s);
        }
      case RunTask => RunTaskInv(s);
      case Reweigh(t, i, weight) => ReweighInv(s, t, i, weight);
      case ReaderTask(t) => ReaderTaskInv(s, t);
      case Begin(_) => BeginInv(s, step);
      case Flip => FlipInv(s, step);
      case End => EndInv(s, step);
    }
  }

  lemma InitInv(s: State)
    requires Init(s)
    ensures Inv(s)
  {
    DB.InitInv(s.ctl);
    assert ViewOf(s) == View([], [], None, []);
    NoWork(s.work, 0);
  }

  lemma {:induction false} RunInv(run: seq<State>, i: nat)
    requires IsRun(run) && StartsNonzero(run) && i < |run|
    ensures Inv(run[i])
  {
    if i == 0 {
      InitInv(run[0]);
    } else {
      RunInv(run, i - 1);
      assert Next(run[i - 1], run[i - 1 + 1]);
      var step :| Enabled(run[i - 1], step) && run[i] == Apply(run[i - 1], step);
      StepInv(run[i - 1], step);
    }
  }
}
