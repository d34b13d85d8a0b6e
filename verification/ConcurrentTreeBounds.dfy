/**
  How large the numbers of the concurrent balancer get. A thread that has changed a weight owes at most
  one weight's worth to every counter and to the total, so these are off from what they stand for by at
  most one weight per thread, in either direction.
 */
module ConcurrentTreeBounds {
  import opened Options
  import opened WeightTree
  import opened WeightScale
  import opened ServerLayout
  import opened PendingAdds
  import opened SharedWeights
  import opened ConcurrentTree
  import opened ConcurrentTreeProofs
  import opened ConcurrentTreeTheorems
  import opened ConcurrentTreeTraces
  import DB = DoubleBuffer

  // ----- Weights -----

  /** An enabled server weighs at least the minimum, a disabled one nothing. */
  ghost predicate WeightsFloor(nodes: seq<Node>) {
    forall id :: 0 <= id < |nodes| ==>
      if nodes[id].enabled then nodes[id].weight >= MIN_WEIGHT else nodes[id].weight == 0
  }

  ghost predicate WeightsWithin(s: State, m: int) {
    && (forall id :: 0 <= id < |s.nodes| ==> 0 <= s.nodes[id].weight <= m && 0 <= s.nodes[id].oldWeight <= m)
    && WeightsFloor(s.nodes)
  }

  lemma StepKeepsWeightsWithin(s: State, step: Step, m: int)
    requires WellFormed(s) && Enabled(s, step) && StepWithin(s, step, UpTo(m)) && WeightsWithin(s, m) && m >= 0
    ensures WeightsWithin(Apply(s, step), m)
  {
  }

  // ----- Pending additions -----

  predicate Within(x: int, m: int) {
    -m <= x <= m
  }

  /** What is left of the additions of one weight change of at most `m`. */
  predicate OneChange(tasks: seq<Task>, m: int) {
    match |tasks|
    case 0 => true
    case 1 => tasks[0].AddTotal? && Within(tasks[0].diff, m)
    case 2 => tasks[0].Climb? && tasks[1] == AddTotal(tasks[0].diff) && Within(tasks[0].diff, m)
    case _ => false
  }

  /** Only the last of the tasks adds to the total, at most `m`. */
  predicate OneTotal(tasks: seq<Task>, m: int) {
    forall i :: 0 <= i < |tasks| && tasks[i].AddTotal? ==> i == |tasks| - 1 && Within(tasks[i].diff, m)
  }

  ghost predicate PendingWithin(s: State, m: int) {
    && (forall t :: 0 <= t < |s.work| ==> OneChange(s.work[t], m))
    && OwnWithin(s, m)
  }

  ghost predicate OwnWithin(s: State, m: int) {
    match s.body
    case Entered => true
    case Unlinking(_, removed) => removed == 0 || MIN_WEIGHT <= removed <= m
    case Adding(tasks) => OneTotal(tasks, m) && ((s.op.Some? && s.op.value.RemoveServer?) || OneChange(tasks, m))
  }

  lemma AdvanceKeepsOneChange(tasks: seq<Task>, m: int)
    requires tasks != []
    ensures OneChange(tasks, m) ==> OneChange(Advanced(tasks), m)
    ensures OneTotal(tasks, m) ==> OneTotal(Advanced(tasks), m)
  {
    var rest := Advanced(tasks);
    if OneTotal(tasks, m) {
      forall i | 0 <= i < |rest| && rest[i].AddTotal? ensures i == |rest| - 1 && Within(rest[i].diff, m) {
        var k := i + |tasks| - |rest|;
        assert k < |tasks| && rest[i] == tasks[k];
      }
    }
  }

  lemma OneChangeAmounts(tasks: seq<Task>, m: int, j: nat)
    requires OneChange(tasks, m) && m >= 0
    ensures Within(TasksLeft(tasks, j), m) && Within(TasksTotal(tasks), m)
  {
    if |tasks| == 1 {
      assert tasks[1..] == [];
    } else if |tasks| == 2 {
      var rest := tasks[1..];
      assert rest == [tasks[1]] && rest[1..] == [];
      assert TasksLeft(rest, j) == 0 && TasksTotal(rest) == tasks[0].diff;
    }
  }

  lemma {:induction false} OneTotalAmount(tasks: seq<Task>, m: int)
    requires OneTotal(tasks, m) && m >= 0
    ensures Within(TasksTotal(tasks), m)
  {
    if |tasks| > 1 {
      OneTotalAmount(tasks[1..], m);
    }
  }

  lemma {:induction false} WorkAmounts(work: seq<seq<Task>>, m: int, j: nat)
    requires (forall t :: 0 <= t < |work| ==> OneChange(work[t], m)) && m >= 0
    ensures Within(WorkLeft(work, j), |work| * m) && Within(WorkTotal(work), |work| * m)
  {
    if work != [] {
      WorkAmounts(work[..|work| - 1], m, j);
      OneChangeAmounts(work[|work| - 1], m, j);
      assert |work| * m == (|work| - 1) * m + m;
    }
  }

  lemma StepKeepsPendingWithin(s: State, step: Step, m: int)
    requires WellFormed(s) && Enabled(s, step) && StepWithin(s, step, UpTo(m)) && m >= 0
    requires WeightsWithin(s, m) && PendingWithin(s, m)
    requires s.body.Unlinking? ==> s.op.Some? && s.op.value.RemoveServer?
    ensures PendingWithin(Apply(s, step), m)
  {
    StepKeepsOwnWithin(s, step, m);
    hide OwnWithin, RemoveEntry;
    if step.ReaderTask? {
      AdvanceKeepsOneChange(s.work[step.t], m);
    }
  }

  lemma StepKeepsOwnWithin(s: State, step: Step, m: int)
    requires WellFormed(s) && Enabled(s, step) && StepWithin(s, step, UpTo(m)) && m >= 0
    requires WeightsWithin(s, m) && OwnWithin(s, m)
    requires s.body.Unlinking? ==> s.op.Some? && s.op.value.RemoveServer?
    ensures OwnWithin(Apply(s, step), m)
  {
    hide RemoveEntry;
    if step.RunTask? {
      AdvanceKeepsOneChange(s.body.tasks, m);
    }
  }

  lemma UnlinkingIsRemoval(s: State)
    requires Inv(s) && s.body.Unlinking?
    ensures s.op.Some? && s.op.value.RemoveServer?
  {
  }

  lemma {:induction false} RunKeepsWithin(run: seq<State>, i: nat, m: int)
    requires IsRunWithin(run, UpTo(m)) && m >= 0 && i < |run|
    ensures WellFormed(run[i]) && Inv(run[i]) && WeightsWithin(run[i], m) && PendingWithin(run[i], m)
  {
    WithinIsRun(run, UpTo(m));
    WithinStartsNonzero(run, UpTo(m));
    RunInv(run, i);
    if i > 0 {
      RunKeepsWithin(run, i - 1, m);
      assert NextWithin(run[i - 1], run[i - 1 + 1], UpTo(m));
      var step :| Enabled(run[i - 1], step) && StepWithin(run[i - 1], step, UpTo(m))
                  && run[i] == Apply(run[i - 1], step);
      hide Inv, IsRunWithin, NextWithin, WeightsWithin, PendingWithin;
      if run[i - 1].body.Unlinking? {
        UnlinkingIsRemoval(run[i - 1]);
      }
      StepKeepsWeightsWithin(run[i - 1], step, m);
      StepKeepsPendingWithin(run[i - 1], step, m);
    }
  }

  // ----- Contributions -----

  ghost predicate ViewWithin(v: View, m: int) {
    forall id :: 0 <= id < |v.nodes| ==> 0 <= v.nodes[id].weight <= m && 0 <= v.nodes[id].oldWeight <= m
  }

  /** The contributions of a server that is being moved, but for what was saved. */
  function Unshifted(c: seq<int>, k: nat, weight: int, oldWeight: int): (c': seq<int>)
    requires k + 1 < |c|
    ensures |c'| == |c|
  {
    c[k := weight][|c| - 1 := oldWeight]
  }

  /** They are weights at every position, and what was saved is at one position what is missing at the other. */
  lemma UnshiftedContributions(v: View, k: nat, m: int)
    requires NodesOk(v, Some(k)) && v.gap == Some(k) && k + 1 < |v.long| && ViewWithin(v, m) && m >= 0
    ensures var c, node := Contributions(v), v.nodes[v.long[|v.long| - 1]];
            && c[k] == node.weight - node.oldDiff && c[|c| - 1] == node.oldWeight + node.oldDiff
            && forall i :: 0 <= i < |c| ==> 0 <= Unshifted(c, k, node.weight, node.oldWeight)[i] <= m
  {
    var c, last := Contributions(v), |v.long| - 1;
    assert NodeOk(v, Some(k), last);
    forall i | 0 <= i < last && i != k ensures 0 <= c[i] <= m {
      assert NodeOk(v, Some(k), i);
    }
  }

  /** While a server counts twice, the removed one counts 0, so the sum still is one of as many weights
      as there are positions. */
  lemma ContributionsBound(v: View, doomed: Option<nat>, m: int)
    requires NodesOk(v, doomed) && m >= 0 && ViewWithin(v, m)
    ensures 0 <= Sum(Contributions(v)) <= |v.long| * m
  {
    var c, last := Contributions(v), |v.long| - 1;
    if v.gap.Some? && v.gap.value < last {
      var k, node := v.gap.value, v.nodes[v.long[last]];
      UnshiftedContributions(v, k, m);
      hide NodesOk, ViewWithin, Contributions;
      SumUpdate(c, k, node.weight);
      SumUpdate(c[k := node.weight], last, node.oldWeight);
      WeightsBound(Unshifted(c, k, node.weight, node.oldWeight), m);
    } else {
      PlainContributions(v, doomed, m);
      WeightsBound(c, m);
    }
  }

  lemma WeightsBound(c: seq<int>, m: int)
    requires (forall i :: 0 <= i < |c| ==> 0 <= c[i] <= m) && m >= 0
    ensures 0 <= Sum(c) <= |c| * m
    ensures forall j: nat :: 0 <= LeftSum(c, j) <= |c| * m
  {
    SumAtLeast(c, 0);
    SumAtMost(c, m);
    forall j: nat ensures 0 <= LeftSum(c, j) <= |c| * m {
      SubtreeSumNonNegative(c, 2 * j + 1);
      SubtreeSumAtMostSum(c, 2 * j + 1);
    }
  }

  /** Unless a server is being moved, every contribution is a weight. */
  lemma PlainContributions(v: View, doomed: Option<nat>, m: int)
    requires NodesOk(v, doomed) && m >= 0 && (v.gap.None? || v.gap.value + 1 == |v.long|) && ViewWithin(v, m)
    ensures forall i :: 0 <= i < |v.long| ==> 0 <= Contributions(v)[i] <= m
  {
    forall i | 0 <= i < |v.long| ensures 0 <= Contributions(v)[i] <= m {
      assert NodeOk(v, doomed, i);
    }
  }

  // ----- The bounds -----

  /** The total, in every state of every run: with `n` positions and `T` threads it lies between
      -(T + 1) and n + T + 1 times the largest weight. */
  lemma TotalBounds(run: seq<State>, i: nat, m: int)
    requires IsRunWithin(run, UpTo(m)) && m >= 0 && i < |run|
    ensures WellFormed(run[i])
    ensures var n, threads := |Long(run[i].bufs).tree|, |run[i].work|;
            -((threads + 1) * m) <= run[i].total <= (n + threads + 1) * m
  {
    hide Inv, PendingWithin, Contributions;
    var s := run[i];
    RunKeepsWithin(run, i, m);
    var n, threads := |Long(s.bufs).tree|, |s.work|;
    StateAmounts(s, m, 0);
    assert (threads + 1) * m == threads * m + m && (n + threads + 1) * m == n * m + threads * m + m;
  }

  lemma StateAmounts(s: State, m: int, j: nat)
    requires Inv(s) && WeightsWithin(s, m) && PendingWithin(s, m) && m >= 0
    ensures var own := OwnTasks(s.body);
            && Within(PendingTotal(s.work, own), |s.work| * m + m)
            && 0 <= s.total + PendingTotal(s.work, own) <= |Long(s.bufs).tree| * m
  {
    ContributionsBound(ViewOf(s), Doomed(s), m);
    WorkAmounts(s.work, m, j);
    OwnAmounts(s, m, j);
  }

  lemma OwnAmounts(s: State, m: int, j: nat)
    requires PendingWithin(s, m) && m >= 0
    ensures Within(TasksTotal(OwnTasks(s.body)), m)
    ensures s.body.Adding? && !(s.op.Some? && s.op.value.RemoveServer?) ==> Within(TasksLeft(OwnTasks(s.body), j), m)
    ensures s.body.Entered? ==> TasksLeft(OwnTasks(s.body), j) == 0
  {
    match s.body
    case Entered =>
    case Unlinking(k, removed) => PropagateAmounts(-removed, k, j);
    case Adding(tasks) =>
      OneTotalAmount(tasks, m);
      if OneChange(tasks, m) {
        OneChangeAmounts(tasks, m, j);
      }
  }

  lemma CounterAmounts(s: State, m: int, j: nat)
    requires Inv(s) && WeightsWithin(s, m) && PendingWithin(s, m) && m >= 0
    requires j < |Long(s.bufs).tree| && !(s.op.Some? && s.op.value.RemoveServer?)
    ensures Long(s.bufs).tree[j].left < |s.lefts|
    ensures var pending := PendingLeft(s.work, OwnTasks(s.body), j);
            && Within(pending, |s.work| * m + m)
            && 0 <= s.lefts[Long(s.bufs).tree[j].left] + pending <= |Long(s.bufs).tree| * m
  {
    var c := Contributions(ViewOf(s));
    assert LeftExact(Long(s.bufs), s.lefts, c, s.work, OwnTasks(s.body), j);
    PlainContributions(ViewOf(s), Doomed(s), m);
    hide Inv, NodesOk, Contributions;
    WeightsBound(c, m);
    WorkAmounts(s.work, m, j);
    OwnAmounts(s, m, j);
  }

  /** The same for every counter, unless a Remove is under way. */
  lemma CounterBounds(run: seq<State>, i: nat, m: int, j: nat)
    requires IsRunWithin(run, UpTo(m)) && m >= 0 && i < |run|
    requires WellFormed(run[i]) && j < |Long(run[i].bufs).tree| && !(run[i].op.Some? && run[i].op.value.RemoveServer?)
    ensures Long(run[i].bufs).tree[j].left < |run[i].lefts|
    ensures var n, threads := |Long(run[i].bufs).tree|, |run[i].work|;
            -((threads + 1) * m) <= run[i].lefts[Long(run[i].bufs).tree[j].left] <= (n + threads + 1) * m
  {
    hide Inv, PendingWithin;
    var s := run[i];
    RunKeepsWithin(run, i, m);
    var n, threads := |Long(s.bufs).tree|, |s.work|;
    CounterAmounts(s, m, j);
    assert (threads + 1) * m == threads * m + m && (n + threads + 1) * m == n * m + threads * m + m;
  }

  /** So the total fits 64 bits as long as servers and threads together are fewer than 72. */
  lemma TotalFitsInt64(run: seq<State>, i: nat)
    requires IsRunWithin(run, UpTo(MAX_WEIGHT)) && i < |run| && WellFormed(run[i])
    requires |Long(run[i].bufs).tree| + |run[i].work| < MAX_SERVERS
    ensures FitsInt64(run[i].total)
  {
    TotalBounds(run, i, MAX_WEIGHT);
    MulMonotone(|Long(run[i].bufs).tree| + |run[i].work| + 1, MAX_SERVERS, MAX_WEIGHT);
    MulMonotone(|run[i].work| + 1, MAX_SERVERS, MAX_WEIGHT);
  }

  lemma CounterFitsInt64(run: seq<State>, i: nat, j: nat)
    requires IsRunWithin(run, UpTo(MAX_WEIGHT)) && i < |run| && WellFormed(run[i])
    requires |Long(run[i].bufs).tree| + |run[i].work| < MAX_SERVERS
    requires j < |Long(run[i].bufs).tree| && !(run[i].op.Some? && run[i].op.value.RemoveServer?)
    ensures Long(run[i].bufs).tree[j].left < |run[i].lefts|
    ensures FitsInt64(run[i].lefts[Long(run[i].bufs).tree[j].left])
  {
    CounterBounds(run, i, MAX_WEIGHT, j);
    MulMonotone(|Long(run[i].bufs).tree| + |run[i].work| + 1, MAX_SERVERS, MAX_WEIGHT);
    MulMonotone(|run[i].work| + 1, MAX_SERVERS, MAX_WEIGHT);
  }

  /** With nothing pending to it the total is a sum of weights, which is not negative and fits for up to
      72 servers, whatever the number of threads, also in the middle of a Remove. */
  lemma SettledTotalFitsInt64(run: seq<State>, i: nat)
    requires IsRunWithin(run, UpTo(MAX_WEIGHT)) && i < |run|
    requires WellFormed(run[i]) && |Long(run[i].bufs).tree| <= MAX_SERVERS
    requires PendingTotal(run[i].work, OwnTasks(run[i].body)) == 0
    ensures 0 <= run[i].total && FitsInt64(run[i].total)
  {
    RunKeepsWithin(run, i, MAX_WEIGHT);
    StateAmounts(run[i], MAX_WEIGHT, 0);
    SumOfWeightsFits(|Long(run[i].bufs).tree|, run[i].total);
  }

  /** If no server starts outside the bounds of a weight, then none is in a quiet state. */
  lemma QuietWeightsWithin(run: seq<State>, i: nat, m: int)
    requires IsRunWithin(run, UpTo(m)) && m >= 0 && i < |run| && Quiet(run[i])
    ensures WellFormed(run[i])
    ensures var ws := WeightsOf(run[i]); forall j :: 0 <= j < |ws| ==> MIN_WEIGHT <= ws[j] <= m
  {
    hide Inv, PendingWithin, IsRun, IsRunWithin, StartsNonzero;
    WithinIsRun(run, UpTo(m));
    WithinStartsNonzero(run, UpTo(m));
    QuietCountersExact(run, i);
    RunKeepsWithin(run, i, m);
  }

  /** The same for each counter in a quiet state. */
  lemma QuietLeftsFitInt64(run: seq<State>, i: nat, j: nat)
    requires IsRunWithin(run, UpTo(MAX_WEIGHT)) && i < |run| && Quiet(run[i])
    requires WellFormed(run[i]) && j < |run[i].Fg().tree| <= MAX_SERVERS
    ensures run[i].Fg().tree[j].left < |run[i].lefts|
    ensures 0 <= run[i].lefts[run[i].Fg().tree[j].left] && FitsInt64(run[i].lefts[run[i].Fg().tree[j].left])
  {
    hide Inv, IsRun, IsRunWithin, StartsNonzero;
    WithinIsRun(run, UpTo(MAX_WEIGHT));
    WithinStartsNonzero(run, UpTo(MAX_WEIGHT));
    QuietCountersExact(run, i);
    QuietWeightsWithin(run, i, MAX_WEIGHT);
    var ws := WeightsOf(run[i]);
    hide WeightsOf;
    WeightsBound(ws, MAX_WEIGHT);
    SumOfWeightsFits(|ws|, LeftSum(ws, j));
  }

  // ----- The total and what the readers owe to it -----

  /** What covers the additions that the first application still owes: the server that counts beyond
      those of the shorter buffer, which is the added one, or the moving one where it was. */
  function Cover(s: State): int
    requires WellFormed(s)
  {
    if !s.body.Adding? || !s.ctl.writer.Pass1? || s.op.None? then 0
    else if s.op.value.AddServer? then
      if s.Bg().tree == [] then 0 else GetNode(s.nodes, s.Bg().tree[|s.Bg().tree| - 1].weight).weight
    else
      if s.Fg().tree == [] then 0 else GetNode(s.nodes, s.Fg().tree[|s.Fg().tree| - 1].weight).oldWeight
  }

  /** They are at most that, and fall short of it by at most one weight. */
  ghost predicate OwnCovered(s: State, m: int) {
    WellFormed(s) && Cover(s) - m <= TasksTotal(OwnTasks(s.body)) <= Cover(s)
  }

  lemma AdvanceTotal(tasks: seq<Task>, m: int)
    requires tasks != [] && OneTotal(tasks, m)
    ensures TasksTotal(Advanced(tasks)) == TasksTotal(tasks) || TasksTotal(Advanced(tasks)) == 0
  {
    AdvanceConserves(tasks, 0);
    if tasks[0].AddTotal? {
      assert |tasks| == 1;
    }
  }

  lemma AddKeepsCovered(s: State, m: int)
    requires Inv(s) && Enabled(s, RunAdd) && m >= 0
    ensures OwnCovered(Apply(s, RunAdd), m)
  {
    var s', n := Apply(s, RunAdd), |s.Bg().tree|;
    PropagateAmounts(InitialWeight(s.total, n), n, 0);
    if s.ctl.writer.Pass2? {
      assert s.Fg() == Long(s.bufs);
    } else {
      assert s'.Bg().tree[n].weight == |s.nodes|;
    }
  }

  lemma UnlinkFirstKeepsCovered(s: State, m: int)
    requires WellFormed(s) && Enabled(s, RunUnlink) && s.ctl.writer.Pass1? && s.bufs[0] == s.bufs[1]
    requires s.op.value.RemoveServer? && 0 < s.body.removed <= m && WeightsWithin(s, m)
    requires s.body.k == Lookup(s.Bg(), s.op.value.name) && s.Bg().tree[|s.Bg().tree| - 1].weight < |s.nodes|
    requires s.nodes[s.Bg().tree[|s.Bg().tree| - 1].weight].oldWeight == 0
    ensures OwnCovered(Apply(s, RunUnlink), m)
  {
    hide RemoveEntry;
    var bg, k, removed := s.Bg(), s.body.k, s.body.removed;
    var node := GetNode(s.nodes, bg.tree[|bg.tree| - 1].weight);
    PropagateAmounts(-removed, k, 0);
    PropagateAmounts(node.weight - removed, k, 0);
  }

  /** The second unlink takes out of the total what the moving server weighed where it was. */
  lemma UnlinkSecondOwed(s: State)
    requires WellFormed(s) && Enabled(s, RunUnlink) && s.body.removed == 0
    ensures var own := TasksTotal(OwnTasks(Apply(s, RunUnlink).body));
            own == 0 || own == -GetNode(s.nodes, s.Bg().tree[|s.Bg().tree| - 1].weight).oldWeight
  {
    hide RemoveEntry, GetNode, SetNode, Propagate, ClimbOnly;
    var bg, k := s.Bg(), s.body.k;
    var last := |bg.tree| - 1;
    var node := GetNode(s.nodes, bg.tree[last].weight);
    PropagateAmounts(0, k, 0);
    ClearOldAmounts(node.oldWeight, node.oldDiff, k, last, 0);
  }

  lemma UnlinkSecondKeepsCovered(s: State, m: int)
    requires WellFormed(s) && Enabled(s, RunUnlink) && s.ctl.writer.Pass2?
    requires s.body.removed == 0 && WeightsWithin(s, m) && m >= 0
    ensures OwnCovered(Apply(s, RunUnlink), m)
  {
    UnlinkSecondOwed(s);
    hide RemoveEntry, Propagate, ClimbOnly, TasksTotal;
  }

  lemma UnlinkKeepsCovered(s: State, m: int)
    requires Inv(s) && Enabled(s, RunUnlink) && WeightsWithin(s, m) && OwnWithin(s, m) && m >= 0
    ensures OwnCovered(Apply(s, RunUnlink), m)
  {
    hide Inv, OwnWithin, Apply, OwnCovered, WeightsWithin;
    if s.ctl.writer.Pass2? {
      UnlinkSecondFinds(s);
      UnlinkSecondKeepsCovered(s, m);
    } else {
      UnlinkFirstFinds(s, m);
      UnlinkFirstKeepsCovered(s, m);
    }
  }

  lemma UnlinkSecondFinds(s: State)
    requires Inv(s) && Enabled(s, RunUnlink) && s.ctl.writer.Pass2?
    ensures WellFormed(s) && s.body.removed == 0
  {
    hide DB.Inv, Conserved, WorkFits, NodesOk, LayoutsFit, PhaseFits;
  }

  /** Before the first unlink both buffers are the same, and nothing is saved with the server that moves. */
  lemma UnlinkFirstFinds(s: State, m: int)
    requires Inv(s) && Enabled(s, RunUnlink) && !s.ctl.writer.Pass2? && OwnWithin(s, m)
    ensures WellFormed(s) && s.ctl.writer.Pass1? && s.bufs[0] == s.bufs[1]
    ensures s.op.value.RemoveServer? && 0 < s.body.removed <= m && s.body.k == Lookup(s.Bg(), s.op.value.name)
    ensures s.Bg().tree[|s.Bg().tree| - 1].weight < |s.nodes|
    ensures s.nodes[s.Bg().tree[|s.Bg().tree| - 1].weight].oldWeight == 0
  {
    hide DB.Inv, Conserved, WorkFits;
    assert s.Bg() == Long(s.bufs);
    var v := ViewOf(s);
    assert v.long[|v.long| - 1] == s.Bg().tree[|s.Bg().tree| - 1].weight;
    assert NodeOk(v, Doomed(s), |v.long| - 1);
  }

  /** While Add is in its first application no reader has come across the new server. */
  lemma NewServerUntouched(s: State, t: nat, i: nat, weight: int)
    requires Inv(s) && Enabled(s, Reweigh(t, i, weight))
    requires s.body.Adding? && s.ctl.writer.Pass1? && s.op.value.AddServer?
    ensures s.Bg().tree != [] && s.bufs[s.ctl.readers[t].buf].tree[i].weight != s.Bg().tree[|s.Bg().tree| - 1].weight
  {
    hide Conserved, WorkFits, NodeOk;
    assert !s.ctl.Holds(t, s.ctl.Background());
    var v := ViewOf(s);
    assert s.Fg() == Short(s.bufs) && s.Bg() == Long(s.bufs) && v.gap == None;
    assert s.bufs[s.ctl.readers[t].buf].tree[i].weight == v.short[i] == v.long[i] != v.long[|v.long| - 1];
  }

  lemma ReweighCover(s: State, t: nat, i: nat, weight: int, m: int)
    requires WellFormed(s) && Enabled(s, Reweigh(t, i, weight)) && OwnCovered(s, m)
    requires s.body.Adding? && s.ctl.writer.Pass1? && s.op.Some? && s.op.value.AddServer? ==>
               s.Bg().tree != [] && s.bufs[s.ctl.readers[t].buf].tree[i].weight != s.Bg().tree[|s.Bg().tree| - 1].weight
    ensures OwnCovered(Apply(s, Reweigh(t, i, weight)), m)
  {
    var s' := Apply(s, Reweigh(t, i, weight));
    forall id: nat ensures GetNode(s'.nodes, id).oldWeight == GetNode(s.nodes, id).oldWeight {
    }
  }

  lemma ReweighKeepsCovered(s: State, t: nat, i: nat, weight: int, m: int)
    requires Inv(s) && Enabled(s, Reweigh(t, i, weight)) && OwnCovered(s, m)
    ensures OwnCovered(Apply(s, Reweigh(t, i, weight)), m)
  {
    if s.body.Adding? && s.ctl.writer.Pass1? && s.op.Some? && s.op.value.AddServer? {
      NewServerUntouched(s, t, i, weight);
    }
    hide Inv, OwnCovered, Apply;
    ReweighCover(s, t, i, weight, m);
  }

  lemma StepKeepsCovered(s: State, step: Step, m: int)
    requires Inv(s) && Enabled(s, step) && WeightsWithin(s, m) && PendingWithin(s, m) && m >= 0 && OwnCovered(s, m)
    ensures OwnCovered(Apply(s, step), m)
  {
    match step {
      case RunAdd => AddKeepsCovered(s, m);
      case RunUnlink => UnlinkKeepsCovered(s, m);
      case Reweigh(t, i, weight) => ReweighKeepsCovered(s, t, i, weight, m);
      case _ => OtherStepKeepsCovered(s, step, m);
    }
  }

  lemma OwnStepKeepsCovered(s: State, step: Step, m: int)
    requires WellFormed(s) && WeightsWithin(s, m) && PendingWithin(s, m) && m >= 0
    requires Enabled(s, step) && OwnCovered(s, m) && (step.RunDisable? || step.RunTask?)
    ensures OwnCovered(Apply(s, step), m)
  {
    if step.RunDisable? {
      var s' := Apply(s, RunDisable);
      PropagateAmounts(-s'.body.removed, s'.body.k, 0);
    } else {
      AdvanceTotal(s.body.tasks, m);
    }
  }

  lemma OtherStepKeepsCovered(s: State, step: Step, m: int)
    requires WellFormed(s) && PhaseFits(s) && WeightsWithin(s, m) && PendingWithin(s, m) && m >= 0
    requires Enabled(s, step) && OwnCovered(s, m) && !step.RunAdd? && !step.RunUnlink? && !step.Reweigh?
    ensures OwnCovered(Apply(s, step), m)
  {
    if step.RunDisable? || step.RunTask? {
      OwnStepKeepsCovered(s, step, m);
    } else {
      hide WeightsWithin, PendingWithin, ChangedIs, GetNode, Split, DB.Enabled, AddAt, Advanced;
    }
  }

  lemma {:induction false} RunKeepsCovered(run: seq<State>, i: nat, m: int)
    requires IsRunWithin(run, UpTo(m)) && m >= 0 && i < |run|
    ensures OwnCovered(run[i], m)
  {
    if i > 0 {
      RunKeepsCovered(run, i - 1, m);
      RunKeepsWithin(run, i - 1, m);
      assert NextWithin(run[i - 1], run[i - 1 + 1], UpTo(m));
      var step :| Enabled(run[i - 1], step) && StepWithin(run[i - 1], step, UpTo(m))
                  && run[i] == Apply(run[i - 1], step);
      StepKeepsCovered(run[i - 1], step, m);
    }
  }

  /** What is still owed to the total, in terms of the view. */
  ghost predicate OwedWithin(v: View, doomed: Option<nat>, own: int, m: int)
    requires NodesOk(v, doomed)
  {
    if |v.long| == |v.short| then -m <= own <= if doomed.Some? then -MIN_WEIGHT else 0
    else
      var last := |v.long| - 1;
      var node := v.nodes[v.long[last]];
      var cover := if v.gap == None then node.weight else if v.gap == Some(last) then 0 else node.oldWeight;
      cover - m <= own <= cover
  }

  lemma CoverIsOwed(s: State, m: int)
    requires Inv(s) && OwnCovered(s, m) && WeightsWithin(s, m) && OwnWithin(s, m) && m >= 0
    ensures OwedWithin(ViewOf(s), Doomed(s), TasksTotal(OwnTasks(s.body)), m)
  {
    hide DB.Inv, Conserved, WorkFits, RemoveEntry, Aligned, LeftsDistinct;
    if s.body.Unlinking? {
      PropagateAmounts(-s.body.removed, s.body.k, 0);
    }
    if |ViewOf(s).long| > |ViewOf(s).short| {
      LastNode(s);
    }
    hide NodesOk;
  }

  lemma LastNode(s: State)
    requires WellFormed(s) && NodesOk(ViewOf(s), Doomed(s)) && |ViewOf(s).long| > |ViewOf(s).short|
    ensures var v := ViewOf(s);
            && v.long != [] && v.long[|v.long| - 1] < |s.nodes| && NodeOk(v, Doomed(s), |v.long| - 1)
  {
  }

  /** Unless a server is being moved, every position contributes its weight. */
  lemma PlainFloor(v: View, doomed: Option<nat>)
    requires NodesOk(v, doomed) && WeightsFloor(v.nodes) && (v.gap.None? || v.gap.value + 1 == |v.long|)
    ensures forall i :: 0 <= i < |v.long| ==> Contributions(v)[i] == v.nodes[v.long[i]].weight
    ensures forall i :: 0 <= i < |v.long| && doomed != Some(i) ==> Contributions(v)[i] >= MIN_WEIGHT
    ensures doomed.Some? && doomed.value < |v.long| ==> Contributions(v)[doomed.value] == 0
  {
    forall i | 0 <= i < |v.long|
      ensures Contributions(v)[i] == v.nodes[v.long[i]].weight
      ensures if doomed == Some(i) then Contributions(v)[i] == 0 else Contributions(v)[i] >= MIN_WEIGHT
    {
      assert NodeOk(v, doomed, i);
    }
  }

  lemma MovingFloor(v: View, k: nat)
    requires NodesOk(v, Some(k)) && WeightsFloor(v.nodes) && v.gap == Some(k) && k + 1 < |v.long|
    ensures Sum(Contributions(v)) >= |v.short| * MIN_WEIGHT + v.nodes[v.long[|v.long| - 1]].oldWeight
  {
    var c, last := Contributions(v), |v.long| - 1;
    var node := v.nodes[v.long[last]];
    assert NodeOk(v, Some(k), last);
    var c' := Unshifted(c, k, node.weight, node.oldWeight);
    forall i | 0 <= i < last ensures c'[i] >= MIN_WEIGHT {
      assert NodeOk(v, Some(k), i);
    }
    hide NodesOk, Contributions;
    SumUpdate(c, k, node.weight);
    SumUpdate(c[k := node.weight], last, node.oldWeight);
    FrontFloor(c');
  }

  /** What the positions of the shorter buffer contribute at the least, with what is owed set off. */
  lemma ContributionsFloor(v: View, doomed: Option<nat>, own: int, m: int)
    requires NodesOk(v, doomed) && WeightsFloor(v.nodes) && OwedWithin(v, doomed, own, m)
    requires doomed.Some? && v.gap == None ==> |v.long| == |v.short| && doomed.value < |v.long|
    ensures Sum(Contributions(v)) - own >= |v.short| * MIN_WEIGHT
  {
    var c, last := Contributions(v), |v.long| - 1;
    if v.gap.Some? && v.gap.value < last {
      MovingFloor(v, v.gap.value);
    } else {
      PlainFloor(v, doomed);
      hide NodesOk, Contributions;
      if |v.long| > |v.short| {
        FrontFloor(c);
      } else if doomed.Some? {
        SumUpdate(c, doomed.value, MIN_WEIGHT);
        SumAtLeast(c[doomed.value := MIN_WEIGHT], MIN_WEIGHT);
      } else {
        SumAtLeast(c, MIN_WEIGHT);
      }
    }
  }

  lemma FrontFloor(c: seq<int>)
    requires c != [] && forall i :: 0 <= i < |c| - 1 ==> c[i] >= MIN_WEIGHT
    ensures Sum(c) >= (|c| - 1) * MIN_WEIGHT + c[|c| - 1]
  {
    SumAtLeast(c[..|c| - 1], MIN_WEIGHT);
  }

  /** In every state of every run the total, with what the readers still owe to it, is at least the minimum
      weight for each server that both buffers have. A total below 1 is thus always due to raises that
      readers have not added yet. */
  lemma TotalFloor(run: seq<State>, i: nat, m: int)
    requires IsRunWithin(run, UpTo(m)) && m >= 0 && i < |run|
    ensures WellFormed(run[i])
    ensures run[i].total + WorkTotal(run[i].work) >= |Short(run[i].bufs).tree| * MIN_WEIGHT
  {
    var s := run[i];
    RunKeepsWithin(run, i, m);
    RunKeepsCovered(run, i, m);
    CoverIsOwed(s, m);
    ContributionsFloor(ViewOf(s), Doomed(s), TasksTotal(OwnTasks(s.body)), m);
  }

  /** The positions that count towards the total: those of the longer buffer, and in the second application of a
      removal, until all additions are made, the one that has just been unlinked. */
  function Positions(s: State): nat
    requires WellFormed(s)
  {
    |Long(s.bufs).tree| + if s.ctl.writer.Pass2? && OwnTasks(s.body) != [] && !s.body.Unlinking? then 1 else 0
  }

  lemma FrontCeiling(c: seq<int>, m: int)
    requires c != [] && forall i :: 0 <= i < |c| - 1 ==> c[i] <= m
    ensures Sum(c) <= |c| * m - m + c[|c| - 1]
  {
    SumAtMost(c[..|c| - 1], m);
    assert (|c| - 1) * m == |c| * m - m;
  }

  lemma MovingCeiling(v: View, k: nat, m: int)
    requires NodesOk(v, Some(k)) && ViewWithin(v, m) && m >= 0 && v.gap == Some(k) && k + 1 < |v.long|
    ensures Sum(Contributions(v)) <= |v.long| * m - m + v.nodes[v.long[|v.long| - 1]].oldWeight
  {
    UnshiftedContributions(v, k, m);
    var c, last := Contributions(v), |v.long| - 1;
    var node := v.nodes[v.long[last]];
    hide NodesOk, Contributions, ViewWithin;
    SumUpdate(c, k, node.weight);
    SumUpdate(c[k := node.weight], last, node.oldWeight);
    FrontCeiling(Unshifted(c, k, node.weight, node.oldWeight), m);
  }

  lemma DoomedCeiling(c: seq<int>, k: nat, m: int)
    requires k < |c| && c[k] == 0 && forall i :: 0 <= i < |c| ==> c[i] <= m
    ensures Sum(c) + m <= |c| * m
  {
    SumUpdate(c, k, m);
    SumAtMost(c[k := m], m);
  }

  /** What all positions contribute at the most, with what is owed set off. */
  lemma ContributionsCeiling(v: View, doomed: Option<nat>, own: int, m: int)
    requires NodesOk(v, doomed) && WeightsFloor(v.nodes) && ViewWithin(v, m) && OwedWithin(v, doomed, own, m) && m >= 0
    requires doomed.Some? ==> doomed.value < |v.long|
    ensures var spare := if |v.long| == |v.short| && doomed.None? && own != 0 then m else 0;
            Sum(Contributions(v)) - own <= |v.long| * m + spare
  {
    var c, last := Contributions(v), |v.long| - 1;
    if v.gap.Some? && v.gap.value < last {
      MovingCeiling(v, v.gap.value, m);
    } else {
      PlainContributions(v, doomed, m);
      PlainFloor(v, doomed);
      hide NodesOk, Contributions;
      if doomed.Some? {
        DoomedCeiling(c, doomed.value, m);
      } else if |v.long| > |v.short| {
        FrontCeiling(c, m);
      } else {
        SumAtMost(c, m);
      }
    }
  }

  lemma SpareIsPosition(s: State)
    requires Inv(s) && |ViewOf(s).long| == |ViewOf(s).short| && Doomed(s).None? && TasksTotal(OwnTasks(s.body)) != 0
    ensures Positions(s) == |ViewOf(s).long| + 1
  {
    hide DB.Inv, Conserved, NodesOk, LayoutsFit, Gap;
  }

  lemma DoomedInside(s: State)
    requires Inv(s) && Doomed(s).Some?
    ensures Doomed(s).value < |ViewOf(s).long|
  {
    hide DB.Inv, Conserved, WorkFits;
  }

  /** And it is at most the largest weight for each position. A total above that is always due to
      reductions that readers have not added yet. */
  lemma TotalCeiling(run: seq<State>, i: nat, m: int)
    requires IsRunWithin(run, UpTo(m)) && m >= 0 && i < |run|
    ensures WellFormed(run[i])
    ensures run[i].total + WorkTotal(run[i].work) <= Positions(run[i]) * m
  {
    var s := run[i];
    RunKeepsWithin(run, i, m);
    RunKeepsCovered(run, i, m);
    CeilingHolds(s, m);
  }

  lemma TotalIsSum(s: State, m: int)
    requires Inv(s) && WeightsWithin(s, m)
    ensures WellFormed(s) && NodesOk(ViewOf(s), Doomed(s)) && ViewWithin(ViewOf(s), m) && WeightsFloor(ViewOf(s).nodes)
    ensures Doomed(s).Some? ==> Doomed(s).value < |ViewOf(s).long|
    ensures s.total + WorkTotal(s.work) == Sum(Contributions(ViewOf(s))) - TasksTotal(OwnTasks(s.body))
    ensures |ViewOf(s).long| <= Positions(s)
  {
    if Doomed(s).Some? {
      DoomedInside(s);
    }
    hide DB.Inv, PhaseFits, LayoutsFit, WorkFits, NodesOk;
  }

  lemma CeilingHolds(s: State, m: int)
    requires Inv(s) && WeightsWithin(s, m) && OwnWithin(s, m) && OwnCovered(s, m) && m >= 0
    ensures s.total + WorkTotal(s.work) <= Positions(s) * m
  {
    hide Inv, WeightsWithin, OwnWithin, OwnCovered, NodesOk, OwedWithin, Contributions, ViewWithin, ViewOf, Doomed,
      Positions, WeightsFloor, OwnTasks;
    TotalIsSum(s, m);
    var v, doomed, own := ViewOf(s), Doomed(s), TasksTotal(OwnTasks(s.body));
    CoverIsOwed(s, m);
    if |v.long| == |v.short| && doomed.None? && own != 0 {
      SpareIsPosition(s);
    }
    ContributionsCeiling(v, doomed, own, m);
    MulMonotone(|v.long|, Positions(s), m);
    assert (|v.long| + 1) * m == |v.long| * m + m;
  }

  // ----- The total between modifications -----

  /** The server at position `i` of the thread's buffer carries all that the thread still owes: its weight
      is within the bounds, and was so before the thread changed it. */
  ghost predicate CarriedAt(s: State, t: nat, i: nat, m: int)
    requires WellFormed(s) && t < |s.work| && s.ctl.readers[t].Holding? && s.ctl.readers[t].buf < 2
    requires i < |s.bufs[s.ctl.readers[t].buf].tree|
  {
    var node := NodeAt(s, s.bufs[s.ctl.readers[t].buf], i);
    node.enabled ==> MIN_WEIGHT <= node.weight <= m && MIN_WEIGHT <= node.weight - TasksTotal(s.work[t]) <= m
  }

  ghost predicate Carried(s: State, t: nat, m: int) {
    && WellFormed(s) && t < |s.work|
    && (TasksTotal(s.work[t]) == 0
        || (&& s.ctl.readers[t].Holding? && s.ctl.readers[t].buf < 2
            && exists i :: 0 <= i < |s.bufs[s.ctl.readers[t].buf].tree| && CarriedAt(s, t, i, m)))
  }

  /** What one of the threads owes is carried, namely what the last one to reweigh owes; and no thread owes more
      than a weight can swing. */
  ghost predicate SwingsWithin(s: State, m: int) {
    && (s.work != [] ==> exists t: nat :: Carried(s, t, m))
    && forall t :: 0 <= t < |s.work| ==> OneChange(s.work[t], m - MIN_WEIGHT)
  }

  /** The thread's work, its buffer and the weights of that buffer are the same, but for servers that have
      been disabled. */
  ghost predicate LeftAlone(s: State, s': State, t: nat) {
    && WellFormed(s) && WellFormed(s') && t < |s.work| && t < |s'.work| && s'.work[t] == s.work[t]
    && s.ctl.readers[t].Holding? && s.ctl.readers[t].buf < 2 && s'.ctl.readers[t] == s.ctl.readers[t]
    && var b := s.bufs[s.ctl.readers[t].buf];
       && s'.bufs[s.ctl.readers[t].buf] == b
       && forall i :: 0 <= i < |b.tree| ==>
            !NodeAt(s', b, i).enabled
            || (&& NodeAt(s', b, i).enabled == NodeAt(s, b, i).enabled
                && NodeAt(s', b, i).weight == NodeAt(s, b, i).weight)
  }

  lemma LeftAloneKeepsCarried(s: State, s': State, t: nat, m: int)
    requires Carried(s, t, m) && WellFormed(s') && |s'.work| == |s.work| && s'.work[t] == s.work[t]
    requires s.work[t] != [] ==> LeftAlone(s, s', t)
    ensures Carried(s', t, m)
  {
    if TasksTotal(s.work[t]) != 0 {
      var i :| 0 <= i < |s.bufs[s.ctl.readers[t].buf].tree| && CarriedAt(s, t, i, m);
      assert CarriedAt(s', t, i, m);
    }
  }

  lemma EnabledWeight(s: State, b: nat, i: nat)
    requires Inv(s) && WeightsFloor(s.nodes) && b < 2 && i < |s.bufs[b].tree| && NodeAt(s, s.bufs[b], i).enabled
    ensures s.bufs[b].tree[i].weight < |s.nodes| && NodeAt(s, s.bufs[b], i).weight >= MIN_WEIGHT
  {
    hide DB.Inv, Conserved, WorkFits, NodeOk;
    ReweighedPosition(s, b, i);
  }

  lemma ReweighIsCarried(s: State, t: nat, i: nat, weight: int, m: int)
    requires WellFormed(s) && Enabled(s, Reweigh(t, i, weight)) && weight <= m
    requires var b := s.bufs[s.ctl.readers[t].buf];
             b.tree[i].weight < |s.nodes| && MIN_WEIGHT <= NodeAt(s, b, i).weight <= m
    ensures Carried(Apply(s, Reweigh(t, i, weight)), t, m)
    ensures OneChange(Apply(s, Reweigh(t, i, weight)).work[t], m - MIN_WEIGHT)
  {
    var s' := Apply(s, Reweigh(t, i, weight));
    PropagateAmounts(weight - NodeAt(s, s.bufs[s.ctl.readers[t].buf], i).weight, i, 0);
    assert CarriedAt(s', t, i, m);
  }

  lemma ReweighKeepsSwings(s: State, t: nat, i: nat, weight: int, m: int)
    requires Inv(s) && Enabled(s, Reweigh(t, i, weight)) && weight <= m && WeightsWithin(s, m) && SwingsWithin(s, m)
    ensures SwingsWithin(Apply(s, Reweigh(t, i, weight)), m)
  {
    EnabledWeight(s, s.ctl.readers[t].buf, i);
    hide Inv, Carried, OneChange;
    ReweighIsCarried(s, t, i, weight, m);
  }

  lemma ReaderTaskKeepsCarried(s: State, t: nat, k: nat, m: int)
    requires WellFormed(s) && PendingWithin(s, m) && Enabled(s, ReaderTask(t)) && Carried(s, k, m)
    ensures Carried(Apply(s, ReaderTask(t)), k, m)
  {
    var s' := Apply(s, ReaderTask(t));
    assert OneTotal(s.work[t], m);
    AdvanceTotal(s.work[t], m);
    if TasksTotal(s'.work[k]) != 0 {
      var i :| 0 <= i < |s.bufs[s.ctl.readers[k].buf].tree| && CarriedAt(s, k, i, m);
      assert CarriedAt(s', k, i, m);
    }
  }

  lemma ReaderTaskKeepsSwings(s: State, t: nat, m: int)
    requires WellFormed(s) && PendingWithin(s, m) && Enabled(s, ReaderTask(t)) && SwingsWithin(s, m)
    ensures SwingsWithin(Apply(s, ReaderTask(t)), m)
  {
    var k: nat :| Carried(s, k, m);
    ReaderTaskKeepsCarried(s, t, k, m);
    AdvanceKeepsOneChange(s.work[t], m - MIN_WEIGHT);
    hide PendingWithin, Carried, OneChange;
  }

  lemma OthersLeaveBuffer(s: State, step: Step, t: nat)
    requires WellFormed(s) && Enabled(s, step) && t < |s.work| && s.work[t] != [] && !step.Reweigh? && !step.ReaderTask?
    requires s.ctl.readers[t].Holding? && s.ctl.readers[t].buf < 2
    requires s.ctl.Applying() ==> s.ctl.readers[t].buf != 1 - s.ctl.index
    ensures var s', b := Apply(s, step), s.ctl.readers[t].buf;
            && WellFormed(s') && s'.work == s.work && s'.bufs[b] == s.bufs[b] && s'.ctl.readers[t] == s.ctl.readers[t]
  {
    hide RemoveEntry;
  }

  lemma OthersLeaveWeight(s: State, step: Step, id: nat)
    requires WellFormed(s) && Enabled(s, step) && id < |s.nodes| && !step.Reweigh?
    ensures var node, node' := GetNode(s.nodes, id), GetNode(Apply(s, step).nodes, id);
            !node'.enabled || (node.enabled && node'.weight == node.weight)
  {
    hide RemoveEntry, DB.Apply, DB.Enabled;
  }

  /** A thread with additions to make is left alone by the steps of others. */
  lemma OthersLeaveReader(s: State, step: Step, t: nat)
    requires Inv(s) && Enabled(s, step) && t < |s.work| && s.work[t] != [] && !step.Reweigh? && !step.ReaderTask?
    ensures LeftAlone(s, Apply(s, step), t)
  {
    hide Conserved, PhaseFits, LayoutsFit, PassDetected, NodesOk, WorkFits, Apply, Enabled;
    ReaderAtWork(s, t);
    var b := s.ctl.readers[t].buf;
    if s.ctl.Applying() {
      assert !s.ctl.Holds(t, s.ctl.Background());
    }
    OthersLeaveBuffer(s, step, t);
    forall i | 0 <= i < |s.bufs[b].tree|
      ensures var node, node' := NodeAt(s, s.bufs[b], i), NodeAt(Apply(s, step), s.bufs[b], i);
              !node'.enabled || (node.enabled && node'.weight == node.weight)
    {
      ReweighedPosition(s, b, i);
      OthersLeaveWeight(s, step, s.bufs[b].tree[i].weight);
    }
    hide DB.Inv;
  }

  lemma StepKeepsSwings(s: State, step: Step, m: int)
    requires Inv(s) && WeightsWithin(s, m) && PendingWithin(s, m) && Enabled(s, step) && StepWithin(s, step, UpTo(m))
    requires SwingsWithin(s, m)
    ensures SwingsWithin(Apply(s, step), m)
  {
    hide PhaseFits, LayoutsFit, NodesOk, PassDetected, WorkFits, Conserved, DB.Inv, PendingWithin, LeftAlone, Carried;
    match step {
      case Reweigh(t, i, weight) => ReweighKeepsSwings(s, t, i, weight, m);
      case ReaderTask(t) => ReaderTaskKeepsSwings(s, t, m);
      case _ =>
        if s.work != [] {
          var k: nat :| Carried(s, k, m);
          assert k < |s.work| by {
            CarriedThread(s, k, m);
          }
          if s.work[k] != [] {
            OthersLeaveReader(s, step, k);
          }
          LeftAloneKeepsCarried(s, Apply(s, step), k, m);
        }
    }
  }

  lemma CarriedThread(s: State, t: nat, m: int)
    requires Carried(s, t, m)
    ensures t < |s.work|
  {
  }

  lemma {:induction false} RunKeepsSwings(run: seq<State>, i: nat, m: int)
    requires IsRunWithin(run, UpTo(m)) && m >= MIN_WEIGHT && i < |run|
    ensures SwingsWithin(run[i], m)
  {
    if i == 0 {
      assert run[0].work != [] ==> Carried(run[0], 0, m);
    } else {
      RunKeepsSwings(run, i - 1, m);
      RunKeepsWithin(run, i - 1, m);
      assert NextWithin(run[i - 1], run[i - 1 + 1], UpTo(m));
      var step :| Enabled(run[i - 1], step) && StepWithin(run[i - 1], step, UpTo(m))
                  && run[i] == Apply(run[i - 1], step);
      hide Inv, PendingWithin, SwingsWithin;
      StepKeepsSwings(run[i - 1], step, m);
    }
  }

  /** Both buffers are the same and the modifying thread, if there is one, owes nothing. */
  predicate Calm(s: State) {
    WellFormed(s) && !Split(s.bufs) && !s.body.Unlinking? && OwnTasks(s.body) == []
  }

  lemma CalmAtRest(s: State)
    requires Inv(s) && s.ctl.writer.NoModify?
    ensures Calm(s)
  {
  }

  lemma SecondAddFindsName(s: State)
    requires Inv(s) && Enabled(s, RunAdd) && s.ctl.writer.Pass2?
    ensures s.op.value.name in s.Fg().index
  {
    assert s.Fg() == Long(s.bufs);
    assert s.Fg().tree[|Short(s.bufs).tree|].name == s.op.value.name;
  }

  /** Also when Add is about to make a new server. */
  lemma CalmBeforeAdd(s: State)
    requires Inv(s) && Enabled(s, RunAdd) && s.op.value.name !in s.Fg().index
    ensures Calm(s) && |s.Bg().tree| == |s.Fg().tree|
  {
    hide DB.Inv, NodesOk, Conserved, WorkFits;
    if s.ctl.writer.Pass2? {
      SecondAddFindsName(s);
    }
  }

  lemma CarriedContribution(s: State, t: nat, i: nat, m: int)
    requires Inv(s) && WeightsFloor(s.nodes) && Calm(s) && t < |s.work|
    requires s.ctl.readers[t].Holding? && s.ctl.readers[t].buf < 2
    requires i < |s.bufs[s.ctl.readers[t].buf].tree| && CarriedAt(s, t, i, m)
    ensures i < |ViewOf(s).long| && MIN_WEIGHT <= Contributions(ViewOf(s))[i] - TasksTotal(s.work[t]) <= m
  {
    hide DB.Inv, Conserved, WorkFits, Aligned, LeftsDistinct;
    assert NodeOk(ViewOf(s), None, i);
    PlainFloor(ViewOf(s), None);
    hide Contributions;
  }

  lemma CalmView(s: State)
    requires Inv(s) && Calm(s)
    ensures Doomed(s) == None && ViewOf(s).gap == None && |ViewOf(s).long| == |s.Fg().tree|
    ensures NodesOk(ViewOf(s), None) && ViewOf(s).nodes == s.nodes
    ensures s.total + WorkTotal(s.work) == Sum(Contributions(ViewOf(s)))
  {
  }

  lemma SumBetween(c: seq<int>, lo: int, hi: int)
    requires forall i :: 0 <= i < |c| ==> lo <= c[i] <= hi
    ensures |c| * lo <= Sum(c) <= |c| * hi
  {
    SumAtLeast(c, lo);
    SumAtMost(c, hi);
  }

  /** The work of all threads but one that owes nothing. */
  lemma {:induction false} WorkOfOthers(work: seq<seq<Task>>, t: nat, m: int)
    requires (forall p :: 0 <= p < |work| ==> OneChange(work[p], m)) && m >= 0 && t < |work| && work[t] == []
    ensures Within(WorkTotal(work), (|work| - 1) * m)
  {
    var n := |work| - 1;
    if t == n {
      WorkAmounts(work[..n], m, 0);
    } else {
      WorkOfOthers(work[..n], t, m);
      OneChangeAmounts(work[n], m, 0);
      assert (|work| - 1) * m == (n - 1) * m + m;
    }
  }

  lemma WorkBesides(work: seq<seq<Task>>, t: nat, m: int)
    requires (forall p :: 0 <= p < |work| ==> OneChange(work[p], m)) && m >= 0 && t < |work|
    ensures Within(WorkTotal(work) - TasksTotal(work[t]), (|work| - 1) * m)
  {
    WorkUpdate(work, t, [], 0);
    WorkOfOthers(work[t := []], t, m);
  }

  lemma CalmContributions(s: State, m: int)
    requires Inv(s) && Calm(s) && WeightsWithin(s, m)
    ensures var c := Contributions(ViewOf(s));
            |c| == |s.Fg().tree| && forall i :: 0 <= i < |c| ==> MIN_WEIGHT <= c[i] <= m
  {
    CalmView(s);
    PlainFloor(ViewOf(s), None);
    hide DB.Inv, PhaseFits, LayoutsFit, Conserved, WorkFits, Contributions, NodeOk;
  }

  lemma OwedWithinSum(c: seq<int>, k: nat, owed: int, m: int)
    requires k < |c| && (forall i :: 0 <= i < |c| ==> MIN_WEIGHT <= c[i] <= m) && MIN_WEIGHT <= c[k] - owed <= m
    ensures |c| * MIN_WEIGHT <= Sum(c) - owed <= |c| * m
  {
    SumUpdate(c, k, c[k] - owed);
    SumBetween(c[k := c[k] - owed], MIN_WEIGHT, m);
  }

  lemma CarriedSum(s: State, t: nat, m: int)
    requires Inv(s) && Calm(s) && WeightsWithin(s, m) && Carried(s, t, m)
    ensures |s.Fg().tree| * MIN_WEIGHT <= Sum(Contributions(ViewOf(s))) - TasksTotal(s.work[t]) <= |s.Fg().tree| * m
  {
    CalmContributions(s, m);
    var c, owed := Contributions(ViewOf(s)), TasksTotal(s.work[t]);
    hide Inv, Contributions, ViewOf, WeightsWithin, CarriedAt;
    SumBetween(c, MIN_WEIGHT, m);
    if owed != 0 {
      var k :| 0 <= k < |s.bufs[s.ctl.readers[t].buf].tree| && CarriedAt(s, t, k, m);
      CarriedContribution(s, t, k, m);
      OwedWithinSum(c, k, owed, m);
    }
  }

  /** In a calm state the total is off by at most one swing of a weight for every thread but one. */
  lemma CalmBounds(run: seq<State>, i: nat, m: int)
    requires IsRunWithin(run, UpTo(m)) && m >= MIN_WEIGHT && i < |run| && Calm(run[i]) && run[i].work != []
    ensures var n, others := |run[i].Fg().tree|, |run[i].work| - 1;
            n * MIN_WEIGHT - others * (m - MIN_WEIGHT) <= run[i].total <= n * m + others * (m - MIN_WEIGHT)
  {
    hide Inv, Contributions, ViewOf, PendingWithin, IsRunWithin, Carried, OneChange, WeightsWithin;
    var s := run[i];
    RunKeepsWithin(run, i, m);
    RunKeepsSwings(run, i, m);
    CalmView(s);
    var t: nat :| Carried(s, t, m);
    CarriedSum(s, t, m);
    CarriedThread(s, t, m);
    WorkBesides(s.work, t, m - MIN_WEIGHT);
  }

  /** So it is between modifications. */
  lemma RestBounds(run: seq<State>, i: nat, m: int)
    requires IsRunWithin(run, UpTo(m)) && m >= MIN_WEIGHT && i < |run|
    requires run[i].ctl.writer.NoModify? && run[i].work != []
    ensures WellFormed(run[i])
    ensures var n, others := |run[i].Fg().tree|, |run[i].work| - 1;
            n * MIN_WEIGHT - others * (m - MIN_WEIGHT) <= run[i].total <= n * m + others * (m - MIN_WEIGHT)
  {
    hide Inv, PendingWithin, IsRunWithin, WeightsWithin;
    RunKeepsWithin(run, i, m);
    CalmAtRest(run[i]);
    CalmBounds(run, i, m);
  }

  /** With at most one thread it is a sum of weights within the bounds. */
  lemma SingleThreadBounds(run: seq<State>, i: nat, m: int)
    requires IsRunWithin(run, UpTo(m)) && m >= MIN_WEIGHT && i < |run| && Calm(run[i]) && |run[i].work| <= 1
    ensures var n := |run[i].Fg().tree|; n * MIN_WEIGHT <= run[i].total <= n * m
  {
    hide Inv, Contributions, ViewOf, PendingWithin, IsRunWithin, WeightsWithin;
    if run[i].work == [] {
      RunKeepsWithin(run, i, m);
      CalmView(run[i]);
      CalmContributions(run[i], m);
      SumBetween(Contributions(ViewOf(run[i])), MIN_WEIGHT, m);
    } else {
      CalmBounds(run, i, m);
    }
  }
}
