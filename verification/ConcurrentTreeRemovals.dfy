/** The counters from the beginning of a Remove to its end. */
module ConcurrentTreeRemovals {
  import opened Options
  import opened WeightTree
  import opened WeightScale
  import opened ServerLayout
  import opened PendingAdds
  import opened SharedWeights
  import opened ConcurrentTree
  import opened ConcurrentTreeProofs
  import opened ConcurrentTreeTraces
  import opened ConcurrentTreeBounds
  import opened ConcurrentTreeLimits
  import DB = DoubleBuffer

  // ----- A removal in a run -----

  /** The removal of the server at `k` out of `last + 1` positions has just begun. */
  ghost predicate Begun(s: State, k: nat, last: nat) {
    && WellFormed(s) && s.ctl.writer.Pass1? && s.body.Entered? && s.op.Some? && s.op.value.RemoveServer?
    && s.op.value.name in s.Fg().index && s.Fg().index[s.op.value.name] == k && |s.Fg().tree| == last + 1
  }

  /** It began with state `b` and has not ended in state `i`. */
  ghost predicate Removal(run: seq<State>, b: nat, i: nat, k: nat, last: nat) {
    && b <= i < |run| && Begun(run[b], k, last)
    && forall h :: b <= h <= i ==> run[h].op == run[b].op
  }

  /** All climbs go on from position `k` or from position `last`. */
  predicate ClimbsAbove(tasks: seq<Task>, k: nat, last: nat) {
    forall i :: 0 <= i < |tasks| && tasks[i].Climb? ==> InSubtree(tasks[i].at, k) || InSubtree(tasks[i].at, last)
  }

  predicate Drops(tasks: seq<Task>, m: int) {
    OneChange(tasks, m) && forall i :: 0 <= i < |tasks| ==> tasks[i].diff <= 0
  }

  /** Where a removal can stand: the longer buffer lists the server until the second application unlinks it,
      and what the modifying thread still has to add starts at the two positions. */
  ghost predicate RemovalAt(s: State, k: nat, last: nat, m: int) {
    && WellFormed(s) && k <= last
    && (if s.ctl.writer.Pass2? && s.body.Adding? then !Split(s.bufs) && |Long(s.bufs).tree| == last
        else Removing(s, k, last))
    && ClimbsAbove(OwnTasks(s.body), k, last)
    && (k == last ==> Drops(OwnTasks(s.body), m))
  }

  lemma AdvanceStaysAbove(tasks: seq<Task>, k: nat, last: nat, m: int)
    requires tasks != [] && ClimbsAbove(tasks, k, last)
    ensures ClimbsAbove(Advanced(tasks), k, last)
    ensures Drops(tasks, m) ==> Drops(Advanced(tasks), m)
  {
    var rest := Advanced(tasks);
    AdvanceKeepsOneChange(tasks, m);
    forall i | 0 <= i < |rest|
      ensures rest[i].Climb? ==> InSubtree(rest[i].at, k) || InSubtree(rest[i].at, last)
      ensures Drops(tasks, m) ==> rest[i].diff <= 0
    {
      var h := i + |tasks| - |rest|;
      if rest[i] != tasks[h] {
        var at := tasks[0].at;
        SubtreeIsBelow(Parent(at), at);
        assert InSubtree(Parent(at), at);
        if InSubtree(at, k) {
          SubtreeNests(Parent(at), at, k);
        } else {
          SubtreeNests(Parent(at), at, last);
        }
      }
    }
  }

  lemma BeginKeepsRemoval(s: State, k: nat, last: nat, m: int)
    requires Inv(s) && Begun(s, k, last)
    ensures RemovalAt(s, k, last, m)
  {
    hide DB.Inv, NodesOk, Conserved, WorkFits, LeftsDistinct;
    assert s.Fg() == Long(s.bufs);
  }

  lemma DisableKeepsRemoval(s: State, s': State, k: nat, last: nat, m: int)
    requires Inv(s') && RemovalAt(s, k, last, m) && Enabled(s, RunDisable) && s' == Apply(s, RunDisable)
    requires OwnWithin(s', m)
    ensures RemovalAt(s', k, last, m)
  {
    hide DB.Inv, NodesOk, Conserved, WorkFits, LeftsDistinct, Aligned, OneOpApart;
    assert s'.Bg() == Long(s'.bufs);
    assert s'.body.k == k;
  }

  lemma UnlinkFirstKeepsRemoval(s: State, s': State, k: nat, last: nat, m: int)
    requires WellFormed(s) && PhaseFits(s) && LayoutsFit(s) && RemovalAt(s, k, last, m) && s.ctl.writer.Pass1?
    requires Enabled(s, RunUnlink) && s' == Apply(s, RunUnlink)
    requires ClimbsAbove(OwnTasks(s'.body), k, last) && (k == last ==> Drops(OwnTasks(s'.body), m))
    ensures RemovalAt(s', k, last, m)
  {
    UnlinkFirstShape(s);
    hide PhaseFits, LayoutsFit, Apply, Enabled, RemoveEntry, ClimbsAbove, Drops, OwnTasks;
  }

  lemma UnlinkSecondKeepsRemoval(s: State, s': State, k: nat, last: nat, m: int)
    requires WellFormed(s) && PhaseFits(s) && LayoutsFit(s) && PassDetected(s) && RemovalAt(s, k, last, m)
    requires s.ctl.writer.Pass2? && Enabled(s, RunUnlink) && s' == Apply(s, RunUnlink)
    requires ClimbsAbove(OwnTasks(s'.body), k, last) && (k == last ==> Drops(OwnTasks(s'.body), m))
    ensures RemovalAt(s', k, last, m)
  {
    UnlinkSecondShape(s);
    UnlinkIsAdding(s);
    hide PhaseFits, LayoutsFit, PassDetected, Apply, Enabled, ClimbsAbove, Drops, OwnTasks;
  }

  lemma UnlinkIsAdding(s: State)
    requires WellFormed(s) && Enabled(s, RunUnlink)
    ensures Apply(s, RunUnlink).body.Adding? && Apply(s, RunUnlink).ctl == s.ctl
  {
    hide RemoveEntry;
  }

  lemma UnlinkKeepsRemoval(s: State, s': State, k: nat, last: nat, m: int)
    requires Inv(s) && RemovalAt(s, k, last, m) && Enabled(s, RunUnlink) && s' == Apply(s, RunUnlink)
    requires OwnWithin(s, m)
    ensures RemovalAt(s', k, last, m)
  {
    UnlinkTasks(s, s', k, last, m);
    hide DB.Inv, NodesOk, Conserved, WorkFits, PhaseFits, LayoutsFit, PassDetected;
    hide Apply, RemovalAt, ClimbsAbove, Drops;
    if s.ctl.writer.Pass1? {
      UnlinkFirstKeepsRemoval(s, s', k, last, m);
    } else {
      UnlinkSecondKeepsRemoval(s, s', k, last, m);
    }
  }

  lemma UnlinkTasks(s: State, s': State, k: nat, last: nat, m: int)
    requires Inv(s) && RemovalAt(s, k, last, m) && Enabled(s, RunUnlink) && s' == Apply(s, RunUnlink)
    requires OwnWithin(s, m)
    ensures ClimbsAbove(OwnTasks(s'.body), k, last) && (k == last ==> Drops(OwnTasks(s'.body), m))
  {
    hide DB.Inv, NodesOk, Conserved, WorkFits, LeftsDistinct, Aligned, OneOpApart, RemoveEntry;
    assert s.Bg() == Long(s.bufs) && s.body.k == k;
  }

  lemma StepKeepsRemoval(s: State, step: Step, k: nat, last: nat, m: int)
    requires Inv(s) && Enabled(s, step) && Inv(Apply(s, step)) && Apply(s, step).op == s.op && s.op.Some?
    requires RemovalAt(s, k, last, m) && OwnWithin(s, m) && OwnWithin(Apply(s, step), m)
    ensures RemovalAt(Apply(s, step), k, last, m)
  {
    hide DB.Inv, LayoutsFit, NodesOk, PassDetected, WorkFits, Conserved, RemovalAt, OwnWithin, PhaseFits;
    match step {
      case RunDisable => DisableKeepsRemoval(s, Apply(s, step), k, last, m);
      case RunUnlink => UnlinkKeepsRemoval(s, Apply(s, step), k, last, m);
      case _ => OtherStepKeepsRemoval(s, step, k, last, m);
    }
  }

  lemma OtherStepKeepsRemoval(s: State, step: Step, k: nat, last: nat, m: int)
    requires WellFormed(s) && PhaseFits(s) && Enabled(s, step) && Apply(s, step).op == s.op && s.op.Some?
    requires RemovalAt(s, k, last, m) && !step.RunDisable? && !step.RunUnlink?
    ensures RemovalAt(Apply(s, step), k, last, m)
  {
    hide ChangedIs, ClimbsAbove, Drops, InitialWeight;
    if step.RunTask? {
      AdvanceStaysAbove(s.body.tasks, k, last, m);
    }
    EmptyClimbs(k, last, m);
  }

  lemma EmptyClimbs(k: nat, last: nat, m: int)
    ensures ClimbsAbove([], k, last) && Drops([], m)
  {
  }

  lemma NextKeepsRemoval(s: State, s': State, k: nat, last: nat, m: int)
    requires Inv(s) && Inv(s') && NextWithin(s, s', UpTo(m)) && s'.op == s.op && s.op.Some?
    requires RemovalAt(s, k, last, m) && OwnWithin(s, m) && OwnWithin(s', m)
    ensures RemovalAt(s', k, last, m)
  {
    var step :| Enabled(s, step) && StepWithin(s, step, UpTo(m)) && s' == Apply(s, step);
    hide Inv, RemovalAt, OwnWithin, Enabled, Apply, StepWithin;
    StepKeepsRemoval(s, step, k, last, m);
  }

  lemma AroundStep(run: seq<State>, i: nat, m: int)
    requires IsRunWithin(run, UpTo(m)) && m >= 0 && 0 < i < |run|
    ensures Inv(run[i - 1]) && Inv(run[i]) && NextWithin(run[i - 1], run[i], UpTo(m))
    ensures OwnWithin(run[i - 1], m) && OwnWithin(run[i], m)
  {
    hide Inv, OwnWithin, WeightsWithin, NextWithin;
    RunKeepsWithin(run, i - 1, m);
    RunKeepsWithin(run, i, m);
    assert NextWithin(run[i - 1], run[i - 1 + 1], UpTo(m));
  }

  lemma {:induction false} RemovalKept(run: seq<State>, b: nat, i: nat, k: nat, last: nat, m: int)
    requires IsRunWithin(run, UpTo(m)) && m >= 0 && Removal(run, b, i, k, last)
    ensures RemovalAt(run[i], k, last, m)
  {
    hide IsRunWithin, RemovalAt, Inv, PendingWithin, WeightsWithin, OwnWithin, NextWithin, Begun;
    if i == b {
      RunKeepsWithin(run, i, m);
      BeginKeepsRemoval(run[i], k, last, m);
    } else {
      RemovalKept(run, b, i - 1, k, last, m);
      AroundStep(run, i, m);
      RemovalOp(run[b], k, last);
      assert run[i - 1].op == run[b].op && run[i].op == run[b].op;
      NextKeepsRemoval(run[i - 1], run[i], k, last, m);
    }
  }

  lemma RemovalOp(s: State, k: nat, last: nat)
    requires Begun(s, k, last)
    ensures s.op.Some?
  {
  }

  // ----- What the counters hold -----

  /** The counter of position `j` with what readers still have to add to it, but without what the removal
      has. */
  ghost function StoredLeft(s: State, j: nat): int
    requires WellFormed(s) && j < |Long(s.bufs).tree| && Long(s.bufs).tree[j].left < |s.lefts|
  {
    s.lefts[Long(s.bufs).tree[j].left] + WorkLeft(s.work, j)
  }

  /** The last server goes, or neither position of the moving server is to the left of `j`. */
  predicate Unaffected(k: nat, last: nat, j: nat) {
    k == last || (!InLeft(j, k) && !InLeft(j, last))
  }

  lemma {:induction false} NothingAbove(tasks: seq<Task>, k: nat, last: nat, j: nat)
    requires ClimbsAbove(tasks, k, last) && !InLeft(j, k) && !InLeft(j, last)
    ensures TasksLeft(tasks, j) == 0
  {
    if tasks != [] {
      if tasks[0].Climb? && InLeft(j, tasks[0].at) {
        if InSubtree(tasks[0].at, k) {
          SubtreeNests(2 * j + 1, tasks[0].at, k);
        } else {
          SubtreeNests(2 * j + 1, tasks[0].at, last);
        }
      }
      NothingAbove(tasks[1..], k, last, j);
    }
  }

  lemma DropAmount(tasks: seq<Task>, m: int, j: nat)
    requires Drops(tasks, m) && m >= 0
    ensures -m <= TasksLeft(tasks, j) <= 0
  {
    OneChangeAmounts(tasks, m, j);
    if |tasks| == 1 {
      assert tasks[1..] == [];
    } else if |tasks| == 2 {
      var rest := tasks[1..];
      assert rest == [tasks[1]] && rest[1..] == [];
    }
  }

  /** The settled counter is a sum of weights, but for what was saved. */
  lemma SettledIsShifted(s: State, k: nat, last: nat, j: nat, m: int)
    requires Inv(s) && WeightsWithin(s, m) && m >= 0 && RemovalAt(s, k, last, m) && j < |Long(s.bufs).tree|
    requires Balanced(k, last, j) || !Removing(s, k, last)
    ensures Long(s.bufs).tree[j].left < |s.lefts|
    ensures 0 <= SettledLeft(s, j) <= (last + 1) * m
  {
    SettledLeftIsSum(s, j);
    SettledSum(s, k, last, j, m);
  }

  lemma SettledSum(s: State, k: nat, last: nat, j: nat, m: int)
    requires Inv(s) && WeightsWithin(s, m) && m >= 0 && RemovalAt(s, k, last, m)
    requires Balanced(k, last, j) || !Removing(s, k, last)
    ensures 0 <= LeftSum(Contributions(ViewOf(s)), j) <= (last + 1) * m
  {
    RemovalView(s, k, last, m);
    var v := ViewOf(s);
    hide Inv, RemovalAt, Contributions, ViewOf, NodesOk, ViewWithin, WeightsWithin, Removing;
    if v.gap == Some(k) && k < last {
      MovingSum(v, k, last, j, m);
    } else {
      PlainSum(v, Doomed(s), last + 1, j, m);
    }
  }

  lemma PlainSum(v: View, doomed: Option<nat>, n: nat, j: nat, m: int)
    requires NodesOk(v, doomed) && (v.gap.None? || v.gap.value + 1 == |v.long|) && ViewWithin(v, m)
    requires |v.long| <= n && m >= 0
    ensures 0 <= LeftSum(Contributions(v), j) <= n * m
  {
    PlainContributions(v, doomed, m);
    hide Contributions, NodesOk, ViewWithin;
    FewerWeights(Contributions(v), n, j, m);
  }

  lemma FewerWeights(c: seq<int>, n: nat, j: nat, m: int)
    requires |c| <= n && m >= 0 && forall i :: 0 <= i < |c| ==> 0 <= c[i] <= m
    ensures 0 <= LeftSum(c, j) <= n * m
  {
    WeightsBound(c, m);
    MulMonotone(|c|, n, m);
  }

  lemma MovingSum(v: View, k: nat, last: nat, j: nat, m: int)
    requires NodesOk(v, Some(k)) && v.gap == Some(k) && k < last && |v.long| == last + 1 && ViewWithin(v, m) && m >= 0
    requires Balanced(k, last, j)
    ensures 0 <= LeftSum(Contributions(v), j) <= (last + 1) * m
  {
    var c, node := Contributions(v), v.nodes[v.long[last]];
    UnshiftedContributions(v, k, m);
    hide NodesOk, Contributions;
    LeftIsShifted(c, k, node.weight, node.oldWeight, node.oldDiff, j);
    FewerWeights(Unshifted(c, k, node.weight, node.oldWeight), last + 1, j, m);
  }

  lemma RemovalView(s: State, k: nat, last: nat, m: int)
    requires Inv(s) && WeightsWithin(s, m) && RemovalAt(s, k, last, m)
    ensures var v := ViewOf(s);
            && NodesOk(v, Doomed(s)) && ViewWithin(v, m)
            && (Removing(s, k, last) ==> |v.long| == last + 1) && (!Removing(s, k, last) ==> |v.long| == last)
            && (v.gap.Some? ==> v.gap == Some(k) && Doomed(s) == Some(k) && Removing(s, k, last))
  {
    hide DB.Inv, Conserved, WorkFits, NodeOk, ClimbsAbove, Drops;
  }

  /** While the removal of the last server still has additions to make, that server contributes nothing. */
  lemma DroppingSum(s: State, last: nat, j: nat, m: int)
    requires Inv(s) && WeightsWithin(s, m) && m >= 0 && RemovalAt(s, last, last, m) && OwnTasks(s.body) != []
    ensures 0 <= LeftSum(Contributions(ViewOf(s)), j) <= last * m
  {
    var v := ViewOf(s);
    RemovalView(s, last, last, m);
    PlainContributions(v, Doomed(s), m);
    if Removing(s, last, last) {
      DoomedWhileDropping(s, last, m);
      PlainFloor(v, Doomed(s));
      hide Inv, RemovalAt, Contributions, NodesOk, WeightsWithin;
      WithoutLast(Contributions(v), last, j, m);
    } else {
      hide Inv, RemovalAt, Contributions, NodesOk, WeightsWithin;
      WeightsBound(Contributions(v), m);
    }
  }

  lemma WithoutLast(c: seq<int>, last: nat, j: nat, m: int)
    requires |c| == last + 1 && c[last] == 0 && m >= 0 && forall i :: 0 <= i < last ==> 0 <= c[i] <= m
    ensures 0 <= LeftSum(c, j) <= last * m
  {
    assert c == c[..last] + [0];
    SubtreeSumAppend(c[..last], 2 * j + 1, 0);
    WeightsBound(c[..last], m);
    assert LeftSum(c, j) == LeftSum(c[..last], j);
  }

  lemma DoomedWhileDropping(s: State, last: nat, m: int)
    requires Inv(s) && RemovalAt(s, last, last, m) && Removing(s, last, last) && OwnTasks(s.body) != []
    ensures Doomed(s) == Some(last)
  {
    hide DB.Inv, Conserved, NodesOk, Aligned, LeftsDistinct, OneOpApart, ClimbsAbove, Drops;
  }

  /** From the beginning of the removal to its end the stored counter of such a position keeps the bounds of
      a sum of weights. */
  lemma UnaffectedState(s: State, k: nat, last: nat, j: nat, m: int)
    requires Inv(s) && WeightsWithin(s, m) && m >= 0 && RemovalAt(s, k, last, m) && j < |Long(s.bufs).tree|
    requires Unaffected(k, last, j)
    ensures Long(s.bufs).tree[j].left < |s.lefts|
    ensures 0 <= StoredLeft(s, j) <= (last + 1) * m
  {
    SettledIsShifted(s, k, last, j, m);
    SettledLeftIsSum(s, j);
    var own := OwnTasks(s.body);
    assert k == last ==> Drops(own, m);
    if own != [] {
      if k == last {
        DroppingSum(s, last, j, m);
        hide Inv, RemovalAt, WeightsWithin;
        DropAmount(own, m, j);
        assert (last + 1) * m == last * m + m;
      } else {
        NothingAbove(own, k, last, j);
      }
    }
  }

  /** What holds for the counter of position `j` while the removal lasts. */
  ghost predicate StoredWithin(s: State, last: nat, j: nat, m: int) {
    && WellFormed(s)
    && (j < |Long(s.bufs).tree| ==>
          Long(s.bufs).tree[j].left < |s.lefts| && 0 <= StoredLeft(s, j) <= (last + 1) * m)
  }

  ghost predicate SettledWithin(s: State, last: nat, j: nat, m: int) {
    && WellFormed(s)
    && (j < |Long(s.bufs).tree| ==>
          Long(s.bufs).tree[j].left < |s.lefts| && 0 <= SettledLeft(s, j) <= (last + 1) * m)
  }

  lemma UnaffectedCounterBounds(run: seq<State>, b: nat, i: nat, k: nat, last: nat, j: nat, m: int)
    requires IsRunWithin(run, UpTo(m)) && m >= 0 && Removal(run, b, i, k, last) && Unaffected(k, last, j)
    ensures StoredWithin(run[i], last, j, m)
  {
    hide Inv, RemovalAt, WeightsWithin, PendingWithin;
    RunKeepsWithin(run, i, m);
    RemovalKept(run, b, i, k, last, m);
    if j < |Long(run[i].bufs).tree| {
      UnaffectedState(run[i], k, last, j, m);
    }
  }

  /** With what readers have pending the counter itself stays within one more bound per thread. */
  lemma RemovalCounterBounds(run: seq<State>, b: nat, i: nat, k: nat, last: nat, j: nat, m: int)
    requires IsRunWithin(run, UpTo(m)) && m >= 0 && Removal(run, b, i, k, last) && Unaffected(k, last, j)
    requires WellFormed(run[i]) && j < |Long(run[i].bufs).tree|
    ensures Long(run[i].bufs).tree[j].left < |run[i].lefts|
    ensures var threads := |run[i].work|;
            -(threads * m) <= run[i].lefts[Long(run[i].bufs).tree[j].left] <= (last + 1 + threads) * m
  {
    hide Inv, WeightsWithin, IsRunWithin, Removal, Unaffected;
    UnaffectedCounterBounds(run, b, i, k, last, j, m);
    assert i < |run| by {
      RemovalInside(run, b, i, k, last);
    }
    RunKeepsWithin(run, i, m);
    var threads := |run[i].work|;
    WorkAmounts(run[i].work, m, j);
    assert (last + 1 + threads) * m == (last + 1) * m + threads * m;
  }

  lemma RemovalInside(run: seq<State>, b: nat, i: nat, k: nat, last: nat)
    requires Removal(run, b, i, k, last)
    ensures i < |run|
  {
  }

  lemma BalancedCounterBounds(run: seq<State>, b: nat, i: nat, k: nat, last: nat, j: nat, m: int)
    requires IsRunWithin(run, UpTo(m)) && m >= 0 && Removal(run, b, i, k, last) && Balanced(k, last, j)
    ensures SettledWithin(run[i], last, j, m)
  {
    hide Inv, RemovalAt, WeightsWithin, PendingWithin;
    RunKeepsWithin(run, i, m);
    RemovalKept(run, b, i, k, last, m);
    if j < |Long(run[i].bufs).tree| {
      SettledIsShifted(run[i], k, last, j, m);
    }
  }

  // ----- Finding the beginning -----

  lemma OpStep(s: State, step: Step)
    requires WellFormed(s) && Enabled(s, step) && !step.Begin? && Apply(s, step).op.Some?
    ensures Apply(s, step).op == s.op
  {
    hide RemoveEntry, DB.Apply, DB.Enabled;
  }

  lemma BeginIsBegun(s: State, op: Op) returns (k: nat, last: nat)
    requires Inv(s) && Enabled(s, Begin(op)) && op.RemoveServer?
    ensures Begun(Apply(s, Begin(op)), k, last)
  {
    hide DB.Inv, NodesOk, Conserved, WorkFits, LeftsDistinct;
    k, last := s.Fg().index[op.name], |s.Fg().tree| - 1;
    assert Aligned(s.Fg());
  }

  /** Either the step before has begun the removal, or it was under way already. */
  lemma RemovalBefore(s: State, s': State, m: Span) returns (begun: bool, k: nat, last: nat)
    requires Inv(s) && NextWithin(s, s', m) && s'.op.Some? && s'.op.value.RemoveServer?
    ensures if begun then Begun(s', k, last) else s.op == s'.op
  {
    begun, k, last := false, 0, 0;
    var step :| Enabled(s, step) && StepWithin(s, step, m) && s' == Apply(s, step);
    hide Inv, Enabled, StepWithin, Begun;
    if step.Begin? {
      assert s'.op == Some(step.op);
      begun := true;
      k, last := BeginIsBegun(s, step.op);
    } else {
      hide Apply;
      OpStep(s, step);
    }
  }

  lemma StepBefore(run: seq<State>, i: nat, m: int)
    requires IsRunWithin(run, UpTo(m)) && m >= 0 && i < |run| && run[i].op.Some?
    ensures i > 0 && NextWithin(run[i - 1], run[i], UpTo(m)) && Inv(run[i - 1])
  {
    hide Inv, NextWithin, WeightsWithin, PendingWithin;
    assert i > 0;
    assert NextWithin(run[i - 1], run[i - 1 + 1], UpTo(m));
    RunKeepsWithin(run, i - 1, m);
  }

  lemma RemovalGoesOn(run: seq<State>, b: nat, i: nat, k: nat, last: nat)
    requires Removal(run, b, i, k, last) && i + 1 < |run| && run[i].op == run[i + 1].op
    ensures Removal(run, b, i + 1, k, last)
  {
    hide Begun;
  }

  /** Every state in the middle of a removal goes back to its beginning. */
  lemma {:induction false} RemovalBegins(run: seq<State>, i: nat, m: int) returns (b: nat, k: nat, last: nat)
    requires IsRunWithin(run, UpTo(m)) && m >= 0 && i < |run|
    requires run[i].op.Some? && run[i].op.value.RemoveServer?
    ensures Removal(run, b, i, k, last)
  {
    hide Inv, NextWithin, IsRunWithin, Begun;
    StepBefore(run, i, m);
    var begun;
    b := i;
    begun, k, last := RemovalBefore(run[i - 1], run[i], UpTo(m));
    if !begun {
      hide Removal;
      b, k, last := RemovalBegins(run, i - 1, m);
      RemovalGoesOn(run, b, i - 1, k, last);
    }
  }

  /** If the longer buffer still lists the server, then it lists it where it was in the beginning. */
  lemma RemovalOf(run: seq<State>, i: nat, k: nat, last: nat, m: int) returns (b: nat)
    requires IsRunWithin(run, UpTo(m)) && m >= 0 && i < |run| && Removing(run[i], k, last)
    requires !(run[i].ctl.writer.Pass2? && run[i].body.Adding?)
    ensures Removal(run, b, i, k, last)
  {
    hide IsRunWithin;
    var k', last';
    b, k', last' := RemovalBegins(run, i, m);
    RemovalKept(run, b, i, k', last', m);
  }

  // ----- Readers that leave before the second application -----

  /** In the second application the server is disabled again and about to be unlinked; nobody reads. */
  ghost predicate Unlinkable(s: State, k: nat, last: nat, saved: int) {
    && WellFormed(s) && k < last && s.ctl.writer.Pass2? && s.body == Unlinking(k, 0)
    && s.op == Some(RemoveServer(NameOf(k))) && Numbered(s.Bg(), last + 1) && |s.Fg().tree| == last
    && last < |s.nodes| && s.nodes[last].oldWeight == WEIGHT_SCALE && s.nodes[last].oldDiff == saved
    && NoWorkBelow(s, |s.work|)
  }

  lemma WindowScopes(s: State, k: nat, last: nat, half: nat)
    requires Window(s, k, last, half) && |s.work| == 2 * half
    ensures WellFormed(s) && |s.ctl.readers| == 2 * half
    ensures forall t :: 0 <= t < 2 * half ==> s.ctl.readers[t].Holding?
    ensures s.ctl.writer.Flipped? && k < last && Numbered(s.Bg(), last + 1)
  {
    hide RemoveEntry;
  }

  lemma WindowUnlinkable(s: State, s': State, k: nat, last: nat, half: nat, weight: int, saved: int)
    requires Window(s, k, last, half) && Seesawed(s, k, last, weight, saved) && NoWorkBelow(s, |s.work|)
    requires WellFormed(s') && s' == s.(ctl := s'.ctl, body := Entered) && s'.ctl.writer.Pass2?
    requires s'.ctl.index == s.ctl.index
    ensures Enabled(s', RunDisable) && Unlinkable(Apply(s', RunDisable), k, last, saved)
  {
    RemoveEntryShape(s.Bg(), NameOf(k));
    hide RemoveEntry, Scopes, NameOf;
    assert s'.Bg() == s.Bg() && Lookup(s.Bg(), NameOf(k)) == k;
  }

  /** All readers have reweighed, made their additions and left, and the second application has begun. */
  lemma SeesawUnlinkable(k: nat, last: nat, half: nat, m: int) returns (tr: Trace)
    requires k < last && m >= WEIGHT_SCALE
    ensures IsTrace(tr, UpTo(m)) && OncePerThread(tr.reweighers) && |tr.last.work| == 2 * half
    ensures Unlinkable(tr.last, k, last, half * (m - MIN_WEIGHT))
  {
    hide IsTrace, OncePerThread, Seesawed, Window, Inv, Unlinkable, WeightsWithin, IsRunWithin, Enabled, Apply;
    var open, weight, saved := SeesawWindow(k, last, half, m);
    WindowScopes(open.last, k, last, half);
    var left := LeaveScopes(open, UpTo(m), 2 * half);
    TraceKeepsWithin(left, m);
    NobodyLocks(left.last);
    var second := StartSecondPass(left, UpTo(m));
    WindowUnlinkable(open.last, second.last, k, last, half, weight, saved);
    tr := Extend(second, UpTo(m), RunDisable);
    KeepsWork(second.last);
    assert tr.reweighers == open.reweighers;
  }

  lemma KeepsWork(s: State)
    requires WellFormed(s) && Enabled(s, RunDisable)
    ensures Apply(s, RunDisable).work == s.work
  {
  }

  /** What is still to be added after the climb from the freed position. */
  function Rest(last: nat, saved: int): seq<Task> {
    [Climb(-WEIGHT_SCALE - saved, last), AddTotal(-WEIGHT_SCALE)]
  }

  lemma UnlinkableTasks(s: State, k: nat, last: nat, saved: int)
    requires Unlinkable(s, k, last, saved) && saved > 0
    ensures Enabled(s, RunUnlink)
    ensures var s' := Apply(s, RunUnlink);
            && WellFormed(s') && s'.body == Adding([Climb(saved, k)] + Rest(last, saved))
            && s'.ctl == s.ctl && s'.op == s.op && s'.work == s.work && |s'.bufs[0].tree| == |s'.bufs[1].tree| == last
  {
    RemoveEntryShape(s.Bg(), NameOf(k));
    hide RemoveEntry, NameOf;
    assert Lookup(s.Bg(), NameOf(k)) == k;
    assert ClimbOnly(saved, k) + ClimbOnly(-WEIGHT_SCALE - saved, last) + [AddTotal(-WEIGHT_SCALE)]
           == [Climb(saved, k)] + Rest(last, saved);
  }

  lemma UnlinkableRemoves(s: State, k: nat, last: nat, saved: int)
    requires Unlinkable(s, k, last, saved)
    ensures Removing(s, k, last) && !(s.ctl.writer.Pass2? && s.body.Adding?)
  {
    hide NameOf;
    assert Long(s.bufs) == s.Bg();
  }

  /** The removal after the climb from the freed position and before the one from the last position. */
  ghost predicate HalfCleared(s: State, last: nat, saved: int) {
    && WellFormed(s) && s.body == Adding(Rest(last, saved)) && s.ctl.Applying()
    && |s.bufs[0].tree| == |s.bufs[1].tree| == last && NoWorkBelow(s, |s.work|)
  }

  lemma ClimbHalf(k: nat, last: nat, half: nat, m: int) returns (tr: Trace, b: nat)
    requires k < last && m >= WEIGHT_SCALE && half > 0 && m > MIN_WEIGHT
    ensures IsTrace(tr, UpTo(m)) && OncePerThread(tr.reweighers) && |tr.last.work| == 2 * half
    ensures HalfCleared(tr.last, last, half * (m - MIN_WEIGHT))
    ensures Removal(tr.States(), b, |tr.front|, k, last)
  {
    hide IsTrace, OncePerThread, Unlinkable, Inv, Apply, Enabled, Removal, Removing, Continues;
    var saved := half * (m - MIN_WEIGHT);
    MulMonotone(1, half, m - MIN_WEIGHT);
    var before := SeesawUnlinkable(k, last, half, m);
    UnlinkableIdle(before.last, k, last, saved);
    UnlinkableTasks(before.last, k, last, saved);
    UnlinkableRemoves(before.last, k, last, saved);
    var next := Extend(before, UpTo(m), RunUnlink);
    tr := FinishClimb(next, UpTo(m), saved, k, Rest(last, saved));
    assert tr.reweighers == before.reweighers;
    b := RemovalOfTrace(before, k, last, m);
    OneMore(before, next);
    ContinuesOn(before, next, tr);
    RemovalContinues(before, tr, b, k, last);
  }

  lemma UnlinkableIdle(s: State, k: nat, last: nat, saved: int)
    requires Unlinkable(s, k, last, saved)
    ensures NoWorkBelow(s, |s.work|) && s.ctl.Applying() && WellFormed(s)
  {
  }

  lemma RemovalOfTrace(tr: Trace, k: nat, last: nat, m: int) returns (b: nat)
    requires IsTrace(tr, UpTo(m)) && m >= 0 && Removing(tr.last, k, last)
    requires !(tr.last.ctl.writer.Pass2? && tr.last.body.Adding?)
    ensures Removal(tr.States(), b, |tr.front|, k, last)
  {
    hide IsTrace, IsRunWithin, Removal, Removing;
    TraceIsRun(tr, UpTo(m));
    b := RemovalOf(tr.States(), |tr.front|, k, last, m);
  }

  lemma OneMore(tr: Trace, longer: Trace)
    requires longer.front == tr.States() && longer.last.op == tr.last.op
    ensures Continues(tr, longer)
  {
  }

  lemma RemovalContinues(tr: Trace, longer: Trace, b: nat, k: nat, last: nat)
    requires Removal(tr.States(), b, |tr.front|, k, last) && Continues(tr, longer)
    ensures Removal(longer.States(), b, |longer.front|, k, last)
  {
    hide Begun;
    assert |tr.States()| == |tr.front| + 1 && tr.States()[b] == longer.States()[b];
    assert tr.States()[|tr.front|] == tr.last;
    forall h | b <= h <= |longer.front| ensures longer.States()[h].op == longer.States()[b].op {
      if h <= |tr.front| {
        assert longer.States()[h] == tr.States()[h];
      }
    }
  }

  lemma RestAmount(last: nat, saved: int, j: nat)
    requires InLeft(j, last)
    ensures TasksLeft(Rest(last, saved), j) == -WEIGHT_SCALE - saved
  {
    var climb, total := [Climb(-WEIGHT_SCALE - saved, last)], [AddTotal(-WEIGHT_SCALE)];
    assert Rest(last, saved) == climb + total && climb[1..] == [] && total[1..] == [];
    ConcatAmounts(climb, total, j);
  }

  lemma CalmSum(s: State, j: nat, m: int)
    requires Inv(s) && WeightsWithin(s, m) && m >= 0 && |s.bufs[0].tree| == |s.bufs[1].tree|
    ensures LeftSum(Contributions(ViewOf(s)), j) >= 0
  {
    var v := ViewOf(s);
    assert v.gap == None;
    PlainContributions(v, Doomed(s), m);
    hide Inv, Contributions, WeightsWithin;
    WeightsBound(Contributions(v), m);
  }

  /** The counter has gained what was saved and has yet to lose it. */
  lemma HalfClearedCounter(s: State, last: nat, saved: int, j: nat, m: int)
    requires Inv(s) && WeightsWithin(s, m) && m >= 0 && HalfCleared(s, last, saved) && InLeft(j, last)
    ensures j < last == |Long(s.bufs).tree| && Long(s.bufs).tree[j].left < |s.lefts| && WorkLeft(s.work, j) == 0
    ensures s.lefts[Long(s.bufs).tree[j].left] >= WEIGHT_SCALE + saved
  {
    SubtreeIsBelow(2 * j + 1, last);
    SettledLeftIsSum(s, j);
    CalmSum(s, j, m);
    hide Inv, Contributions, WeightsWithin, ViewOf, Rest;
    NoWork(s.work, j);
    RestAmount(last, saved, j);
  }

  // ----- The exact conditions -----

  /** What holds for the counter of position `j` in every removal at `k` of the run. */
  ghost predicate StoredThroughout(run: seq<State>, k: nat, last: nat, j: nat, m: int) {
    forall b: nat, i: nat :: Removal(run, b, i, k, last) ==> StoredWithin(run[i], last, j, m)
  }

  ghost predicate SettledThroughout(run: seq<State>, k: nat, last: nat, j: nat, m: int) {
    forall b: nat, i: nat :: Removal(run, b, i, k, last) ==> SettledWithin(run[i], last, j, m)
  }

  /** A run that takes the counter of an affected position as far away from a sum of weights as `half` threads
      can, with all readers done. */
  lemma Affect(k: nat, last: nat, half: nat, m: int, j: nat) returns (tr: Trace, b: nat)
    requires k <= last && j <= last && !Unaffected(k, last, j) && m >= WEIGHT_SCALE && half > 0
    ensures IsRunWithin(tr.States(), UpTo(m)) && OncePerThread(tr.reweighers) && |tr.last.work| == 2 * half
    ensures Removal(tr.States(), b, |tr.front|, k, last) && tr.States()[|tr.front|] == tr.last
    ensures WellFormed(tr.last) && NoWorkBelow(tr.last, 2 * half) && WorkLeft(tr.last.work, j) == 0
    ensures j < |Long(tr.last.bufs).tree| && Long(tr.last.bufs).tree[j].left < |tr.last.lefts|
    ensures var left, saved := tr.last.lefts[Long(tr.last.bufs).tree[j].left], half * (m - MIN_WEIGHT);
            left >= saved || left <= (last + 1) * m - saved
  {
    hide IsTrace, OncePerThread, IsRunWithin, Inv, WeightsWithin, Removal, Contributions;
    if InLeft(j, last) {
      tr, b := ClimbHalf(k, last, half, m);
      TraceKeepsWithin(tr, m);
      HalfClearedCounter(tr.last, last, half * (m - MIN_WEIGHT), j, m);
    } else {
      tr := Seesaw(k, last, half, m, j);
      TraceKeepsWithin(tr, m);
      b := RemovalOfTrace(tr, k, last, m);
      NoWork(tr.last.work, j);
    }
  }

  /** From beginning to end of every removal at `k`, the stored counter, with what readers still have to add,
      keeps the bounds of a sum of weights if and only if the last server goes or neither position of the
      moving server is on its left. */
  lemma StoredBoundedIff(k: nat, last: nat, j: nat, m: int)
    requires k <= last && j <= last && m >= WEIGHT_SCALE
    ensures (forall run :: IsRunWithin(run, UpTo(m)) ==> StoredThroughout(run, k, last, j, m))
            <==> Unaffected(k, last, j)
  {
    if Unaffected(k, last, j) {
      forall run: seq<State> | IsRunWithin(run, UpTo(m)) ensures StoredThroughout(run, k, last, j, m) {
        forall b: nat, i: nat | Removal(run, b, i, k, last) ensures StoredWithin(run[i], last, j, m) {
          UnaffectedCounterBounds(run, b, i, k, last, j, m);
        }
      }
    } else {
      var run := StoredGetsOut(k, last, j, m);
    }
  }

  lemma FarEnough(n: nat, m: int)
    requires m > MIN_WEIGHT
    ensures 0 <= n * m < (n * m + 1) * (m - MIN_WEIGHT)
  {
    MulMonotone(0, n, m);
    MulMonotone(1, m - MIN_WEIGHT, n * m + 1);
  }

  lemma StoredGetsOut(k: nat, last: nat, j: nat, m: int) returns (run: seq<State>)
    requires k <= last && j <= last && m >= WEIGHT_SCALE && !Unaffected(k, last, j)
    ensures IsRunWithin(run, UpTo(m)) && !StoredThroughout(run, k, last, j, m)
  {
    hide IsRunWithin, Removal, OncePerThread, Unaffected;
    var bound := (last + 1) * m;
    FarEnough(last + 1, m);
    var tr, b := Affect(k, last, bound + 1, m, j);
    run := tr.States();
    assert !StoredWithin(tr.last, last, j, m);
  }

  /** With everything pending added, what the removal has to add included, it does if and only if both
      positions are on its left, or neither. */
  lemma SettledBoundedIff(k: nat, last: nat, j: nat, m: int)
    requires k <= last && j <= last && m >= WEIGHT_SCALE
    ensures (forall run :: IsRunWithin(run, UpTo(m)) ==> SettledThroughout(run, k, last, j, m))
            <==> Balanced(k, last, j)
  {
    if Balanced(k, last, j) {
      forall run: seq<State> | IsRunWithin(run, UpTo(m)) ensures SettledThroughout(run, k, last, j, m) {
        forall b: nat, i: nat | Removal(run, b, i, k, last) ensures SettledWithin(run[i], last, j, m) {
          BalancedCounterBounds(run, b, i, k, last, j, m);
        }
      }
    } else {
      var run := SettledGetsOut(k, last, j, m);
    }
  }

  lemma SettledGetsOut(k: nat, last: nat, j: nat, m: int) returns (run: seq<State>)
    requires k <= last && j <= last && m >= WEIGHT_SCALE && !Balanced(k, last, j)
    ensures IsRunWithin(run, UpTo(m)) && !SettledThroughout(run, k, last, j, m)
  {
    hide IsTrace, IsRunWithin, Removal, OncePerThread, Balanced;
    var bound := (last + 1) * m;
    FarEnough(last + 1, m);
    var tr := Seesaw(k, last, bound + 1, m, j);
    var b := RemovalOfTrace(tr, k, last, m);
    run := tr.States();
    assert run[|tr.front|] == tr.last && !SettledWithin(tr.last, last, j, m);
  }

  // ----- 64 bits -----

  /** Whenever readers have nothing to add to it, the counter fits 64 bits in the midst of such a removal. */
  ghost predicate StoredFits(run: seq<State>, k: nat, last: nat, j: nat) {
    forall b: nat, i: nat :: Removal(run, b, i, k, last) ==> CounterFits(run[i], j)
  }

  ghost predicate CounterFits(s: State, j: nat) {
    && WellFormed(s)
    && (j < |Long(s.bufs).tree| && WorkLeft(s.work, j) == 0 ==>
          Long(s.bufs).tree[j].left < |s.lefts| && FitsInt64(s.lefts[Long(s.bufs).tree[j].left]))
  }

  /** A run that overflows the counter of an affected position: all weights are within the bound, each of 300
      threads reweighs once, and none has anything left to add. */
  lemma AffectedOverflows(k: nat, last: nat, j: nat) returns (tr: Trace, b: nat)
    requires k <= last < MAX_SERVERS && j <= last && !Unaffected(k, last, j)
    ensures IsRunWithin(tr.States(), UpTo(MAX_WEIGHT)) && OncePerThread(tr.reweighers) && |tr.last.work| == 300
    ensures Removal(tr.States(), b, |tr.front|, k, last) && tr.States()[|tr.front|] == tr.last
    ensures WellFormed(tr.last) && NoWorkBelow(tr.last, 300) && WorkLeft(tr.last.work, j) == 0
    ensures j < |Long(tr.last.bufs).tree| && Long(tr.last.bufs).tree[j].left < |tr.last.lefts|
    ensures !FitsInt64(tr.last.lefts[Long(tr.last.bufs).tree[j].left])
  {
    hide IsRunWithin, Removal, OncePerThread, Unaffected;
    tr, b := Affect(k, last, 150, MAX_WEIGHT, j);
    MulMonotone(last + 1, MAX_SERVERS, MAX_WEIGHT);
  }

  /** Up to 72 servers the stored counter fits 64 bits throughout every removal at `k` if and only if the last
      server goes or neither position of the moving server is on its left. */
  lemma StoredFitsIff(k: nat, last: nat, j: nat)
    requires k <= last < MAX_SERVERS && j <= last
    ensures (forall run :: IsRunWithin(run, UpTo(MAX_WEIGHT)) ==> StoredFits(run, k, last, j))
            <==> Unaffected(k, last, j)
  {
    if Unaffected(k, last, j) {
      forall run: seq<State> | IsRunWithin(run, UpTo(MAX_WEIGHT)) ensures StoredFits(run, k, last, j) {
        forall b: nat, i: nat | Removal(run, b, i, k, last) ensures CounterFits(run[i], j) {
          UnaffectedCounterBounds(run, b, i, k, last, j, MAX_WEIGHT);
          MulMonotone(last + 1, MAX_SERVERS, MAX_WEIGHT);
        }
      }
    } else {
      var tr, b := AffectedOverflows(k, last, j);
      assert !CounterFits(tr.last, j);
    }
  }
}
