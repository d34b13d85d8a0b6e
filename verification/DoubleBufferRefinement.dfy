/**
  What readers of `DoublyBufferedData` see. The protocol of module DoubleBuffer is run together
  with the two buffers; while `fn` works on a buffer, that buffer has no value at all (`Torn`).
  A modification is a function of the background, the foreground and its arguments, as the
  closures `Closure2` and `WithFg2` make it.
 */
module DoubleBufferRefinement {
  import DB = DoubleBuffer

  datatype Buffer<T> = Whole(value: T) | Torn(was: T)

  datatype Progress = NotStarted | InFn | Returned

  datatype State<T, Op> = State(
    ctl: DB.State,
    bufs: seq<Buffer<T>>,
    log: seq<Op>,            // the modifications whose flip has happened, oldest first
    ops: seq<Op>,            // the modification in progress, if any
    progress: Progress,      // of the current application of fn
    seen: seq<nat>)          // per thread: how many modifications its latest read saw

  datatype Step<Op> =
    | Protocol(step: DB.Step)    // a step of readers or of the wait
    | Begin(op: Op)
    | EnterFn
    | LeaveFn
    | FlipIndex
    | End

  predicate WellFormed<T, Op>(s: State<T, Op>) {
    && DB.WellFormed(s.ctl)
    && |s.bufs| == 2
    && |s.seen| == |s.ctl.readers|
    && |s.ops| == (if s.ctl.writer.NoModify? then 0 else 1)
  }

  predicate Enabled<T, Op>(s: State<T, Op>, step: Step<Op>)
    requires WellFormed(s)
  {
    match step
    case Protocol(p) => DB.Enabled(s.ctl, p) && !p.BeginModify? && !p.Flip? && !p.EndModify?
    case Begin(op) => DB.Enabled(s.ctl, DB.BeginModify)
    case EnterFn => s.ctl.Applying() && s.progress.NotStarted?
    case LeaveFn => s.ctl.Applying() && s.progress.InFn?
    case FlipIndex => DB.Enabled(s.ctl, DB.Flip) && s.progress.Returned?
    case End => DB.Enabled(s.ctl, DB.EndModify) && s.progress.Returned?
  }

  function BufferValue<T>(b: Buffer<T>): T {
    if b.Whole? then b.value else b.was
  }

  function Apply<T, Op>(fn: (T, T, Op) -> T, s: State<T, Op>, step: Step<Op>): State<T, Op>
    requires WellFormed(s) && Enabled(s, step)
  {
    var bg := s.ctl.Background();
    match step
    case Protocol(p) =>
      var seen := if p.LoadIndex? then s.seen[p.t := |s.log|] else s.seen;
      var progress := if p.UnlockRegistry? then NotStarted else s.progress;
      s.(ctl := DB.Apply(s.ctl, p), seen := seen, progress := progress)
    case Begin(op) => s.(ctl := DB.Apply(s.ctl, DB.BeginModify), ops := [op], progress := NotStarted)
    case EnterFn => s.(bufs := s.bufs[bg := Torn(BufferValue(s.bufs[bg]))], progress := InFn)
    case LeaveFn =>
      var result := fn(BufferValue(s.bufs[bg]), BufferValue(s.bufs[s.ctl.index]), s.ops[0]);
      s.(bufs := s.bufs[bg := Whole(result)], progress := Returned)
    case FlipIndex => s.(ctl := DB.Apply(s.ctl, DB.Flip), log := s.log + s.ops)
    case End => s.(ctl := DB.Apply(s.ctl, DB.EndModify), ops := [])
  }

  predicate Init<T(==), Op>(s: State<T, Op>, empty: T) {
    && WellFormed(s)
    && DB.Init(s.ctl)
    && s.bufs == [Whole(empty), Whole(empty)]
    && s.log == []
    && forall t :: 0 <= t < |s.seen| ==> s.seen[t] == 0
  }

  ghost predicate Next<T(!new), Op(!new)>(fn: (T, T, Op) -> T, s: State<T, Op>, s': State<T, Op>) {
    WellFormed(s) && exists step: Step<Op> :: Enabled(s, step) && s' == Apply(fn, s, step)
  }

  ghost predicate IsRun<T(!new), Op(!new)>(fn: (T, T, Op) -> T, empty: T, run: seq<State<T, Op>>) {
    && run != []
    && Init(run[0], empty)
    && forall i :: 0 <= i < |run| - 1 ==> Next(fn, run[i], run[i + 1])
  }

  // ----- The specification: one value, modified one operation at a time -----

  function Fold<T, Op>(fn: (T, T, Op) -> T, empty: T, log: seq<Op>): T {
    if log == [] then empty
    else
      var before := Fold(fn, empty, log[..|log| - 1]);
      fn(before, before, log[|log| - 1])
  }

  /** Applied the second time, with the already modified buffer in the foreground, `fn` makes the same
      change. */
  predicate RepeatsAt<T(==), Op>(fn: (T, T, Op) -> T, v: T, op: Op) {
    fn(v, fn(v, v, op), op) == fn(v, v, op)
  }

  /** What `fn` has to satisfy to be usable with two buffers: it repeats at every value that
      modifications lead to. */
  ghost predicate Repeats<T(!new), Op(!new)>(fn: (T, T, Op) -> T, empty: T) {
    forall log, op :: RepeatsAt(fn, Fold(fn, empty, log), op)
  }

  /** Every plain `Modify`, whose function ignores the foreground, is one such. */
  lemma PlainModifyRepeats<T(!new), Op(!new)>(fn: (T, T, Op) -> T, empty: T)
    requires forall v, w, x, op :: fn(v, w, op) == fn(v, x, op)
    ensures Repeats(fn, empty)
  {
    forall log, op ensures RepeatsAt(fn, Fold(fn, empty, log), op) {
      var v := Fold(fn, empty, log);
      assert fn(v, fn(v, v, op), op) == fn(v, v, op);
    }
  }

  // ----- The invariant -----

  ghost predicate Background<T, Op>(fn: (T, T, Op) -> T, empty: T, s: State<T, Op>)
    requires WellFormed(s)
  {
    var bg := s.bufs[s.ctl.Background()];
    match s.ctl.writer
    case NoModify => bg == Whole(Fold(fn, empty, s.log))
    case Pass1 =>
      (match s.progress
       case NotStarted => bg == Whole(Fold(fn, empty, s.log))
       case InFn => bg == Torn(Fold(fn, empty, s.log))
       case Returned => bg == Whole(Fold(fn, empty, s.log + s.ops)))
    case Pass2 =>
      s.log != [] && s.ops == [s.log[|s.log| - 1]] &&
      (match s.progress
       case NotStarted => bg == Whole(Fold(fn, empty, s.log[..|s.log| - 1]))
       case InFn => bg == Torn(Fold(fn, empty, s.log[..|s.log| - 1]))
       case Returned => bg == Whole(Fold(fn, empty, s.log)))
    case _ =>
      s.log != [] && s.ops == [s.log[|s.log| - 1]] && bg == Whole(Fold(fn, empty, s.log[..|s.log| - 1]))
  }

  /** A scope points at the value it saw when it was opened. */
  ghost predicate ScopeIsPrefix<T, Op>(fn: (T, T, Op) -> T, empty: T, s: State<T, Op>, t: nat)
    requires WellFormed(s) && t < |s.seen|
  {
    && s.seen[t] <= |s.log|
    && (s.ctl.readers[t].Holding? ==>
          s.ctl.readers[t].buf < 2 && s.bufs[s.ctl.readers[t].buf] == Whole(Fold(fn, empty, s.log[..s.seen[t]])))
  }

  ghost predicate Inv<T, Op>(fn: (T, T, Op) -> T, empty: T, s: State<T, Op>) {
    && WellFormed(s)
    && DB.Inv(s.ctl)
    && s.bufs[s.ctl.index] == Whole(Fold(fn, empty, s.log))
    && Background(fn, empty, s)
    && forall t :: 0 <= t < |s.seen| ==> ScopeIsPrefix(fn, empty, s, t)
  }

  /** `fn` returns: the first time the background gets the next value, the second time it catches up. */
  lemma LeaveFnStep<T(!new), Op(!new)>(fn: (T, T, Op) -> T, empty: T, s: State<T, Op>)
    requires Inv(fn, empty, s) && Enabled(s, LeaveFn) && Repeats(fn, empty)
    ensures Background(fn, empty, Apply(fn, s, LeaveFn))
  {
    var s' := Apply(fn, s, LeaveFn);
    var bg := s.ctl.Background();
    assert s'.bufs[bg] == Whole(fn(BufferValue(s.bufs[bg]), Fold(fn, empty, s.log), s.ops[0]));
    if s.ctl.writer.Pass2? {
      assert RepeatsAt(fn, Fold(fn, empty, s.log[..|s.log| - 1]), s.ops[0]);
    } else {
      assert (s.log + s.ops)[..|s.log|] == s.log;
    }
  }

  /** The flip commits: what was the background is the new value, what was the foreground is one behind. */
  lemma FlipStep<T(!new), Op(!new)>(fn: (T, T, Op) -> T, empty: T, s: State<T, Op>)
    requires Inv(fn, empty, s) && Enabled(s, FlipIndex)
    ensures var s' := Apply(fn, s, FlipIndex);
            && WellFormed(s') && DB.Inv(s'.ctl)
            && s'.bufs[s'.ctl.index] == Whole(Fold(fn, empty, s'.log))
            && Background(fn, empty, s')
  {
    hide DB.Inv, ScopeIsPrefix;
    var s' := Apply(fn, s, FlipIndex);
    DB.StepInv(s.ctl, DB.Flip);
    assert s'.log[..|s'.log| - 1] == s.log;
  }

  lemma BuffersStep<T(!new), Op(!new)>(fn: (T, T, Op) -> T, empty: T, s: State<T, Op>, step: Step<Op>)
    requires Inv(fn, empty, s) && Enabled(s, step) && Repeats(fn, empty)
    ensures var s' := Apply(fn, s, step);
            && WellFormed(s') && DB.Inv(s'.ctl)
            && s'.bufs[s'.ctl.index] == Whole(Fold(fn, empty, s'.log))
            && Background(fn, empty, s')
  {
    hide Repeats, ScopeIsPrefix, DB.Inv;
    var s' := Apply(fn, s, step);
    match step {
      case Protocol(p) => DB.StepInv(s.ctl, p);
      case Begin(op) => DB.StepInv(s.ctl, DB.BeginModify);
      case EnterFn =>
      case LeaveFn =>
        LeaveFnStep(fn, empty, s);
        hide Background;
      case FlipIndex =>
        FlipStep(fn, empty, s);
        hide Background;
      case End => DB.StepInv(s.ctl, DB.EndModify);
    }
  }

  lemma ScopesStep<T(!new), Op(!new)>(fn: (T, T, Op) -> T, empty: T, s: State<T, Op>, step: Step<Op>, t: nat)
    requires Inv(fn, empty, s) && Enabled(s, step) && t < |s.seen|
    ensures var s' := Apply(fn, s, step);
            && WellFormed(s') && ScopeIsPrefix(fn, empty, s', t) && s.seen[t] <= s'.seen[t]
  {
    hide Background;
    var s' := Apply(fn, s, step);
    assert ScopeIsPrefix(fn, empty, s, t);
    assert s.log[..|s.log|] == s.log;
    match step {
      case Protocol(p) =>
      case Begin(op) =>
      case EnterFn => assert !s.ctl.Holds(t, s.ctl.Background());
      case LeaveFn => assert !s.ctl.Holds(t, s.ctl.Background());
      case FlipIndex => assert s'.log[..s.seen[t]] == s.log[..s.seen[t]];
      case End =>
    }
  }

  lemma StepInv<T(!new), Op(!new)>(fn: (T, T, Op) -> T, empty: T, s: State<T, Op>, step: Step<Op>)
    requires Inv(fn, empty, s) && Enabled(s, step) && Repeats(fn, empty)
    ensures Inv(fn, empty, Apply(fn, s, step))
    ensures forall t :: 0 <= t < |s.seen| ==> s.seen[t] <= Apply(fn, s, step).seen[t]
  {
    var s' := Apply(fn, s, step);
    BuffersStep(fn, empty, s, step);
    forall t | 0 <= t < |s'.seen| ensures ScopeIsPrefix(fn, empty, s', t) && s.seen[t] <= s'.seen[t] {
      ScopesStep(fn, empty, s, step, t);
    }
  }

  lemma {:induction false} RunInv<T(!new), Op(!new)>(fn: (T, T, Op) -> T, empty: T, run: seq<State<T, Op>>, i: nat)
    requires IsRun(fn, empty, run) && Repeats(fn, empty) && i < |run|
    ensures Inv(fn, empty, run[i])
  {
    if i == 0 {
      DB.InitInv(run[0].ctl);
      assert Fold(fn, empty, run[0].log) == empty;
      forall t | 0 <= t < |run[0].seen| ensures ScopeIsPrefix(fn, empty, run[0], t) {
      }
    } else {
      RunInv(fn, empty, run, i - 1);
      assert Next(fn, run[i - 1], run[i - 1 + 1]);
      var step: Step<Op> :| Enabled(run[i - 1], step) && run[i] == Apply(fn, run[i - 1], step);
      StepInv(fn, empty, run[i - 1], step);
    }
  }

  // ----- The refinement -----

  /** In every run, an open scope shows a whole value, and that value is the fold of a prefix of the
      committed modifications. */
  lemma ReadsSeeAPrefix<T(!new), Op(!new)>(fn: (T, T, Op) -> T, empty: T, run: seq<State<T, Op>>, i: nat, t: nat)
    requires IsRun(fn, empty, run) && Repeats(fn, empty) && i < |run|
    requires t < |run[i].ctl.readers| && run[i].ctl.readers[t].Holding?
    ensures WellFormed(run[i]) && run[i].seen[t] <= |run[i].log| && run[i].ctl.readers[t].buf < 2
    ensures run[i].bufs[run[i].ctl.readers[t].buf] == Whole(Fold(fn, empty, run[i].log[..run[i].seen[t]]))
  {
    RunInv(fn, empty, run, i);
    assert ScopeIsPrefix(fn, empty, run[i], t);
  }

  lemma LogGrows<T(!new), Op(!new)>(fn: (T, T, Op) -> T, s: State<T, Op>, step: Step<Op>)
    requires WellFormed(s) && Enabled(s, step)
    ensures s.log <= Apply(fn, s, step).log && |s.seen| == |Apply(fn, s, step).seen|
  {
  }

  /** The log only grows, and no thread's reads go backwards. */
  lemma {:induction false} VersionsNeverGoBack<T(!new), Op(!new)>(
      fn: (T, T, Op) -> T, empty: T, run: seq<State<T, Op>>, i: nat, j: nat)
    requires IsRun(fn, empty, run) && Repeats(fn, empty) && i <= j < |run|
    ensures run[i].log <= run[j].log && |run[i].seen| == |run[j].seen|
    ensures forall t :: 0 <= t < |run[i].seen| ==> run[i].seen[t] <= run[j].seen[t]
    decreases j
  {
    if i < j {
      VersionsNeverGoBack(fn, empty, run, i, j - 1);
      RunInv(fn, empty, run, j - 1);
      assert Next(fn, run[j - 1], run[j - 1 + 1]);
      var step: Step<Op> :| Enabled(run[j - 1], step) && run[j] == Apply(fn, run[j - 1], step);
      hide Inv, Apply, Enabled, IsRun, Repeats;
      StepInv(fn, empty, run[j - 1], step);
      LogGrows(fn, run[j - 1], step);
    }
  }

  lemma {:induction false} OpenScopeReadsOnce<T(!new), Op(!new)>(
      fn: (T, T, Op) -> T, run: seq<State<T, Op>>, i: nat, j: nat, t: nat)
    requires i <= j < |run|
    requires forall k :: i <= k < j ==> Next(fn, run[k], run[k + 1])
    requires forall k :: i <= k <= j ==> t < |run[k].ctl.readers| && run[k].ctl.readers[t].Holding?
    requires WellFormed(run[i]) && WellFormed(run[j])
    ensures run[i].seen[t] == run[j].seen[t]
    decreases j
  {
    if i < j {
      assert Next(fn, run[j - 1], run[j - 1 + 1]);
      OpenScopeReadsOnce(fn, run, i, j - 1, t);
      var step: Step<Op> :| Enabled(run[j - 1], step) && run[j] == Apply(fn, run[j - 1], step);
      assert run[j - 1].ctl.readers[t].Holding?;
    }
  }

  /** A scope that stays open keeps showing the same whole value, whatever modifications run. */
  lemma ScopeIsStable<T(!new), Op(!new)>(
      fn: (T, T, Op) -> T, empty: T, run: seq<State<T, Op>>, i: nat, j: nat, t: nat)
    requires IsRun(fn, empty, run) && Repeats(fn, empty) && i <= j < |run|
    requires forall k :: i <= k <= j ==> t < |run[k].ctl.readers| && run[k].ctl.readers[t].Holding?
    ensures WellFormed(run[i]) && run[i].ctl.readers[t].buf < 2
    ensures WellFormed(run[j]) && run[j].ctl.readers[t].buf < 2
    ensures run[i].bufs[run[i].ctl.readers[t].buf] == run[j].bufs[run[j].ctl.readers[t].buf]
    ensures run[i].bufs[run[i].ctl.readers[t].buf].Whole?
  {
    hide Next, Repeats;
    ReadsSeeAPrefix(fn, empty, run, i, t);
    ReadsSeeAPrefix(fn, empty, run, j, t);
    OpenScopeReadsOnce(fn, run, i, j, t);
    VersionsNeverGoBack(fn, empty, run, i, j);
    assert run[i].log[..run[i].seen[t]] == run[j].log[..run[j].seen[t]];
  }

  /** Whenever no modification is running, both buffers hold the fold of all of them. */
  lemma QuietBuffersAgree<T(!new), Op(!new)>(fn: (T, T, Op) -> T, empty: T, run: seq<State<T, Op>>, i: nat)
    requires IsRun(fn, empty, run) && Repeats(fn, empty) && i < |run| && run[i].ctl.writer.NoModify?
    ensures run[i].bufs == [Whole(Fold(fn, empty, run[i].log)), Whole(Fold(fn, empty, run[i].log))]
  {
    RunInv(fn, empty, run, i);
  }

  // ----- A function that does not repeat leaves the buffers different -----

  function QuietState<T, Op>(index: nat, bufs: seq<Buffer<T>>, log: seq<Op>): State<T, Op> {
    State(DB.State(index, [], {}, map[], [], DB.NoModify), bufs, log, [], Returned, [])
  }

  lemma Extend<T(!new), Op(!new)>(fn: (T, T, Op) -> T, empty: T, run: seq<State<T, Op>>, step: Step<Op>)
    returns (longer: seq<State<T, Op>>)
    requires IsRun(fn, empty, run) && WellFormed(run[|run| - 1]) && Enabled(run[|run| - 1], step)
    ensures IsRun(fn, empty, longer) && |longer| == |run| + 1
    ensures longer[|run|] == Apply(fn, run[|run| - 1], step)
  {
    longer := run + [Apply(fn, run[|run| - 1], step)];
    forall i | 0 <= i < |longer| - 1 ensures Next(fn, longer[i], longer[i + 1]) {
      if i < |run| - 1 {
        assert Next(fn, run[i], run[i + 1]);
      }
    }
  }

  /** The state after the flip of a modification without any readers. */
  function FlippedState<T, Op>(fn: (T, T, Op) -> T, index: nat, v: T, log: seq<Op>, op: Op): State<T, Op>
    requires index < 2
  {
    State(DB.State(1 - index, [], {}, map[], [], DB.Flipped),
          [Whole(v), Whole(v)][1 - index := Whole(fn(v, v, op))], log + [op], [op], Returned, [])
  }

  lemma RunFirstPass<T(!new), Op(!new)>(
      fn: (T, T, Op) -> T, empty: T, run: seq<State<T, Op>>, index: nat, v: T, log: seq<Op>, op: Op)
    returns (longer: seq<State<T, Op>>)
    requires IsRun(fn, empty, run) && index < 2
    requires run[|run| - 1] == QuietState(index, [Whole(v), Whole(v)], log)
    ensures IsRun(fn, empty, longer) && longer[|longer| - 1] == FlippedState(fn, index, v, log, op)
  {
    hide IsRun;
    longer := Extend(fn, empty, run, Begin(op));
    longer := Extend(fn, empty, longer, EnterFn);
    longer := Extend(fn, empty, longer, LeaveFn);
    longer := Extend(fn, empty, longer, FlipIndex);
  }

  /** One modification without any readers. */
  lemma RunModify<T(!new), Op(!new)>(
      fn: (T, T, Op) -> T, empty: T, run: seq<State<T, Op>>, index: nat, v: T, log: seq<Op>, op: Op)
    returns (longer: seq<State<T, Op>>)
    requires IsRun(fn, empty, run) && index < 2
    requires run[|run| - 1] == QuietState(index, [Whole(v), Whole(v)], log)
    ensures IsRun(fn, empty, longer)
    ensures longer[|longer| - 1] ==
            QuietState(1 - index,
                       [Whole(v), Whole(v)][1 - index := Whole(fn(v, v, op))][index := Whole(fn(v, fn(v, v, op), op))],
                       log + [op])
  {
    hide IsRun;
    longer := RunFirstPass(fn, empty, run, index, v, log, op);
    longer := Extend(fn, empty, longer, Protocol(DB.LockRegistry));
    longer := Extend(fn, empty, longer, Protocol(DB.UnlockRegistry));
    longer := Extend(fn, empty, longer, EnterFn);
    longer := Extend(fn, empty, longer, LeaveFn);
    longer := Extend(fn, empty, longer, End);
  }

  lemma BothReplaced<T>(x: T, y: T, index: nat)
    requires index < 2
    ensures [x, x][1 - index := y][index := y] == [y, y]
  {
  }

  lemma {:induction false} RunTo<T(!new), Op(!new)>(fn: (T, T, Op) -> T, empty: T, log: seq<Op>)
    returns (run: seq<State<T, Op>>, index: nat)
    requires forall k :: 0 <= k < |log| ==> RepeatsAt(fn, Fold(fn, empty, log[..k]), log[k])
    ensures IsRun(fn, empty, run) && index < 2
    ensures run[|run| - 1] == QuietState(index, [Whole(Fold(fn, empty, log)), Whole(Fold(fn, empty, log))], log)
  {
    if log == [] {
      index := 0;
      run := [QuietState(0, [Whole(empty), Whole(empty)], [])];
    } else {
      var front, op := log[..|log| - 1], log[|log| - 1];
      forall k | 0 <= k < |front| ensures RepeatsAt(fn, Fold(fn, empty, front[..k]), front[k]) {
        assert front[..k] == log[..k];
      }
      run, index := RunTo(fn, empty, front);
      var v := Fold(fn, empty, front);
      assert RepeatsAt(fn, v, op);
      assert front + [op] == log;
      hide IsRun;
      run := RunModify(fn, empty, run, index, v, front, op);
      BothReplaced(Whole(v), Whole(fn(v, v, op)), index);
      index := 1 - index;
    }
  }

  lemma {:induction false} WithoutRepeatBuffersDiffer<T(!new), Op(!new)>(
      fn: (T, T, Op) -> T, empty: T, log: seq<Op>, op: Op)
    returns (run: seq<State<T, Op>>)
    requires !RepeatsAt(fn, Fold(fn, empty, log), op)
    ensures IsRun(fn, empty, run)
    ensures var s := run[|run| - 1]; s.ctl.writer.NoModify? && |s.bufs| == 2 && s.bufs[0] != s.bufs[1]
    decreases |log|
  {
    if k :| 0 <= k < |log| && !RepeatsAt(fn, Fold(fn, empty, log[..k]), log[k]) {
      run := WithoutRepeatBuffersDiffer(fn, empty, log[..k], log[k]);
    } else {
      var index;
      run, index := RunTo(fn, empty, log);
      run := RunModify(fn, empty, run, index, Fold(fn, empty, log), log, op);
    }
  }

  ghost predicate AgreeWhenQuiet<T(!new), Op(!new)>(fn: (T, T, Op) -> T, empty: T, run: seq<State<T, Op>>) {
    IsRun(fn, empty, run) ==>
      forall i :: 0 <= i < |run| && run[i].ctl.writer.NoModify? ==>
        |run[i].bufs| == 2 && run[i].bufs[0] == run[i].bufs[1]
  }

  /** The two buffers agree whenever no modification runs, in every run, if and only if `fn` repeats. */
  lemma BuffersAgreeIffRepeats<T(!new), Op(!new)>(fn: (T, T, Op) -> T, empty: T)
    ensures Repeats(fn, empty) <==> forall run: seq<State<T, Op>> :: AgreeWhenQuiet(fn, empty, run)
  {
    if Repeats(fn, empty) {
      forall run: seq<State<T, Op>> ensures AgreeWhenQuiet(fn, empty, run) {
        if IsRun(fn, empty, run) {
          forall i | 0 <= i < |run| && run[i].ctl.writer.NoModify?
            ensures |run[i].bufs| == 2 && run[i].bufs[0] == run[i].bufs[1]
          {
            QuietBuffersAgree(fn, empty, run, i);
          }
        }
      }
    } else {
      var log, op :| !RepeatsAt(fn, Fold(fn, empty, log), op);
      var run := WithoutRepeatBuffersDiffer(fn, empty, log, op);
      assert !AgreeWhenQuiet(fn, empty, run) by {
        assert 0 <= |run| - 1 < |run| && run[|run| - 1].ctl.writer.NoModify?;
      }
    }
  }
}
