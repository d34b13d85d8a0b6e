/**
  Building runs of the concurrent balancer step by step: servers are added, threads open scopes,
  additions are made, a Remove gets as far as its flip. Each lemma extends a trace and says what the
  last state is then.
 */
module ConcurrentTreeTraces {
  import opened Options
  import opened WeightTree
  import opened WeightScale
  import opened ServerLayout
  import opened PendingAdds
  import opened SharedWeights
  import opened ConcurrentTree
  import opened ConcurrentTreeProofs
  import DB = DoubleBuffer

  /** Weights that servers may start with, from `lo` on, and the largest of all weights. */
  datatype Span = Span(lo: int, hi: int)

  /** From the minimum weight on. */
  function UpTo(m: int): Span {
    Span(MIN_WEIGHT, m)
  }

  predicate StepWithin(s: State, step: Step, m: Span)
    requires WellFormed(s)
  {
    match step
    case RunAdd =>
      s.op.Some? && s.op.value.name !in s.Fg().index ==> m.lo <= InitialWeight(s.total, |s.Bg().tree|) <= m.hi
    case Reweigh(_, _, weight) => weight <= m.hi
    case _ => true
  }

  ghost predicate NextWithin(s: State, s': State, m: Span) {
    WellFormed(s) && exists step :: Enabled(s, step) && StepWithin(s, step, m) && s' == Apply(s, step)
  }

  /** A run that sets no other weights than these. */
  ghost predicate IsRunWithin(run: seq<State>, m: Span) {
    && run != []
    && Init(run[0])
    && forall i :: 0 <= i < |run| - 1 ==> NextWithin(run[i], run[i + 1], m)
  }

  lemma WithinIsRun(run: seq<State>, m: Span)
    requires IsRunWithin(run, m)
    ensures IsRun(run)
  {
    forall i | 0 <= i < |run| - 1 ensures Next(run[i], run[i + 1]) {
      assert NextWithin(run[i], run[i + 1], m);
    }
  }

  lemma WithinStartsNonzero(run: seq<State>, m: Span)
    requires IsRunWithin(run, m) && m.lo > 0
    ensures StartsNonzero(run)
  {
    forall i | 0 <= i < |run| - 1 ensures StartNonzero(run[i], run[i + 1]) {
      assert NextWithin(run[i], run[i + 1], m);
    }
  }

  /** A run, taken apart into its last state and those before it, with the steps it takes and the threads
      that reweigh a server in them, in order. */
  datatype Trace = Trace(front: seq<State>, last: State, steps: seq<Step>, reweighers: seq<nat>) {
    function States(): seq<State> {
      front + [last]
    }
  }

  function ReweighersOf(steps: seq<Step>): seq<nat> {
    if steps == [] then []
    else
      var step := steps[|steps| - 1];
      ReweighersOf(steps[..|steps| - 1]) + if step.Reweigh? then [step.t] else []
  }

  ghost predicate Taken(states: seq<State>, steps: seq<Step>, i: nat, m: Span)
    requires i < |steps| < |states|
  {
    && WellFormed(states[i]) && Enabled(states[i], steps[i]) && StepWithin(states[i], steps[i], m)
    && states[i + 1] == Apply(states[i], steps[i])
  }

  ghost predicate IsTrace(tr: Trace, m: Span) {
    && |tr.front| == |tr.steps| && Init(tr.States()[0]) && tr.reweighers == ReweighersOf(tr.steps)
    && forall i :: 0 <= i < |tr.steps| ==> Taken(tr.States(), tr.steps, i, m)
  }

  lemma Extend(tr: Trace, m: Span, step: Step) returns (longer: Trace)
    requires IsTrace(tr, m) && WellFormed(tr.last) && Enabled(tr.last, step) && StepWithin(tr.last, step, m)
    ensures IsTrace(longer, m) && longer.last == Apply(tr.last, step)
    ensures longer.reweighers == tr.reweighers + if step.Reweigh? then [step.t] else []
    ensures longer.front == tr.States()
  {
    var steps := tr.steps + [step];
    longer := Trace(tr.States(), Apply(tr.last, step), steps, ReweighersOf(steps));
    assert steps[..|tr.steps|] == tr.steps;
    hide Apply, Enabled, StepWithin, Init;
    forall i | 0 <= i < |steps| ensures Taken(longer.States(), steps, i, m) {
      if i < |tr.steps| {
        assert Taken(tr.States(), tr.steps, i, m);
      }
    }
  }

  lemma TraceIsRun(tr: Trace, m: Span)
    requires IsTrace(tr, m)
    ensures IsRunWithin(tr.States(), m)
  {
    hide Apply, Enabled, StepWithin, Init;
    forall i | 0 <= i < |tr.States()| - 1 ensures NextWithin(tr.States()[i], tr.States()[i + 1], m) {
      assert Taken(tr.States(), tr.steps, i, m);
    }
  }

  lemma TraceInv(tr: Trace, m: Span)
    requires IsTrace(tr, m) && m.lo > 0
    ensures Inv(tr.last)
  {
    TraceIsRun(tr, m);
    WithinIsRun(tr.States(), m);
    WithinStartsNonzero(tr.States(), m);
    RunInv(tr.States(), |tr.front|);
  }

  // ----- Additions -----

  function Turns(tasks: seq<Task>): nat {
    if tasks == [] then 0
    else (if tasks[0].Climb? then tasks[0].at + 1 else 1) + Turns(tasks[1..])
  }

  lemma AdvanceShortens(tasks: seq<Task>)
    requires tasks != []
    ensures Turns(Advanced(tasks)) < Turns(tasks)
  {
    if tasks[0].Climb? && tasks[0].at != 0 {
      assert Advanced(tasks)[1..] == tasks[1..];
    }
  }

  /** No position has `at` on its left. */
  predicate Rightmost(at: nat) {
    at == 0 || (at % 2 == 0 && Rightmost(Parent(at)))
  }

  predicate OnTheRight(tasks: seq<Task>) {
    forall i :: 0 <= i < |tasks| && tasks[i].Climb? ==> Rightmost(tasks[i].at)
  }

  lemma AdvanceOnTheRight(tasks: seq<Task>, lefts: seq<int>, b: Buffer)
    requires tasks != [] && OnTheRight(tasks)
    ensures OnTheRight(Advanced(tasks)) && AddAt(lefts, b, tasks) == lefts
  {
    var rest := Advanced(tasks);
    forall i | 0 <= i < |rest| && rest[i].Climb? ensures Rightmost(rest[i].at) {
      var k := i + |tasks| - |rest|;
      assert k > 0 ==> rest[i] == tasks[k];
    }
  }

  /** The modifying thread makes all its additions. */
  lemma {:induction false} FinishOwn(tr: Trace, m: Span) returns (longer: Trace)
    requires IsTrace(tr, m) && WellFormed(tr.last) && tr.last.ctl.Applying() && tr.last.body.Adding?
    ensures IsTrace(longer, m) && longer.reweighers == tr.reweighers
    ensures longer.last == tr.last.(lefts := longer.last.lefts, body := Adding([]),
                                    total := tr.last.total + TasksTotal(tr.last.body.tasks))
    ensures |longer.last.lefts| == |tr.last.lefts|
    ensures OnTheRight(tr.last.body.tasks) ==> longer.last.lefts == tr.last.lefts
    decreases Turns(tr.last.body.tasks)
  {
    hide IsTrace, OnTheRight;
    longer := tr;
    if tr.last.body.tasks != [] {
      AdvanceShortens(tr.last.body.tasks);
      AdvanceConserves(tr.last.body.tasks, 0);
      if OnTheRight(tr.last.body.tasks) {
        AdvanceOnTheRight(tr.last.body.tasks, tr.last.lefts, tr.last.Bg());
      }
      longer := Extend(tr, m, RunTask);
      longer := FinishOwn(longer, m);
    }
  }

  /** A reader makes all its additions. */
  lemma {:induction false} FinishReader(tr: Trace, m: Span, t: nat) returns (longer: Trace)
    requires IsTrace(tr, m) && WellFormed(tr.last) && t < |tr.last.work|
    requires tr.last.ctl.readers[t].Holding? && tr.last.ctl.readers[t].buf < 2
    ensures IsTrace(longer, m) && longer.reweighers == tr.reweighers
    ensures longer.last == tr.last.(lefts := longer.last.lefts, work := tr.last.work[t := []],
                                    total := tr.last.total + TasksTotal(tr.last.work[t]))
    ensures OnTheRight(tr.last.work[t]) ==> longer.last.lefts == tr.last.lefts
    decreases Turns(tr.last.work[t])
  {
    hide IsTrace, OnTheRight;
    longer := tr;
    if tr.last.work[t] == [] {
      assert tr.last.work[t := []] == tr.last.work;
    } else {
      AdvanceShortens(tr.last.work[t]);
      AdvanceConserves(tr.last.work[t], 0);
      if OnTheRight(tr.last.work[t]) {
        AdvanceOnTheRight(tr.last.work[t], tr.last.lefts, tr.last.bufs[tr.last.ctl.readers[t].buf]);
      }
      longer := Extend(tr, m, ReaderTask(t));
      longer := FinishReader(longer, m, t);
    }
  }

  lemma ReaderAtWork(s: State, t: nat)
    requires Inv(s) && t < |s.work| && s.work[t] != []
    ensures s.ctl.readers[t].Holding? && s.ctl.readers[t].buf < 2
  {
    assert ThreadFits(s, t);
  }

  ghost predicate NoWorkBelow(s: State, n: nat) {
    n <= |s.work| && forall t :: 0 <= t < n ==> s.work[t] == []
  }

  /** All readers make all their additions. */
  lemma {:induction false} FinishReaders(tr: Trace, m: Span, n: nat) returns (longer: Trace)
    requires IsTrace(tr, m) && m.lo > 0 && n <= |tr.last.work|
    ensures IsTrace(longer, m) && longer.reweighers == tr.reweighers
    ensures longer.last == tr.last.(lefts := longer.last.lefts, total := longer.last.total, work := longer.last.work)
    ensures |longer.last.work| == |tr.last.work| && NoWorkBelow(longer.last, n)
  {
    hide IsTrace, Inv;
    longer := tr;
    if n > 0 {
      longer := FinishReaders(tr, m, n - 1);
      TraceInv(longer, m);
      if longer.last.work[n - 1] != [] {
        ReaderAtWork(longer.last, n - 1);
        longer := FinishReader(longer, m, n - 1);
      }
    }
  }

  // ----- Scopes -----

  function Opened(c: DB.State, t: nat): DB.State
    requires t < |c.keys| == |c.readers|
  {
    c.(readers := c.readers[t := DB.Holding(c.index)], wrappers := c.wrappers + {c.keys[t]},
       locked := c.locked[c.keys[t] := t])
  }

  lemma OpenScope(tr: Trace, m: Span, t: nat) returns (longer: Trace)
    requires IsTrace(tr, m) && WellFormed(tr.last) && t < |tr.last.ctl.readers|
    requires tr.last.ctl.readers[t].Idle? && !tr.last.ctl.writer.Waiting? && tr.last.ctl.keys[t] !in tr.last.ctl.locked
    ensures IsTrace(longer, m) && longer.reweighers == tr.reweighers
    ensures longer.last == tr.last.(ctl := Opened(tr.last.ctl, t))
  {
    hide IsTrace;
    longer := Extend(tr, m, Protocol(DB.GetWrapper(t)));
    longer := Extend(longer, m, Protocol(DB.StartRead(t)));
    longer := Extend(longer, m, Protocol(DB.LoadIndex(t)));
    assert longer.last.ctl.readers == tr.last.ctl.readers[t := DB.Holding(tr.last.ctl.index)];
  }

  /** The threads from `lo` to `hi` open a scope each. */
  ghost predicate CanOpen(c: DB.State, lo: nat, hi: nat) {
    && !c.writer.Waiting? && lo <= hi <= |c.readers|
    && (forall t :: 0 <= t < |c.keys| ==> c.keys[t] == t)
    && forall t :: lo <= t < hi ==> c.readers[t].Idle? && t !in c.locked
  }

  ghost predicate HaveOpened(c: DB.State, c': DB.State, lo: nat, hi: nat)
    requires lo <= hi <= |c.readers|
  {
    && c' == c.(readers := c'.readers, wrappers := c'.wrappers, locked := c'.locked)
    && |c'.readers| == |c.readers|
    && (forall t :: 0 <= t < |c.readers| ==>
          c'.readers[t] == if lo <= t < hi then DB.Holding(c.index) else c.readers[t])
    && forall t: int :: !(lo <= t < hi) ==> (t in c'.locked <==> t in c.locked)
  }

  lemma {:induction false} OpenScopes(tr: Trace, m: Span, lo: nat, hi: nat) returns (longer: Trace)
    requires IsTrace(tr, m) && WellFormed(tr.last) && CanOpen(tr.last.ctl, lo, hi)
    ensures IsTrace(longer, m) && longer.reweighers == tr.reweighers
    ensures longer.last == tr.last.(ctl := longer.last.ctl) && HaveOpened(tr.last.ctl, longer.last.ctl, lo, hi)
    decreases hi - lo
  {
    hide IsTrace;
    longer := tr;
    if lo < hi {
      longer := OpenScopes(tr, m, lo, hi - 1);
      longer := OpenScope(longer, m, hi - 1);
    }
  }

  /** The first `n` threads leave their scopes. */
  lemma {:induction false} LeaveScopes(tr: Trace, m: Span, n: nat) returns (longer: Trace)
    requires IsTrace(tr, m) && WellFormed(tr.last) && NoWorkBelow(tr.last, n)
    requires forall t :: 0 <= t < n ==> tr.last.ctl.readers[t].Holding?
    ensures IsTrace(longer, m) && longer.reweighers == tr.reweighers
    ensures longer.last == tr.last.(ctl := tr.last.ctl.(readers := longer.last.ctl.readers,
                                                        locked := longer.last.ctl.locked))
    ensures |longer.last.ctl.readers| == |tr.last.ctl.readers|
    ensures forall t :: 0 <= t < |tr.last.ctl.readers| ==>
              longer.last.ctl.readers[t] == if t < n then DB.Idle else tr.last.ctl.readers[t]
    ensures forall k :: k in longer.last.ctl.locked ==>
              k in tr.last.ctl.locked && forall t :: 0 <= t < n ==> k != tr.last.ctl.keys[t]
  {
    hide IsTrace;
    longer := tr;
    if n > 0 {
      longer := LeaveScopes(tr, m, n - 1);
      longer := Extend(longer, m, Protocol(DB.EndRead(n - 1)));
    }
  }

  lemma NobodyLocks(s: State)
    requires Inv(s) && forall t :: 0 <= t < |s.ctl.readers| ==> s.ctl.readers[t].Idle?
    ensures s.ctl.locked == map[]
  {
    hide PhaseFits, LayoutsFit, NodesOk, PassDetected, WorkFits, Conserved;
    forall k ensures k !in s.ctl.locked {
    }
  }

  /** The modifying thread makes the first of its climbs. */
  lemma {:induction false} FinishClimb(tr: Trace, m: Span, diff: int, at: nat, rest: seq<Task>) returns (longer: Trace)
    requires IsTrace(tr, m) && WellFormed(tr.last) && tr.last.ctl.Applying()
    requires tr.last.body == Adding([Climb(diff, at)] + rest)
    ensures IsTrace(longer, m) && longer.reweighers == tr.reweighers && Continues(tr, longer)
    ensures longer.last == tr.last.(lefts := longer.last.lefts, body := Adding(rest))
    decreases at
  {
    hide IsTrace;
    assert ([Climb(diff, at)] + rest)[1..] == rest;
    longer := Extend(tr, m, RunTask);
    if at != 0 {
      var next := longer;
      longer := FinishClimb(next, m, diff, Parent(at), rest);
      ContinuesOn(tr, next, longer);
    }
  }

  /** `longer` goes on from `tr` without another modification. */
  ghost predicate Continues(tr: Trace, longer: Trace) {
    && tr.States() <= longer.States()
    && forall i :: |tr.front| <= i < |longer.States()| ==> longer.States()[i].op == tr.last.op
  }

  lemma ContinuesOn(tr: Trace, next: Trace, longer: Trace)
    requires Continues(tr, next) && Continues(next, longer)
    ensures Continues(tr, longer)
  {
    assert next.States()[|next.front|] == next.last;
  }

  // ----- Adding servers -----

  function Fresh(w: int): Node {
    Node(w, true, 0, 0, None)
  }

  /** The layout with one more server, with the next counter and the next weight. */
  function Grown(s: State, name: ServerName): Buffer
    requires WellFormed(s)
  {
    AddEntry(s.bufs[0], Entry(name, |s.lefts|, |s.nodes|), |s.bufs[0].tree|)
  }

  ghost predicate AtRest(s: State) {
    && WellFormed(s) && s.ctl.writer.NoModify? && s.op.None? && s.body == Adding([]) && s.bufs[0] == s.bufs[1]
  }

  lemma AddFirstPass(tr: Trace, m: Span, name: ServerName) returns (longer: Trace)
    requires IsTrace(tr, m) && AtRest(tr.last) && name !in tr.last.bufs[0].index
    requires m.lo <= InitialWeight(tr.last.total, |tr.last.bufs[0].tree|) <= m.hi
    ensures IsTrace(longer, m) && longer.reweighers == tr.reweighers
    ensures var s, s' := tr.last, longer.last;
            var n := |s.bufs[0].tree|;
            var w := InitialWeight(s.total, n);
            && s' == s.(ctl := s.ctl.(index := 1 - s.ctl.index, writer := DB.Flipped),
                        bufs := s.bufs[1 - s.ctl.index := Grown(s, name)], nodes := s.nodes + [Fresh(w)],
                        lefts := s'.lefts, total := s.total + w, op := Some(AddServer(name)))
            && |s'.lefts| == |s.lefts| + 1 && (Rightmost(n) || w == 0 ==> s'.lefts == s.lefts + [0])
  {
    hide IsTrace, InitialWeight;
    var n := |tr.last.bufs[0].tree|;
    PropagateAmounts(InitialWeight(tr.last.total, n), n, 0);
    longer := Extend(tr, m, Begin(AddServer(name)));
    longer := Extend(longer, m, RunAdd);
    longer := FinishOwn(longer, m);
    longer := Extend(longer, m, Flip);
  }

  /** No wrapper is locked, so the wait ends. */
  lemma {:induction false} Await(tr: Trace, m: Span) returns (longer: Trace)
    requires IsTrace(tr, m) && WellFormed(tr.last) && tr.last.ctl.writer.Waiting? && tr.last.ctl.locked == map[]
    ensures IsTrace(longer, m) && longer.reweighers == tr.reweighers
    ensures longer.last == tr.last.(ctl := tr.last.ctl.(writer := DB.Waiting({})))
    decreases tr.last.ctl.writer.todo
  {
    hide IsTrace;
    longer := tr;
    var todo := tr.last.ctl.writer.todo;
    if todo != {} {
      var key := DB.SomeElement(todo);
      assert todo - {key} < todo;
      longer := Extend(tr, m, Protocol(DB.WaitReadDone(key)));
      longer := Await(longer, m);
    }
  }

  /** After the flip, with no scope open, the second application begins. */
  lemma StartSecondPass(tr: Trace, m: Span) returns (longer: Trace)
    requires IsTrace(tr, m) && WellFormed(tr.last) && tr.last.ctl.writer.Flipped? && tr.last.ctl.locked == map[]
    ensures IsTrace(longer, m) && longer.reweighers == tr.reweighers
    ensures longer.last == tr.last.(ctl := tr.last.ctl.(writer := DB.Pass2), body := Entered)
  {
    hide IsTrace;
    longer := Extend(tr, m, Protocol(DB.LockRegistry));
    longer := Await(longer, m);
    longer := Extend(longer, m, Protocol(DB.UnlockRegistry));
  }

  lemma AddSecondPass(tr: Trace, m: Span, name: ServerName) returns (longer: Trace)
    requires IsTrace(tr, m) && WellFormed(tr.last) && tr.last.ctl.writer.Flipped? && tr.last.ctl.locked == map[]
    requires tr.last.op == Some(AddServer(name))
    requires var fg := tr.last.Fg(); name in fg.index && fg.index[name] < |fg.tree|
    ensures IsTrace(longer, m) && longer.reweighers == tr.reweighers
    ensures var s, fg := tr.last, tr.last.Fg();
            var at := fg.index[name];
            longer.last == s.(ctl := s.ctl.(writer := DB.NoModify), op := None, body := Adding([]),
                              bufs := s.bufs[1 - s.ctl.index := AddEntry(s.Bg(), fg.tree[at], at)])
  {
    hide IsTrace;
    longer := StartSecondPass(tr, m);
    longer := Extend(longer, m, RunAdd);
    longer := Extend(longer, m, End);
  }

  /** One server more, in both buffers. */
  lemma AddOne(tr: Trace, m: Span, name: ServerName) returns (longer: Trace)
    requires IsTrace(tr, m) && AtRest(tr.last) && tr.last.ctl.locked == map[] && name !in tr.last.bufs[0].index
    requires m.lo <= InitialWeight(tr.last.total, |tr.last.bufs[0].tree|) <= m.hi
    ensures IsTrace(longer, m) && longer.reweighers == tr.reweighers && AtRest(longer.last)
    ensures var s, s' := tr.last, longer.last;
            var n := |s.bufs[0].tree|;
            var w := InitialWeight(s.total, n);
            && s' == s.(ctl := s.ctl.(index := 1 - s.ctl.index), bufs := [Grown(s, name), Grown(s, name)],
                        nodes := s.nodes + [Fresh(w)], lefts := s'.lefts, total := s.total + w)
            && |s'.lefts| == |s.lefts| + 1 && (Rightmost(n) || w == 0 ==> s'.lefts == s.lefts + [0])
  {
    hide IsTrace, InitialWeight;
    longer := AddFirstPass(tr, m, name);
    longer := AddSecondPass(longer, m, name);
  }

  /** Names of different lengths. */
  function NameOf(i: nat): ServerName {
    seq(i, _ => 'a')
  }

  /** `n` positions with their numbers as names, counters and weights. */
  ghost predicate Numbered(b: Buffer, n: nat) {
    && |b.tree| == n
    && (forall i :: 0 <= i < n ==> b.tree[i] == Entry(NameOf(i), i, i))
    && (forall i :: 0 <= i < n ==> NameOf(i) in b.index && b.index[NameOf(i)] == i)
    && forall name :: name in b.index ==> |name| < n
  }

  lemma OneMoreNumbered(b: Buffer, n: nat)
    requires Numbered(b, n)
    ensures NameOf(n) !in b.index && Numbered(AddEntry(b, Entry(NameOf(n), n, n), n), n + 1)
  {
    var b' := AddEntry(b, Entry(NameOf(n), n, n), n);
    forall i | 0 <= i < n + 1
      ensures b'.tree[i] == Entry(NameOf(i), i, i) && NameOf(i) in b'.index && b'.index[NameOf(i)] == i
    {
      if i < n {
        assert |NameOf(i)| != |NameOf(n)|;
      }
    }
  }

  /** `n` servers of the weight that the first one starts with, and `threads` threads none of which has read
      anything. */
  ghost predicate Serving(s: State, n: nat, threads: nat) {
    && AtRest(s) && |s.ctl.readers| == threads
    && s.ctl == DB.State(s.ctl.index, seq(threads, t => t), {}, map[], s.ctl.readers, DB.NoModify)
    && (forall t :: 0 <= t < threads ==> s.ctl.readers[t].Idle? && s.work[t] == [])
    && Numbered(s.bufs[0], n) && |s.nodes| == |s.lefts| == n && s.total == n * WEIGHT_SCALE
    && (forall i :: 0 <= i < n ==> s.nodes[i] == Fresh(WEIGHT_SCALE))
  }

  lemma NothingServed(threads: nat, m: Span) returns (tr: Trace)
    ensures IsTrace(tr, m) && tr.reweighers == [] && Serving(tr.last, 0, threads)
  {
    var ctl := DB.State(0, seq(threads, t => t), {}, map[], seq(threads, _ => DB.Idle), DB.NoModify);
    var empty: Buffer := Layout([], map[]);
    tr := Trace([], State(ctl, [empty, empty], [], [], 0, seq(threads, _ => []), None, Adding([])), [], []);
  }

  lemma OneMoreServed(s: State, s': State, n: nat, threads: nat)
    requires Serving(s, n, threads) && AtRest(s')
    requires s' == s.(ctl := s.ctl.(index := 1 - s.ctl.index), bufs := [Grown(s, NameOf(n)), Grown(s, NameOf(n))],
                      nodes := s.nodes + [Fresh(WEIGHT_SCALE)], lefts := s'.lefts, total := s.total + WEIGHT_SCALE)
    requires |s'.lefts| == |s.lefts| + 1
    ensures Serving(s', n + 1, threads)
  {
    assert |s.bufs[0].tree| == n;
    OneMoreNumbered(s.bufs[0], n);
    hide Numbered, NameOf;
  }

  lemma ServingReady(s: State, n: nat, threads: nat)
    requires Serving(s, n, threads)
    ensures AtRest(s) && s.ctl.locked == map[] && NameOf(n) !in s.bufs[0].index
    ensures InitialWeight(s.total, |s.bufs[0].tree|) == WEIGHT_SCALE
  {
    OneMoreNumbered(s.bufs[0], n);
    if n > 0 {
      AverageOfSame(n, WEIGHT_SCALE);
    }
  }

  lemma ServeOneMore(tr: Trace, m: Span, n: nat, threads: nat) returns (longer: Trace)
    requires IsTrace(tr, m) && Serving(tr.last, n, threads) && m.lo <= WEIGHT_SCALE <= m.hi
    ensures IsTrace(longer, m) && longer.reweighers == tr.reweighers && Serving(longer.last, n + 1, threads)
  {
    hide IsTrace, Serving, InitialWeight, AtRest, NameOf, Rightmost;
    ServingReady(tr.last, n, threads);
    longer := AddOne(tr, m, NameOf(n));
    OneMoreServed(tr.last, longer.last, n, threads);
  }

  lemma {:induction false} Serve(n: nat, threads: nat, m: Span) returns (tr: Trace)
    requires m.lo <= WEIGHT_SCALE <= m.hi
    ensures IsTrace(tr, m) && tr.reweighers == [] && Serving(tr.last, n, threads)
  {
    hide IsTrace, Serving;
    if n == 0 {
      tr := NothingServed(threads, m);
    } else {
      tr := Serve(n - 1, threads, m);
      tr := ServeOneMore(tr, m, n - 1, threads);
    }
  }

  // ----- The first application of Remove -----

  /** The weights after the first application of a removal at `k` out of `last + 1` positions. */
  function Retired(nodes: seq<Node>, k: nat, last: nat): seq<Node>
    requires k < |nodes| && last < |nodes|
  {
    nodes[k := Disabled(nodes[k])][last := Marked(nodes[last], last)]
  }

  /** Position `k` of `last + 1` can be removed by its name. */
  ghost predicate Removable(s: State, k: nat, last: nat) {
    AtRest(s) && k < last && Numbered(s.bufs[0], last + 1) && |s.nodes| == last + 1
  }

  lemma Disable(tr: Trace, m: Span, k: nat, last: nat) returns (longer: Trace)
    requires IsTrace(tr, m) && Removable(tr.last, k, last)
    ensures IsTrace(longer, m) && longer.reweighers == tr.reweighers
    ensures var s := tr.last;
            longer.last == s.(ctl := s.ctl.(writer := DB.Pass1), op := Some(RemoveServer(NameOf(k))),
                              nodes := s.nodes[k := Disabled(s.nodes[k])], body := Unlinking(k, s.nodes[k].weight))
  {
    hide IsTrace;
    longer := Extend(tr, m, Begin(RemoveServer(NameOf(k))));
    longer := Extend(longer, m, RunDisable);
  }

  /** The unlinking in the first application, after `removed` has been taken from the server at `k`. */
  lemma FirstUnlink(s: State, k: nat, last: nat, removed: int)
    requires WellFormed(s) && s.ctl.writer.Pass1? && k < last && |s.nodes| == last + 1
    requires Numbered(s.bufs[0], last + 1) && s.bufs[0] == s.bufs[1]
    requires s.op == Some(RemoveServer(NameOf(k))) && s.body == Unlinking(k, removed) && removed != 0
    ensures Enabled(s, RunUnlink)
    ensures Apply(s, RunUnlink) == s.(bufs := s.bufs[1 - s.ctl.index := RemoveEntry(s.bufs[0], NameOf(k))],
                                      nodes := s.nodes[last := Marked(s.nodes[last], last)],
                                      body := Adding(Propagate(s.nodes[last].weight - removed, k)))
  {
    hide RemoveEntry;
    assert s.Bg().tree[last] == Entry(NameOf(last), last, last);
  }

  /** Remove up to its flip, for a server that is not the last one; scopes may be open. */
  lemma RemoveFirstPass(tr: Trace, m: Span, k: nat, last: nat) returns (longer: Trace)
    requires IsTrace(tr, m) && Removable(tr.last, k, last) && tr.last.nodes[k].weight != 0
    ensures IsTrace(longer, m) && longer.reweighers == tr.reweighers
    ensures var s, s' := tr.last, longer.last;
            s' == s.(ctl := s.ctl.(index := 1 - s.ctl.index, writer := DB.Flipped),
                     bufs := s.bufs[1 - s.ctl.index := RemoveEntry(s.bufs[0], NameOf(k))],
                     nodes := Retired(s.nodes, k, last), lefts := s'.lefts,
                     total := s.total + s.nodes[last].weight - s.nodes[k].weight, op := Some(RemoveServer(NameOf(k))))
  {
    hide IsTrace, RemoveEntry;
    longer := Disable(tr, m, k, last);
    FirstUnlink(longer.last, k, last, tr.last.nodes[k].weight);
    hide Numbered, NameOf, Propagate;
    PropagateAmounts(tr.last.nodes[last].weight - tr.last.nodes[k].weight, k, 0);
    longer := Extend(longer, m, RunUnlink);
    longer := FinishOwn(longer, m);
    longer := Extend(longer, m, Flip);
  }
}
