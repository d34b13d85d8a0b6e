/**
  The locking protocol of `DoublyBufferedData`, as a transition system over any number of threads.

  A thread reads through the wrapper filed under its thread key; several threads may share a key
  (every thread outside the scheduler has key -1) and then share a wrapper. One `Modify` runs at
  a time, because it holds the modify mutex from `BeginModify` to `EndModify`. Each step below is
  one lock operation, one load or one store.
 */
module DoubleBuffer {

  datatype Reader =
    | Idle
    | Registered            // has its wrapper, has not locked it
    | Locked                // holds the wrapper's mutex, has not loaded the index
    | Holding(buf: nat)     // the scope points at buffer `buf`

  datatype Writer =
    | NoModify
    | Pass1                 // `fn` is applied to the background buffer
    | Flipped               // the index is stored, the wrappers' mutex not yet taken
    | Waiting(todo: set<int>)   // holds the wrappers' mutex; these wrappers are still to be waited for
    | Pass2                 // `fn` is applied to the buffer that was the foreground

  datatype State = State(
    index: nat,             // the foreground buffer
    keys: seq<int>,         // thread key of each thread
    wrappers: set<int>,     // keys that have a wrapper
    locked: map<int, nat>,  // the wrappers whose mutex is held, with the thread that holds it
    readers: seq<Reader>,
    writer: Writer)
  {
    function Background(): int {
      1 - index
    }

    predicate Reading(t: nat)
      requires t < |readers|
    {
      readers[t].Locked? || readers[t].Holding?
    }

    predicate Holds(t: nat, buf: int) {
      t < |readers| && readers[t].Holding? && readers[t].buf == buf
    }

    /** `fn` may be running, on the background buffer. */
    predicate Applying() {
      writer.Pass1? || writer.Pass2?
    }
  }

  datatype Step =
    | GetWrapper(t: nat)
    | StartRead(t: nat)
    | LoadIndex(t: nat)
    | EndRead(t: nat)
    | BeginModify
    | Flip
    | LockRegistry
    | WaitReadDone(key: int)
    | UnlockRegistry
    | EndModify

  predicate WellFormed(s: State) {
    |s.keys| == |s.readers| && s.index < 2
  }

  predicate Enabled(s: State, step: Step)
    requires WellFormed(s)
  {
    match step
    case GetWrapper(t) => t < |s.readers| && s.readers[t].Idle? && !s.writer.Waiting?
    case StartRead(t) => t < |s.readers| && s.readers[t].Registered? && s.keys[t] !in s.locked
    case LoadIndex(t) => t < |s.readers| && s.readers[t].Locked?
    case EndRead(t) => t < |s.readers| && s.readers[t].Holding?
    case BeginModify => s.writer.NoModify?
    case Flip => s.writer.Pass1?
    case LockRegistry => s.writer.Flipped?
    case WaitReadDone(key) => s.writer.Waiting? && key in s.writer.todo && key !in s.locked
    case UnlockRegistry => s.writer == Waiting({})
    case EndModify => s.writer.Pass2?
  }

  function Apply(s: State, step: Step): State
    requires WellFormed(s) && Enabled(s, step)
  {
    match step
    case GetWrapper(t) => s.(readers := s.readers[t := Registered], wrappers := s.wrappers + {s.keys[t]})
    case StartRead(t) => s.(readers := s.readers[t := Locked], locked := s.locked[s.keys[t] := t])
    case LoadIndex(t) => s.(readers := s.readers[t := Holding(s.index)])
    case EndRead(t) => s.(readers := s.readers[t := Idle], locked := s.locked - {s.keys[t]})
    case BeginModify => s.(writer := Pass1)
    case Flip => s.(writer := Flipped, index := 1 - s.index)
    case LockRegistry => s.(writer := Waiting(s.wrappers))
    case WaitReadDone(key) => s.(writer := Waiting(s.writer.todo - {key}))
    case UnlockRegistry => s.(writer := Pass2)
    case EndModify => s.(writer := NoModify)
  }

  predicate Init(s: State) {
    && WellFormed(s)
    && s.index == 0
    && s.wrappers == {} && s.locked == map[]
    && s.writer.NoModify?
    && forall t :: 0 <= t < |s.readers| ==> s.readers[t].Idle?
  }

  ghost predicate Next(s: State, s': State) {
    WellFormed(s) && exists step :: Enabled(s, step) && s' == Apply(s, step)
  }

  ghost predicate IsRun(run: seq<State>) {
    && run != []
    && Init(run[0])
    && forall i :: 0 <= i < |run| - 1 ==> Next(run[i], run[i + 1])
  }

  // ----- The invariant -----

  ghost predicate LocksAgree(s: State)
    requires WellFormed(s)
  {
    && (forall t :: 0 <= t < |s.readers| && !s.readers[t].Idle? ==> s.keys[t] in s.wrappers)
    && (forall t :: 0 <= t < |s.readers| && s.Reading(t) ==> s.keys[t] in s.locked && s.locked[s.keys[t]] == t)
    && (forall k :: k in s.locked ==>
          s.locked[k] < |s.readers| && s.keys[s.locked[k]] == k && s.Reading(s.locked[k]))
  }

  /** Only between the flip and the end of the wait may a scope point at the background buffer, and
      then only a scope whose wrapper the writer still has to wait for. */
  ghost predicate OldScopesAwaited(s: State)
    requires WellFormed(s)
  {
    forall t :: 0 <= t < |s.readers| && s.readers[t].Holding? ==>
      && s.readers[t].buf < 2
      && (s.readers[t].buf == s.index
          || s.writer.Flipped?
          || (s.writer.Waiting? && s.keys[t] in s.writer.todo))
  }

  ghost predicate Inv(s: State) {
    && WellFormed(s)
    && LocksAgree(s)
    && OldScopesAwaited(s)
    && (s.writer.Waiting? ==> s.writer.todo <= s.wrappers)
  }

  lemma InitInv(s: State)
    requires Init(s)
    ensures Inv(s)
  {
  }

  lemma StepKeepsLocks(s: State, step: Step)
    requires WellFormed(s) && LocksAgree(s) && Enabled(s, step)
    ensures WellFormed(Apply(s, step)) && LocksAgree(Apply(s, step))
  {
    match step {
      case GetWrapper(t) =>
      case StartRead(t) =>
      case LoadIndex(t) =>
      case EndRead(t) =>
      case _ =>
    }
  }

  /** A wait ends for a wrapper only when nobody holds it, and so for no scope that is open. */
  lemma StepKeepsAwaited(s: State, step: Step)
    requires WellFormed(s) && LocksAgree(s) && OldScopesAwaited(s) && Enabled(s, step)
    ensures WellFormed(Apply(s, step)) && OldScopesAwaited(Apply(s, step))
  {
    match step {
      case LockRegistry =>
      case WaitReadDone(key) =>
      case UnlockRegistry =>
      case _ => hide LocksAgree;
    }
  }

  lemma StepInv(s: State, step: Step)
    requires Inv(s) && Enabled(s, step)
    ensures Inv(Apply(s, step))
  {
    StepKeepsLocks(s, step);
    StepKeepsAwaited(s, step);
    hide LocksAgree, OldScopesAwaited;
  }

  lemma {:induction false} RunInv(run: seq<State>, i: nat)
    requires IsRun(run) && i < |run|
    ensures Inv(run[i])
  {
    if i == 0 {
      InitInv(run[0]);
    } else {
      RunInv(run, i - 1);
      assert Next(run[i - 1], run[i - 1 + 1]);
      var step :| Enabled(run[i - 1], step) && run[i] == Apply(run[i - 1], step);
      StepInv(run[i - 1], step);
    }
  }

  // ----- Safety -----

  /** In every state of every run: while `fn` is applied to a buffer, no scope points at it. This
      covers threads whose wrapper was made while the modification was already under way. */
  lemma NeverModifiedWhileRead(run: seq<State>, i: nat, t: nat)
    requires IsRun(run) && i < |run| && run[i].Applying()
    ensures !run[i].Holds(t, run[i].Background())
  {
    RunInv(run, i);
  }

  /** Two threads that share a key never read at the same time. */
  lemma SharedKeyExcludes(run: seq<State>, i: nat, t: nat, u: nat)
    requires IsRun(run) && i < |run| && t < |run[i].readers| && u < |run[i].readers| && t != u
    requires |run[i].keys| == |run[i].readers| && run[i].keys[t] == run[i].keys[u]
    ensures !(run[i].Reading(t) && run[i].Reading(u))
  {
    RunInv(run, i);
  }

  // ----- A modification can always finish -----

  ghost predicate AllEnabled(s: State, steps: seq<Step>)
    decreases |steps|
  {
    WellFormed(s) && (steps == [] || (Enabled(s, steps[0]) && AllEnabled(Apply(s, steps[0]), steps[1..])))
  }

  ghost function Exec(s: State, steps: seq<Step>): State
    requires AllEnabled(s, steps)
    decreases |steps|
  {
    if steps == [] then s else Exec(Apply(s, steps[0]), steps[1..])
  }

  /** Steps that only end reads or move the modification on; none starts a read or a modification. */
  predicate Finishing(step: Step) {
    !step.GetWrapper? && !step.StartRead? && !step.BeginModify?
  }

  lemma Prepend(s: State, step: Step, steps: seq<Step>)
    requires Inv(s) && Enabled(s, step) && AllEnabled(Apply(s, step), steps)
    ensures AllEnabled(s, [step] + steps) && Exec(s, [step] + steps) == Exec(Apply(s, step), steps)
  {
    assert ([step] + steps)[1..] == steps;
  }

  /** How far the modification is from its end. */
  function Remaining(s: State): nat {
    match s.writer
    case NoModify => 0
    case Pass2 => 1
    case Waiting(todo) => 2 + |todo|
    case Flipped => 3 + |s.wrappers|
    case Pass1 => 4 + |s.wrappers|
  }

  /** No deadlock: from every state the invariant allows, the modification in progress reaches its
      end by steps that only finish reads already started. */
  lemma {:induction false} ModifyCanFinish(s: State) returns (steps: seq<Step>)
    requires Inv(s)
    ensures AllEnabled(s, steps) && Exec(s, steps).writer.NoModify?
    ensures forall i :: 0 <= i < |steps| ==> Finishing(steps[i])
    decreases Remaining(s)
  {
    match s.writer
    case NoModify => steps := [];
    case Pass1 => steps := AfterStep(s, Flip);
    case Flipped => steps := AfterStep(s, LockRegistry);
    case Pass2 => steps := AfterStep(s, EndModify);
    case Waiting(todo) =>
      if todo == {} {
        steps := AfterStep(s, UnlockRegistry);
      } else {
        var key := SomeElement(todo);
        var release, s1 := ReleaseKey(s, key);
        assert todo - {key} < todo;
        var rest := AfterStep(s1, WaitReadDone(key));
        steps := release + rest;
        ExecConcat(s, release, rest);
      }
  }

  lemma SomeElement<T>(keys: set<T>) returns (key: T)
    requires keys != {}
    ensures key in keys
  {
    key :| key in keys;
  }

  lemma {:induction false} AfterStep(s: State, step: Step) returns (steps: seq<Step>)
    requires Inv(s) && Enabled(s, step) && Finishing(step) && Remaining(Apply(s, step)) < Remaining(s)
    ensures AllEnabled(s, steps) && Exec(s, steps).writer.NoModify?
    ensures forall i :: 0 <= i < |steps| ==> Finishing(steps[i])
    decreases Remaining(s), 0
  {
    StepInv(s, step);
    var rest := ModifyCanFinish(Apply(s, step));
    Prepend(s, step, rest);
    steps := [step] + rest;
  }

  /** The thread that holds a wrapper's mutex can give it back. */
  lemma ReleaseKey(s: State, key: int) returns (steps: seq<Step>, s': State)
    requires Inv(s)
    ensures AllEnabled(s, steps) && s' == Exec(s, steps) && Inv(s')
    ensures key !in s'.locked && s'.writer == s.writer && s'.wrappers == s.wrappers
    ensures forall i :: 0 <= i < |steps| ==> Finishing(steps[i])
  {
    steps, s' := [], s;
    if key in s.locked {
      var t := s.locked[key];
      var s1 := s;
      if s.readers[t].Locked? {
        s1 := Apply(s, LoadIndex(t));
        StepInv(s, LoadIndex(t));
      }
      StepInv(s1, EndRead(t));
      s' := Apply(s1, EndRead(t));
      Prepend(s1, EndRead(t), []);
      steps := [EndRead(t)] + [];
      if s.readers[t].Locked? {
        Prepend(s, LoadIndex(t), steps);
        steps := [LoadIndex(t)] + steps;
      }
    }
  }

  lemma {:induction false} ExecConcat(s: State, a: seq<Step>, b: seq<Step>)
    requires AllEnabled(s, a) && AllEnabled(Exec(s, a), b)
    ensures AllEnabled(s, a + b) && Exec(s, a + b) == Exec(Exec(s, a), b)
    decreases |a|
  {
    if a == [] {
      assert a + b == b;
    } else {
      assert (a + b)[1..] == a[1..] + b;
      ExecConcat(Apply(s, a[0]), a[1..], b);
    }
  }
}
