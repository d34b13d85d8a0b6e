/**
  How a processor takes in new coroutines: producers push to one queue under a lock while the loop
  thread drains the other one without it; at the start of a round the loop swaps the two.
  Each step is one access to shared state.
 */
module Processor {
  import opened Options

  type Coroutine = int

  datatype Loop =
    | Elsewhere                 // waiting for events, resuming timers and active coroutines
    | Prepared(queue: nat)      // `runningQue` has been computed
    | Draining(queue: nat)      // the swap is done

  datatype State = State(
    queues: seq<seq<Coroutine>>,
    running: nat,                       // runningNewQue_
    lock: Option<seq<Coroutine>>,       // held by a producer that still has to push these
    loop: Loop,
    pushed: seq<Coroutine>,       // history: all pushes so far
    taken: seq<Coroutine>,        // history: all coroutines the loop has taken
    round: nat)                   // history: how many had been pushed at the last swap

  datatype Step =
    | Acquire(batch: seq<Coroutine>)
    | Push
    | Release
    | Prepare
    | Swap
    | Pop
    | EndRound

  ghost predicate Init(s: State) {
    s == State([[], []], 0, None, Elsewhere, [], [], 0)
  }

  ghost predicate WellFormed(s: State) {
    |s.queues| == 2 && s.running < 2 && (s.loop.Draining? ==> s.loop.queue < 2)
  }

  ghost predicate Enabled(s: State, step: Step) {
    && WellFormed(s)
    && match step
       case Acquire(_) => s.lock == None
       case Push => s.lock.Some? && s.lock.value != []
       case Release => s.lock == Some([])
       case Prepare => s.loop.Elsewhere?
       case Swap => s.loop.Prepared? && s.lock == None
       case Pop => s.loop.Draining? && s.queues[s.loop.queue] != []
       case EndRound => s.loop.Draining? && s.queues[s.loop.queue] == []
  }

  ghost function Apply(s: State, step: Step): State
    requires Enabled(s, step)
  {
    match step
    case Acquire(batch) => s.(lock := Some(batch))
    case Push =>
      var q, c := 1 - s.running, s.lock.value[0];
      s.(queues := s.queues[q := s.queues[q] + [c]], lock := Some(s.lock.value[1..]), pushed := s.pushed + [c])
    case Release => s.(lock := None)
    case Prepare => s.(loop := Prepared(1 - s.running))
    case Swap => s.(running := 1 - s.running, loop := Draining(s.loop.queue), round := |s.pushed|)
    case Pop =>
      var q := s.loop.queue;
      s.(queues := s.queues[q := s.queues[q][1..]], taken := s.taken + [s.queues[q][0]])
    case EndRound => s.(loop := Elsewhere)
  }

  ghost predicate Next(s: State, s': State) {
    exists step :: Enabled(s, step) && s' == Apply(s, step)
  }

  ghost predicate IsRun(run: seq<State>) {
    && run != [] && Init(run[0])
    && forall i :: 0 <= i < |run| - 1 ==> Next(run[i], run[i + 1])
  }

  /** Nothing is lost, doubled or reordered: what was taken, then what the loop still has to take, then
      what waits for the next round, is everything that was pushed, in order. */
  ghost predicate Inv(s: State) {
    && WellFormed(s)
    && s.taken + s.queues[s.running] + s.queues[1 - s.running] == s.pushed
    && s.round <= |s.pushed|
    && match s.loop
       case Elsewhere => s.queues[s.running] == [] && |s.taken| == s.round
       case Prepared(q) => s.queues[s.running] == [] && |s.taken| == s.round && q == 1 - s.running
       case Draining(q) => q == s.running && |s.taken| + |s.queues[s.running]| == s.round
  }

  lemma StepInv(s: State, step: Step)
    requires Inv(s) && Enabled(s, step)
    ensures Inv(Apply(s, step))
  {
    var s' := Apply(s, step);
    match step {
      case Push =>
        var q := 1 - s.running;
        assert s'.queues[q] == s.queues[q] + [s.lock.value[0]] && s'.queues[s.running] == s.queues[s.running];
        assert s.taken + s.queues[s.running] + (s.queues[q] + [s.lock.value[0]]) == s'.pushed;
      case Swap =>
        assert s.taken + [] + s.queues[s'.running] == s.taken + s.queues[s'.running] + [];
      case Pop =>
        var q := s.loop.queue;
        assert s.queues[q] == [s.queues[q][0]] + s.queues[q][1..];
        assert s'.taken + s'.queues[q] == s.taken + s.queues[q];
      case _ =>
    }
  }

  lemma {:induction false} RunInv(run: seq<State>, i: nat)
    requires IsRun(run) && i < |run|
    ensures Inv(run[i])
  {
    if i > 0 {
      RunInv(run, i - 1);
      assert Next(run[i - 1], run[i - 1 + 1]);
      var step :| Enabled(run[i - 1], step) && run[i] == Apply(run[i - 1], step);
      StepInv(run[i - 1], step);
    }
  }

  /** In every reachable state the loop has taken each pushed coroutine at most once, in push order, and
      the rest is in the queues. */
  lemma TakenInPushOrder(run: seq<State>, i: nat)
    requires IsRun(run) && i < |run|
    ensures WellFormed(run[i])
    ensures var s := run[i];
            && |s.taken| <= |s.pushed|
            && s.taken == s.pushed[..|s.taken|]
            && s.queues[s.running] + s.queues[1 - s.running] == s.pushed[|s.taken|..]
  {
    RunInv(run, i);
    var s := run[i];
    assert s.pushed == s.taken + (s.queues[s.running] + s.queues[1 - s.running]);
  }

  /** The unlocked `front` and `pop` never touch the queue that a producer may be pushing to. */
  lemma PopAndPushNeverMeet(run: seq<State>, i: nat)
    requires IsRun(run) && i < |run| && Enabled(run[i], Pop) && Enabled(run[i], Push)
    ensures run[i].loop.queue != 1 - run[i].running
    ensures Apply(Apply(run[i], Pop), Push) == Apply(Apply(run[i], Push), Pop)
  {
    RunInv(run, i);
    var s := run[i];
    var q, p := s.loop.queue, 1 - s.running;
    assert Apply(s, Pop).queues[p] == s.queues[p] && Apply(s, Push).queues[q] == s.queues[q];
    assert Apply(Apply(s, Pop), Push).queues == Apply(Apply(s, Push), Pop).queues;
  }

  /** A round takes exactly what had been pushed when it began. */
  lemma RoundTakesWhatItFound(run: seq<State>, i: nat)
    requires IsRun(run) && i < |run| && Enabled(run[i], EndRound)
    ensures run[i].round <= |run[i].pushed|
    ensures run[i].taken == run[i].pushed[..run[i].round]
  {
    RunInv(run, i);
    TakenInPushOrder(run, i);
  }
}
