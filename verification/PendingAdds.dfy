/**
  The atomic additions a thread still has to make after it changed a weight: the climb of
  `UpdateParentWeight` from a position to the root, one `fetch_add` at a time, then the addition to
  the total.
 */
module PendingAdds {
  import opened WeightTree

  datatype Task =
    | Climb(diff: int, at: nat)   // the loop of UpdateParentWeight stands at position `at`
    | AddTotal(diff: int)

  /** What a climb still adds to the counter of position `j`. */
  function TaskLeft(task: Task, j: nat): int {
    match task
    case Climb(diff, at) => if InLeft(j, at) then diff else 0
    case AddTotal(_) => 0
  }

  function TaskTotal(task: Task): int {
    if task.AddTotal? then task.diff else 0
  }

  function TasksLeft(tasks: seq<Task>, j: nat): int {
    if tasks == [] then 0 else TaskLeft(tasks[0], j) + TasksLeft(tasks[1..], j)
  }

  function TasksTotal(tasks: seq<Task>): int {
    if tasks == [] then 0 else TaskTotal(tasks[0]) + TasksTotal(tasks[1..])
  }

  predicate TasksWithin(tasks: seq<Task>, n: nat) {
    forall i :: 0 <= i < |tasks| && tasks[i].Climb? ==> tasks[i].at <= n
  }

  /** The rest of the work after the first task has made one turn of its loop. */
  function Advanced(tasks: seq<Task>): seq<Task>
    requires tasks != []
  {
    match tasks[0]
    case Climb(diff, at) => if at == 0 then tasks[1..] else [Climb(diff, Parent(at))] + tasks[1..]
    case AddTotal(_) => tasks[1..]
  }

  /** The counter this turn adds to: that of the parent, if the climb came up from its left child. */
  predicate AddsAt(tasks: seq<Task>, j: nat)
    requires tasks != []
  {
    tasks[0].Climb? && tasks[0].at != 0 && Parent(tasks[0].at) == j && tasks[0].at == 2 * j + 1
  }

  /** One turn takes off the pending amount of every counter exactly what it adds to it. */
  lemma AdvanceConserves(tasks: seq<Task>, j: nat)
    requires tasks != []
    ensures TasksLeft(Advanced(tasks), j) + (if AddsAt(tasks, j) then tasks[0].diff else 0) == TasksLeft(tasks, j)
    ensures TasksTotal(Advanced(tasks)) + TaskTotal(tasks[0]) == TasksTotal(tasks)
  {
    match tasks[0]
    case Climb(diff, at) =>
      if at == 0 {
        NothingLeftOfRoot(j);
      } else {
        ClimbStep(j, at);
        assert ([Climb(diff, Parent(at))] + tasks[1..])[1..] == tasks[1..];
      }
    case AddTotal(_) =>
  }

  lemma AdvanceStaysWithin(tasks: seq<Task>, n: nat)
    requires tasks != [] && TasksWithin(tasks, n)
    ensures TasksWithin(Advanced(tasks), n)
    ensures forall j: nat :: AddsAt(tasks, j) ==> j < n
  {
    var rest := Advanced(tasks);
    forall i | 0 <= i < |rest| && rest[i].Climb? ensures rest[i].at <= n {
      if tasks[0].Climb? && tasks[0].at != 0 {
        assert i > 0 ==> rest[i] == tasks[i];
      } else {
        assert rest[i] == tasks[i + 1];
      }
    }
  }

  lemma {:induction false} NothingPendingBeyond(tasks: seq<Task>, n: nat, j: nat)
    requires TasksWithin(tasks, n) && n <= 2 * j
    ensures TasksLeft(tasks, j) == 0
  {
    if tasks != [] {
      if tasks[0].Climb? {
        SubtreeIsBelow(2 * j + 1, tasks[0].at);
      }
      NothingPendingBeyond(tasks[1..], n, j);
    }
  }

  /** The additions that go with a weight change of `diff` at position `at`; a zero change has none. */
  function Propagate(diff: int, at: nat): seq<Task> {
    if diff == 0 then [] else [Climb(diff, at), AddTotal(diff)]
  }

  function ClimbOnly(diff: int, at: nat): seq<Task> {
    if diff == 0 then [] else [Climb(diff, at)]
  }

  lemma PropagateAmounts(diff: int, at: nat, j: nat)
    ensures TasksLeft(Propagate(diff, at), j) == if InLeft(j, at) then diff else 0
    ensures TasksTotal(Propagate(diff, at)) == diff
  {
    if diff != 0 {
      assert Propagate(diff, at) == [Climb(diff, at)] + [AddTotal(diff)];
      ConcatAmounts([Climb(diff, at)], [AddTotal(diff)], j);
    }
  }

  lemma ClearOldAmounts(oldWeight: int, oldDiff: int, k: nat, last: nat, j: nat)
    ensures var tasks := ClimbOnly(oldDiff, k) + ClimbOnly(-oldWeight - oldDiff, last) + [AddTotal(-oldWeight)];
            && TasksLeft(tasks, j) == (if InLeft(j, k) then oldDiff else 0)
                                      - (if InLeft(j, last) then oldWeight + oldDiff else 0)
            && TasksTotal(tasks) == -oldWeight
  {
    ConcatAmounts(ClimbOnly(oldDiff, k), ClimbOnly(-oldWeight - oldDiff, last), j);
    ConcatAmounts(ClimbOnly(oldDiff, k) + ClimbOnly(-oldWeight - oldDiff, last), [AddTotal(-oldWeight)], j);
  }

  lemma {:induction false} ConcatAmounts(a: seq<Task>, b: seq<Task>, j: nat)
    ensures TasksLeft(a + b, j) == TasksLeft(a, j) + TasksLeft(b, j)
    ensures TasksTotal(a + b) == TasksTotal(a) + TasksTotal(b)
  {
    if a == [] {
      assert a + b == b;
    } else {
      assert (a + b)[1..] == a[1..] + b;
      ConcatAmounts(a[1..], b, j);
    }
  }

  // ----- The work of all threads -----

  function WorkLeft(work: seq<seq<Task>>, j: nat): int {
    if work == [] then 0 else WorkLeft(work[..|work| - 1], j) + TasksLeft(work[|work| - 1], j)
  }

  function WorkTotal(work: seq<seq<Task>>): int {
    if work == [] then 0 else WorkTotal(work[..|work| - 1]) + TasksTotal(work[|work| - 1])
  }

  lemma {:induction false} WorkUpdate(work: seq<seq<Task>>, t: nat, tasks: seq<Task>, j: nat)
    requires t < |work|
    ensures WorkLeft(work[t := tasks], j) == WorkLeft(work, j) - TasksLeft(work[t], j) + TasksLeft(tasks, j)
    ensures WorkTotal(work[t := tasks]) == WorkTotal(work) - TasksTotal(work[t]) + TasksTotal(tasks)
  {
    var n := |work| - 1;
    if t == n {
      assert work[t := tasks][..n] == work[..n];
    } else {
      assert work[t := tasks][..n] == work[..n][t := tasks];
      WorkUpdate(work[..n], t, tasks, j);
    }
  }

  lemma {:induction false} NoWorkBeyond(work: seq<seq<Task>>, n: nat, j: nat)
    requires (forall t :: 0 <= t < |work| ==> TasksWithin(work[t], n)) && n <= 2 * j
    ensures WorkLeft(work, j) == 0
  {
    if work != [] {
      NoWorkBeyond(work[..|work| - 1], n, j);
      NothingPendingBeyond(work[|work| - 1], n, j);
    }
  }

  lemma {:induction false} NoWork(work: seq<seq<Task>>, j: nat)
    requires forall t :: 0 <= t < |work| ==> work[t] == []
    ensures WorkLeft(work, j) == 0 && WorkTotal(work) == 0
  {
    if work != [] {
      NoWork(work[..|work| - 1], j);
    }
  }
}
