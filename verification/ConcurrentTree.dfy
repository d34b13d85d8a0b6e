/**
  The locality-aware balancer under concurrency: the protocol of module DoubleBuffer, run together
  with the two buffers, the shared counters and the shared weights. Each step is one critical
  section of a weight's mutex or one atomic operation; a thread's additions to the counters and to
  the total are separate steps that any other step may come between.

  Weights and counters are numbered in the order in which they are created.
 */
module ConcurrentTree {
  import opened Options
  import opened WeightTree
  import opened WeightScale
  import opened ServerLayout
  import opened PendingAdds
  import opened SharedWeights
  import DB = DoubleBuffer

  datatype Op =
    | AddServer(name: ServerName)
    | RemoveServer(name: ServerName)

  /** Where the current application of `Add` or `Remove` stands. */
  datatype Body =
    | Entered
    | Unlinking(k: nat, removed: int)  // Remove: the weight is disabled, nothing is unlinked yet
    | Adding(tasks: seq<Task>)         // the buffer is changed; these additions are left

  type Buffer = Layout<nat, nat>

  datatype State = State(
    ctl: DB.State,
    bufs: seq<Buffer>,
    nodes: seq<Node>,
    lefts: seq<int>,
    total: int,
    work: seq<seq<Task>>,        // per thread
    op: Option<Op>,              // the modification in progress
    body: Body)
  {
    function Fg(): Buffer
      requires |bufs| == 2 && ctl.index < 2
    {
      bufs[ctl.index]
    }

    function Bg(): Buffer
      requires |bufs| == 2 && ctl.index < 2
    {
      bufs[1 - ctl.index]
    }
  }

  datatype Step =
    | Protocol(step: DB.Step)
    | Begin(op: Op)                        // in the order of the outer map, see module OuterMap
    | RunAdd                               // all of Add up to its first fetch_add
    | RunDisable                           // Remove: look up and disable
    | RunUnlink                            // Remove: unlink, with MarkOld or ClearOld
    | RunTask                              // one atomic addition of the modifying thread
    | Flip
    | End
    | Reweigh(t: nat, i: nat, weight: int) // a reader gives position i a new weight
    | ReaderTask(t: nat)                   // one atomic addition of a reader

  predicate WellFormed(s: State) {
    && DB.WellFormed(s.ctl)
    && |s.bufs| == 2
    && |s.work| == |s.ctl.readers|
  }

  predicate FnReturned(s: State) {
    s.body == Adding([])
  }

  predicate Enabled(s: State, step: Step)
    requires WellFormed(s)
  {
    match step
    case Protocol(p) =>
      && DB.Enabled(s.ctl, p) && !p.BeginModify? && !p.Flip? && !p.EndModify?
      && (p.EndRead? ==> s.work[p.t] == [])
    case Begin(op) =>
      && DB.Enabled(s.ctl, DB.BeginModify)
      && (if op.AddServer? then op.name !in s.Fg().index else op.name in s.Fg().index)
    case RunAdd => s.ctl.Applying() && s.body.Entered? && s.op.Some? && s.op.value.AddServer?
    case RunDisable =>
      && s.ctl.Applying() && s.body.Entered? && s.op.Some? && s.op.value.RemoveServer?
      && Lookup(s.Bg(), s.op.value.name) < |s.Bg().tree|
    case RunUnlink =>
      && s.ctl.Applying() && s.body.Unlinking? && s.op.Some?
      && Lookup(s.Bg(), s.op.value.name) < |s.Bg().tree|
    case RunTask => s.ctl.Applying() && s.body.Adding? && s.body.tasks != []
    case Flip => DB.Enabled(s.ctl, DB.Flip) && FnReturned(s)
    case End => DB.Enabled(s.ctl, DB.EndModify) && FnReturned(s)
    case Reweigh(t, i, weight) =>
      && t < |s.ctl.readers| && s.ctl.readers[t].Holding? && s.ctl.readers[t].buf < 2 && s.work[t] == []
      && i < |s.bufs[s.ctl.readers[t].buf].tree| && weight >= MIN_WEIGHT
      && NodeAt(s, s.bufs[s.ctl.readers[t].buf], i).enabled
    case ReaderTask(t) =>
      t < |s.ctl.readers| && s.ctl.readers[t].Holding? && s.ctl.readers[t].buf < 2 && s.work[t] != []
  }

  function NodeAt(s: State, b: Buffer, i: nat): Node
    requires i < |b.tree|
  {
    GetNode(s.nodes, b.tree[i].weight)
  }

  function GetNode(nodes: seq<Node>, id: nat): Node {
    if id < |nodes| then nodes[id] else Node(0, false, 0, 0, None)
  }

  function SetNode(nodes: seq<Node>, id: nat, node: Node): seq<Node> {
    if id < |nodes| then nodes[id := node] else nodes
  }

  // ----- What the code does -----

  /** One `fetch_add` through the buffer `b`. */
  function AddAt(lefts: seq<int>, b: Buffer, tasks: seq<Task>): seq<int>
    requires tasks != []
  {
    match tasks[0]
    case Climb(diff, at) =>
      if at == 0 then lefts
      else
        var parent := Parent(at);
        if at == 2 * parent + 1 && parent < |b.tree| && b.tree[parent].left < |lefts|
        then lefts[b.tree[parent].left := lefts[b.tree[parent].left] + diff]
        else lefts
    case AddTotal(_) => lefts
  }

  function AddBody(s: State): State
    requires WellFormed(s) && Enabled(s, RunAdd)
  {
    var name, bg, fg := s.op.value.name, s.Bg(), s.Fg();
    if name in fg.index then
      // the foreground has it: only the structure changes
      var at := fg.index[name];
      var e := if at < |fg.tree| then fg.tree[at] else Entry(name, 0, 0);
      s.(bufs := s.bufs[1 - s.ctl.index := AddEntry(bg, e, at)], body := Adding([]))
    else
      var n := |bg.tree|;
      var w := InitialWeight(s.total, n);
      s.(bufs := s.bufs[1 - s.ctl.index := AddEntry(bg, Entry(name, |s.lefts|, |s.nodes|), n)],
         nodes := s.nodes + [Node(w, true, 0, 0, None)],
         lefts := s.lefts + [0],
         body := Adding(Propagate(w, n)))
  }

  function DisableBody(s: State): State
    requires WellFormed(s) && Enabled(s, RunDisable)
  {
    var k := Lookup(s.Bg(), s.op.value.name);
    var id := s.Bg().tree[k].weight;
    var node := GetNode(s.nodes, id);
    s.(nodes := SetNode(s.nodes, id, Disabled(node)), body := Unlinking(k, node.weight))
  }

  function UnlinkBody(s: State): State
    requires WellFormed(s) && Enabled(s, RunUnlink)
  {
    var bg, k, removed := s.Bg(), s.body.k, s.body.removed;
    var last := |bg.tree| - 1;
    var s1 := s.(bufs := s.bufs[1 - s.ctl.index := RemoveEntry(bg, s.op.value.name)]);
    if k == last then s1.(body := Adding(Propagate(-removed, k)))
    else
      var id := bg.tree[last].weight;
      var node := GetNode(s.nodes, id);
      if removed != 0 then
        // the first buffer: MarkOld
        s1.(nodes := SetNode(s.nodes, id, Marked(node, last)),
            body := Adding(Propagate(node.weight - removed, k)))
      else
        // the second buffer: ClearOld
        s1.(nodes := SetNode(s.nodes, id, Cleared(node)),
            body := Adding(ClimbOnly(node.oldDiff, k) + ClimbOnly(-node.oldWeight - node.oldDiff, last)
                           + [AddTotal(-node.oldWeight)]))
  }

  function Apply(s: State, step: Step): State
    requires WellFormed(s) && Enabled(s, step)
  {
    match step
    case Protocol(p) => s.(ctl := DB.Apply(s.ctl, p), body := if p.UnlockRegistry? then Entered else s.body)
    case Begin(op) => s.(ctl := DB.Apply(s.ctl, DB.BeginModify), op := Some(op), body := Entered)
    case RunAdd => AddBody(s)
    case RunDisable => DisableBody(s)
    case RunUnlink => UnlinkBody(s)
    case RunTask =>
      s.(lefts := AddAt(s.lefts, s.Bg(), s.body.tasks),
         total := s.total + TaskTotal(s.body.tasks[0]),
         body := Adding(Advanced(s.body.tasks)))
    case Flip => s.(ctl := DB.Apply(s.ctl, DB.Flip))
    case End => s.(ctl := DB.Apply(s.ctl, DB.EndModify), op := None)
    case Reweigh(t, i, weight) =>
      var id := s.bufs[s.ctl.readers[t].buf].tree[i].weight;
      var node := GetNode(s.nodes, id);
      s.(nodes := SetNode(s.nodes, id, Reweighed(node, i, weight)),
         work := s.work[t := Propagate(weight - node.weight, i)])
    case ReaderTask(t) =>
      s.(lefts := AddAt(s.lefts, s.bufs[s.ctl.readers[t].buf], s.work[t]),
         total := s.total + TaskTotal(s.work[t][0]),
         work := s.work[t := Advanced(s.work[t])])
  }

  predicate Init(s: State) {
    && WellFormed(s)
    && DB.Init(s.ctl)
    && s.bufs == [Layout([], map[]), Layout([], map[])]
    && s.nodes == [] && s.lefts == [] && s.total == 0
    && s.op == None
    && FnReturned(s)
    && forall t :: 0 <= t < |s.work| ==> s.work[t] == []
  }

  ghost predicate Next(s: State, s': State) {
    WellFormed(s) && exists step :: Enabled(s, step) && s' == Apply(s, step)
  }

  ghost predicate IsRun(run: seq<State>) {
    && run != []
    && Init(run[0])
    && forall i :: 0 <= i < |run| - 1 ==> Next(run[i], run[i + 1])
  }

  /** A server that is made in this step does not start with weight 0: by that weight Remove recognises its
      second application. */
  predicate StartNonzero(s: State, s': State) {
    |s.nodes| < |s'.nodes| ==> s'.nodes[|s.nodes|].weight != 0
  }

  ghost predicate StartsNonzero(run: seq<State>) {
    forall i :: 0 <= i < |run| - 1 ==> StartNonzero(run[i], run[i + 1])
  }

  // ----- The quantities that are conserved -----

  /** The longer of the two buffers; they differ in length while a modification is half done. */
  function Long(bufs: seq<Buffer>): Buffer
    requires |bufs| == 2
  {
    if |bufs[0].tree| >= |bufs[1].tree| then bufs[0] else bufs[1]
  }

  function Short(bufs: seq<Buffer>): Buffer
    requires |bufs| == 2
  {
    if |bufs[0].tree| >= |bufs[1].tree| then bufs[1] else bufs[0]
  }

  predicate Split(bufs: seq<Buffer>)
    requires |bufs| == 2
  {
    |bufs[0].tree| != |bufs[1].tree|
  }

  function Ids(b: Buffer): (ids: seq<nat>)
    ensures |ids| == |b.tree|
    ensures forall i :: 0 <= i < |b.tree| ==> ids[i] == b.tree[i].weight
  {
    seq(|b.tree|, i requires 0 <= i < |b.tree| => b.tree[i].weight)
  }

  /** The position the removed server has in the longer buffer, while the buffers differ. */
  function Gap(s: State): Option<nat>
    requires WellFormed(s)
  {
    if Split(s.bufs) && s.op.Some? && s.op.value.RemoveServer?
    then Some(Lookup(Long(s.bufs), s.op.value.name)) else None
  }

  /** The position of the server that is disabled. */
  function Doomed(s: State): Option<nat>
    requires WellFormed(s)
  {
    if Gap(s).Some? then Gap(s) else if s.body.Unlinking? then Some(s.body.k) else None
  }

  function ViewOf(s: State): View
    requires WellFormed(s)
  {
    View(Ids(Long(s.bufs)), Ids(Short(s.bufs)), Gap(s), s.nodes)
  }

  /** The additions the modifying thread owes; after Disable it owes the disabled weight. */
  function OwnTasks(body: Body): seq<Task> {
    match body
    case Entered => []
    case Unlinking(k, removed) => Propagate(-removed, k)
    case Adding(tasks) => tasks
  }

  /** Everything still to be added to the counter of position `j`. */
  function PendingLeft(work: seq<seq<Task>>, own: seq<Task>, j: nat): int {
    WorkLeft(work, j) + TasksLeft(own, j)
  }

  function PendingTotal(work: seq<seq<Task>>, own: seq<Task>): int {
    WorkTotal(work) + TasksTotal(own)
  }

  ghost predicate LeftExact(long: Buffer, lefts: seq<int>, c: seq<int>, work: seq<seq<Task>>, own: seq<Task>, j: nat)
    requires j < |long.tree|
  {
    && long.tree[j].left < |lefts|
    && lefts[long.tree[j].left] + PendingLeft(work, own, j) == LeftSum(c, j)
  }

  /** Every counter, and the total, is what the contributions demand once the pending additions are
      made. */
  ghost predicate Conserved(long: Buffer, lefts: seq<int>, total: int, c: seq<int>,
                            work: seq<seq<Task>>, own: seq<Task>) {
    && |c| == |long.tree|
    && total + PendingTotal(work, own) == Sum(c)
    && forall j :: 0 <= j < |long.tree| ==> LeftExact(long, lefts, c, work, own, j)
  }

  // ----- The invariant -----

  /** The changed buffer is the background until the flip and the foreground after it; the two are
      equal before the first application and after the second. */
  ghost predicate PhaseFits(s: State)
    requires WellFormed(s)
  {
    && (s.op.None? <==> s.ctl.writer.NoModify?)
    && (match s.ctl.writer
        case NoModify => !Split(s.bufs) && FnReturned(s)
        case Pass1 => if s.body.Adding? then Split(s.bufs) && ChangedIs(s, s.Bg()) else !Split(s.bufs)
        case Pass2 => if s.body.Adding? then !Split(s.bufs) else Split(s.bufs) && ChangedIs(s, s.Fg())
        case _ => FnReturned(s) && Split(s.bufs) && ChangedIs(s, s.Fg()))
    && (s.op.Some? && !Split(s.bufs) && s.ctl.writer.Pass1? ==>
          if s.op.value.AddServer? then s.op.value.name !in s.Fg().index else s.op.value.name in s.Fg().index)
    && (s.body.Unlinking? ==>
          && s.op.Some? && s.op.value.RemoveServer? && s.op.value.name in s.Bg().index
          && s.body.k == s.Bg().index[s.op.value.name])
  }

  ghost predicate ChangedIs(s: State, b: Buffer)
    requires WellFormed(s)
  {
    s.op.Some? && b == if s.op.value.AddServer? then Long(s.bufs) else Short(s.bufs)
  }

  /** While the buffers differ, the longer is the shorter plus the added server, or the shorter is
      the longer without the removed one. */
  ghost predicate OneOpApart(op: Op, long: Buffer, short: Buffer) {
    match op
    case AddServer(name) =>
      && |long.tree| == |short.tree| + 1
      && long.tree[|short.tree|].name == name && name !in short.index
      && long == AddEntry(short, long.tree[|short.tree|], |short.tree|)
    case RemoveServer(name) =>
      name in long.index && Lookup(long, name) < |long.tree| && short == RemoveEntry(long, name)
  }

  ghost predicate LeftsDistinct(b: Buffer) {
    forall i, j :: 0 <= i < j < |b.tree| ==> b.tree[i].left != b.tree[j].left
  }

  ghost predicate LayoutsFit(s: State)
    requires WellFormed(s)
  {
    && Aligned(Long(s.bufs)) && Aligned(Short(s.bufs))
    && LeftsDistinct(Long(s.bufs))
    && (forall i :: 0 <= i < |Long(s.bufs).tree| ==> Long(s.bufs).tree[i].left < |s.lefts|)
    && (if Split(s.bufs) then s.op.Some? && OneOpApart(s.op.value, Long(s.bufs), Short(s.bufs))
        else s.bufs[0] == s.bufs[1])
  }

  /** The weight returned by Disable tells the two applications of Remove apart. */
  ghost predicate PassDetected(s: State) {
    s.body.Unlinking? ==>
      if s.ctl.writer.Pass1? then s.body.removed != 0 else s.ctl.writer.Pass2? && s.body.removed == 0
  }

  ghost predicate WorkFits(s: State)
    requires WellFormed(s)
  {
    && (forall t :: 0 <= t < |s.work| ==> ThreadFits(s, t))
    && (s.body.Adding? && s.body.tasks != [] ==> s.ctl.Applying() && TasksWithin(s.body.tasks, |s.Bg().tree|))
  }

  ghost predicate ThreadFits(s: State, t: nat)
    requires WellFormed(s) && t < |s.work|
  {
    if s.ctl.readers[t].Holding? then
      s.ctl.readers[t].buf < 2 && TasksWithin(s.work[t], |s.bufs[s.ctl.readers[t].buf].tree|)
    else s.work[t] == []
  }

  ghost predicate Inv(s: State) {
    && WellFormed(s)
    && DB.Inv(s.ctl)
    && PhaseFits(s)
    && LayoutsFit(s)
    && NodesOk(ViewOf(s), Doomed(s))
    && PassDetected(s)
    && WorkFits(s)
    && Conserved(Long(s.bufs), s.lefts, s.total, Contributions(ViewOf(s)), s.work, OwnTasks(s.body))
  }
}
