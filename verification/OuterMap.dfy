/**
  The map that `add_server` and `remove_server` consult, under a mutex of its own, before they modify
  the buffers. Between that check and its modification a caller holds no lock, so the modifications
  need not happen in the order of the checks. A modification as a whole excludes the others and leaves
  both buffers the same, so here it is one step on one layout; only names matter.
 */
module OuterMap {
  import opened Options
  import opened ServerLayout
  import CT = ConcurrentTree

  datatype Request = Add(name: ServerName) | Remove(name: ServerName)

  type Servers = Layout<(), ()>

  datatype State = State(
    counts: map<ServerName, nat>,
    waiting: seq<Request>,       // accepted by the map, modification not begun
    layout: Option<Servers>,     // None once a modification has read past the end of the vector
    accepted: seq<Request>,
    begun: seq<Request>)

  datatype Step =
    | CheckAdd(name: ServerName)
    | CheckRemove(name: ServerName)
    | Modify(i: nat)             // of the caller whose request is waiting at `i`

  predicate Enabled(s: State, step: Step) {
    step.Modify? ==> step.i < |s.waiting|
  }

  // ----- What the code does -----

  /** `Add` or `Remove`, applied to `bg`. */
  function Once(bg: Servers, fg: Servers, r: Request): Option<Servers> {
    match r
    case Add(name) =>
      if name in fg.index then
        var at := fg.index[name];
        if at < |fg.tree| then Some(Layout(bg.tree + [fg.tree[at]], bg.index[name := at])) else None
      else Some(AddEntry(bg, Entry(name, (), ()), |bg.tree|))
    case Remove(name) => if Lookup(bg, name) < |bg.tree| then Some(RemoveEntry(bg, name)) else None
  }

  /** Both applications. */
  function Twice(l: Servers, r: Request): Option<Servers> {
    match Once(l, l, r)
    case None => None
    case Some(first) => Once(l, first, r)
  }

  function Modified(layout: Option<Servers>, r: Request): Option<Servers> {
    match layout
    case None => None
    case Some(l) => Twice(l, r)
  }

  function Apply(s: State, step: Step): State
    requires Enabled(s, step)
  {
    match step
    case CheckAdd(name) =>
      var count := (if name in s.counts then s.counts[name] else 0) + 1;
      var s1 := s.(counts := s.counts[name := count]);
      if count != 1 then s1
      else s1.(waiting := s.waiting + [Add(name)], accepted := s.accepted + [Add(name)])
    case CheckRemove(name) =>
      if name !in s.counts then s
      else s.(counts := s.counts - {name},
              waiting := s.waiting + [Remove(name)], accepted := s.accepted + [Remove(name)])
    case Modify(i) =>
      s.(waiting := s.waiting[..i] + s.waiting[i + 1..], layout := Modified(s.layout, s.waiting[i]),
         begun := s.begun + [s.waiting[i]])
  }

  predicate Init(s: State) {
    s == State(map[], [], Some(Layout([], map[])), [], [])
  }

  ghost predicate Next(s: State, s': State) {
    exists step :: Enabled(s, step) && s' == Apply(s, step)
  }

  ghost predicate IsRun(run: seq<State>) {
    && run != []
    && Init(run[0])
    && forall i :: 0 <= i < |run| - 1 ==> Next(run[i], run[i + 1])
  }

  /** Both applications leave the same layout, if there is one. */
  lemma SecondRepeatsFirst(l: Servers, r: Request)
    ensures Twice(l, r) == Once(l, l, r)
  {
  }

  // ----- The requests for one name -----

  function Of(rs: seq<Request>, name: ServerName): seq<Request> {
    if rs == [] then []
    else
      var last := rs[|rs| - 1];
      Of(rs[..|rs| - 1], name) + if last.name == name then [last] else []
  }

  function Count(rs: seq<Request>, r: Request): nat {
    if rs == [] then 0 else Count(rs[..|rs| - 1], r) + if rs[|rs| - 1] == r then 1 else 0
  }

  lemma {:induction false} CountConcat(a: seq<Request>, b: seq<Request>, r: Request)
    ensures Count(a + b, r) == Count(a, r) + Count(b, r)
  {
    if b == [] {
      assert a + b == a;
    } else {
      assert (a + b)[..|a + b| - 1] == a + b[..|b| - 1];
      CountConcat(a, b[..|b| - 1], r);
    }
  }

  lemma CountOne(x: Request, r: Request)
    ensures Count([x], r) == if x == r then 1 else 0
  {
    assert [x][..0] == [];
  }

  /** Additions and removals of the name in turn, an addition first. */
  ghost predicate Alternating(rs: seq<Request>, name: ServerName) {
    forall i :: 0 <= i < |rs| ==> rs[i] == if i % 2 == 0 then Add(name) else Remove(name)
  }

  ghost predicate InOrder(rs: seq<Request>) {
    forall name :: Alternating(Of(rs, name), name)
  }

  lemma OfAppend(rs: seq<Request>, r: Request, name: ServerName)
    ensures Of(rs + [r], name) == Of(rs, name) + if r.name == name then [r] else []
  {
    assert (rs + [r])[..|rs|] == rs;
  }

  /** What the next modification for the name has to be. */
  predicate Due(rs: seq<Request>, r: Request) {
    r.Add? <==> |Of(rs, r.name)| % 2 == 0
  }

  lemma AppendInOrder(rs: seq<Request>, r: Request)
    ensures InOrder(rs + [r]) <==> InOrder(rs) && Due(rs, r)
  {
    forall name ensures Of(rs + [r], name) == Of(rs, name) + if r.name == name then [r] else [] {
      OfAppend(rs, r, name);
    }
    if InOrder(rs + [r]) {
      forall name ensures Alternating(Of(rs, name), name) {
        var longer := Of(rs + [r], name);
        assert Alternating(longer, name);
        forall i | 0 <= i < |Of(rs, name)|
          ensures Of(rs, name)[i] == if i % 2 == 0 then Add(name) else Remove(name)
        {
          assert Of(rs, name)[i] == longer[i];
        }
      }
      var last := Of(rs + [r], r.name);
      assert Alternating(last, r.name) && last[|last| - 1] == r;
    }
    if InOrder(rs) && Due(rs, r) {
      forall name ensures Alternating(Of(rs + [r], name), name) {
        assert Alternating(Of(rs, name), name);
      }
    }
  }

  // ----- The layout -----

  /** The layout holds exactly the names that were added last. */
  ghost predicate Sound(s: State) {
    s.layout.Some? && Aligned(s.layout.value)
  }

  ghost predicate Present(layout: Option<Servers>, rs: seq<Request>) {
    && layout.Some? && Aligned(layout.value)
    && forall name :: name in layout.value.index <==> |Of(rs, name)| % 2 == 1
  }

  lemma DueKeepsPresent(layout: Option<Servers>, rs: seq<Request>, r: Request)
    requires Present(layout, rs) && Due(rs, r)
    ensures Present(Modified(layout, r), rs + [r])
  {
    var l := layout.value;
    SecondRepeatsFirst(l, r);
    if r.Add? {
      AddKeepsAligned(l, Entry(r.name, (), ()));
    } else {
      RemoveKeepsAligned(l, r.name);
    }
    hide AddEntry, RemoveEntry, Aligned, Twice;
    var l' := Modified(layout, r).value;
    forall name ensures name in l'.index <==> |Of(rs + [r], name)| % 2 == 1 {
      OfAppend(rs, r, name);
      assert name in l'.index <==> name in l'.index.Keys;
    }
  }

  lemma UndueBreaks(layout: Option<Servers>, rs: seq<Request>, r: Request)
    requires Present(layout, rs) && !Due(rs, r)
    ensures Modified(layout, r).None? || !Aligned(Modified(layout, r).value)
  {
    var l := layout.value;
    SecondRepeatsFirst(l, r);
    if r.Remove? {
      hide RemoveEntry;
      if l.tree != [] {
        RemoveOfAbsentHitsTheFirst(l, r.name);
      }
    } else {
      var l' := Modified(layout, r).value;
      assert l'.tree[|l.tree|].name == r.name && l'.index[r.name] < |l.tree|;
    }
  }

  // ----- Over a run -----

  ghost predicate Recorded(s: State) {
    && (forall r :: Count(s.accepted, r) == Count(s.begun, r) + Count(s.waiting, r))
    && InOrder(s.accepted)
    && (forall name :: name in s.counts ==> s.counts[name] >= 1)
    && forall name :: name in s.counts <==> |Of(s.accepted, name)| % 2 == 1
  }

  /** The outer map lets the request through. */
  predicate Passes(s: State, r: Request) {
    r.name in s.counts <==> r.Remove?
  }

  lemma PassKeepsRecorded(s: State, s': State, r: Request)
    requires Recorded(s) && Passes(s, r) && forall name :: name in s'.counts ==> s'.counts[name] >= 1
    requires s' == s.(counts := s'.counts, waiting := s.waiting + [r], accepted := s.accepted + [r])
    requires s'.counts.Keys == if r.Add? then s.counts.Keys + {r.name} else s.counts.Keys - {r.name}
    ensures Recorded(s')
  {
    AppendInOrder(s.accepted, r);
    hide InOrder, Of, Count;
    forall name ensures name in s'.counts <==> |Of(s'.accepted, name)| % 2 == 1 {
      assert name in s'.counts <==> name in s'.counts.Keys;
      OfAppend(s.accepted, r, name);
    }
    forall x ensures Count(s'.accepted, x) == Count(s'.begun, x) + Count(s'.waiting, x) {
      CountConcat(s.accepted, [r], x);
      CountConcat(s.waiting, [r], x);
    }
  }

  lemma CheckKeepsRecorded(s: State, r: Request)
    requires Recorded(s)
    ensures Recorded(Apply(s, if r.Add? then CheckAdd(r.name) else CheckRemove(r.name)))
  {
    hide InOrder, Of, Count;
    if Passes(s, r) {
      PassKeepsRecorded(s, Apply(s, if r.Add? then CheckAdd(r.name) else CheckRemove(r.name)), r);
    }
  }

  lemma ModifyKeepsRecorded(s: State, i: nat)
    requires Recorded(s) && i < |s.waiting|
    ensures Recorded(Apply(s, Modify(i)))
  {
    hide InOrder, Modified;
    var front, r, back := s.waiting[..i], s.waiting[i], s.waiting[i + 1..];
    assert s.waiting == front + [r] + back;
    forall x ensures Count(s.accepted, x) == Count(s.begun + [r], x) + Count(front + back, x) {
      CountConcat(s.begun, [r], x);
      CountConcat(front + [r], back, x);
      CountConcat(front, [r], x);
      CountConcat(front, back, x);
    }
  }

  lemma StepKeepsRecorded(s: State, step: Step)
    requires Recorded(s) && Enabled(s, step)
    ensures Recorded(Apply(s, step))
  {
    hide InOrder, Of;
    match step {
      case Modify(i) => ModifyKeepsRecorded(s, i);
      case CheckAdd(name) => CheckKeepsRecorded(s, Add(name));
      case CheckRemove(name) => CheckKeepsRecorded(s, Remove(name));
    }
  }

  lemma {:induction false} RunRecorded(run: seq<State>, i: nat)
    requires IsRun(run) && i < |run|
    ensures Recorded(run[i])
  {
    if i > 0 {
      RunRecorded(run, i - 1);
      assert Next(run[i - 1], run[i - 1 + 1]);
      var step :| Enabled(run[i - 1], step) && run[i] == Apply(run[i - 1], step);
      StepKeepsRecorded(run[i - 1], step);
    }
  }

  /** As long as the modifications are in order the layout is what they make of it, and the first that is
      not in order leaves it misaligned. */
  /** A modification that is due keeps the layout as the requests demand, any other breaks it. */
  lemma ModifyInOrder(s: State, i: nat)
    requires i < |s.waiting| && (InOrder(s.begun) ==> Present(s.layout, s.begun))
    ensures var s' := Apply(s, Modify(i));
            && (InOrder(s'.begun) ==> InOrder(s.begun) && Present(s'.layout, s'.begun))
            && (InOrder(s.begun) ==> (Sound(s') <==> InOrder(s'.begun)))
  {
    hide Modified, InOrder, Due, Of, Aligned;
    var r := s.waiting[i];
    AppendInOrder(s.begun, r);
    if InOrder(s.begun) {
      if Due(s.begun, r) {
        DueKeepsPresent(s.layout, s.begun, r);
      } else {
        UndueBreaks(s.layout, s.begun, r);
      }
    }
  }

  lemma StepInOrder(s: State, s': State)
    requires Next(s, s') && (InOrder(s.begun) ==> Present(s.layout, s.begun))
    ensures InOrder(s'.begun) ==> InOrder(s.begun) && Present(s'.layout, s'.begun)
    ensures InOrder(s.begun) && Sound(s) ==> (Sound(s') <==> InOrder(s'.begun))
  {
    hide Modified, InOrder, Present, Aligned;
    var step :| Enabled(s, step) && s' == Apply(s, step);
    if step.Modify? {
      ModifyInOrder(s, step.i);
    }
  }

  lemma {:induction false} SoundIffInOrder(run: seq<State>, i: nat)
    requires IsRun(run) && i < |run|
    ensures (forall j :: 0 <= j <= i ==> Sound(run[j])) <==> InOrder(run[i].begun)
    ensures InOrder(run[i].begun) ==> Present(run[i].layout, run[i].begun)
  {
    if i > 0 {
      SoundIffInOrder(run, i - 1);
      assert Next(run[i - 1], run[i - 1 + 1]);
      StepInOrder(run[i - 1], run[i]);
      hide IsRun, Next, Sound, Present, InOrder;
      assert (forall j :: 0 <= j <= i ==> Sound(run[j])) <==>
             (forall j :: 0 <= j <= i - 1 ==> Sound(run[j])) && Sound(run[i]);
    } else {
      assert run[i] == run[0];
    }
  }

  // ----- The order of the checks -----

  lemma OfCountsLast(front: seq<Request>, last: Request, r: Request)
    requires Count(Of(front, r.name), r) == Count(front, r)
    ensures Count(Of(front + [last], r.name), r) == Count(front + [last], r)
  {
    hide Of, Count;
    OfAppend(front, last, r.name);
    CountConcat(front, [last], r);
    CountOne(last, r);
    if last.name == r.name {
      CountConcat(Of(front, r.name), [last], r);
    } else {
      assert Of(front, r.name) + [] == Of(front, r.name);
    }
  }

  lemma {:induction false} OfCounts(rs: seq<Request>, r: Request)
    ensures Count(Of(rs, r.name), r) == Count(rs, r)
  {
    if rs != [] {
      var front, last := rs[..|rs| - 1], rs[|rs| - 1];
      assert rs == front + [last];
      OfCounts(front, r);
      OfCountsLast(front, last, r);
    }
  }

  lemma {:induction false} SizeOf(rs: seq<Request>, name: ServerName)
    ensures |Of(rs, name)| == Count(rs, Add(name)) + Count(rs, Remove(name))
  {
    if rs != [] {
      SizeOf(rs[..|rs| - 1], name);
    }
  }

  lemma {:induction false} AlternatingCounts(rs: seq<Request>, name: ServerName)
    requires Alternating(rs, name)
    ensures Count(rs, Add(name)) - Count(rs, Remove(name)) as int == |rs| % 2
  {
    if rs != [] {
      AlternatingCounts(rs[..|rs| - 1], name);
    }
  }

  /** The additions and removals of the name that are waiting, if the modifications so far are in order. */
  lemma WaitingCounts(s: State, name: ServerName)
    requires Recorded(s) && InOrder(s.begun)
    ensures var adds: int, removes: int := Count(s.waiting, Add(name)), Count(s.waiting, Remove(name));
            && adds + removes == |Of(s.accepted, name)| - |Of(s.begun, name)|
            && adds - removes == |Of(s.accepted, name)| % 2 - |Of(s.begun, name)| % 2
  {
    assert Alternating(Of(s.accepted, name), name) && Alternating(Of(s.begun, name), name);
    hide Of, Alternating, Count;
    AlternatingCounts(Of(s.accepted, name), name);
    AlternatingCounts(Of(s.begun, name), name);
    SizeOf(s.accepted, name);
    SizeOf(s.begun, name);
    OfCounts(s.accepted, Add(name));
    OfCounts(s.accepted, Remove(name));
    OfCounts(s.begun, Add(name));
    OfCounts(s.begun, Remove(name));
  }

  /** Modifications are in order exactly if, for every name, they are those that were accepted first, in
      the order in which they were accepted. */
  lemma InOrderIffPrefix(s: State)
    requires Recorded(s)
    ensures InOrder(s.begun) <==> forall name :: Of(s.begun, name) <= Of(s.accepted, name)
  {
    if InOrder(s.begun) {
      forall name ensures Of(s.begun, name) <= Of(s.accepted, name) {
        WaitingCounts(s, name);
        assert Alternating(Of(s.begun, name), name) && Alternating(Of(s.accepted, name), name);
      }
    } else {
      var name :| !Alternating(Of(s.begun, name), name);
      assert Alternating(Of(s.accepted, name), name);
      assert !(Of(s.begun, name) <= Of(s.accepted, name));
    }
  }

  /** The buffers stay aligned throughout a run if and only if, for every name, its modifications happen
      in the order in which the outer map accepted them. */
  lemma AlignedIffOrderKept(run: seq<State>, i: nat)
    requires IsRun(run) && i < |run|
    ensures (forall j :: 0 <= j <= i ==> Sound(run[j]))
            <==> forall name :: Of(run[i].begun, name) <= Of(run[i].accepted, name)
  {
    RunRecorded(run, i);
    SoundIffInOrder(run, i);
    InOrderIffPrefix(run[i]);
  }

  // ----- What callers have to see to -----

  /** No two requests for one name are waiting at a time. */
  ghost predicate OneAtATime(s: State) {
    forall i, j :: 0 <= i < j < |s.waiting| ==> s.waiting[i].name != s.waiting[j].name
  }

  lemma {:induction false} Counted(rs: seq<Request>, name: ServerName, i: nat)
    requires i < |rs| && rs[i].name == name
    ensures Count(rs, Add(name)) + Count(rs, Remove(name)) >= 1
  {
    if i < |rs| - 1 {
      Counted(rs[..|rs| - 1], name, i);
    }
  }

  lemma {:induction false} TwoCounted(rs: seq<Request>, name: ServerName, i: nat, j: nat)
    requires i < j < |rs| && rs[i].name == rs[j].name == name
    ensures Count(rs, Add(name)) + Count(rs, Remove(name)) >= 2
  {
    if j < |rs| - 1 {
      TwoCounted(rs[..|rs| - 1], name, i, j);
    } else {
      Counted(rs[..|rs| - 1], name, i);
    }
  }

  lemma {:induction false} NoneCounted(rs: seq<Request>, r: Request)
    requires r !in rs
    ensures Count(rs, r) == 0
  {
    if rs != [] {
      NoneCounted(rs[..|rs| - 1], r);
    }
  }

  /** The only waiting request for its name. */
  lemma OneCounted(rs: seq<Request>, i: nat)
    requires i < |rs| && forall j :: 0 <= j < |rs| && j != i ==> rs[j].name != rs[i].name
    ensures forall r: Request :: r.name == rs[i].name ==> Count(rs, r) == if r == rs[i] then 1 else 0
  {
    var front, back := rs[..i], rs[i + 1..];
    assert rs == front + [rs[i]] + back;
    forall r: Request | r.name == rs[i].name ensures Count(rs, r) == if r == rs[i] then 1 else 0 {
      NoneCounted(front, r);
      NoneCounted(back, r);
      CountOne(rs[i], r);
      CountConcat(front, [rs[i]], r);
      CountConcat(front + [rs[i]], back, r);
    }
  }

  /** Whichever waiting modification comes next is in order if and only if no two of them are for one name. */
  lemma AnyNextInOrderIff(s: State)
    requires Recorded(s) && InOrder(s.begun)
    ensures (forall i :: 0 <= i < |s.waiting| ==> InOrder(s.begun + [s.waiting[i]])) <==> OneAtATime(s)
  {
    hide Recorded, InOrder, Of, Count;
    if OneAtATime(s) {
      forall i | 0 <= i < |s.waiting| ensures InOrder(s.begun + [s.waiting[i]]) {
        var r := s.waiting[i];
        WaitingCounts(s, r.name);
        OneCounted(s.waiting, i);
        assert Count(s.waiting, Add(r.name)) + Count(s.waiting, Remove(r.name)) == 1;
        AppendInOrder(s.begun, r);
      }
    } else {
      var i, j :| 0 <= i < j < |s.waiting| && s.waiting[i].name == s.waiting[j].name;
      var name := s.waiting[i].name;
      WaitingCounts(s, name);
      TwoCounted(s.waiting, name, i, j);
      var undue := if |Of(s.begun, name)| % 2 == 0 then Remove(name) else Add(name);
      if undue !in s.waiting {
        NoneCounted(s.waiting, undue);
      }
      var k :| 0 <= k < |s.waiting| && s.waiting[k] == undue;
      AppendInOrder(s.begun, undue);
    }
  }

  /** So callers that never overlap for one name keep the buffers aligned. */
  lemma {:induction false} SerialCallersStayAligned(run: seq<State>, i: nat)
    requires IsRun(run) && i < |run| && forall j :: 0 <= j < i ==> OneAtATime(run[j])
    ensures InOrder(run[i].begun) && Sound(run[i])
  {
    if i > 0 {
      SerialCallersStayAligned(run, i - 1);
      RunRecorded(run, i - 1);
      AnyNextInOrderIff(run[i - 1]);
      assert Next(run[i - 1], run[i - 1 + 1]);
    }
    SoundIffInOrder(run, i);
  }

  function Lonely(other: ServerName): Servers {
    Layout([Entry(other, (), ())], map[other := 0])
  }

  lemma RemovedFromLonely(other: ServerName, name: ServerName)
    requires name != other
    ensures Modified(Some(Lonely(other)), Remove(name)) == Some(Layout([], map[other := 0]))
  {
    SecondRepeatsFirst(Lonely(other), Remove(name));
    assert RemoveEntry(Lonely(other), name).index == map[other := 0];
  }

  lemma LonelyRun(other: ServerName) returns (run: seq<State>)
    ensures IsRun(run) && |run| == 3
    ensures run[2] == State(map[other := 1], [], Some(Lonely(other)), [Add(other)], [Add(other)])
  {
    var s0 := State(map[], [], Some(Layout([], map[])), [], []);
    var s1 := Apply(s0, CheckAdd(other));
    var s2 := Apply(s1, Modify(0));
    SecondRepeatsFirst(Layout([], map[]), Add(other));
    assert s1.waiting[0] == Add(other);
    assert AddEntry(Layout([], map[]), Entry(other, (), ()), 0).tree == [Entry(other, (), ())];
    assert s2.layout == Some(Lonely(other));
    run := [s0, s1, s2];
  }

  lemma ExtendRun(run: seq<State>, step: Step) returns (longer: seq<State>)
    requires IsRun(run) && Enabled(run[|run| - 1], step)
    ensures IsRun(longer) && |longer| == |run| + 1 && longer[|run|] == Apply(run[|run| - 1], step)
  {
    longer := run + [Apply(run[|run| - 1], step)];
    hide Apply, Enabled;
    forall i | 0 <= i < |longer| - 1 ensures Next(longer[i], longer[i + 1]) {
      if i < |run| - 1 {
        assert Next(run[i], run[i + 1]);
      }
    }
  }

  /** Two calls that overlap: the removal of `name` comes before its addition and takes out the first
      server instead. */
  lemma OvertakenAddition(other: ServerName, name: ServerName) returns (run: seq<State>)
    requires name != other
    ensures IsRun(run) && run[|run| - 1].waiting == [Add(name)]
    ensures !Sound(run[|run| - 1]) && run[|run| - 1].layout == Some(Layout([], map[other := 0]))
  {
    hide IsRun, Modified;
    run := LonelyRun(other);
    run := ExtendRun(run, CheckAdd(name));
    run := ExtendRun(run, CheckRemove(name));
    assert run[4].waiting == [Add(name), Remove(name)] && run[4].layout == Some(Lonely(other));
    RemovedFromLonely(other, name);
    run := ExtendRun(run, Modify(1));
    assert run[5].waiting == [Add(name)] && other in run[5].layout.value.index;
  }

  // ----- The concurrent balancer -----

  /** Module ConcurrentTree lets a modification begin exactly when it is due: its runs are those in which
      the order of the outer map is kept. */
  lemma BeginIsDue(s: State, tree: CT.State, op: CT.Op)
    requires Present(s.layout, s.begun)
    requires CT.WellFormed(tree) && tree.ctl.writer.NoModify? && tree.Fg().index.Keys == s.layout.value.index.Keys
    ensures var r := if op.AddServer? then Add(op.name) else Remove(op.name);
            CT.Enabled(tree, CT.Begin(op)) <==> Due(s.begun, r)
  {
    assert op.name in tree.Fg().index <==> op.name in tree.Fg().index.Keys;
  }
}
