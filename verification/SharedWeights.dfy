/**
  The weights that two buffers of servers share, and what each position contributes to the counters.

  Outside a modification both buffers show the same weights in the same order. While a `Remove` is
  half done, the server that was last is shown twice: by the longer buffer at the last position, by
  the shorter one at the position that was freed. `Weight::_old_weight`, `_old_diff_sum` and
  `_old_index` keep its two contributions apart.
 */
module SharedWeights {
  import opened Options
  import opened WeightTree
  import opened WeightScale

  datatype Node = Node(weight: int, enabled: bool, oldWeight: int, oldDiff: int, oldIndex: Option<nat>)

  /** `Weight::ResetWeight`, as far as the bookkeeping goes. */
  function Reweighed(node: Node, i: nat, weight: int): Node {
    var diff := weight - node.weight;
    node.(weight := weight,
          oldDiff := if node.oldIndex == Some(i) && diff != 0 then node.oldDiff + diff else node.oldDiff)
  }

  /** `Weight::MarkOld` */
  function Marked(node: Node, i: nat): Node {
    node.(oldWeight := node.weight, oldDiff := 0, oldIndex := Some(i))
  }

  /** `Weight::ClearOld` */
  function Cleared(node: Node): Node {
    node.(oldWeight := 0, oldDiff := 0, oldIndex := None)
  }

  /** `Weight::Disable` */
  function Disabled(node: Node): Node {
    node.(weight := 0, enabled := false)
  }

  /** The weights by position in the longer and in the shorter buffer; `gap` is the position that the
      removed server has in the longer buffer, while the buffers differ because of a removal. */
  datatype View = View(long: seq<nat>, short: seq<nat>, gap: Option<nat>, nodes: seq<Node>) {
    predicate Moving(i: nat) {
      gap.Some? && i + 1 == |long| && gap.value != i
    }
  }

  ghost predicate ViewOk(v: View) {
    && (forall i :: 0 <= i < |v.long| ==> v.long[i] < |v.nodes|)
    && (forall i, j :: 0 <= i < j < |v.long| ==> v.long[i] != v.long[j])
    && |v.short| <= |v.long| <= |v.short| + 1
    && (v.gap.Some? ==> |v.long| == |v.short| + 1 && v.gap.value < |v.long|)
    && (forall i :: 0 <= i < |v.short| ==>
          v.short[i] == if v.gap == Some(i) then v.long[|v.long| - 1] else v.long[i])
  }

  /** `doomed` is the position, in the longer buffer, of the server that is disabled. */
  ghost predicate NodeOk(v: View, doomed: Option<nat>, i: nat)
    requires i < |v.long| && v.long[i] < |v.nodes|
  {
    var node := v.nodes[v.long[i]];
    && (if doomed == Some(i) then !node.enabled && node.weight == 0 else node.enabled && node.weight != 0)
    && (if v.Moving(i) then node.oldIndex == Some(i)
        else node.oldIndex == None && node.oldDiff == 0 && node.oldWeight == 0)
  }

  ghost predicate NodesOk(v: View, doomed: Option<nat>) {
    && ViewOk(v)
    && (v.gap.Some? ==> doomed == v.gap)
    && forall i :: 0 <= i < |v.long| ==> NodeOk(v, doomed, i)
  }

  /** What position `i` weighs in the counters. A server that is being moved counts as
      `_weight - _old_diff_sum` where it goes and as `_old_weight + _old_diff_sum` where it was. */
  ghost function Contribution(v: View, i: nat): int
    requires ViewOk(v) && i < |v.long|
  {
    if i < |v.short| then
      var node := v.nodes[v.short[i]];
      node.weight - node.oldDiff
    else
      var node := v.nodes[v.long[i]];
      if node.oldIndex == Some(i) then node.oldWeight + node.oldDiff else node.weight - node.oldDiff
  }

  ghost function Contributions(v: View): (c: seq<int>)
    requires ViewOk(v)
    ensures |c| == |v.long|
  {
    seq(|v.long|, i requires 0 <= i < |v.long| => Contribution(v, i))
  }

  // ----- A reader reweighs position i, seen through either buffer -----

  lemma ReweighNodes(v: View, doomed: Option<nat>, i: nat, id: nat, weight: int)
    requires NodesOk(v, doomed) && id < |v.nodes| && v.nodes[id].enabled && weight != 0
    requires (i < |v.long| && id == v.long[i]) || (i < |v.short| && id == v.short[i])
    ensures NodesOk(v.(nodes := v.nodes[id := Reweighed(v.nodes[id], i, weight)]), doomed)
  {
    var v' := v.(nodes := v.nodes[id := Reweighed(v.nodes[id], i, weight)]);
    assert NodeOk(v, doomed, i);
    forall p | 0 <= p < |v'.long| ensures NodeOk(v', doomed, p) {
      assert NodeOk(v, doomed, p);
    }
  }

  lemma ReweighContribution(v: View, doomed: Option<nat>, i: nat, id: nat, weight: int, p: nat)
    requires NodesOk(v, doomed) && id < |v.nodes| && v.nodes[id].enabled && p < |v.long|
    requires (i < |v.long| && id == v.long[i]) || (i < |v.short| && id == v.short[i])
    ensures var v' := v.(nodes := v.nodes[id := Reweighed(v.nodes[id], i, weight)]);
            && ViewOk(v')
            && Contribution(v', p) == Contribution(v, p) + if p == i then weight - v.nodes[id].weight else 0
  {
    assert NodeOk(v, doomed, i);
    assert NodeOk(v, doomed, |v.long| - 1);
    assert NodeOk(v, doomed, p);
  }

  /** Whichever buffer it is seen through, the position that is reweighed contributes `diff` more,
      and every other position what it did before. */
  lemma ReweighContributions(v: View, doomed: Option<nat>, i: nat, id: nat, weight: int)
    requires NodesOk(v, doomed) && id < |v.nodes| && v.nodes[id].enabled
    requires (i < |v.long| && id == v.long[i]) || (i < |v.short| && id == v.short[i])
    ensures var v' := v.(nodes := v.nodes[id := Reweighed(v.nodes[id], i, weight)]);
            var c := Contributions(v);
            ViewOk(v') && Contributions(v') == c[i := c[i] + (weight - v.nodes[id].weight)]
  {
    hide NodeOk, Contribution, Reweighed;
    var v' := v.(nodes := v.nodes[id := Reweighed(v.nodes[id], i, weight)]);
    var c := Contributions(v);
    forall p | 0 <= p < |v.long| ensures Contribution(v', p) == c[i := c[i] + (weight - v.nodes[id].weight)][p] {
      ReweighContribution(v, doomed, i, id, weight, p);
    }
  }

  // ----- Add -----

  lemma AddFirst(v: View, initial: int)
    requires NodesOk(v, None) && |v.long| == |v.short| && initial != 0
    ensures var v' := View(v.long + [|v.nodes|], v.short, None, v.nodes + [Node(initial, true, 0, 0, None)]);
            NodesOk(v', None) && Contributions(v') == Contributions(v) + [initial]
  {
    var v' := View(v.long + [|v.nodes|], v.short, None, v.nodes + [Node(initial, true, 0, 0, None)]);
    forall i | 0 <= i < |v'.long| ensures NodeOk(v', None, i) {
      if i < |v.long| {
        assert NodeOk(v, None, i);
      }
    }
    forall i | 0 <= i < |v.long| ensures Contribution(v', i) == Contribution(v, i) {
    }
  }

  lemma AddSecond(v: View)
    requires NodesOk(v, None) && v.gap == None
    ensures var v' := v.(short := v.long);
            NodesOk(v', None) && Contributions(v') == Contributions(v)
  {
    var v' := v.(short := v.long);
    forall i | 0 <= i < |v'.long| ensures NodeOk(v', None, i) && Contribution(v', i) == Contribution(v, i) {
      assert NodeOk(v, None, i);
    }
  }

  // ----- Remove -----

  lemma DisableFirst(v: View, k: nat)
    requires NodesOk(v, None) && v.gap == None && |v.long| == |v.short| && k < |v.long|
    ensures var id := v.long[k];
            var v' := v.(nodes := v.nodes[id := Disabled(v.nodes[id])]);
            NodesOk(v', Some(k)) && Contributions(v') == Contributions(v)[k := 0]
    ensures Contributions(v)[k] == v.nodes[v.long[k]].weight && Contributions(v)[k] != 0
  {
    var id := v.long[k];
    var v' := v.(nodes := v.nodes[id := Disabled(v.nodes[id])]);
    assert NodeOk(v, None, k);
    forall i | 0 <= i < |v'.long|
      ensures NodeOk(v', Some(k), i) && Contribution(v', i) == if i == k then 0 else Contribution(v, i)
    {
      assert NodeOk(v, None, i);
    }
  }

  /** The second application finds the weight disabled: it gets 0 and changes nothing. */
  lemma DisableSecond(v: View, k: nat)
    requires NodesOk(v, Some(k)) && k < |v.long|
    ensures var id := v.long[k];
            v.nodes[id].weight == 0 && v.nodes[id := Disabled(v.nodes[id])] == v.nodes
  {
    assert NodeOk(v, Some(k), k);
  }

  lemma UnlinkLastFirst(v: View, k: nat)
    requires NodesOk(v, Some(k)) && v.gap == None && |v.long| == |v.short| && k + 1 == |v.long|
    ensures var v' := v.(short := v.short[..k], gap := Some(k));
            NodesOk(v', Some(k)) && Contributions(v') == Contributions(v)
  {
    var v' := v.(short := v.short[..k], gap := Some(k));
    forall i | 0 <= i < |v'.long| ensures NodeOk(v', Some(k), i) && Contribution(v', i) == Contribution(v, i) {
      assert NodeOk(v, Some(k), i);
    }
  }

  lemma UnlinkLastSecond(v: View, k: nat)
    requires NodesOk(v, Some(k)) && v.gap == Some(k) && k + 1 == |v.long|
    ensures var v' := v.(long := v.short, gap := None);
            NodesOk(v', None) && Contributions(v) == Contributions(v') + [0]
  {
    var v' := v.(long := v.short, gap := None);
    assert NodeOk(v, Some(k), k);
    forall i | 0 <= i < |v'.long| ensures NodeOk(v', None, i) && Contribution(v', i) == Contribution(v, i) {
      assert NodeOk(v, Some(k), i);
    }
  }

  /** After MarkOld, with the last server at position `k` of the shorter buffer. */
  function MarkedView(v: View, k: nat): View
    requires ViewOk(v) && |v.long| == |v.short| && k + 1 < |v.long|
  {
    var last := |v.long| - 1;
    var id := v.long[last];
    View(v.long, v.short[k := id][..last], Some(k), v.nodes[id := Marked(v.nodes[id], last)])
  }

  lemma MarkedNodes(v: View, k: nat)
    requires NodesOk(v, Some(k)) && v.gap == None && |v.long| == |v.short| && k + 1 < |v.long|
    ensures NodesOk(MarkedView(v, k), Some(k))
  {
    forall i | 0 <= i < |v.long| ensures NodeOk(MarkedView(v, k), Some(k), i) {
      assert NodeOk(v, Some(k), i);
    }
  }

  lemma MarkedContribution(v: View, k: nat, i: nat)
    requires NodesOk(v, Some(k)) && v.gap == None && |v.long| == |v.short| && k + 1 < |v.long| && i < |v.long|
    requires ViewOk(MarkedView(v, k))
    ensures Contribution(MarkedView(v, k), i) ==
            if i == k then v.nodes[v.long[|v.long| - 1]].weight else Contribution(v, i)
  {
    assert NodeOk(v, Some(k), i) && NodeOk(v, Some(k), |v.long| - 1);
  }

  /** MarkOld: the moved server starts to count at its new position too. */
  lemma UnlinkFirst(v: View, k: nat)
    requires NodesOk(v, Some(k)) && v.gap == None && |v.long| == |v.short| && k + 1 < |v.long|
    ensures NodesOk(MarkedView(v, k), Some(k))
    ensures Contributions(MarkedView(v, k)) == Contributions(v)[k := v.nodes[v.long[|v.long| - 1]].weight]
    ensures Contributions(v)[k] == 0
  {
    MarkedNodes(v, k);
    assert NodeOk(v, Some(k), k);
    forall i | 0 <= i < |v.long|
      ensures Contribution(MarkedView(v, k), i) ==
              if i == k then v.nodes[v.long[|v.long| - 1]].weight else Contribution(v, i)
    {
      MarkedContribution(v, k, i);
    }
    hide ViewOk, NodeOk, Contribution, MarkedView;
  }

  /** ClearOld: the moved server counts at its new position only, with its whole weight. */
  lemma UnlinkSecond(v: View, k: nat)
    requires NodesOk(v, Some(k)) && v.gap == Some(k) && k + 1 < |v.long|
    ensures var last := |v.long| - 1;
            var id := v.long[last];
            var node := v.nodes[id];
            var v' := View(v.short, v.short, None, v.nodes[id := Cleared(node)]);
            && NodesOk(v', None)
            && Contributions(v) ==
               Contributions(v')[k := Contributions(v')[k] - node.oldDiff] + [node.oldWeight + node.oldDiff]
  {
    var last := |v.long| - 1;
    var id := v.long[last];
    var node := v.nodes[id];
    var v' := View(v.short, v.short, None, v.nodes[id := Cleared(node)]);
    assert NodeOk(v, Some(k), last);
    forall i | 0 <= i < |v'.long|
      ensures NodeOk(v', None, i)
      ensures Contribution(v, i) == if i == k then Contribution(v', i) - node.oldDiff else Contribution(v', i)
    {
      assert NodeOk(v, Some(k), i);
    }
  }

  /** Outside a modification a position contributes the weight shown there. */
  lemma QuietContributions(v: View)
    requires NodesOk(v, None) && |v.long| == |v.short|
    ensures forall i :: 0 <= i < |v.long| ==>
              Contributions(v)[i] == v.nodes[v.long[i]].weight && Contributions(v)[i] != 0
  {
    forall i | 0 <= i < |v.long| ensures Contributions(v)[i] == v.nodes[v.long[i]].weight && Contributions(v)[i] != 0 {
      assert NodeOk(v, None, i);
    }
  }
}
