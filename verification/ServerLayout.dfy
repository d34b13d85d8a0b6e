/**
  One buffer of a balancer: the vector of tree positions and the map from server name to position.
  A position keeps its `left` counter for as long as it exists; names and weights move between
  positions. The sequential class uses counters and weights that are objects, the transition
  system uses numbers for them, hence the type parameters.
 */
module ServerLayout {
  type ServerName = string

  datatype Entry<L, W> = Entry(name: ServerName, left: L, weight: W)

  datatype Layout<L, W> = Layout(tree: seq<Entry<L, W>>, index: map<ServerName, nat>)

  /** The map is the exact inverse of the name vector. */
  ghost predicate Aligned<L, W>(l: Layout<L, W>) {
    && (forall i :: 0 <= i < |l.tree| ==> l.tree[i].name in l.index && l.index[l.tree[i].name] == i)
    && (forall name :: name in l.index ==> l.index[name] < |l.tree| && l.tree[l.index[name]].name == name)
  }

  /** `server_map[name]`: an absent name reads as position 0. */
  function Lookup<L, W>(l: Layout<L, W>, name: ServerName): nat {
    if name in l.index then l.index[name] else 0
  }

  function AddEntry<L, W>(l: Layout<L, W>, e: Entry<L, W>, at: nat): Layout<L, W> {
    Layout(l.tree + [e], l.index[e.name := at])
  }

  /** The structural half of `Remove`: the last position's name and weight take the place of the
      removed ones, then the last position goes. */
  function RemoveEntry<L, W>(l: Layout<L, W>, name: ServerName): Layout<L, W>
    requires Lookup(l, name) < |l.tree|
  {
    var k := Lookup(l, name);
    var last := |l.tree| - 1;
    var without := l.index - {name};
    if k == last then Layout(l.tree[..last], without)
    else
      var moved := l.tree[last];
      Layout(l.tree[k := Entry(moved.name, l.tree[k].left, moved.weight)][..last], without[moved.name := k])
  }

  lemma AddKeepsAligned<L, W>(l: Layout<L, W>, e: Entry<L, W>)
    requires Aligned(l) && e.name !in l.index
    ensures Aligned(AddEntry(l, e, |l.tree|))
    ensures AddEntry(l, e, |l.tree|).index.Keys == l.index.Keys + {e.name}
  {
  }

  lemma RemoveKeepsAligned<L, W>(l: Layout<L, W>, name: ServerName)
    requires Aligned(l) && name in l.index
    ensures Aligned(RemoveEntry(l, name))
    ensures RemoveEntry(l, name).index.Keys == l.index.Keys - {name}
  {
    var r := RemoveEntry(l, name);
    var k, last := l.index[name], |l.tree| - 1;
    forall i | 0 <= i < |r.tree| ensures r.tree[i].name in r.index && r.index[r.tree[i].name] == i {
      assert l.tree[i].name != l.tree[last].name;
      if i != k {
        assert l.tree[i].name != name;
      }
    }
  }

  /** What removal does position by position: the counters stay where they are, and only position
      `k` gets another server, the one that was last. */
  lemma RemoveEntryShape<L, W>(l: Layout<L, W>, name: ServerName)
    requires Lookup(l, name) < |l.tree|
    ensures var r, k, last := RemoveEntry(l, name), Lookup(l, name), |l.tree| - 1;
            && |r.tree| == last
            && (forall i :: 0 <= i < last ==> r.tree[i].left == l.tree[i].left)
            && (forall i :: 0 <= i < last && i != k ==> r.tree[i] == l.tree[i])
            && (k < last ==> r.tree[k].name == l.tree[last].name && r.tree[k].weight == l.tree[last].weight)
  {
  }

  /** Removing a name that is not there takes out the server at position 0 instead: the outer check
      of `remove_server` is what keeps `Remove` from being called so. */
  lemma RemoveOfAbsentHitsTheFirst<L, W>(l: Layout<L, W>, name: ServerName)
    requires Aligned(l) && name !in l.index && l.tree != []
    ensures forall i :: 0 <= i < |RemoveEntry(l, name).tree| ==> RemoveEntry(l, name).tree[i].name != l.tree[0].name
    ensures !Aligned(RemoveEntry(l, name))
  {
    var r := RemoveEntry(l, name);
    var gone := l.tree[0].name;
    forall i | 0 <= i < |r.tree| ensures r.tree[i].name != gone {
      RemoveEntryShape(l, name);
      assert l.tree[|l.tree| - 1].name != gone || |l.tree| == 1;
    }
    assert gone in r.index;
  }
}
