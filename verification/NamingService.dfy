/**
  The naming service: server lists in two buffers, brought up to date by a function that `Modify`
  applies twice. The first application computes what changed and tells the balancer; the second
  replays the same changes on the other buffer, whose order may differ.
 */
module NamingService {
  import opened ServerLayout
  import opened ServerLists
  import opened LocalityAware
  import ChangedWeights

  /** The names of the children, each once, in order of their first occurrence. */
  function FirstOccurrences(children: seq<ServerName>): (servers: seq<ServerName>) {
    if children == [] then []
    else
      var front, x := FirstOccurrences(children[..|children| - 1]), children[|children| - 1];
      if x in children[..|children| - 1] then front else front + [x]
  }

  lemma {:induction false} FirstOccurrencesDistinct(children: seq<ServerName>)
    ensures Distinct(FirstOccurrences(children))
    ensures Elements(FirstOccurrences(children)) == Elements(children)
  {
    if children != [] {
      var front, x := children[..|children| - 1], children[|children| - 1];
      assert children == front + [x];
      FirstOccurrencesDistinct(front);
      forall y ensures y in FirstOccurrences(children) <==> y in children {
        assert y in FirstOccurrences(front) <==> y in Elements(FirstOccurrences(front));
        assert y in front <==> y in Elements(front);
      }
      assert x in Elements(FirstOccurrences(front)) <==> x in Elements(front);
    }
  }

  method GetServers(children: seq<ServerName>) returns (servers: seq<ServerName>)
    ensures servers == FirstOccurrences(children)
    ensures Distinct(servers) && Elements(servers) == Elements(children)
  {
    var serverSet: set<ServerName> := {};
    servers := [];
    for i := 0 to |children|
      invariant serverSet == Elements(children[..i])
      invariant servers == FirstOccurrences(children[..i])
    {
      assert children[..i + 1][..i] == children[..i];
      assert children[..i + 1] == children[..i] + [children[i]];
      if children[i] !in serverSet {
        serverSet := serverSet + {children[i]};
        servers := servers + [children[i]];
      }
    }
    assert children[..|children|] == children;
    FirstOccurrencesDistinct(children);
  }

  // ----- The difference and its replay -----

  /** What was added and removed, applied to the list they were computed from, gives the new list. */
  lemma ReplayOnSame<T>(last: multiset<T>, next: multiset<T>)
    ensures last + (next - last) - (last - next) == next
    ensures next - last == multiset{} && last - next == multiset{} <==> last == next
  {
    if next - last == multiset{} && last - next == multiset{} {
      forall x ensures last[x] == next[x] {
        assert (next - last)[x] == 0 && (last - next)[x] == 0;
      }
    }
  }

  /** Replayed on another list, it gives the new list exactly if every server that is to stay or come
      occurs in both as often, and every server that is to go occurs there no more often. */
  lemma ReplayOnOther<T>(last: multiset<T>, other: multiset<T>, next: multiset<T>)
    ensures other + (next - last) - (last - next) == next <==>
            forall x :: if next[x] > 0 || last[x] == 0 then other[x] == last[x] else other[x] <= last[x]
  {
    var replayed := other + (next - last) - (last - next);
    forall x
      ensures replayed[x] == next[x] <==>
              if next[x] > 0 || last[x] == 0 then other[x] == last[x] else other[x] <= last[x]
    {
    }
    assert replayed == next <==> forall x :: replayed[x] == next[x];
  }

  ghost function Support<T>(m: multiset<T>): set<T> {
    set x | x in m
  }

  /** The balancer, a set of names, follows exactly if no server that stays is listed fewer times than
      before; lists without duplicates are always followed. */
  lemma BalancerFollows<T>(last: multiset<T>, next: multiset<T>)
    ensures Support(last) + Support(next - last) - Support(last - next) == Support(next) <==>
            forall x :: !(last[x] > next[x] > 0)
  {
    var keys := Support(last) + Support(next - last) - Support(last - next);
    forall x ensures (x in keys <==> x in Support(next)) <==> !(last[x] > next[x] > 0) {
      assert x in next - last <==> next[x] > last[x];
      assert x in last - next <==> last[x] > next[x];
    }
    if keys == Support(next) {
      forall x ensures !(last[x] > next[x] > 0) {
        assert x in keys <==> x in Support(next);
      }
    }
  }

  lemma DistinctListsAreFollowed<T>(last: seq<T>, next: seq<T>, toAdd: seq<T>, toRemove: seq<T>)
    requires Distinct(last) && Distinct(next)
    requires IsDiff(last, next, toAdd, toRemove)
    ensures Elements(last) + Elements(toAdd) - Elements(toRemove) == Elements(next)
  {
    DistinctCounts(last);
    DistinctCounts(next);
    SupportIsElements(last);
    SupportIsElements(next);
    SupportIsElements(toAdd);
    SupportIsElements(toRemove);
    BalancerFollows(multiset(last), multiset(next));
  }

  lemma SupportIsElements<T>(s: seq<T>)
    ensures Support(multiset(s)) == Elements(s)
  {
    forall x ensures x in Support(multiset(s)) <==> x in Elements(s) {
      assert x in multiset(s) <==> x in s;
    }
  }

  /** Each of `xs` in turn is taken out of `s`, if it is there. */
  function RemoveEach<T(==)>(s: seq<T>, xs: seq<T>): seq<T> {
    if xs == [] then s else RemoveOne(RemoveEach(s, xs[..|xs| - 1]), xs[|xs| - 1])
  }

  lemma RemoveNothing<T>(s: seq<T>)
    ensures RemoveEach(s, []) == s
  {
  }

  lemma RemoveOneMore<T>(s: seq<T>, xs: seq<T>, i: nat)
    requires i < |xs|
    ensures RemoveEach(s, xs[..i + 1]) == RemoveOne(RemoveEach(s, xs[..i]), xs[i])
  {
    hide RemoveOne;
    assert xs[..i + 1][..i] == xs[..i];
  }

  lemma {:induction false} RemoveEachRemoves<T>(s: seq<T>, xs: seq<T>)
    ensures multiset(RemoveEach(s, xs)) == multiset(s) - multiset(xs)
  {
    if xs != [] {
      var front, x := xs[..|xs| - 1], xs[|xs| - 1];
      assert xs == front + [x];
      RemoveEachRemoves(s, front);
      RemoveOneRemoves(RemoveEach(s, front), x);
    }
  }

  lemma EmptyByCount<T>(s: seq<T>)
    ensures s == [] <==> multiset(s) == multiset{}
  {
    if s != [] {
      assert s[0] in multiset(s);
    }
  }

  // ----- The same for lists -----

  /** The lists hold the same servers, equally often. */
  ghost predicate Same<T>(a: seq<T>, b: seq<T>) {
    multiset(a) == multiset(b)
  }

  ghost predicate IsDiff<T>(last: seq<T>, next: seq<T>, toAdd: seq<T>, toRemove: seq<T>) {
    multiset(toAdd) == multiset(next) - multiset(last) && multiset(toRemove) == multiset(last) - multiset(next)
  }

  ghost predicate Replayed<T>(before: seq<T>, after: seq<T>, toAdd: seq<T>, toRemove: seq<T>) {
    multiset(after) == multiset(before) + multiset(toAdd) - multiset(toRemove)
  }

  lemma DiffReplays<T>(last: seq<T>, other: seq<T>, next: seq<T>, after: seq<T>, toAdd: seq<T>, toRemove: seq<T>)
    requires Same(last, other) && IsDiff(last, next, toAdd, toRemove) && Replayed(other, after, toAdd, toRemove)
    ensures Same(after, next)
  {
    ReplayOnSame(multiset(last), multiset(next));
  }

  lemma DiffEmpty<T>(last: seq<T>, next: seq<T>, toAdd: seq<T>, toRemove: seq<T>)
    requires IsDiff(last, next, toAdd, toRemove)
    ensures toAdd == [] && toRemove == [] <==> Same(last, next)
  {
    ReplayOnSame(multiset(last), multiset(next));
    EmptyByCount(toAdd);
    EmptyByCount(toRemove);
  }

  lemma SameBoth<T>(a: seq<T>, b: seq<T>, c: seq<T>)
    requires Same(a, b) && (Same(b, c) || Same(c, b))
    ensures Same(a, c)
  {
  }

  lemma SameReflexive<T>(a: seq<T>)
    ensures Same(a, a)
  {
  }

  lemma SameKeeps<T>(a: seq<T>, b: seq<T>)
    requires Same(a, b)
    ensures Same(b, a) && Elements(a) == Elements(b) && (Distinct(a) <==> Distinct(b))
  {
    ElementsByCount(a, b);
  }

  lemma DiffOfSame<T>(last: seq<T>, last': seq<T>, next: seq<T>, next': seq<T>, toAdd: seq<T>, toRemove: seq<T>)
    requires Same(last, last') && Same(next, next') && IsDiff(last', next', toAdd, toRemove)
    ensures IsDiff(last, next, toAdd, toRemove)
  {
  }

  /** Computed from the sorted lists, the difference is that of the lists, and empty if and only if they are
      the same. */
  lemma DiffDecides<T>(last: seq<T>, last': seq<T>, next: seq<T>, next': seq<T>, toAdd: seq<T>, toRemove: seq<T>)
    requires Same(last, last') && Same(next, next') && IsDiff(last', next', toAdd, toRemove)
    ensures IsDiff(last, next, toAdd, toRemove)
    ensures toAdd == [] && toRemove == [] <==> Same(last, next)
    ensures Same(last, next) ==> Same(last', next)
  {
    DiffOfSame(last, last', next, next', toAdd, toRemove);
    DiffEmpty(last, next, toAdd, toRemove);
    hide IsDiff;
  }

  class NameServiceAction {
    var buffers: seq<seq<ServerName>>
    var index: nat
    var toAdd: seq<ServerName>
    var toRemove: seq<ServerName>
    var listChanged: bool
    const loadBalancer: LocalityAwareLoadBalancer?

    /** What a reset may change of the balancer. */
    ghost function Touched(): set<object>
      reads loadBalancer
    {
      if loadBalancer == null then {}
      else
        var own: set<object> := {loadBalancer};
        own + loadBalancer.weights
    }

    ghost function Footprint(): set<object>
      reads loadBalancer
    {
      if loadBalancer == null then {} else Touched() + loadBalancer.queues + loadBalancer.stores
    }

    predicate Pending()
      reads this`toAdd, this`toRemove, this`listChanged
    {
      toAdd != [] || toRemove != [] || listChanged
    }

    /** At rest both buffers list the same servers, equally often. */
    ghost predicate Agreeing()
      reads this, Footprint()
    {
      && |buffers| == 2 && index < 2 && !Pending()
      && Same(buffers[0], buffers[1])
      && (loadBalancer != null ==> loadBalancer.Valid())
    }

    /** At rest the lists have no duplicates and the balancer balances over exactly the listed servers. */
    ghost predicate Reconciled()
      reads this, Footprint()
    {
      && Agreeing() && Distinct(buffers[0])
      && (loadBalancer != null ==> loadBalancer.serverMap.Keys == Elements(buffers[0]))
    }

    constructor (balancer: LocalityAwareLoadBalancer?)
      requires balancer != null ==> balancer.Valid()
      ensures Agreeing() && buffers == [[], []] && loadBalancer == balancer
      ensures Reconciled() <==> (balancer != null ==> balancer.serverMap == map[])
    {
      buffers, index := [[], []], 0;
      toAdd, toRemove, listChanged := [], [], false;
      loadBalancer := balancer;
    }

    method AddServers(b: nat)
      requires b < |buffers|
      modifies this`buffers
      ensures buffers == old(buffers)[b := old(buffers)[b] + toAdd]
    {
      assert old(buffers)[b] + toAdd[..0] == old(buffers)[b];
      for i := 0 to |toAdd|
        invariant b < |buffers| && buffers == old(buffers)[b := old(buffers)[b] + toAdd[..i]]
      {
        assert old(buffers)[b] + toAdd[..i + 1] == old(buffers)[b] + toAdd[..i] + [toAdd[i]];
        buffers := buffers[b := buffers[b] + [toAdd[i]]];
      }
      assert toAdd[..|toAdd|] == toAdd;
    }

    method RemoveServers(b: nat)
      requires b < |buffers|
      modifies this`buffers
      ensures |buffers| == |old(buffers)| && buffers == old(buffers)[b := buffers[b]]
      ensures buffers[b] == RemoveEach(old(buffers)[b], toRemove)
      ensures multiset(buffers[b]) == multiset(old(buffers)[b]) - multiset(toRemove)
    {
      hide RemoveEach;
      RemoveEachRemoves(buffers[b], toRemove);
      assert RemoveEach(buffers[b], []) == buffers[b] && toRemove[..0] == [] by {
        RemoveNothing(buffers[b]);
      }
      for i := 0 to |toRemove|
        invariant |buffers| == |old(buffers)| && buffers == old(buffers)[b := buffers[b]]
        invariant buffers[b] == RemoveEach(old(buffers)[b], toRemove[..i])
      {
        var list, x := buffers[b], toRemove[i];
        RemoveOneMore(old(buffers)[b], toRemove, i);
        if x in list {
          var at, back := IndexOf(list, x), list[|list| - 1];
          list := list[at := back];
          list := list[..|list| - 1];
          buffers := buffers[b := list];
        }
      }
      assert toRemove[..|toRemove|] == toRemove;
    }

    method AddAll(lb: LocalityAwareLoadBalancer)
      requires lb.Valid()
      modifies lb
      ensures lb.Valid() && fresh(lb.weights - old(lb.weights))
      ensures lb.serverMap.Keys == old(lb.serverMap.Keys) + Elements(toAdd)
    {
      hide LocalityAwareLoadBalancer.Valid, ServerLayout.AddEntry;
      for i := 0 to |toAdd|
        invariant lb.Valid() && fresh(lb.weights - old(lb.weights))
        invariant lb.serverMap.Keys == old(lb.serverMap.Keys) + Elements(toAdd[..i])
      {
        lb.AddServer(toAdd[i]);
        assert Elements(toAdd[..i + 1]) == Elements(toAdd[..i]) + {toAdd[i]};
      }
      assert toAdd[..|toAdd|] == toAdd;
    }

    method RemoveAll(lb: LocalityAwareLoadBalancer)
      requires lb.Valid()
      modifies lb, lb.weights
      ensures lb.Valid() && lb.weights == old(lb.weights)
      ensures lb.serverMap.Keys == old(lb.serverMap.Keys) - Elements(toRemove)
    {
      hide LocalityAwareLoadBalancer.Valid, ServerLayout.RemoveEntry, ChangedWeights.Removed;
      for i := 0 to |toRemove|
        invariant lb.Valid() && lb.weights == old(lb.weights)
        invariant lb.serverMap.Keys == old(lb.serverMap.Keys) - Elements(toRemove[..i])
      {
        lb.RemoveServer(toRemove[i]);
        assert Elements(toRemove[..i + 1]) == Elements(toRemove[..i]) + {toRemove[i]};
      }
      assert toRemove[..|toRemove|] == toRemove;
    }

    /** The balancer learns the additions, then the removals. */
    method LoadBalancerReset()
      requires loadBalancer != null ==> loadBalancer.Valid()
      modifies Touched()
      ensures unchanged(this) && fresh(Touched() - old(Touched()))
      ensures loadBalancer != null ==>
                && loadBalancer.Valid()
                && loadBalancer.serverMap.Keys ==
                   old(loadBalancer.serverMap.Keys) + Elements(toAdd) - Elements(toRemove)
    {
      hide LocalityAwareLoadBalancer.Valid;
      if loadBalancer != null {
        AddAll(loadBalancer);
        RemoveAll(loadBalancer);
      }
    }

    method Apply(b: nat)
      requires b < |buffers|
      modifies this`buffers
      ensures |buffers| == |old(buffers)| && buffers == old(buffers)[b := buffers[b]]
      ensures Replayed(old(buffers)[b], buffers[b], toAdd, toRemove)
    {
      AddServers(b);
      RemoveServers(b);
    }

    /** The changes reach the list of the first buffer, then the balancer. */
    method Publish(b: nat)
      requires b < |buffers| && (loadBalancer != null ==> loadBalancer.Valid())
      modifies this`buffers, Touched()
      ensures |buffers| == |old(buffers)| && buffers == old(buffers)[b := buffers[b]]
      ensures Replayed(old(buffers)[b], buffers[b], toAdd, toRemove) && fresh(Touched() - old(Touched()))
      ensures loadBalancer != null ==>
                && loadBalancer.Valid()
                && loadBalancer.serverMap.Keys ==
                   old(loadBalancer.serverMap.Keys) + Elements(toAdd) - Elements(toRemove)
    {
      hide LocalityAwareLoadBalancer.Valid, Elements, Replayed;
      Apply(b);
      LoadBalancerReset();
    }

    /** They do if there are any. */
    method PublishChanges(b: nat)
      requires b < |buffers| && !listChanged && (loadBalancer != null ==> loadBalancer.Valid())
      modifies this`buffers, this`listChanged, Touched()
      ensures |buffers| == |old(buffers)| && buffers == old(buffers)[b := buffers[b]]
      ensures Pending() <==> toAdd != [] || toRemove != []
      ensures if Pending() then Replayed(old(buffers)[b], buffers[b], toAdd, toRemove) else buffers == old(buffers)
      ensures fresh(Touched() - old(Touched()))
      ensures loadBalancer != null ==>
                && loadBalancer.Valid()
                && loadBalancer.serverMap.Keys ==
                   if Pending() then old(loadBalancer.serverMap.Keys) + Elements(toAdd) - Elements(toRemove)
                   else old(loadBalancer.serverMap.Keys)
    {
      hide LocalityAwareLoadBalancer.Valid, Elements, Replayed;
      if toAdd != [] || toRemove != [] {
        listChanged := true;
        Publish(b);
      }
    }

    /** The two differences between the sorted lists. */
    method Diff(b: nat, newServers: seq<ServerName>) returns (sorted: seq<ServerName>)
      requires b < |buffers| && !Pending()
      modifies this`buffers, this`toAdd, this`toRemove
      ensures |buffers| == |old(buffers)| && buffers == old(buffers)[b := buffers[b]]
      ensures Same(old(buffers)[b], buffers[b]) && Same(newServers, sorted)
      ensures IsDiff(buffers[b], sorted, toAdd, toRemove)
    {
      SortSorts(buffers[b]);
      SortSorts(newServers);
      buffers := buffers[b := Sort(buffers[b])];
      sorted := Sort(newServers);
      SetDifferenceIsDifference(buffers[b], sorted);
      SetDifferenceIsDifference(sorted, buffers[b]);
      toRemove := toRemove + SetDifference(buffers[b], sorted);
      toAdd := toAdd + SetDifference(sorted, buffers[b]);
    }

    /** What `ResetFn` does when nothing is pending: it is at the first buffer, or at a second one with
        nothing to replay. */
    method Compare(b: nat, newServers: seq<ServerName>) returns (sorted: seq<ServerName>)
      requires b < |buffers| && !Pending() && (loadBalancer != null ==> loadBalancer.Valid())
      modifies this`buffers, this`toAdd, this`toRemove, this`listChanged, Touched()
      ensures |buffers| == |old(buffers)| && buffers == old(buffers)[b := buffers[b]]
      ensures Same(newServers, sorted) && Same(buffers[b], newServers)
      ensures IsDiff(old(buffers)[b], newServers, toAdd, toRemove) && fresh(Touched() - old(Touched()))
      ensures Pending() <==> !Same(old(buffers)[b], newServers)
      ensures loadBalancer != null ==>
                && loadBalancer.Valid()
                && loadBalancer.serverMap.Keys ==
                   if Pending() then old(loadBalancer.serverMap.Keys) + Elements(toAdd) - Elements(toRemove)
                   else old(loadBalancer.serverMap.Keys)
    {
      hide LocalityAwareLoadBalancer.Valid, Elements, Same, IsDiff, Replayed;
      sorted := Diff(b, newServers);
      ghost var last, list := old(buffers)[b], buffers[b];
      DiffDecides(last, list, newServers, sorted, toAdd, toRemove);
      PublishChanges(b);
      if Pending() {
        DiffReplays(last, list, newServers, buffers[b], toAdd, toRemove);
      }
    }

    /** `ResetFn`: it tells the two applications apart by what is pending. The second buffer replays
        what the first one found. */
    method ResetFn(b: nat, newServers: seq<ServerName>) returns (sorted: seq<ServerName>)
      requires b < |buffers| && (loadBalancer != null ==> loadBalancer.Valid())
      modifies this`buffers, this`toAdd, this`toRemove, this`listChanged, Touched()
      ensures |buffers| == |old(buffers)| && buffers == old(buffers)[b := buffers[b]] && Same(newServers, sorted)
      ensures (loadBalancer != null ==> loadBalancer.Valid()) && fresh(Touched() - old(Touched()))
      ensures old(Pending()) ==>
                && !Pending()
                && Replayed(old(buffers)[b], buffers[b], old(toAdd), old(toRemove))
                && (loadBalancer != null ==> loadBalancer.serverMap == old(loadBalancer.serverMap))
      ensures !old(Pending()) ==>
                && Same(buffers[b], newServers)
                && IsDiff(old(buffers)[b], newServers, toAdd, toRemove)
                && (Pending() <==> !Same(old(buffers)[b], newServers))
                && (loadBalancer != null ==>
                      loadBalancer.serverMap.Keys ==
                      if Pending() then old(loadBalancer.serverMap.Keys) + Elements(toAdd) - Elements(toRemove)
                      else old(loadBalancer.serverMap.Keys))
    {
      hide LocalityAwareLoadBalancer.Valid, Elements, IsDiff, Replayed;
      if Pending() {
        Apply(b);
        toAdd, toRemove, listChanged := [], [], false;
        sorted := newServers;
      } else {
        sorted := Compare(b, newServers);
      }
    }

    /** `Modify` up to the flip. */
    method FirstPass(newServers: seq<ServerName>) returns (sorted: seq<ServerName>)
      requires Agreeing()
      modifies this`buffers, this`index, this`toAdd, this`toRemove, this`listChanged, Touched()
      ensures |buffers| == 2 && index == 1 - old(index) && buffers[1 - index] == old(buffers)[1 - index]
      ensures Same(buffers[index], newServers) && Same(newServers, sorted)
      ensures if Pending() then IsDiff(buffers[1 - index], newServers, toAdd, toRemove)
              else Same(buffers[1 - index], newServers)
      ensures (loadBalancer != null ==> loadBalancer.Valid()) && fresh(Touched() - old(Touched()))
      ensures old(Reconciled()) && Distinct(newServers) && loadBalancer != null ==>
                loadBalancer.serverMap.Keys == Elements(newServers)
    {
      hide LocalityAwareLoadBalancer.Valid, Elements, Distinct, Same, IsDiff, Replayed;
      ghost var last, other := buffers[1 - index], buffers[index];
      SameKeeps(buffers[0], buffers[1]);
      sorted := ResetFn(1 - index, newServers);
      index := 1 - index;
      SameReflexive(newServers);
      DiffOfSame(other, last, newServers, newServers, toAdd, toRemove);
      if Pending() {
        if Distinct(last) && Distinct(newServers) {
          DistinctListsAreFollowed(last, newServers, toAdd, toRemove);
        }
      } else {
        SameBoth(other, last, newServers);
        SameKeeps(other, newServers);
        SameKeeps(last, newServers);
      }
    }

    /** `Modify` from the flip on. */
    method SecondPass(sorted: seq<ServerName>, ghost newServers: seq<ServerName>)
      requires |buffers| == 2 && index < 2 && (loadBalancer != null ==> loadBalancer.Valid())
      requires Same(buffers[index], newServers) && Same(newServers, sorted)
      requires if Pending() then IsDiff(buffers[1 - index], newServers, toAdd, toRemove)
               else Same(buffers[1 - index], newServers)
      modifies this`buffers, this`toAdd, this`toRemove, this`listChanged, Touched()
      ensures Agreeing() && Same(buffers[0], newServers) && Same(buffers[1], newServers)
      ensures loadBalancer != null ==> loadBalancer.serverMap.Keys == old(loadBalancer.serverMap.Keys)
    {
      hide LocalityAwareLoadBalancer.Valid, Elements, Distinct, Same, IsDiff, Replayed;
      ghost var other, add, remove, pending := buffers[1 - index], toAdd, toRemove, Pending();
      SameKeeps(newServers, sorted);
      if !pending {
        SameBoth(other, newServers, sorted);
      }
      var _ := ResetFn(1 - index, sorted);
      ghost var after := buffers[1 - index];
      if pending {
        SameReflexive(other);
        DiffReplays(other, other, newServers, after, add, remove);
      } else {
        SameBoth(after, sorted, newServers);
      }
      SameBoth(buffers[0], newServers, buffers[1]);
    }

    /** A whole reset: both buffers end up with the new list, as often each, whatever their order; and
        from lists without duplicates the balancer ends up with exactly the new servers. */
    method ResetServers(newServers: seq<ServerName>)
      requires Agreeing()
      modifies this`buffers, this`index, this`toAdd, this`toRemove, this`listChanged, Touched()
      ensures Agreeing() && index == 1 - old(index)
      ensures Same(buffers[0], newServers) && Same(buffers[1], newServers)
      ensures old(Reconciled()) && Distinct(newServers) ==> Reconciled() && Elements(buffers[0]) == Elements(newServers)
    {
      hide LocalityAwareLoadBalancer.Valid, Elements, Distinct, Same, IsDiff, Replayed;
      var sorted := FirstPass(newServers);
      SecondPass(sorted, newServers);
      SameKeeps(buffers[0], newServers);
    }
  }
}
