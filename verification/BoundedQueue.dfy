/** The ring buffer in which a weight keeps its latest latencies. */
module BoundedQueues {
  import opened Options

  const UINT32_LIMIT: int := 0x1_0000_0000

  /** `elim_push` on the contents: the topmost item makes room when the queue is full. */
  function ElimPushed<T>(items: seq<T>, cap: nat, item: T): seq<T> {
    if |items| < cap then items + [item]
    else if items == [] then items
    else items[1..] + [item]
  }

  /** Brings an offset below the capacity by repeated subtraction. */
  method Mod(off: nat, cap: nat) returns (r: nat)
    requires cap > 0
    ensures r == off % cap
  {
    r := off;
    while r >= cap
      invariant r % cap == off % cap
    {
      assert (r - cap) % cap == r % cap by {
        ModSubtract(r, cap);
      }
      r := r - cap;
    }
    assert r % cap == r by {
      ModSmall(r, cap);
    }
  }

  lemma ModSmall(x: nat, n: nat)
    requires x < n
    ensures x % n == x
  {
  }

  lemma ModSubtract(x: nat, n: nat)
    requires 0 < n <= x
    ensures (x - n) % n == x % n
  {
    var q, r := x / n, x % n;
    assert x - n == (q - 1) * n + r;
    ModUnique(x - n, n, q - 1, r);
  }

  lemma ModUnique(x: nat, n: nat, q: int, r: nat)
    requires 0 < n && x == q * n + r && r < n
    ensures x % n == r
  {
    var q', r' := x / n, x % n;
    assert x == q' * n + r' && (q - q') * n == r' - r && (q' - q) * n == r - r';
    if q > q' {
      MulAtLeast(q - q', n);
    } else if q < q' {
      MulAtLeast(q' - q, n);
    }
  }

  lemma MulAtLeast(a: int, n: nat)
    requires a >= 1
    ensures a * n >= n
  {
  }

  /** Index arithmetic without `%`, for offsets below twice the capacity. */
  function Wrap(off: nat, cap: nat): nat
    requires off < 2 * cap
  {
    if off < cap then off else off - cap
  }

  lemma WrapIsMod(off: nat, cap: nat)
    requires off < 2 * cap
    ensures off % cap == Wrap(off, cap)
  {
    if off < cap {
      ModSmall(off, cap);
    } else {
      ModSubtract(off, cap);
      ModSmall(off - cap, cap);
    }
  }

  /** The `count` items that start at slot `start` and wrap round at the end of the storage. */
  ghost function Window<T>(slots: seq<T>, start: nat, count: nat): (items: seq<T>)
    requires start < |slots| && count <= |slots|
    ensures |items| == count
    ensures forall i :: 0 <= i < count ==> items[i] == slots[Wrap(start + i, |slots|)]
  {
    seq(count, i requires 0 <= i < count => slots[Wrap(start + i, |slots|)])
  }

  lemma WindowReplaceTop<T>(slots: seq<T>, start: nat, item: T)
    requires start < |slots|
    ensures Window(slots[start := item], Wrap(start + 1, |slots|), |slots|)
            == Window(slots, start, |slots|)[1..] + [item]
  {
  }

  class BoundedQueue<T(0)> {
    var count: nat
    var start: nat
    const items: array<T>

    ghost predicate Valid()
      reads this
    {
      && 0 < items.Length && 2 * items.Length <= UINT32_LIMIT
      && count <= items.Length && start < items.Length
    }

    /** The queue from top to bottom. */
    ghost function Contents(): (s: seq<T>)
      requires Valid()
      reads this, items
      ensures |s| == count
    {
      Window(items[..], start, count)
    }

    constructor (capacity: nat)
      requires 0 < capacity && 2 * capacity <= UINT32_LIMIT
      ensures Valid() && Contents() == [] && items.Length == capacity && fresh(items)
    {
      count, start := 0, 0;
      items := new T[capacity];
    }

    method Push(item: T) returns (ok: bool)
      requires Valid()
      modifies this, items
      ensures Valid() && ok == (|old(Contents())| < items.Length)
      ensures Contents() == if ok then old(Contents()) + [item] else old(Contents())
    {
      ok := count < items.Length;
      if ok {
        var slot := Mod(start + count, items.Length);
        WrapIsMod(start + count, items.Length);
        items[slot] := item;
        count := count + 1;
      }
    }

    method ElimPush(item: T)
      requires Valid()
      modifies this, items
      ensures Valid() && Contents() == ElimPushed(old(Contents()), items.Length, item)
    {
      if count < items.Length {
        var slot := Mod(start + count, items.Length);
        WrapIsMod(start + count, items.Length);
        items[slot] := item;
        count := count + 1;
      } else {
        ReplaceTop(item);
      }
    }

    /** The overwriting half of `elim_push`. */
    method ReplaceTop(item: T)
      requires Valid() && count == items.Length
      modifies this, items
      ensures Valid() && Contents() == old(Contents())[1..] + [item]
    {
      ghost var slots := items[..];
      var s := start;
      items[s] := item;
      assert items[..] == slots[s := item];
      WrapIsMod(s + 1, items.Length);
      start := Mod(s + 1, items.Length);
      WindowReplaceTop(slots, s, item);
    }

    method PushTop(item: T) returns (ok: bool)
      requires Valid()
      modifies this, items
      ensures Valid() && ok == (|old(Contents())| < items.Length)
      ensures Contents() == if ok then [item] + old(Contents()) else old(Contents())
    {
      ok := count < items.Length;
      if ok {
        start := if start != 0 then start - 1 else items.Length - 1;
        count := count + 1;
        items[start] := item;
      }
    }

    method Pop() returns (item: Option<T>)
      requires Valid()
      modifies this
      ensures Valid()
      ensures old(Contents()) == [] ==> item == None && Contents() == []
      ensures old(Contents()) != [] ==> item == Some(old(Contents())[0]) && Contents() == old(Contents())[1..]
    {
      item := None;
      if count != 0 {
        count := count - 1;
        item := Some(items[start]);
        WrapIsMod(start + 1, items.Length);
        start := Mod(start + 1, items.Length);
      }
    }

    method PopBottom() returns (item: Option<T>)
      requires Valid()
      modifies this
      ensures Valid()
      ensures old(Contents()) == [] ==> item == None && Contents() == []
      ensures old(Contents()) != [] ==>
                var last := |old(Contents())| - 1;
                item == Some(old(Contents())[last]) && Contents() == old(Contents())[..last]
    {
      item := None;
      if count != 0 {
        count := count - 1;
        var slot := Mod(start + count, items.Length);
        WrapIsMod(start + count, items.Length);
        item := Some(items[slot]);
      }
    }

    method Clear()
      requires Valid()
      modifies this
      ensures Valid() && Contents() == []
    {
      count, start := 0, 0;
    }

    /** The item `index` places below the top. */
    method Top(index: nat) returns (item: Option<T>)
      requires Valid()
      ensures item == if index < |Contents()| then Some(Contents()[index]) else None
    {
      item := None;
      if index < count {
        var slot := Mod(start + index, items.Length);
        WrapIsMod(start + index, items.Length);
        item := Some(items[slot]);
      }
    }

    /** The item `index` places above the bottom. */
    method Bottom(index: nat) returns (item: Option<T>)
      requires Valid()
      ensures item == if index < |Contents()| then Some(Contents()[|Contents()| - 1 - index]) else None
    {
      item := None;
      if index < count {
        var slot := Mod(start + count - index - 1, items.Length);
        WrapIsMod(start + count - index - 1, items.Length);
        item := Some(items[slot]);
      }
    }
  }

  /** What a queue that only ever sees `elim_push` holds: the latest items, as many as fit. */
  function PushedAll<T>(items: seq<T>, cap: nat, history: seq<T>): seq<T> {
    if history == [] then items
    else ElimPushed(PushedAll(items, cap, history[..|history| - 1]), cap, history[|history| - 1])
  }

  lemma {:induction false} ElimPushKeepsTheLatest<T>(cap: nat, history: seq<T>)
    requires cap > 0
    ensures PushedAll([], cap, history) == if |history| <= cap then history else history[|history| - cap..]
  {
    if history != [] {
      ElimPushKeepsTheLatest(cap, history[..|history| - 1]);
    }
  }
}
