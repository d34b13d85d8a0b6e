/** Server lists as the naming service handles them: sorting, set difference, removal in place. */
module ServerLists {
  import opened ServerLayout

  // ----- The order of server names -----

  /** `operator<` of strings. */
  predicate Less(a: ServerName, b: ServerName) {
    b != [] && (a == [] || a[0] < b[0] || (a[0] == b[0] && Less(a[1..], b[1..])))
  }

  lemma {:induction false} LessTransitive(a: ServerName, b: ServerName, c: ServerName)
    requires Less(a, b) && Less(b, c)
    ensures Less(a, c)
  {
    if a != [] && a[0] == b[0] == c[0] {
      LessTransitive(a[1..], b[1..], c[1..]);
    }
  }

  lemma {:induction false} LessIrreflexive(a: ServerName)
    ensures !Less(a, a)
  {
    if a != [] {
      LessIrreflexive(a[1..]);
    }
  }

  lemma {:induction false} LessTotal(a: ServerName, b: ServerName)
    ensures Less(a, b) || Less(b, a) || a == b
    ensures !(Less(a, b) && Less(b, a)) && !Less(a, a)
  {
    LessIrreflexive(a);
    if a != [] && b != [] {
      LessTotal(a[1..], b[1..]);
      assert a == [a[0]] + a[1..] && b == [b[0]] + b[1..];
    }
  }

  ghost predicate Sorted(s: seq<ServerName>) {
    forall i, j :: 0 <= i < j < |s| ==> !Less(s[j], s[i])
  }

  // ----- std::sort -----

  function Insert(x: ServerName, s: seq<ServerName>): seq<ServerName> {
    if s == [] then [x]
    else if Less(s[0], x) then [s[0]] + Insert(x, s[1..])
    else [x] + s
  }

  function Sort(s: seq<ServerName>): seq<ServerName> {
    if s == [] then [] else Insert(s[0], Sort(s[1..]))
  }

  lemma {:induction false} InsertSorted(x: ServerName, s: seq<ServerName>)
    requires Sorted(s)
    ensures Sorted(Insert(x, s)) && multiset(Insert(x, s)) == multiset(s) + multiset{x}
  {
    if s != [] {
      assert s == [s[0]] + s[1..];
      if Less(s[0], x) {
        InsertSorted(x, s[1..]);
        var r := Insert(x, s[1..]);
        hide Less;
        forall j | 0 <= j < |r| ensures !Less(r[j], s[0]) {
          assert r[j] in multiset(r);
          LessTotal(s[0], x);
        }
        PrependSorted(s[0], r);
      } else {
        hide Less;
        forall j | 0 <= j < |s| ensures !Less(s[j], x) {
          FirstIsLeast(x, s, j);
        }
        PrependSorted(x, s);
      }
    }
  }

  lemma PrependSorted(x: ServerName, s: seq<ServerName>)
    requires Sorted(s) && forall j :: 0 <= j < |s| ==> !Less(s[j], x)
    ensures Sorted([x] + s)
  {
    hide Less;
    LessIrreflexive(x);
  }

  lemma FirstIsLeast(x: ServerName, s: seq<ServerName>, j: nat)
    requires Sorted(s) && j < |s| && !Less(s[0], x)
    ensures !Less(s[j], x)
  {
    hide Less;
    if j > 0 && Less(s[j], x) {
      LessTotal(s[0], s[j]);
      if Less(s[0], s[j]) {
        LessTransitive(s[0], s[j], x);
      }
    }
  }

  lemma {:induction false} SortSorts(s: seq<ServerName>)
    ensures Sorted(Sort(s)) && multiset(Sort(s)) == multiset(s)
  {
    if s != [] {
      SortSorts(s[1..]);
      InsertSorted(s[0], Sort(s[1..]));
      assert s == [s[0]] + s[1..];
    }
  }

  // ----- std::set_difference -----

  function SetDifference(a: seq<ServerName>, b: seq<ServerName>): seq<ServerName>
    decreases |a| + |b|
  {
    if a == [] then []
    else if b == [] then a
    else if Less(a[0], b[0]) then [a[0]] + SetDifference(a[1..], b)
    else if Less(b[0], a[0]) then SetDifference(a, b[1..])
    else SetDifference(a[1..], b[1..])
  }

  lemma SmallerThanAll(x: ServerName, s: seq<ServerName>)
    requires Sorted(s) && s != [] && Less(x, s[0])
    ensures x !in multiset(s)
  {
    forall j | 0 <= j < |s| ensures s[j] != x {
      LessTotal(x, s[0]);
    }
  }

  lemma DifferenceStep<T>(x: T, m: multiset<T>, n: multiset<T>)
    ensures x !in n ==> (multiset{x} + m) - n == multiset{x} + (m - n)
    ensures x !in m ==> m - (multiset{x} + n) == m - n
    ensures (multiset{x} + m) - (multiset{x} + n) == m - n
  {
  }

  /** On sorted lists it is the difference of multisets: an element that occurs m and n times is kept
      max(m - n, 0) times. */
  lemma {:induction false} SetDifferenceIsDifference(a: seq<ServerName>, b: seq<ServerName>)
    requires Sorted(a) && Sorted(b)
    ensures multiset(SetDifference(a, b)) == multiset(a) - multiset(b)
    decreases |a| + |b|
  {
    if a != [] && b != [] {
      var x, y, a', b' := a[0], b[0], a[1..], b[1..];
      assert a == [x] + a' && b == [y] + b';
      if Less(x, y) {
        SetDifferenceIsDifference(a', b);
        SmallerThanAll(x, b);
        DifferenceStep(x, multiset(a'), multiset(b));
      } else if Less(y, x) {
        SetDifferenceIsDifference(a, b');
        SmallerThanAll(y, a);
        DifferenceStep(y, multiset(a), multiset(b'));
      } else {
        LessTotal(x, y);
        SetDifferenceIsDifference(a', b');
        DifferenceStep(x, multiset(a'), multiset(b'));
      }
    }
  }

  // ----- Removal by swapping with the back -----

  function RemoveOne<T(==)>(s: seq<T>, x: T): seq<T> {
    if x in s then var i := IndexOf(s, x); s[i := s[|s| - 1]][..|s| - 1] else s
  }

  function IndexOf<T(==)>(s: seq<T>, x: T): (i: nat)
    requires x in s
    ensures i < |s| && s[i] == x && x !in s[..i]
  {
    if s[0] == x then 0
    else
      assert s == [s[0]] + s[1..];
      1 + IndexOf(s[1..], x)
  }

  lemma RemoveOneRemoves<T>(s: seq<T>, x: T)
    ensures multiset(RemoveOne(s, x)) == multiset(s) - multiset{x}
  {
    if x in s {
      var i, last := IndexOf(s, x), |s| - 1;
      var front, back := s[..last], s[last];
      assert s == front + [back];
      if i < last {
        assert RemoveOne(s, x) == front[i := back];
        assert multiset(front[i := back]) == multiset(front) - multiset{x} + multiset{back};
        assert x in multiset(front);
      } else {
        assert RemoveOne(s, x) == front;
      }
    } else {
      assert x !in multiset(s);
    }
  }

  // ----- Elements -----

  ghost function Elements<T>(s: seq<T>): set<T> {
    set x | x in s
  }

  ghost predicate Distinct<T>(s: seq<T>) {
    forall i, j :: 0 <= i < j < |s| ==> s[i] != s[j]
  }

  lemma {:induction false} DistinctCounts<T>(s: seq<T>)
    ensures Distinct(s) <==> forall x :: x in multiset(s) ==> multiset(s)[x] == 1
  {
    if s != [] {
      var r, x := s[..|s| - 1], s[|s| - 1];
      assert s == r + [x];
      DistinctCounts(r);
      if Distinct(s) {
        assert x !in r;
      } else if Distinct(r) {
        var i :| 0 <= i < |r| && r[i] == x;
        assert x in multiset(r);
        assert multiset(s)[x] == 2;
      } else {
        var y :| y in multiset(r) && multiset(r)[y] != 1;
        assert multiset(s)[y] >= 2;
      }
    }
  }

  lemma ElementsByCount<T>(s: seq<T>, t: seq<T>)
    requires multiset(s) == multiset(t)
    ensures Elements(s) == Elements(t) && (Distinct(s) <==> Distinct(t)) && (s == [] <==> t == [])
  {
    forall x ensures x in s <==> x in t {
      assert x in s <==> x in multiset(s);
      assert x in t <==> x in multiset(t);
    }
    DistinctCounts(s);
    DistinctCounts(t);
    assert |s| == |multiset(s)| == |t|;
  }
}
