/** Stable sorting as a function, and why every stable sort delivers the same sequence. */
module Order {

  ghost predicate TotalPreorder<T(!new)>(le: (T, T) -> bool) {
    && (forall a, b :: le(a, b) || le(b, a))
    && (forall a, b, c :: le(a, b) && le(b, c) ==> le(a, c))
  }

  predicate Sorted<T>(s: seq<T>, le: (T, T) -> bool) {
    forall i, j :: 0 <= i < j < |s| ==> le(s[i], s[j])
  }

  /** Places `x` behind everything it is not below. */
  function Insert<T>(s: seq<T>, x: T, le: (T, T) -> bool): (r: seq<T>)
    ensures |r| == |s| + 1
  {
    if |s| == 0 then [x]
    else if le(s[|s| - 1], x) then s + [x]
    else Insert(s[..|s| - 1], x, le) + [s[|s| - 1]]
  }

  function Sort<T>(s: seq<T>, le: (T, T) -> bool): (r: seq<T>)
    ensures |r| == |s|
  {
    if |s| == 0 then [] else Insert(Sort(s[..|s| - 1], le), s[|s| - 1], le)
  }

  function Filter<T>(s: seq<T>, p: T -> bool): seq<T> {
    if |s| == 0 then []
    else Filter(s[..|s| - 1], p) + if p(s[|s| - 1]) then [s[|s| - 1]] else []
  }

  predicate AllBelow<T>(s: seq<T>, y: T, le: (T, T) -> bool) {
    forall i :: 0 <= i < |s| ==> le(s[i], y)
  }

  lemma {:induction false} InsertBelow<T(!new)>(s: seq<T>, x: T, y: T, le: (T, T) -> bool)
    requires AllBelow(s, y, le) && le(x, y)
    ensures AllBelow(Insert(s, x, le), y, le)
  {
    if |s| > 0 && !le(s[|s| - 1], x) { InsertBelow(s[..|s| - 1], x, y, le); }
  }

  lemma {:induction false} InsertKeeps<T>(s: seq<T>, x: T, le: (T, T) -> bool)
    ensures multiset(Insert(s, x, le)) == multiset(s) + multiset{x}
  {
    if |s| > 0 && !le(s[|s| - 1], x) {
      InsertKeeps(s[..|s| - 1], x, le);
      assert s == s[..|s| - 1] + [s[|s| - 1]];
    }
  }

  lemma {:induction false} InsertSorted<T(!new)>(s: seq<T>, x: T, le: (T, T) -> bool)
    requires TotalPreorder(le) && Sorted(s, le)
    ensures Sorted(Insert(s, x, le), le)
    ensures multiset(Insert(s, x, le)) == multiset(s) + multiset{x}
  {
    InsertKeeps(s, x, le);
    if |s| > 0 {
      var init, last := s[..|s| - 1], s[|s| - 1];
      if le(last, x) {
        forall i | 0 <= i < |s| ensures le(s[i], x) { assert i == |s| - 1 || le(s[i], last); }
      } else {
        InsertSorted(init, x, le);
        InsertBelow(init, x, last, le);
      }
    }
  }

  lemma WithoutLast<T>(s: seq<T>)
    requires |s| > 0
    ensures multiset(s) == multiset(s[..|s| - 1]) + multiset{s[|s| - 1]}
  {
    assert s == s[..|s| - 1] + [s[|s| - 1]];
  }

  lemma {:induction false} SortKeeps<T>(s: seq<T>, le: (T, T) -> bool)
    ensures multiset(Sort(s, le)) == multiset(s)
  {
    hide Insert;
    if |s| > 0 {
      var init, last := s[..|s| - 1], s[|s| - 1];
      SortKeeps(init, le);
      InsertKeeps(Sort(init, le), last, le);
      WithoutLast(s);
      assert multiset(Sort(s, le)) == multiset(Sort(init, le)) + multiset{last};
    }
  }

  lemma NothingToSort<T>(s: seq<T>, le: (T, T) -> bool)
    requires |s| == 0
    ensures Sorted(s, le)
  {
  }

  lemma {:induction false} SortSorted<T(!new)>(s: seq<T>, le: (T, T) -> bool)
    requires TotalPreorder(le)
    ensures Sorted(Sort(s, le), le) && multiset(Sort(s, le)) == multiset(s)
  {
    hide Insert, Sorted, TotalPreorder;
    SortKeeps(s, le);
    if |s| == 0 {
      NothingToSort(Sort(s, le), le);
    } else {
      var init, last := s[..|s| - 1], s[|s| - 1];
      SortSorted(init, le);
      InsertSorted(Sort(init, le), last, le);
    }
  }

  lemma {:induction false} FilterMembers<T>(s: seq<T>, p: T -> bool)
    ensures forall x :: x in Filter(s, p) <==> x in s && p(x)
    ensures |Filter(s, p)| <= |s|
  {
    if |s| > 0 {
      FilterMembers(s[..|s| - 1], p);
      assert s == s[..|s| - 1] + [s[|s| - 1]];
    }
  }

  lemma FilterSnoc<T>(s: seq<T>, x: T, p: T -> bool)
    ensures Filter(s + [x], p) == if p(x) then Filter(s, p) + [x] else Filter(s, p)
  {
    assert (s + [x])[..|s|] == s;
  }

  lemma InsertSnoc<T>(s: seq<T>, y: T, x: T, le: (T, T) -> bool)
    ensures Insert(s + [y], x, le) == if le(y, x) then s + [y, x] else Insert(s, x, le) + [y]
  {
    assert (s + [y])[..|s|] == s;
    assert s + [y] + [x] == s + [y, x];
  }

  lemma {:induction false} FilterOfInsert<T(!new)>(s: seq<T>, x: T, le: (T, T) -> bool, p: T -> bool)
    requires TotalPreorder(le) && Sorted(s, le)
    ensures Filter(Insert(s, x, le), p) == if p(x) then Insert(Filter(s, p), x, le) else Filter(s, p)
  {
    if |s| == 0 {
      assert [x][..0] == [];
    } else {
      var init, last := s[..|s| - 1], s[|s| - 1];
      var f := Filter(s, p);
      if le(last, x) {
        FilterSnoc(s, x, p);
        FilterMembers(s, p);
        if |f| > 0 {
          var y := f[|f| - 1];
          assert y in f && y in s;
          var k :| 0 <= k < |s| && s[k] == y;
          assert k == |s| - 1 || le(y, last);
        }
      } else {
        FilterOfInsert(init, x, le, p);
        assert Insert(s, x, le) == Insert(init, x, le) + [last];
        FilterSnoc(Insert(init, x, le), last, p);
        InsertSnoc(Filter(init, p), last, x, le);
        assert f == if p(last) then Filter(init, p) + [last] else Filter(init, p);
      }
    }
  }

  /** Picking elements and sorting stably may be done in either order. */
  lemma {:induction false} FilterOfSort<T(!new)>(s: seq<T>, le: (T, T) -> bool, p: T -> bool)
    requires TotalPreorder(le)
    ensures Filter(Sort(s, le), p) == Sort(Filter(s, p), le)
  {
    hide Insert;
    if |s| > 0 {
      var init, last := s[..|s| - 1], s[|s| - 1];
      FilterOfSort(init, le, p);
      SortSorted(init, le);
      FilterOfInsert(Sort(init, le), last, le, p);
      SortSnoc(Filter(init, p), last, le);
      assert s == init + [last];
      FilterSnoc(init, last, p);
    }
  }

  lemma SortSnoc<T>(s: seq<T>, x: T, le: (T, T) -> bool)
    ensures Sort(s + [x], le) == Insert(Sort(s, le), x, le)
  {
    assert (s + [x])[..|s|] == s;
  }

  lemma {:induction false} SortOfSorted<T>(s: seq<T>, le: (T, T) -> bool)
    requires Sorted(s, le)
    ensures Sort(s, le) == s
  {
    if |s| > 0 { SortOfSorted(s[..|s| - 1], le); }
  }

  // -------------------------------------------- the result is the only one

  /** The elements that rank with `x`, in order. */
  function Peers<T>(s: seq<T>, x: T, le: (T, T) -> bool): seq<T> {
    if |s| == 0 then []
    else (if le(s[0], x) && le(x, s[0]) then [s[0]] else []) + Peers(s[1..], x, le)
  }

  lemma {:induction false} PeersMembers<T>(s: seq<T>, x: T, le: (T, T) -> bool)
    ensures forall y :: y in Peers(s, x, le) <==> y in s && le(y, x) && le(x, y)
  {
    if |s| > 0 { PeersMembers(s[1..], x, le); }
  }

  /** Two sorted sequences whose ranks hold the same elements in the same order are equal. */
  lemma {:induction false} SortedAlike<T(!new)>(a: seq<T>, b: seq<T>, le: (T, T) -> bool)
    requires TotalPreorder(le) && Sorted(a, le) && Sorted(b, le)
    requires forall x :: Peers(a, x, le) == Peers(b, x, le)
    ensures a == b
    decreases |a| + |b|
  {
    if |a| > 0 { HeadAppears(a, b, le); }
    if |b| > 0 { HeadAppears(b, a, le); }
    if |a| > 0 && |b| > 0 {
      var x, y := a[0], b[0];
      assert le(x, y) && le(y, x);
      assert Peers(a, x, le)[0] == x && Peers(b, x, le)[0] == y;
      forall z ensures Peers(a[1..], z, le) == Peers(b[1..], z, le) {
        var head := if le(x, z) && le(z, x) then [x] else [];
        assert Peers(a, z, le) == head + Peers(a[1..], z, le);
        assert Peers(b, z, le) == head + Peers(b[1..], z, le);
        assert (head + Peers(a[1..], z, le))[|head|..] == Peers(a[1..], z, le);
        assert (head + Peers(b[1..], z, le))[|head|..] == Peers(b[1..], z, le);
      }
      SortedAlike(a[1..], b[1..], le);
    }
  }

  lemma HeadAppears<T(!new)>(a: seq<T>, b: seq<T>, le: (T, T) -> bool)
    requires TotalPreorder(le) && |a| > 0 && Sorted(a, le) && Sorted(b, le)
    requires forall x :: Peers(a, x, le) == Peers(b, x, le)
    ensures |b| > 0 && le(b[0], a[0])
  {
    var x := a[0];
    PeersMembers(a, x, le);
    PeersMembers(b, x, le);
    assert x in Peers(a, x, le);
    var k :| 0 <= k < |b| && b[k] == x;
    assert k == 0 || le(b[0], b[k]);
  }

  lemma {:induction false} PeersOfSum<T>(a: seq<T>, b: seq<T>, x: T, le: (T, T) -> bool)
    ensures Peers(a + b, x, le) == Peers(a, x, le) + Peers(b, x, le)
    decreases |a|
  {
    if |a| == 0 {
      assert a + b == b;
    } else {
      assert (a + b)[1..] == a[1..] + b;
      PeersOfSum(a[1..], b, x, le);
    }
  }

  lemma {:induction false} PeersOfInsert<T(!new)>(s: seq<T>, y: T, x: T, le: (T, T) -> bool)
    requires TotalPreorder(le) && Sorted(s, le)
    ensures Peers(Insert(s, y, le), x, le) == Peers(s + [y], x, le)
  {
    if |s| > 0 && !le(s[|s| - 1], y) {
      var init, last := s[..|s| - 1], s[|s| - 1];
      PeersOfInsert(init, y, x, le);
      PeersOfSum(Insert(init, y, le), [last], x, le);
      assert s + [y] == init + [last] + [y];
      PeersOfSum(init, [last], x, le);
      PeersOfSum(init + [last], [y], x, le);
      PeersOfSum(init, [y], x, le);
      assert Peers([last], x, le) == [] || Peers([y], x, le) == [] by {
        assert [last][1..] == [] && [y][1..] == [];
      }
    }
  }

  lemma {:induction false} SortIsStable<T(!new)>(s: seq<T>, x: T, le: (T, T) -> bool)
    requires TotalPreorder(le)
    ensures Peers(Sort(s, le), x, le) == Peers(s, x, le)
  {
    if |s| > 0 {
      var init, last := s[..|s| - 1], s[|s| - 1];
      SortIsStable(init, x, le);
      SortSorted(init, le);
      PeersOfInsert(Sort(init, le), last, x, le);
      PeersOfSum(Sort(init, le), [last], x, le);
      PeersOfSum(init, [last], x, le);
      assert s == init + [last];
    }
  }

  /** Whatever algorithm sorts stably, its result is this one. */
  lemma StableSortIsUnique<T(!new)>(s: seq<T>, t: seq<T>, le: (T, T) -> bool)
    requires TotalPreorder(le) && Sorted(t, le)
    requires forall x :: Peers(t, x, le) == Peers(s, x, le)
    ensures t == Sort(s, le)
  {
    SortSorted(s, le);
    forall x ensures Peers(t, x, le) == Peers(Sort(s, le), x, le) { SortIsStable(s, x, le); }
    SortedAlike(t, Sort(s, le), le);
  }

  /** With keys all different any sorted permutation will do: stability no longer matters. */
  lemma {:induction false} DistinctSortIsUnique<T(!new)>(a: seq<T>, b: seq<T>, le: (T, T) -> bool)
    requires TotalPreorder(le) && Sorted(a, le) && Sorted(b, le) && multiset(a) == multiset(b)
    requires forall x, y :: x in a && y in a && le(x, y) && le(y, x) ==> x == y
    ensures a == b
    decreases |a|
  {
    assert |multiset(b)| == |multiset(a)|;
    if |a| > 0 {
      HeadsMatch(a, b, le);
      TailsMatch(a, b);
      DistinctSortIsUnique(a[1..], b[1..], le);
    }
  }

  lemma HeadsMatch<T(!new)>(a: seq<T>, b: seq<T>, le: (T, T) -> bool)
    requires TotalPreorder(le) && Sorted(a, le) && Sorted(b, le) && multiset(a) == multiset(b)
    requires forall x, y :: x in a && y in a && le(x, y) && le(y, x) ==> x == y
    requires |a| > 0 && |b| > 0
    ensures a[0] == b[0]
  {
    var x, y := a[0], b[0];
    assert x in multiset(b) && y in multiset(a);
    var i :| 0 <= i < |a| && a[i] == y;
    var j :| 0 <= j < |b| && b[j] == x;
    assert i == 0 || le(x, y);
    assert j == 0 || le(y, x);
  }

  lemma TailsMatch<T>(a: seq<T>, b: seq<T>)
    requires |a| > 0 && |b| > 0 && a[0] == b[0] && multiset(a) == multiset(b)
    ensures multiset(a[1..]) == multiset(b[1..])
  {
    assert a == [a[0]] + a[1..] && b == [b[0]] + b[1..];
    assert multiset(a[1..]) == multiset(a) - multiset{a[0]};
    assert multiset(b[1..]) == multiset(b) - multiset{b[0]};
  }
}
