/** Which transition goes first: three sorts of the code that must agree for every source state. */
module Priority {
  import opened Text
  import opened Ir
  import opened Order

  const UINT32_MAX: nat := 0xFFFF_FFFF

  /** Priority 1 is the most urgent, 0 counts as the least urgent. */
  function Rank(e: Edge): (r: nat)
    ensures 1 <= r <= UINT32_MAX
  {
    if e.priority == 0 then UINT32_MAX else e.priority
  }

  /** The order the C++ and SMV back ends sort the whole table by. */
  predicate MoreUrgent(a: Edge, b: Edge) { Rank(a) <= Rank(b) }

  /** Sources are numbered in the order in which they first occur. */
  function SourceOrder(edges: seq<Edge>): map<string, nat> {
    if |edges| == 0 then map[]
    else
      var m := SourceOrder(edges[..|edges| - 1]);
      var source := edges[|edges| - 1].source;
      if source in m then m else m[source := |m|]
  }

  function OrderOf(m: map<string, nat>, source: string): nat {
    if source in m then m[source] else |m|
  }

  /** Canonical order: by source, and by urgency among the transitions of one source. */
  predicate CanonicalBefore(m: map<string, nat>, a: Edge, b: Edge) {
    if OrderOf(m, a.source) != OrderOf(m, b.source) then OrderOf(m, a.source) < OrderOf(m, b.source)
    else MoreUrgent(a, b)
  }

  function CanonicalOrder(edges: seq<Edge>): (Edge, Edge) -> bool {
    var m := SourceOrder(edges);
    (a: Edge, b: Edge) => CanonicalBefore(m, a, b)
  }

  function Canonical(edges: seq<Edge>): seq<Edge> { Sort(edges, CanonicalOrder(edges)) }

  function ByUrgency(edges: seq<Edge>): seq<Edge> { Sort(edges, MoreUrgent) }

  lemma OrdersAreTotal(edges: seq<Edge>)
    ensures TotalPreorder(MoreUrgent) && TotalPreorder(CanonicalOrder(edges))
  {
  }

  predicate TellsApart(m: map<string, nat>) {
    && (forall s :: s in m ==> m[s] < |m|)
    && (forall s, t :: s in m && t in m && s != t ==> m[s] != m[t])
  }

  /** Every source is numbered, and different sources get different numbers. */
  lemma {:induction false} OrdersTellSources(edges: seq<Edge>)
    ensures forall i :: 0 <= i < |edges| ==> edges[i].source in SourceOrder(edges)
    ensures TellsApart(SourceOrder(edges))
  {
    if |edges| > 0 {
      var init, source := edges[..|edges| - 1], edges[|edges| - 1].source;
      var m := SourceOrder(init);
      OrdersTellSources(init);
      SourceOrderGrows(edges);
      hide TellsApart, SourceOrder;
      if source !in m { NextNumberIsNew(m, source); }
      AllAreNumbered(edges, m, SourceOrder(edges));
    }
  }

  lemma AllAreNumbered(edges: seq<Edge>, m: map<string, nat>, longer: map<string, nat>)
    requires |edges| > 0 && m.Keys <= longer.Keys && edges[|edges| - 1].source in longer
    requires var init := edges[..|edges| - 1]; forall i :: 0 <= i < |init| ==> init[i].source in m
    ensures forall i :: 0 <= i < |edges| ==> edges[i].source in longer
  {
    forall i | 0 <= i < |edges| ensures edges[i].source in longer {
      if i < |edges| - 1 { assert edges[..|edges| - 1][i].source in m; }
    }
  }

  lemma SourceOrderGrows(edges: seq<Edge>)
    requires |edges| > 0
    ensures var m, source := SourceOrder(edges[..|edges| - 1]), edges[|edges| - 1].source;
      SourceOrder(edges) == if source in m then m else m[source := |m|]
  {
  }

  lemma NextNumberIsNew(m: map<string, nat>, source: string)
    requires TellsApart(m) && source !in m
    ensures TellsApart(m[source := |m|]) && |m[source := |m|]| == |m| + 1
  {
    assert m[source := |m|].Keys == m.Keys + {source};
  }

  predicate From(source: string, e: Edge) { e.source == source }

  function FromSource(source: string): Edge -> bool { (e: Edge) => From(source, e) }

  lemma {:induction false} SortsAlike<T>(s: seq<T>, le: (T, T) -> bool, other: (T, T) -> bool)
    requires forall x, y :: x in s && y in s ==> le(x, y) == other(x, y)
    ensures Sort(s, le) == Sort(s, other)
  {
    if |s| > 0 {
      var init, last := s[..|s| - 1], s[|s| - 1];
      SortsAlike(init, le, other);
      forall y | y in Sort(init, le) ensures le(y, last) == other(y, last) {
        SortKeeps(init, le);
        assert y in multiset(Sort(init, le));
        assert y in init && y in s && last in s;
      }
      InsertsAlike(Sort(init, le), last, le, other);
    }
  }

  lemma {:induction false} InsertsAlike<T>(s: seq<T>, x: T, le: (T, T) -> bool, other: (T, T) -> bool)
    requires forall y :: y in s ==> le(y, x) == other(y, x)
    ensures Insert(s, x, le) == Insert(s, x, other)
  {
    if |s| > 0 { InsertsAlike(s[..|s| - 1], x, le, other); }
  }

  /** For one source, all three sorts list the same transitions in the same order. */
  lemma OneSourceOneOrder(edges: seq<Edge>, source: string)
    ensures var mine := Sort(Filter(edges, FromSource(source)), MoreUrgent);
      && Filter(ByUrgency(edges), FromSource(source)) == mine
      && Filter(Canonical(edges), FromSource(source)) == mine
      && Filter(ByUrgency(Canonical(edges)), FromSource(source)) == mine
  {
    var p := FromSource(source);
    var f := Filter(edges, p);
    OrdersAreTotal(edges);
    FilterOfSort(edges, MoreUrgent, p);
    FilterOfSort(edges, CanonicalOrder(edges), p);
    FilterMembers(edges, p);
    SortsAlike(f, CanonicalOrder(edges), MoreUrgent);
    FilterOfSort(Canonical(edges), MoreUrgent, p);
    SortSorted(f, MoreUrgent);
    SortOfSorted(Sort(f, MoreUrgent), MoreUrgent);
  }

  // ------------------------------------------------------- the first enabled

  function First<T>(s: seq<T>, enabled: T -> bool): (r: Option<T>)
    ensures r.Some? ==> r.value in s && enabled(r.value)
    ensures r.None? ==> forall x :: x in s ==> !enabled(x)
  {
    if |s| == 0 then None
    else if enabled(s[0]) then Some(s[0])
    else First(s[1..], enabled)
  }

  lemma {:induction false} FirstOfSum<T>(a: seq<T>, b: seq<T>, enabled: T -> bool)
    ensures First(a + b, enabled) == if First(a, enabled).Some? then First(a, enabled) else First(b, enabled)
    decreases |a|
  {
    if |a| == 0 {
      assert a + b == b;
    } else {
      assert (a + b)[1..] == a[1..] + b;
      FirstOfSum(a[1..], b, enabled);
    }
  }

  lemma {:induction false} FirstOfFilter<T>(s: seq<T>, p: T -> bool, enabled: T -> bool)
    requires forall x :: enabled(x) ==> p(x)
    ensures First(Filter(s, p), enabled) == First(s, enabled)
  {
    if |s| > 0 {
      var init, last := s[..|s| - 1], s[|s| - 1];
      FirstOfFilter(init, p, enabled);
      assert s == init + [last];
      FirstOfSum(init, [last], enabled);
      FirstOfSum(Filter(init, p), if p(last) then [last] else [], enabled);
    }
  }

  /** The canonical list and both back ends' lists pick the same enabled transition of a state. */
  lemma SameTransitionFires(edges: seq<Edge>, source: string, enabled: Edge -> bool)
    requires forall e :: enabled(e) ==> e.source == source
    ensures First(Canonical(edges), enabled) == First(ByUrgency(edges), enabled)
      == First(ByUrgency(Canonical(edges)), enabled)
  {
    OneSourceOneOrder(edges, source);
    FirstOfFilter(Canonical(edges), FromSource(source), enabled);
    FirstOfFilter(ByUrgency(edges), FromSource(source), enabled);
    FirstOfFilter(ByUrgency(Canonical(edges)), FromSource(source), enabled);
  }

  lemma {:induction false} FirstOfInsert(s: seq<Edge>, x: Edge, enabled: Edge -> bool)
    requires Sorted(s, MoreUrgent)
    ensures var f := First(s, enabled);
      First(Insert(s, x, MoreUrgent), enabled) ==
        if !enabled(x) then f else if f.Some? && MoreUrgent(f.value, x) then f else Some(x)
  {
    if |s| == 0 {
      assert [x][1..] == [];
    } else {
      var init, last := s[..|s| - 1], s[|s| - 1];
      assert s == init + [last];
      FirstOfSum(init, [last], enabled);
      if MoreUrgent(last, x) {
        FirstOfSum(s, [x], enabled);
      } else {
        FirstOfInsert(init, x, enabled);
        FirstOfSum(Insert(init, x, MoreUrgent), [last], enabled);
      }
    }
  }

  /**
   * The priority given to `a` goes before that of `b`: a smaller number goes first, and none given
   * goes last, together with the greatest number there is.
   */
  predicate Ahead(a: Edge, b: Edge) {
    a.priority != 0 && if b.priority == 0 then a.priority < 0xFFFF_FFFF else a.priority < b.priority
  }

  /** `i` is where the most urgent enabled transition stands; the earlier one wins a tie. */
  predicate Wins(edges: seq<Edge>, i: nat, enabled: Edge -> bool) {
    && i < |edges| && enabled(edges[i])
    && forall j :: 0 <= j < |edges| && enabled(edges[j]) ==>
      !Ahead(edges[j], edges[i]) && (j < i ==> Ahead(edges[i], edges[j]))
  }

  lemma AheadIsLessRank(a: Edge, b: Edge)
    ensures Ahead(a, b) <==> !MoreUrgent(b, a)
  {
  }

  lemma UrgencySorts(edges: seq<Edge>)
    ensures Sorted(ByUrgency(edges), MoreUrgent)
  {
    OrdersAreTotal(edges);
    SortSorted(edges, MoreUrgent);
  }

  /** No transition is enabled, or the most urgent one is `f`. */
  predicate Picks(edges: seq<Edge>, i: nat, f: Option<Edge>, enabled: Edge -> bool) {
    match f
    case None => forall j :: 0 <= j < |edges| ==> !enabled(edges[j])
    case Some(e) => Wins(edges, i, enabled) && edges[i] == e
  }

  lemma PicksOneMore(edges: seq<Edge>, i: nat, f: Option<Edge>, x: Edge, enabled: Edge -> bool)
    requires Picks(edges, i, f, enabled)
    ensures !enabled(x) ==> Picks(edges + [x], i, f, enabled)
    ensures enabled(x) && f.Some? && MoreUrgent(f.value, x) ==> Picks(edges + [x], i, f, enabled)
    ensures enabled(x) && !(f.Some? && MoreUrgent(f.value, x)) ==> Picks(edges + [x], |edges|, Some(x), enabled)
  {
  }

  /** First match in the sorted table is the most urgent enabled transition of the document. */
  lemma {:induction false} FirstMatchWins(edges: seq<Edge>, enabled: Edge -> bool) returns (i: nat)
    ensures Picks(edges, i, First(ByUrgency(edges), enabled), enabled)
  {
    hide Wins, Picks;
    if |edges| == 0 {
      i := 0;
      NothingToPick(enabled);
    } else {
      var init, last := edges[..|edges| - 1], edges[|edges| - 1];
      i := FirstMatchWins(init, enabled);
      UrgencySorts(init);
      FirstOfInsert(ByUrgency(init), last, enabled);
      var f := First(ByUrgency(init), enabled);
      PicksOneMore(init, i, f, last, enabled);
      assert edges == init + [last];
      if enabled(last) && !(f.Some? && MoreUrgent(f.value, last)) { i := |init|; }
    }
  }

  lemma NothingToPick(enabled: Edge -> bool)
    ensures Picks([], 0, None, enabled)
  {
  }
}
