/** What the graph operations guarantee. */
module GraphProps {
  import opened Text
  import opened Ir
  import opened Order
  import opened Priority
  import opened GraphSpec
  import opened GraphOps
  import opened Traps
  import Guard
  import Strings

  // -------------------------------------------------------------- adjacency

  /** With names all different, the two lists of a state hold exactly its transitions, in order. */
  lemma AdjacencyIsExact(states: seq<State>, edges: seq<Edge>, k: nat)
    requires UniqueNames(states) && k < |states| && states[k].name != ""
    ensures var s := Adjacent(states, edges, |edges|)[k];
      && s == states[k].(outgoing := s.outgoing, incoming := s.incoming)
      && (forall i :: i in s.outgoing <==>
            0 <= i < |edges| && (edges[i].source == s.name || s.name in edges[i].sourceIds))
      && (forall i :: i in s.incoming <==>
            0 <= i < |edges| && (edges[i].target == s.name || s.name in edges[i].targetIds))
      && (forall a, b :: 0 <= a < b < |s.outgoing| ==> s.outgoing[a] < s.outgoing[b])
      && (forall a, b :: 0 <= a < b < |s.incoming| ==> s.incoming[a] < s.incoming[b])
  {
    var name := states[k].name;
    IndicesBelow(edges, |edges|, LeavesFrom(name));
    IndicesBelow(edges, |edges|, ReachesTo(name));
  }

  // -------------------------------------------------------------- hierarchy

  lemma {:induction false} UprootAt(states: seq<State>, name: string, respectPin: bool, k: nat)
    requires k < |states|
    ensures Uproot(states, name, respectPin)[k] ==
      if FirstOfName(states, k) && states[k].name == name && !(respectPin && states[k].pinned)
      then states[k].(parent := "") else states[k]
  {
    if states[0].name != name {
      if k > 0 {
        UprootAt(states[1..], name, respectPin, k - 1);
        FirstInTail(states, k);
      }
    } else if k > 0 && FirstOfName(states, k) {
      assert states[0].name != states[k].name;
    }
  }

  lemma FirstInTail(states: seq<State>, k: nat)
    requires 0 < k < |states|
    ensures FirstOfName(states, k) <==> states[0].name != states[k].name && FirstOfName(states[1..], k - 1)
  {
    if FirstOfName(states, k) {
      forall j | 0 <= j < k - 1 ensures states[1..][j].name != states[1..][k - 1].name {
        assert states[j + 1].name != states[k].name;
      }
    }
    if states[0].name != states[k].name && FirstOfName(states[1..], k - 1) {
      forall j | 0 <= j < k ensures states[j].name != states[k].name {
        if j > 0 { assert states[1..][j - 1].name != states[1..][k - 1].name; }
      }
    }
  }

  /** Some transition at the root scope leaves from that name. */
  predicate RootSource(edges: seq<Edge>, name: string) {
    exists i :: 0 <= i < |edges| && edges[i].parentScope == "" && edges[i].source != "" && edges[i].source == name
  }

  lemma {:induction false} UprootSourcesAt(states: seq<State>, edges: seq<Edge>, k: nat)
    requires k < |states|
    ensures UprootSources(states, edges)[k] ==
      if FirstOfName(states, k) && !states[k].pinned && RootSource(edges, states[k].name)
      then states[k].(parent := "") else states[k]
  {
    if |edges| > 0 {
      var init, e := edges[..|edges| - 1], edges[|edges| - 1];
      var before := UprootSources(states, init);
      forall j | 0 <= j < |states| ensures before[j].name == states[j].name { UprootSourcesAt(states, init, j); }
      UprootSourcesAt(states, init, k);
      UprootAt(before, e.source, true, k);
      SameFirst(states, before, k);
      RootSourceGrows(edges, states[k].name);
    }
  }

  lemma RootSourceGrows(edges: seq<Edge>, name: string)
    requires |edges| > 0
    ensures RootSource(edges, name) <==>
      var e := edges[|edges| - 1];
      RootSource(edges[..|edges| - 1], name) || (e.parentScope == "" && e.source != "" && e.source == name)
  {
    var init := edges[..|edges| - 1];
    if RootSource(edges, name) {
      var i :| 0 <= i < |edges| && edges[i].parentScope == "" && edges[i].source != "" && edges[i].source == name;
      if i < |init| { assert init[i] == edges[i]; }
    }
    if RootSource(init, name) {
      var i :| 0 <= i < |init| && init[i].parentScope == "" && init[i].source != "" && init[i].source == name;
      assert edges[i] == init[i];
    }
  }

  /** The states that normalisation moves to the root. */
  predicate Rooted(states: seq<State>, initial: string, edges: seq<Edge>, k: nat)
    requires k < |states|
  {
    && FirstOfName(states, k)
    && ((initial != "" && states[k].name == initial) || (!states[k].pinned && RootSource(edges, states[k].name)))
  }

  function Replanted(states: seq<State>, initial: string, edges: seq<Edge>): (r: seq<State>)
    ensures |r| == |states|
    ensures forall k :: 0 <= k < |states| ==>
      r[k] == if Rooted(states, initial, edges, k) then states[k].(parent := "") else states[k]
  {
    seq(|states|, k requires 0 <= k < |states| =>
      if Rooted(states, initial, edges, k) then states[k].(parent := "") else states[k])
  }

  /** Normalisation moves exactly the rooted states, then rebuilds the children of all. */
  lemma NormalisationMoves(states: seq<State>, initial: string, edges: seq<Edge>)
    ensures NormalStates(states, initial, edges) == RebuildChildren(Replanted(states, initial, edges))
  {
    var first := UprootInitial(states, initial);
    forall k | 0 <= k < |states|
      ensures first[k] ==
        if FirstOfName(states, k) && initial != "" && states[k].name == initial then states[k].(parent := "")
        else states[k]
    {
      if initial != "" { UprootAt(states, initial, false, k); }
    }
    forall k | 0 <= k < |states|
      ensures UprootSources(first, edges)[k] == Replanted(states, initial, edges)[k]
    {
      UprootSourcesAt(first, edges, k);
      SameFirst(states, first, k);
    }
    assert UprootSources(first, edges) == Replanted(states, initial, edges);
  }

  /** Normalising twice is normalising once. */
  lemma NormalisationIsIdempotent(g: Graph)
    ensures Normalized(Normalized(g)) == Normalized(g)
  {
    hide NormalStates, RootSource, HasChild, ChildIds, FirstOfName;
    var s, n := g.states, Normalized(g).states;
    var r := Replanted(s, g.initial, g.edges);
    NormalisationMoves(s, g.initial, g.edges);
    NormalisationMoves(n, g.initial, g.edges);
    var r2 := Replanted(n, g.initial, g.edges);
    forall k | 0 <= k < |s| ensures r2[k] == n[k] {
      SameFirst(s, n, k);
      assert Rooted(n, g.initial, g.edges, k) <==> Rooted(s, g.initial, g.edges, k);
    }
    assert r2 == n;
    forall k | 0 <= k < |s| ensures WithChildren(n, n[k]) == n[k] {
      assert n[k] == WithChildren(r, r[k]);
      ChildIdsAlike(n, r, n[k].name, |n|);
      HasChildAlike(n, r, n[k].name);
    }
    assert RebuildChildren(n) == n;
  }

  predicate ParentsDeclared(states: seq<State>) {
    forall k :: 0 <= k < |states| && states[k].parent != "" ==> Declared(states, states[k].parent)
  }

  predicate Declared(states: seq<State>, name: string) {
    exists i :: 0 <= i < |states| && states[i].name == name
  }

  /** A state is composite exactly when it has a child or names an initial substate. */
  predicate CompositeExactly(states: seq<State>) {
    forall k :: 0 <= k < |states| ==>
      (states[k].composite <==> HasChild(states, states[k].name) || states[k].initialSub != "")
  }

  lemma MovedStateKeeps(g: Graph, k: nat)
    requires k < |g.states|
    ensures var n := Normalized(g).states;
      && |n| == |g.states| && n[k].name == g.states[k].name
      && (n[k].parent == "" || n[k].parent == g.states[k].parent)
      && n[k].children == ChildIds(n, n[k].name, |n|)
      && (n[k].composite <==> HasChild(n, n[k].name) || n[k].initialSub != "")
  {
    var n, r := Normalized(g).states, Replanted(g.states, g.initial, g.edges);
    NormalisationMoves(g.states, g.initial, g.edges);
    assert n[k] == WithChildren(r, r[k]);
    forall j | 0 <= j < |n| ensures n[j].parent == r[j].parent && n[j].id == r[j].id {
      assert n[j] == WithChildren(r, r[j]);
    }
    ChildIdsAlike(n, r, n[k].name, |n|);
    HasChildAlike(n, r, n[k].name);
  }

  /** Normalisation keeps names, the forest and declared parents, and lists children exactly. */
  lemma NormalisationKeepsForest(g: Graph, depth: string -> nat, height: nat)
    requires Forest(g.states, depth, height) && depth("") == 0 && ParentsDeclared(g.states)
    ensures var n := Normalized(g).states;
      && |n| == |g.states| && (forall k :: 0 <= k < |n| ==> n[k].name == g.states[k].name)
      && Forest(n, depth, height) && ParentsDeclared(n) && CompositeExactly(n)
      && forall k :: 0 <= k < |n| ==> n[k].children == ChildIds(n, n[k].name, |n|)
  {
    hide Normalized, HasChild, ChildIds, Forest, ParentsDeclared;
    var s, n := g.states, Normalized(g).states;
    assert |n| == |s| by { if |s| > 0 { MovedStateKeeps(g, 0); } else { SameCount(g); } }
    forall k | 0 <= k < |n|
      ensures n[k].name == s[k].name && (n[k].parent == "" || n[k].parent == s[k].parent)
      ensures n[k].children == ChildIds(n, n[k].name, |n|)
      ensures n[k].composite <==> HasChild(n, n[k].name) || n[k].initialSub != ""
    {
      MovedStateKeeps(g, k);
    }
    ForestKept(s, n, depth, height);
  }

  lemma SameCount(g: Graph)
    ensures |Normalized(g).states| == |g.states|
  {
  }

  lemma ForestKept(s: seq<State>, n: seq<State>, depth: string -> nat, height: nat)
    requires Forest(s, depth, height) && depth("") == 0 && ParentsDeclared(s) && |n| == |s|
    requires forall k :: 0 <= k < |n| ==> n[k].name == s[k].name && (n[k].parent == "" || n[k].parent == s[k].parent)
    ensures Forest(n, depth, height) && ParentsDeclared(n)
  {
    forall k | 0 <= k < |n| && n[k].parent != "" ensures Declared(n, n[k].parent) {
      var i :| 0 <= i < |s| && s[i].name == s[k].parent;
      assert n[i].name == s[i].name;
    }
    forall x | x in n ensures depth(x.parent) < depth(x.name) <= height {
      var k :| 0 <= k < |n| && n[k] == x;
      assert s[k] in s;
    }
  }

  // -------------------------------------------------------- canonical form

  /** A source met earlier has the smaller number. */
  lemma {:induction false} EarlierHasSmallerNumber(edges: seq<Edge>, i: nat, t: string)
    requires i < |edges| && t in SourceOrder(edges) && forall j :: 0 <= j <= i ==> edges[j].source != t
    ensures edges[i].source in SourceOrder(edges) && SourceOrder(edges)[edges[i].source] < SourceOrder(edges)[t]
  {
    var init, last := edges[..|edges| - 1], edges[|edges| - 1].source;
    OrdersTellSources(init);
    OrdersTellSources(edges);
    if i < |init| {
      if t in SourceOrder(init) {
        EarlierHasSmallerNumber(init, i, t);
      } else {
        assert init[i].source in SourceOrder(init);
      }
    } else {
      SourceIsThere(init, t);
    }
  }

  lemma {:induction false} SourceIsThere(edges: seq<Edge>, t: string)
    requires t in SourceOrder(edges)
    ensures exists j :: 0 <= j < |edges| && edges[j].source == t
  {
    var init := edges[..|edges| - 1];
    if t in SourceOrder(init) {
      SourceIsThere(init, t);
      var j :| 0 <= j < |init| && init[j].source == t;
      assert edges[j].source == t;
    } else {
      assert edges[|edges| - 1].source == t;
    }
  }

  /** A list in canonical order numbers its sources just as it groups them. */
  lemma CanonicalStaysCanonical(edges: seq<Edge>)
    ensures Canonical(Canonical(edges)) == Canonical(edges)
  {
    var m, y := SourceOrder(edges), Canonical(edges);
    var m2 := SourceOrder(y);
    OrdersAreTotal(edges);
    SortSorted(edges, CanonicalOrder(edges));
    OrdersTellSources(edges);
    OrdersTellSources(y);
    hide Canonical, TotalPreorder, TellsApart, SourceOrder;
    forall i, j | 0 <= i < j < |y| ensures CanonicalBefore(m2, y[i], y[j]) {
      assert CanonicalOrder(edges)(y[i], y[j]);
      assert y[i].source in m2 && y[j].source in m2;
      if y[i].source != y[j].source {
        forall k | 0 <= k <= i ensures y[k].source != y[j].source { GroupIsOver(edges, k, i, j); }
        EarlierHasSmallerNumber(y, i, y[j].source);
      }
    }
    assert Sorted(y, CanonicalOrder(y));
    CanonicalIsSort(y);
    SortOfSorted(y, CanonicalOrder(y));
  }

  lemma CanonicalIsSort(edges: seq<Edge>)
    ensures Canonical(edges) == Sort(edges, CanonicalOrder(edges))
  {
    hide Sort;
  }

  /** Behind a change of source the earlier source does not come back. */
  lemma GroupIsOver(edges: seq<Edge>, k: nat, i: nat, j: nat)
    requires k <= i < j < |Canonical(edges)| && Sorted(Canonical(edges), CanonicalOrder(edges))
    requires Canonical(edges)[i].source != Canonical(edges)[j].source
    ensures Canonical(edges)[k].source != Canonical(edges)[j].source
  {
    hide Canonical, SourceOrder;
    var y := Canonical(edges);
    OrdersTellSources(edges);
    MembersOfCanonical(edges, k);
    MembersOfCanonical(edges, i);
    MembersOfCanonical(edges, j);
    assert k < i ==> CanonicalOrder(edges)(y[k], y[i]);
    assert CanonicalOrder(edges)(y[i], y[j]);
  }

  lemma MembersOfCanonical(edges: seq<Edge>, k: nat)
    requires k < |Canonical(edges)|
    ensures Canonical(edges)[k] in edges && Canonical(edges)[k].source in SourceOrder(edges)
  {
    SortKeeps(edges, CanonicalOrder(edges));
    var e := Canonical(edges)[k];
    assert e in multiset(edges);
    var i :| 0 <= i < |edges| && edges[i] == e;
    OrdersTellSources(edges);
  }

  lemma AgreeingAgain(edges: seq<Edge>)
    ensures AgreeGuards(Canonical(AgreeGuards(edges))) == Canonical(AgreeGuards(edges))
  {
    var a := AgreeGuards(edges);
    var y := Canonical(a);
    forall k | 0 <= k < |y| ensures AgreeGuard(y[k]) == y[k] {
      MembersOfCanonical(a, k);
      var i :| 0 <= i < |a| && a[i] == y[k];
      AgreeTwice(edges[i]);
    }
  }

  lemma AgreeTwice(e: Edge)
    ensures AgreeGuard(AgreeGuard(e)) == AgreeGuard(e)
  {
  }

  lemma {:induction false} AllMentioned(items: seq<Item>, names: seq<string>)
    ensures forall n :: n in names || Mentioned(items, n) ==> Mentioned(AddAll(items, names), n)
  {
    if |names| > 0 {
      var init, last := names[..|names| - 1], names[|names| - 1];
      AllMentioned(items, init);
      assert names == init + [last];
      var before, r := AddAll(items, init), AddAll(items, names);
      forall n | Mentioned(before, n) || n == last ensures Mentioned(r, n) {
        if Mentioned(before, n) {
          var i :| 0 <= i < |before| && before[i].name == n;
          assert r[i].name == n;
        } else {
          assert r[|r| - 1].name == n;
        }
      }
    }
  }

  lemma {:induction false} NothingToAdd(items: seq<Item>, names: seq<string>)
    requires forall n :: n in names ==> Mentioned(items, n)
    ensures AddAll(items, names) == items
  {
    if |names| > 0 { NothingToAdd(items, names[..|names| - 1]); }
  }

  /** Sorting does not lose a name, so nothing is added the next time. */
  lemma AddedOnce(items: seq<Item>, names: seq<string>)
    ensures AddAll(Sort(AddAll(items, names), NameOrder), names) == Sort(AddAll(items, names), NameOrder)
  {
    var a := AddAll(items, names);
    var s := Sort(a, NameOrder);
    AllMentioned(items, names);
    forall n | n in names ensures Mentioned(s, n) {
      SortKeeps(a, NameOrder);
      assert Mentioned(a, n);
      var i :| 0 <= i < |a| && a[i].name == n;
      assert a[i] in multiset(a);
      assert a[i] in multiset(s);
      assert a[i] in s;
      var j :| 0 <= j < |s| && s[j] == a[i];
    }
    NothingToAdd(s, names);
  }

  lemma SortTwice<T(!new)>(s: seq<T>, le: (T, T) -> bool)
    requires TotalPreorder(le)
    ensures Sort(Sort(s, le), le) == Sort(s, le)
  {
    SortSorted(s, le);
    SortOfSorted(Sort(s, le), le);
  }

  lemma IndexedStatesStaySorted(states: seq<State>, edges: seq<Edge>)
    ensures var r := Adjacent(Sort(states, FqnOrder), edges, |edges|); Sort(r, FqnOrder) == r
  {
    var s := Sort(states, FqnOrder);
    var r := Adjacent(s, edges, |edges|);
    NameOrdersAreTotal();
    SortSorted(states, FqnOrder);
    forall i, j | 0 <= i < j < |r| ensures FqnOrder(r[i], r[j]) { assert FqnOrder(s[i], s[j]); }
    SortOfSorted(r, FqnOrder);
  }

  lemma IndexingAgain(states: seq<State>, edges: seq<Edge>)
    ensures Adjacent(Adjacent(states, edges, |edges|), edges, |edges|) == Adjacent(states, edges, |edges|)
  {
    var r := Adjacent(states, edges, |edges|);
    forall k | 0 <= k < |states| ensures WithLists(r, edges, |edges|, k) == r[k] { SameFirst(states, r, k); }
  }

  lemma {:induction false} StateActionsAlike(a: seq<State>, b: seq<State>)
    requires |a| == |b|
    requires forall k :: 0 <= k < |a| ==> a[k].entryActions == b[k].entryActions && a[k].exitActions == b[k].exitActions
    ensures StateActions(a) == StateActions(b)
  {
    if |a| > 0 { StateActionsAlike(a[..|a| - 1], b[..|b| - 1]); }
  }

  /** After one run only the signal list can still move: events were appended to it unsorted. */
  lemma SecondRunSortsSignals(g: Graph)
    ensures var c := Canonicalized(g);
      Canonicalized(c) == c.(signals := Sort(c.signals, NameOrder))
  {
    hide Sort, AddAll, GuardNames, EventNames, EdgeActions, StateActions, Adjacent, Canonical, AgreeGuards;
    var a := Arranged(g);
    var s := Synced(a);
    var c := Canonicalized(g);
    var a2 := Arranged(c);
    NameOrdersAreTotal();
    CanonicalStaysCanonical(AgreeGuards(g.edges));
    AgreeingAgain(g.edges);
    assert a2.edges == c.edges == a.edges;
    IndexedStatesStaySorted(g.states, a.edges);
    IndexingAgain(a.states, a.edges);
    assert a2.states == c.states;
    SortTwice(g.ports, NameOrder);
    SortTwice(g.variables, NameOrder);
    SortTwice(g.types, NameOrder);
    SortTwice(g.properties, NameOrder);
    AddedOnce(g.guards, GuardNames(a.edges));
    SortTwice(s.guards, NameOrder);
    StateActionsAlike(a.states, c.states);
    AddedOnce(g.actions, EdgeActions(a.edges) + StateActions(a.states));
    SortTwice(s.actions, NameOrder);
    AddedOnce(a.signals, EventNames(a.edges));
    assert Synced(a2) == a2;
  }

  /** The second run is final for every model. */
  lemma CanonicalAfterTwoRuns(g: Graph)
    ensures Canonicalized(Canonicalized(Canonicalized(g))) == Canonicalized(Canonicalized(g))
  {
    var c := Canonicalized(g);
    SecondRunSortsSignals(g);
    SecondRunSortsSignals(c);
    NameOrdersAreTotal();
    SortTwice(c.signals, NameOrder);
  }

  /** The name at `i` is neither listed nor met before. */
  predicate NewAt(items: seq<Item>, names: seq<string>, i: nat)
    requires i < |names|
  {
    !Mentioned(items, names[i]) && names[i] !in names[..i]
  }

  /** The new names ascend, and none of them is below a listed one. */
  predicate Ascend(items: seq<Item>, names: seq<string>) {
    forall i :: 0 <= i < |names| && NewAt(items, names, i) ==> FitsAt(items, names, i)
  }

  predicate FitsAt(items: seq<Item>, names: seq<string>, i: nat)
    requires i < |names|
  {
    && (forall x :: x in items ==> Strings.AtMost(x.name, names[i]))
    && (forall j :: 0 <= j < i && NewAt(items, names, j) ==> Strings.AtMost(names[j], names[i]))
  }

  lemma {:induction false} AddedComeFrom(items: seq<Item>, names: seq<string>, x: Item)
    requires x in AddAll(items, names)
    ensures x in items || exists j :: 0 <= j < |names| && names[j] == x.name && NewAt(items, names, j)
  {
    if |names| > 0 {
      var init, last := names[..|names| - 1], names[|names| - 1];
      var before := AddAll(items, init);
      if x in before {
        AddedComeFrom(items, init, x);
        if x !in items {
          var j :| 0 <= j < |init| && init[j] == x.name && NewAt(items, init, j);
          assert init[..j] == names[..j];
          assert NewAt(items, names, j);
        }
      } else {
        AllMentioned(items, init);
        assert NewAt(items, names, |names| - 1);
      }
    }
  }

  lemma AscendStep(items: seq<Item>, names: seq<string>)
    requires |names| > 0
    ensures var init, last := names[..|names| - 1], |names| - 1;
      Ascend(items, names) <==> Ascend(items, init) && (NewAt(items, names, last) ==> FitsAt(items, names, last))
  {
    hide Mentioned, Strings.AtMost;
    var init, last := names[..|names| - 1], |names| - 1;
    forall i | 0 <= i < last
      ensures NewAt(items, init, i) <==> NewAt(items, names, i)
    {
      assert init[..i] == names[..i];
    }
    forall i | 0 <= i < last ensures FitsAt(items, init, i) <==> FitsAt(items, names, i) {}
  }

  /** Appending names leaves a sorted list sorted exactly when the new ones ascend behind it. */
  lemma {:induction false} SortedWithNew(items: seq<Item>, names: seq<string>)
    requires Sorted(items, NameOrder)
    ensures Sorted(AddAll(items, names), NameOrder) <==> Ascend(items, names)
  {
    hide Sorted, Ascend, NewAt, FitsAt, Mentioned;
    if |names| == 0 {
      NothingAscends(items);
    } else {
      var init, last := names[..|names| - 1], |names| - 1;
      var before := AddAll(items, init);
      SortedWithNew(items, init);
      AscendStep(items, names);
      NewWhenUnmentioned(items, names);
      if NewAt(items, names, last) { LastFits(items, names); }
    }
  }

  lemma NothingAscends(items: seq<Item>)
    ensures Ascend(items, [])
  {
  }

  lemma NewWhenUnmentioned(items: seq<Item>, names: seq<string>)
    requires |names| > 0
    ensures NewAt(items, names, |names| - 1) <==> !Mentioned(AddAll(items, names[..|names| - 1]), names[|names| - 1])
  {
    var init, n := names[..|names| - 1], names[|names| - 1];
    AllMentioned(items, init);
    if Mentioned(AddAll(items, init), n) {
      var i :| 0 <= i < |AddAll(items, init)| && AddAll(items, init)[i].name == n;
      var x := AddAll(items, init)[i];
      AddedComeFrom(items, init, x);
      if x in items {
        var k :| 0 <= k < |items| && items[k] == x;
        assert Mentioned(items, n);
      }
    }
  }

  lemma LastFits(items: seq<Item>, names: seq<string>)
    requires |names| > 0 && NewAt(items, names, |names| - 1)
    ensures var before := AddAll(items, names[..|names| - 1]);
      var r := before + [Item(names[|names| - 1], "")];
      Sorted(r, NameOrder) <==> Sorted(before, NameOrder) && FitsAt(items, names, |names| - 1)
  {
    hide FitsAt, Sorted, NewAt, Mentioned, AddAll;
    var before, item := AddAll(items, names[..|names| - 1]), Item(names[|names| - 1], "");
    SortedSnoc(before, item);
    AllBelowFits(items, names);
  }

  lemma SortedSnoc(s: seq<Item>, x: Item)
    ensures Sorted(s + [x], NameOrder) <==> Sorted(s, NameOrder) && AllBelow(s, x, NameOrder)
  {
    var r := s + [x];
    if Sorted(r, NameOrder) {
      forall i, j | 0 <= i < j < |s| ensures NameOrder(s[i], s[j]) { assert NameOrder(r[i], r[j]); }
      forall i | 0 <= i < |s| ensures NameOrder(s[i], x) { assert NameOrder(r[i], r[|s|]); }
    }
  }

  lemma AllBelowFits(items: seq<Item>, names: seq<string>)
    requires |names| > 0 && NewAt(items, names, |names| - 1)
    ensures var before := AddAll(items, names[..|names| - 1]);
      AllBelow(before, Item(names[|names| - 1], ""), NameOrder) <==> FitsAt(items, names, |names| - 1)
  {
    var init, n := names[..|names| - 1], names[|names| - 1];
    var before, item := AddAll(items, init), Item(n, "");
    AllMentioned(items, init);
    AddedKeepItems(items, init);
    if AllBelow(before, item, NameOrder) {
      forall x | x in items ensures Strings.AtMost(x.name, n) {
        assert x in before;
        var k :| 0 <= k < |before| && before[k] == x;
        assert NameOrder(before[k], item);
      }
      forall j | 0 <= j < |init| && NewAt(items, names, j) ensures Strings.AtMost(names[j], n) {
        assert init[j] in init && Mentioned(before, names[j]);
        var k :| 0 <= k < |before| && before[k].name == names[j];
        assert NameOrder(before[k], item);
      }
    }
    if FitsAt(items, names, |names| - 1) {
      forall k | 0 <= k < |before| ensures NameOrder(before[k], item) {
        AddedComeFrom(items, init, before[k]);
        if before[k] !in items {
          var j :| 0 <= j < |init| && init[j] == before[k].name && NewAt(items, init, j);
          assert init[..j] == names[..j];
          assert NewAt(items, names, j);
        }
      }
    }
  }

  lemma {:induction false} AddedKeepItems(items: seq<Item>, names: seq<string>)
    ensures forall x :: x in items ==> x in AddAll(items, names)
  {
    if |names| > 0 { AddedKeepItems(items, names[..|names| - 1]); }
  }

  /**
   * One run is final exactly when the events that are no signals yet, taken in the canonical
   * order of the transitions, ascend and none of them is below a signal.
   */
  lemma OneRunSufficesExactly(g: Graph)
    ensures Canonicalized(Canonicalized(g)) == Canonicalized(g) <==>
      Ascend(g.signals, EventNames(Canonical(AgreeGuards(g.edges))))
  {
    var c, signals, events := Canonicalized(g), Sort(g.signals, NameOrder), EventNames(Canonical(AgreeGuards(g.edges)));
    OneRunIsSorting(g);
    NameOrdersAreTotal();
    SortSorted(g.signals, NameOrder);
    SortedWithNew(signals, events);
    AscendAlike(g.signals, signals, events);
  }

  lemma OneRunIsSorting(g: Graph)
    ensures Canonicalized(Canonicalized(g)) == Canonicalized(g) <==>
      Sorted(AddAll(Sort(g.signals, NameOrder), EventNames(Canonical(AgreeGuards(g.edges)))), NameOrder)
  {
    var c := Canonicalized(g);
    SecondRunSortsSignals(g);
    NameOrdersAreTotal();
    SortSorted(c.signals, NameOrder);
    if Sorted(c.signals, NameOrder) { SortOfSorted(c.signals, NameOrder); }
  }

  /** The condition looks at which names are listed, not at their order. */
  lemma AscendAlike(a: seq<Item>, b: seq<Item>, names: seq<string>)
    requires multiset(a) == multiset(b)
    ensures Ascend(a, names) <==> Ascend(b, names)
  {
    forall x ensures x in a <==> x in b { assert x in multiset(a) <==> x in multiset(b); }
    forall n ensures Mentioned(a, n) <==> Mentioned(b, n) { MentionedAlike(a, b, n); }
    forall i | 0 <= i < |names| ensures NewAt(a, names, i) <==> NewAt(b, names, i) {}
    forall i | 0 <= i < |names| ensures FitsAt(a, names, i) <==> FitsAt(b, names, i) {}
  }

  lemma MentionedAlike(a: seq<Item>, b: seq<Item>, n: string)
    requires forall x :: x in a <==> x in b
    ensures Mentioned(a, n) <==> Mentioned(b, n)
  {
    if Mentioned(a, n) {
      var i :| 0 <= i < |a| && a[i].name == n;
      assert a[i] in b;
    }
    if Mentioned(b, n) {
      var i :| 0 <= i < |b| && b[i].name == n;
      assert b[i] in a;
    }
  }

  /** A signal `z` and an event `a`: the first run appends `a`, only the second one moves it to the front. */
  lemma OneRunIsNotEnough()
    ensures var e := Edge("s", "s", [], [], "a", None, None, SignalTrigger("a"), None, None, External, 0, "");
      var g := Graph("", "m", "", "s", "s", [], [e], [], [Item("z", "")], [], [], [], [], []);
      Canonicalized(Canonicalized(g)) != Canonicalized(g)
  {
    hide Canonicalized;
    var e := Edge("s", "s", [], [], "a", None, None, SignalTrigger("a"), None, None, External, 0, "");
    var g := Graph("", "m", "", "s", "s", [], [e], [], [Item("z", "")], [], [], [], [], []);
    OneRunSufficesExactly(g);
    var edges := Canonical(AgreeGuards([e]));
    assert AgreeGuards([e]) == [e];
    OneStaysOne(e);
    assert EventNames([e]) == ["a"] by { assert [e][..0] == []; }
    assert NewAt(g.signals, ["a"], 0);
    assert Item("z", "") in g.signals && !Strings.AtMost("z", "a");
    assert !FitsAt(g.signals, ["a"], 0);
  }

  lemma OneStaysOne(e: Edge)
    ensures Canonical([e]) == [e]
  {
    SortOfSorted([e], CanonicalOrder([e]));
  }

  /** When every event is a signal already, one run suffices. */
  lemma OneRunForKnownEvents(g: Graph)
    requires forall e :: e in g.edges && IsEventName(e.event) ==> Mentioned(g.signals, e.event)
    ensures Canonicalized(Canonicalized(g)) == Canonicalized(g)
  {
    hide Sort, Canonical, AddAll, Canonicalized;
    var edges, signals := Canonical(AgreeGuards(g.edges)), Sort(g.signals, NameOrder);
    NameOrdersAreTotal();
    SortSorted(g.signals, NameOrder);
    forall n | n in EventNames(edges) ensures Mentioned(signals, n) {
      EventComesFrom(edges, n);
      var k :| 0 <= k < |edges| && edges[k].event == n && IsEventName(n);
      EventWasThere(g.edges, k);
      var i :| 0 <= i < |g.edges| && g.edges[i].event == n;
      assert g.edges[i] in g.edges;
      SortingKeepsNames(g.signals, n);
    }
    NothingToAdd(signals, EventNames(edges));
    OneRunIsSorting(g);
  }

  lemma EventWasThere(edges: seq<Edge>, k: nat)
    requires k < |Canonical(AgreeGuards(edges))|
    ensures exists i :: 0 <= i < |edges| && edges[i].event == Canonical(AgreeGuards(edges))[k].event
  {
    var a := AgreeGuards(edges);
    MembersOfCanonical(a, k);
    var i :| 0 <= i < |a| && a[i] == Canonical(a)[k];
    assert edges[i].event == a[i].event;
  }

  lemma SortingKeepsNames(items: seq<Item>, n: string)
    requires Mentioned(items, n)
    ensures Mentioned(Sort(items, NameOrder), n)
  {
    var s := Sort(items, NameOrder);
    SortKeeps(items, NameOrder);
    var i :| 0 <= i < |items| && items[i].name == n;
    assert items[i] in multiset(items);
    assert items[i] in multiset(s);
    assert items[i] in s;
    var j :| 0 <= j < |s| && s[j] == items[i];
  }

  lemma {:induction false} EventComesFrom(edges: seq<Edge>, n: string)
    requires n in EventNames(edges)
    ensures exists k :: 0 <= k < |edges| && edges[k].event == n && IsEventName(n)
  {
    var init := edges[..|edges| - 1];
    if n in EventNames(init) {
      EventComesFrom(init, n);
      var k :| 0 <= k < |init| && init[k].event == n && IsEventName(n);
      assert edges[k].event == n;
    } else {
      assert edges[|edges| - 1].event == n;
    }
  }

  /** States and transitions are only rearranged, apart from their derived fields. */
  lemma CanonicalisationPermutes(g: Graph)
    ensures var c := Canonicalized(g);
      && multiset(c.edges) == multiset(AgreeGuards(g.edges))
      && |c.states| == |g.states|
      && multiset(Sort(g.states, FqnOrder)) == multiset(g.states)
      && forall k :: 0 <= k < |c.states| ==>
           c.states[k].(outgoing := [], incoming := []) == Sort(g.states, FqnOrder)[k].(outgoing := [], incoming := [])
  {
    hide Sort, AddAll, GuardNames, EventNames, EdgeActions, StateActions, LeavesFrom, ReachesTo;
    SortKeeps(AgreeGuards(g.edges), CanonicalOrder(AgreeGuards(g.edges)));
    SortKeeps(g.states, FqnOrder);
  }

  // --------------------------------------------------------- names stay distinct

  /** No state is listed twice. */
  predicate NoTwins(states: seq<State>) {
    forall i, j :: 0 <= i < j < |states| ==> states[i] != states[j]
  }

  lemma SortingKeepsDistinct<T(!new)>(s: seq<T>, le: (T, T) -> bool)
    requires DistinctKeys(s, le)
    ensures DistinctKeys(Sort(s, le), le)
  {
    SortKeeps(s, le);
    forall x | x in Sort(s, le) ensures x in s { assert x in multiset(Sort(s, le)); }
  }

  lemma SortingMakesNoTwins(states: seq<State>)
    requires NoTwins(states)
    ensures NoTwins(Sort(states, FqnOrder))
  {
    SortKeeps(states, FqnOrder);
    OnceEach(states);
    var s := Sort(states, FqnOrder);
    forall i, j | 0 <= i < j < |s| ensures s[i] != s[j] {
      TwiceCounts(s, i, j);
      assert multiset(states)[s[i]] <= 1;
    }
  }

  lemma {:induction false} OnceEach(s: seq<State>)
    requires NoTwins(s)
    ensures forall x :: multiset(s)[x] <= 1
  {
    if |s| > 0 {
      var init, last := s[..|s| - 1], s[|s| - 1];
      OnceEach(init);
      assert s == init + [last];
      forall i | 0 <= i < |init| ensures init[i] != last { assert s[i] != s[|s| - 1]; }
      assert last !in multiset(init);
    }
  }

  lemma TwiceCounts(s: seq<State>, i: nat, j: nat)
    requires i < j < |s|
    ensures s[i] == s[j] ==> multiset(s)[s[i]] >= 2
  {
    assert s == s[..i] + [s[i]] + s[i + 1..j] + [s[j]] + s[j + 1..];
  }

  /** A model with distinct names is one again after canonicalisation, so the next run is determined too. */
  lemma CanonicalKeepsDistinct(g: Graph)
    requires DistinctNames(g) && NoTwins(g.states)
    ensures DistinctNames(Canonicalized(g)) && NoTwins(Canonicalized(g).states)
  {
    hide Sort, AddAll, GuardNames, EventNames, EdgeActions, StateActions, Canonical, AgreeGuards, DistinctKeys,
         Adjacent;
    var a := Arranged(g);
    var s, c := Synced(a), Canonicalized(g);
    SortingKeepsDistinct(g.ports, NameOrder);
    SortingKeepsDistinct(g.signals, NameOrder);
    SortingKeepsDistinct(g.variables, NameOrder);
    SortingKeepsDistinct(g.types, NameOrder);
    SortingKeepsDistinct(g.properties, NameOrder);
    AddAllKeepsDistinct(a.signals, EventNames(a.edges));
    SyncedIsDistinct(g);
    SortingKeepsDistinct(s.guards, NameOrder);
    SortingKeepsDistinct(s.actions, NameOrder);
    SortingKeepsDistinct(g.states, FqnOrder);
    SortingMakesNoTwins(g.states);
    IndexingKeepsDistinct(a.states, a.edges);
  }

  lemma IndexingKeepsDistinct(states: seq<State>, edges: seq<Edge>)
    requires DistinctKeys(states, FqnOrder) && NoTwins(states)
    ensures var r := Adjacent(states, edges, |edges|); DistinctKeys(r, FqnOrder) && NoTwins(r)
  {
    hide Indices, Strings.AtMost;
    var r := Adjacent(states, edges, |edges|);
    forall i, j | 0 <= i < |r| && 0 <= j < |r| && FqnOrder(r[i], r[j]) && FqnOrder(r[j], r[i]) ensures i == j {
      assert FqnOrder(states[i], states[j]) && FqnOrder(states[j], states[i]);
      assert states[i] == states[j];
    }
    forall i, j | 0 <= i < j < |r| ensures r[i] != r[j] {
      Strings.AtMostTotal(r[i].fqn, r[i].fqn);
      assert !(FqnOrder(r[i], r[j]) && FqnOrder(r[j], r[i]));
    }
  }

  /** A state listed twice is told apart by its transitions: only the first of the two gets them. */
  lemma TwinsBecomeTies(s: State, e: Edge)
    requires s.name != "" && e.source == s.name
    ensures DistinctKeys([s, s], FqnOrder) && !DistinctKeys(Adjacent([s, s], [e], 1), FqnOrder)
  {
    var r := Adjacent([s, s], [e], 1);
    assert FirstOfName([s, s], 0) && !FirstOfName([s, s], 1) by { assert [s, s][0].name == [s, s][1].name; }
    IndicesBelow([e], 1, LeavesFrom(s.name));
    assert LeavesFrom(s.name)([e][0]);
    assert 0 in r[0].outgoing && r[1].outgoing == [];
    assert r[0] in r && r[1] in r;
    Strings.AtMostTotal(s.fqn, s.fqn);
    assert FqnOrder(r[0], r[1]) && FqnOrder(r[1], r[0]);
  }
}
