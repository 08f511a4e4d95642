/** The model object and the operations that rework its fields in place. */
module GraphOps {
  import opened Text
  import opened Ir
  import opened Order
  import opened Priority
  import opened GraphSpec
  import Guard
  import Fnv

  /** A library sort: some sorted arrangement of the elements, ties in any order. */
  method SortAnyhow<T(!new)>(s: seq<T>, le: (T, T) -> bool) returns (r: seq<T>)
    requires TotalPreorder(le)
    ensures Sorted(r, le) && multiset(r) == multiset(s)
  {
    SortSorted(s, le);
    r := Sort(s, le);
  }

  ghost predicate DistinctKeys<T(!new)>(s: seq<T>, le: (T, T) -> bool) {
    forall x, y :: x in s && y in s && le(x, y) && le(y, x) ==> x == y
  }

  /** With distinct keys the library sort has no choice. */
  lemma NoTies<T(!new)>(s: seq<T>, r: seq<T>, le: (T, T) -> bool)
    requires TotalPreorder(le) && DistinctKeys(s, le) && Sorted(r, le) && multiset(r) == multiset(s)
    ensures r == Sort(s, le)
  {
    SortSorted(s, le);
    forall x | x in r ensures x in s { assert x in multiset(r); }
    DistinctSortIsUnique(r, Sort(s, le), le);
  }

  lemma NameOrdersAreTotal()
    ensures TotalPreorder(NameOrder) && TotalPreorder(FqnOrder)
  {
    forall a: string, b: string
      ensures Strings.AtMost(a, b) || Strings.AtMost(b, a)
    {
      Strings.AtMostTotal(a, b);
    }
    forall a: string, b: string, c: string | Strings.AtMost(a, b) && Strings.AtMost(b, c)
      ensures Strings.AtMost(a, c)
    {
      Strings.AtMostTransitive(a, b, c);
    }
  }

  /** Every list that is sorted by the library has distinct keys. */
  ghost predicate DistinctNames(g: Graph) {
    && DistinctKeys(g.states, FqnOrder)
    && DistinctKeys(g.ports, NameOrder) && DistinctKeys(g.signals, NameOrder)
    && DistinctKeys(g.variables, NameOrder) && DistinctKeys(g.types, NameOrder)
    && DistinctKeys(g.properties, NameOrder)
    && DistinctKeys(g.guards, NameOrder) && DistinctKeys(g.actions, NameOrder)
  }

  lemma {:induction false} AddAllSum(items: seq<Item>, a: seq<string>, b: seq<string>)
    ensures AddAll(items, a + b) == AddAll(AddAll(items, a), b)
    decreases |b|
  {
    if |b| == 0 {
      assert a + b == a;
    } else {
      assert (a + b)[..|a + b| - 1] == a + b[..|b| - 1];
      AddAllSum(items, a, b[..|b| - 1]);
    }
  }

  lemma AddNothing(items: seq<Item>)
    ensures AddAll(items, []) == items
  {
  }

  lemma {:induction false} AddAllKeepsDistinct(items: seq<Item>, names: seq<string>)
    requires DistinctKeys(items, NameOrder)
    ensures DistinctKeys(AddAll(items, names), NameOrder)
  {
    if |names| > 0 {
      var before, name := AddAll(items, names[..|names| - 1]), names[|names| - 1];
      AddAllKeepsDistinct(items, names[..|names| - 1]);
      if !Mentioned(before, name) { FreshItemIsDistinct(before, name); }
    }
  }

  lemma FreshItemIsDistinct(items: seq<Item>, name: string)
    requires DistinctKeys(items, NameOrder) && !Mentioned(items, name)
    ensures DistinctKeys(items + [Item(name, "")], NameOrder)
  {
    var r := items + [Item(name, "")];
    forall x, y | x in r && y in r && NameOrder(x, y) && NameOrder(y, x) ensures x == y {
      Strings.AtMostTotal(x.name, y.name);
      NotMentioned(items, name, x);
      NotMentioned(items, name, y);
    }
  }

  lemma NotMentioned(items: seq<Item>, name: string, x: Item)
    requires !Mentioned(items, name)
    ensures x in items ==> x.name != name
  {
  }

  /** The transition leaves `x` by its source or one of its first `m` further sources. */
  predicate LeavesBy(e: Edge, x: string, m: nat)
    requires m <= |e.sourceIds|
  {
    (e.source == x && x != "") || (x in e.sourceIds[..m] && x != e.source)
  }

  predicate ReachesBy(e: Edge, x: string, m: nat)
    requires m <= |e.targetIds|
  {
    (e.target == x && x != "") || (x in e.targetIds[..m] && x != e.target)
  }

  function WithOut(states: seq<State>, k: nat, i: nat, leaves: bool): State
    requires k < |states|
  {
    states[k].(outgoing := states[k].outgoing + if FirstOfName(states, k) && leaves then [i] else [])
  }

  function WithIn(states: seq<State>, k: nat, i: nat, reaches: bool): State
    requires k < |states|
  {
    states[k].(incoming := states[k].incoming + if FirstOfName(states, k) && reaches then [i] else [])
  }

  lemma {:induction false} IndicesBelow(edges: seq<Edge>, n: nat, p: Edge -> bool)
    requires n <= |edges|
    ensures forall i :: i in Indices(edges, n, p) <==> 0 <= i < n && p(edges[i])
    ensures forall a, b :: 0 <= a < b < |Indices(edges, n, p)| ==> Indices(edges, n, p)[a] < Indices(edges, n, p)[b]
  {
    if n > 0 {
      IndicesBelow(edges, n - 1, p);
      var init := Indices(edges, n - 1, p);
      forall a | 0 <= a < |init| ensures init[a] < n - 1 { assert init[a] in init; }
    }
  }

  lemma ListsStayBelow(states: seq<State>, edges: seq<Edge>, i: nat)
    requires i < |edges|
    ensures forall k :: 0 <= k < |states| ==>
      i !in Adjacent(states, edges, i)[k].outgoing && i !in Adjacent(states, edges, i)[k].incoming
  {
    forall k | 0 <= k < |states|
      ensures i !in Adjacent(states, edges, i)[k].outgoing && i !in Adjacent(states, edges, i)[k].incoming
    {
      IndicesBelow(edges, i, LeavesFrom(states[k].name));
      IndicesBelow(edges, i, ReachesTo(states[k].name));
    }
  }

  lemma SameFirst(a: seq<State>, b: seq<State>, k: nat)
    requires |a| == |b| && k < |a| && forall j :: 0 <= j < |a| ==> a[j].name == b[j].name
    ensures FirstOfName(a, k) <==> FirstOfName(b, k)
  {
    if FirstOfName(a, k) { forall j | 0 <= j < k ensures b[j].name != b[k].name { assert a[j].name != a[k].name; } }
    if FirstOfName(b, k) { forall j | 0 <= j < k ensures a[j].name != a[k].name { assert b[j].name != b[k].name; } }
  }

  lemma ListsStart(before: seq<State>, edges: seq<Edge>, now: seq<State>)
    requires |now| == |before|
    requires forall k :: 0 <= k < |now| ==> now[k] == before[k].(outgoing := [], incoming := [])
    ensures now == Adjacent(before, edges, 0)
  {
    hide FirstOfName;
  }

  lemma OutKeepsIncoming(now: seq<State>, left: seq<State>, e: Edge, i: nat)
    requires OutDone(now, left, e, i, |e.sourceIds|)
    requires forall k :: 0 <= k < |now| ==> i !in now[k].incoming
    ensures forall k :: 0 <= k < |left| ==> i !in left[k].incoming
  {
    hide LeavesBy, FirstOfName;
  }

  lemma ListsGrow(before: seq<State>, edges: seq<Edge>, i: nat, now: seq<State>, left: seq<State>, next: seq<State>)
    requires i < |edges| && now == Adjacent(before, edges, i)
    requires OutDone(now, left, edges[i], i, |edges[i].sourceIds|)
    requires InDone(left, next, edges[i], i, |edges[i].targetIds|)
    ensures next == Adjacent(before, edges, i + 1)
  {
    hide Adjacent, Indices, FirstOfName;
    var e := edges[i];
    assert e.sourceIds[..|e.sourceIds|] == e.sourceIds && e.targetIds[..|e.targetIds|] == e.targetIds;
    forall k | 0 <= k < |before| ensures next[k] == WithLists(before, edges, i + 1, k) {
      SameFirst(before, now, k);
      SameFirst(before, left, k);
      assert now[k] == WithLists(before, edges, i, k);
      IndicesStep(edges, i, LeavesFrom(before[k].name));
      IndicesStep(edges, i, ReachesTo(before[k].name));
    }
    assert next == Adjacent(before, edges, i + 1);
  }

  lemma IndicesStep(edges: seq<Edge>, i: nat, p: Edge -> bool)
    requires i < |edges|
    ensures Indices(edges, i + 1, p) == Indices(edges, i, p) + if p(edges[i]) then [i] else []
  {
  }

  lemma {:induction false} ChildIdsAlike(a: seq<State>, b: seq<State>, name: string, k: nat)
    requires |a| == |b| && k <= |a|
    requires forall j :: 0 <= j < |a| ==> a[j].parent == b[j].parent && a[j].id == b[j].id
    ensures ChildIds(a, name, k) == ChildIds(b, name, k)
  {
    if k > 0 { ChildIdsAlike(a, b, name, k - 1); }
  }

  lemma HasChildAlike(a: seq<State>, b: seq<State>, name: string)
    requires |a| == |b| && forall j :: 0 <= j < |a| ==> a[j].parent == b[j].parent
    ensures HasChild(a, name) <==> HasChild(b, name)
  {
    if HasChild(a, name) {
      var i :| 0 <= i < |a| && a[i].parent == name;
      assert b[i].parent == name;
    }
    if HasChild(b, name) {
      var i :| 0 <= i < |b| && b[i].parent == name;
      assert a[i].parent == name;
    }
  }

  lemma OriginsStay(states: seq<State>, j: nat)
    requires j < |states|
    ensures var s := WithChildren(states, states[j]); s.parent == states[j].parent && s.id == states[j].id
  {
  }

  lemma WithTheseChildren(states: seq<State>, p: nat)
    requires p < |states|
    ensures var s := states[p];
      var composite := HasChild(states, s.name) || s.initialSub != "";
      WithChildren(states, s) ==
        s.(children := ChildIds(states, s.name, |states|), composite := composite,
           kind := if composite && s.kind == Atomic then Composite else s.kind)
  {
  }

  /** `at` is the position of the first state of that name, or the end. */
  predicate IsFirst(states: seq<State>, name: string, at: nat) {
    at <= |states| && (at < |states| ==> states[at].name == name) && forall j :: 0 <= j < at ==> states[j].name != name
  }

  lemma FirstInRange(states: seq<State>, name: string, at: nat)
    requires IsFirst(states, name, at)
    ensures at <= |states|
  {
  }

  lemma FirstIsAt(states: seq<State>, name: string, at: nat, k: nat)
    requires IsFirst(states, name, at) && k < |states|
    ensures FirstOfName(states, k) && states[k].name == name <==> k == at
  {
    if k < at { assert states[k].name != name; }
    if at < k { assert states[at].name == name; }
  }

  /** After the first `m` further sources of `e`: each state has `i` in its list if `e` goes there by them. */
  ghost predicate OutDone(before: seq<State>, now: seq<State>, e: Edge, i: nat, m: nat)
    requires m <= |e.sourceIds|
  {
    |now| == |before| && forall k :: 0 <= k < |now| ==> now[k] == WithOut(before, k, i, LeavesBy(e, before[k].name, m))
  }

  lemma OutStarts(before: seq<State>, now: seq<State>, e: Edge, i: nat, at: nat)
    requires IsFirst(before, e.source, at)
    requires now ==
      if e.source != "" && at < |before| then
        before[at := before[at].(outgoing := before[at].outgoing + [i])]
      else before
    ensures OutDone(before, now, e, i, 0)
  {
    assert e.sourceIds[..0] == [];
    forall k | 0 <= k < |now| ensures now[k] == WithOut(before, k, i, LeavesBy(e, before[k].name, 0)) {
      FirstIsAt(before, e.source, at, k);
      assert before[k].(outgoing := before[k].outgoing + []) == before[k];
    }
  }

  lemma OutGoes(before: seq<State>, now: seq<State>, next: seq<State>, e: Edge, i: nat, m: nat, at: nat)
    requires m < |e.sourceIds| && OutDone(before, now, e, i, m)
    requires forall k :: 0 <= k < |before| ==> i !in before[k].outgoing
    requires e.sourceIds[m] == e.source ==> next == now
    requires e.sourceIds[m] != e.source ==>
      && IsFirst(now, e.sourceIds[m], at)
      && next ==
         if at < |now| && i !in now[at].outgoing then now[at := now[at].(outgoing := now[at].outgoing + [i])] else now
    ensures OutDone(before, next, e, i, m + 1)
  {
    var name := e.sourceIds[m];
    assert e.sourceIds[..m + 1] == e.sourceIds[..m] + [name];
    forall k | 0 <= k < |next| ensures next[k] == WithOut(before, k, i, LeavesBy(e, before[k].name, m + 1)) {
      assert now[k] == WithOut(before, k, i, LeavesBy(e, before[k].name, m));
      assert before[k].outgoing + [] == before[k].outgoing;
      if name != e.source {
        FirstIsAt(now, name, at, k);
        SameFirst(before, now, k);
        OutGoesAt(before, k, i, LeavesBy(e, before[k].name, m), now[k]);
      }
    }
  }

  lemma OutGoesAt(before: seq<State>, k: nat, i: nat, already: bool, s: State)
    requires k < |before| && i !in before[k].outgoing && s == WithOut(before, k, i, already)
    ensures i in s.outgoing <==> FirstOfName(before, k) && already
  {
    hide FirstOfName;
  }

  /** After the first `m` further targets of `e`: each state has `i` in its list if `e` goes there by them. */
  ghost predicate InDone(before: seq<State>, now: seq<State>, e: Edge, i: nat, m: nat)
    requires m <= |e.targetIds|
  {
    |now| == |before| && forall k :: 0 <= k < |now| ==> now[k] == WithIn(before, k, i, ReachesBy(e, before[k].name, m))
  }

  lemma InStarts(before: seq<State>, now: seq<State>, e: Edge, i: nat, at: nat)
    requires IsFirst(before, e.target, at)
    requires now ==
      if e.target != "" && at < |before| then
        before[at := before[at].(incoming := before[at].incoming + [i])]
      else before
    ensures InDone(before, now, e, i, 0)
  {
    assert e.targetIds[..0] == [];
    forall k | 0 <= k < |now| ensures now[k] == WithIn(before, k, i, ReachesBy(e, before[k].name, 0)) {
      FirstIsAt(before, e.target, at, k);
      assert before[k].(incoming := before[k].incoming + []) == before[k];
    }
  }

  lemma InGoes(before: seq<State>, now: seq<State>, next: seq<State>, e: Edge, i: nat, m: nat, at: nat)
    requires m < |e.targetIds| && InDone(before, now, e, i, m)
    requires forall k :: 0 <= k < |before| ==> i !in before[k].incoming
    requires e.targetIds[m] == e.target ==> next == now
    requires e.targetIds[m] != e.target ==>
      && IsFirst(now, e.targetIds[m], at)
      && next ==
         if at < |now| && i !in now[at].incoming then now[at := now[at].(incoming := now[at].incoming + [i])] else now
    ensures InDone(before, next, e, i, m + 1)
  {
    var name := e.targetIds[m];
    assert e.targetIds[..m + 1] == e.targetIds[..m] + [name];
    forall k | 0 <= k < |next| ensures next[k] == WithIn(before, k, i, ReachesBy(e, before[k].name, m + 1)) {
      assert now[k] == WithIn(before, k, i, ReachesBy(e, before[k].name, m));
      assert before[k].incoming + [] == before[k].incoming;
      if name != e.target {
        FirstIsAt(now, name, at, k);
        SameFirst(before, now, k);
        InGoesAt(before, k, i, ReachesBy(e, before[k].name, m), now[k]);
      }
    }
  }

  lemma InGoesAt(before: seq<State>, k: nat, i: nat, already: bool, s: State)
    requires k < |before| && i !in before[k].incoming && s == WithIn(before, k, i, already)
    ensures i in s.incoming <==> FirstOfName(before, k) && already
  {
    hide FirstOfName;
  }

  lemma UprootNone(states: seq<State>, name: string, respectPin: bool)
    ensures Uproot(states[|states|..], name, respectPin) == [] && states[..|states|] == states == states[0..]
    ensures states + [] == states
      && states[..0] + Uproot(states[0..], name, respectPin) == Uproot(states, name, respectPin)
  {
    assert states[0..] == states;
  }

  lemma MoveOne(states: seq<State>, i: nat, rest: seq<State>)
    requires i < |states|
    ensures states[..i] + ([states[i]] + rest) == states[..i + 1] + rest
  {
  }

  lemma UprootOne(states: seq<State>, i: nat, name: string, respectPin: bool)
    requires i < |states|
    ensures Uproot(states[i..], name, respectPin) ==
      if states[i].name != name then [states[i]] + Uproot(states[i + 1..], name, respectPin)
      else [if respectPin && states[i].pinned then states[i] else states[i].(parent := "")] + states[i + 1..]
  {
    assert states[i..][1..] == states[i + 1..];
  }

  class FsmIr {
    var id: string
    var name: string
    var package: string
    var initial: string
    var initialId: string
    var states: seq<State>
    var edges: seq<Edge>
    var ports: seq<Item>
    var signals: seq<Item>
    var variables: seq<Item>
    var types: seq<Item>
    var properties: seq<Item>
    var guards: seq<Item>
    var actions: seq<Item>

    constructor (g: Graph)
      ensures Contents() == g
    {
      id, name, package, initial, initialId := g.id, g.name, g.package, g.initial, g.initialId;
      states, edges := g.states, g.edges;
      ports, signals, variables, types, properties := g.ports, g.signals, g.variables, g.types, g.properties;
      guards, actions := g.guards, g.actions;
    }

    ghost function Contents(): Graph
      reads this
    {
      Graph(id, name, package, initial, initialId, states, edges, ports, signals, variables, types, properties, guards,
            actions)
    }

    // ------------------------------------------------------------ hierarchy

    method ClearParent(target: string, respectPin: bool)
      modifies this`states
      ensures states == Uproot(old(states), target, respectPin)
    {
      hide Uproot;
      ghost var before := states;
      var i := 0;
      UprootNone(before, target, respectPin);
      while i < |states|
        invariant i <= |states| && states == before
        invariant Uproot(before, target, respectPin) == before[..i] + Uproot(before[i..], target, respectPin)
      {
        UprootOne(before, i, target, respectPin);
        if states[i].name == target {
          if !(respectPin && states[i].pinned) { states := states[i := states[i].(parent := "")]; }
          assert states == before[..i] + ([states[i]] + before[i + 1..]);
          return;
        }
        MoveOne(before, i, Uproot(before[i + 1..], target, respectPin));
        i := i + 1;
      }
    }

    method NormalizeHierarchy()
      modifies this
      ensures Contents() == Normalized(old(Contents()))
    {
      if initial != "" { ClearParent(initial, false); }
      ghost var start := states;
      for i := 0 to |edges|
        invariant Contents() == old(Contents()).(states := states)
        invariant states == UprootSources(start, edges[..i])
      {
        var t := edges[i];
        assert edges[..i + 1][..i] == edges[..i];
        if t.parentScope == "" && t.source != "" { ClearParent(t.source, true); }
      }
      assert edges[..|edges|] == edges;
      CollectChildren();
    }

    method CollectChildren()
      modifies this`states
      ensures states == RebuildChildren(old(states))
    {
      hide WithChildren, ChildIds, HasChild;
      ghost var before := states;
      for p := 0 to |states|
        invariant |states| == |before|
        invariant forall j :: 0 <= j < p ==> states[j] == WithChildren(before, before[j])
        invariant forall j :: p <= j < |states| ==> states[j] == before[j]
      {
        forall j | 0 <= j < |states| ensures states[j].parent == before[j].parent && states[j].id == before[j].id {
          OriginsStay(before, j);
        }
        ChildIdsAlike(states, before, before[p].name, |states|);
        HasChildAlike(states, before, before[p].name);
        var ids, hasChildren := ChildrenOf(states[p].name);
        var s := states[p];
        var composite := hasChildren || s.initialSub != "";
        var kind := if composite && s.kind == Atomic then Composite else s.kind;
        WithTheseChildren(before, p);
        states := states[p := s.(children := ids, composite := composite, kind := kind)];
      }
    }

    /** The identifiers of the children of a name, and whether there are any. */
    method ChildrenOf(parent: string) returns (ids: seq<string>, hasChildren: bool)
      ensures ids == ChildIds(states, parent, |states|) && hasChildren == HasChild(states, parent)
    {
      ids, hasChildren := [], false;
      for c := 0 to |states|
        invariant ids == ChildIds(states, parent, c)
        invariant hasChildren <==> exists j :: 0 <= j < c && states[j].parent == parent
      {
        if states[c].parent == parent {
          hasChildren := true;
          ids := ids + [states[c].id];
        }
      }
    }

    // ------------------------------------------------------------ adjacency

    method FindStateIndex(target: string) returns (k: nat)
      ensures IsFirst(states, target, k)
    {
      k := 0;
      while k < |states|
        invariant k <= |states| && forall j :: 0 <= j < k ==> states[j].name != target
      {
        if states[k].name == target { return; }
        k := k + 1;
      }
    }

    /** Transition `i` goes to the list of every state it leaves, once. */
    method ConnectSources(i: nat)
      requires i < |edges|
      requires forall k :: 0 <= k < |states| ==> i !in states[k].outgoing
      modifies this`states
      ensures OutDone(old(states), states, edges[i], i, |edges[i].sourceIds|)
    {
      hide WithOut, LeavesBy, OutDone, IsFirst, FirstOfName;
      ghost var before := states;
      var tr := edges[i];
      var k: nat := FindStateIndex(tr.source);
      FirstInRange(states, tr.source, k);
      if tr.source != "" {
        if k < |states| { states := states[k := states[k].(outgoing := states[k].outgoing + [i])]; }
      }
      OutStarts(before, states, tr, i, k);
      for m := 0 to |tr.sourceIds|
        invariant OutDone(before, states, tr, i, m)
      {
        ghost var now := states;
        var name := tr.sourceIds[m];
        if name != tr.source {
          k := FindStateIndex(name);
          FirstInRange(states, name, k);
          if k < |states| && i !in states[k].outgoing {
            states := states[k := states[k].(outgoing := states[k].outgoing + [i])];
          }
        }
        OutGoes(before, now, states, tr, i, m, k);
      }
    }

    method ConnectTargets(i: nat)
      requires i < |edges|
      requires forall k :: 0 <= k < |states| ==> i !in states[k].incoming
      modifies this`states
      ensures InDone(old(states), states, edges[i], i, |edges[i].targetIds|)
    {
      hide WithIn, ReachesBy, InDone, IsFirst, FirstOfName;
      ghost var before := states;
      var tr := edges[i];
      var k: nat := FindStateIndex(tr.target);
      FirstInRange(states, tr.target, k);
      if tr.target != "" {
        if k < |states| { states := states[k := states[k].(incoming := states[k].incoming + [i])]; }
      }
      InStarts(before, states, tr, i, k);
      for m := 0 to |tr.targetIds|
        invariant InDone(before, states, tr, i, m)
      {
        ghost var now := states;
        var name := tr.targetIds[m];
        if name != tr.target {
          k := FindStateIndex(name);
          FirstInRange(states, name, k);
          if k < |states| && i !in states[k].incoming {
            states := states[k := states[k].(incoming := states[k].incoming + [i])];
          }
        }
        InGoes(before, now, states, tr, i, m, k);
      }
    }

    method ClearLists()
      modifies this`states
      ensures |states| == |old(states)|
      ensures forall k :: 0 <= k < |states| ==> states[k] == old(states)[k].(outgoing := [], incoming := [])
    {
      ghost var before := states;
      for k := 0 to |states|
        invariant |states| == |before|
        invariant forall j :: 0 <= j < k ==> states[j] == before[j].(outgoing := [], incoming := [])
        invariant forall j :: k <= j < |states| ==> states[j] == before[j]
      {
        states := states[k := states[k].(outgoing := [], incoming := [])];
      }
    }

    method RebuildAdjacencyIndices()
      modifies this`states
      ensures states == Adjacent(old(states), edges, |edges|)
    {
      hide Adjacent, OutDone, InDone;
      ghost var before := states;
      ClearLists();
      ListsStart(before, edges, states);
      for i := 0 to |edges|
        invariant states == Adjacent(before, edges, i)
      {
        ghost var now := states;
        ListsStayBelow(before, edges, i);
        ConnectSources(i);
        ghost var left := states;
        OutKeepsIncoming(now, left, edges[i], i);
        ConnectTargets(i);
        ListsGrow(before, edges, i, now, left, states);
      }
    }

    // -------------------------------------------------------------- sorting

    method SortTransitionsByPriority()
      modifies this`edges
      ensures edges == Canonical(old(edges))
    {
      var order: map<string, nat> := map[];
      var next := 0;
      for i := 0 to |edges|
        invariant order == SourceOrder(edges[..i]) && next == |order|
      {
        assert edges[..i + 1][..i] == edges[..i];
        var source := edges[i].source;
        if source !in order {
          assert order[source := next].Keys == order.Keys + {source};
          order := order[source := next];
          next := next + 1;
        }
      }
      assert edges[..|edges|] == edges;
      edges := Sort(edges, CanonicalOrder(edges));
    }

    // ------------------------------------------------------------ interfaces

    method SyncInterfaces()
      modifies this
      ensures Contents() == Synced(old(Contents()))
    {
      SyncGuards();
      actions := AddEach(actions, EdgeActions(edges) + StateActions(states));
      signals := AddEach(signals, EventNames(edges));
    }

    method SyncGuards()
      modifies this`guards
      ensures guards == AddAll(old(guards), GuardNames(edges))
    {
      hide AddAll;
      AddNothing(guards);
      for i := 0 to |edges|
        invariant guards == AddAll(old(guards), GuardNames(edges[..i]))
      {
        assert edges[..i + 1][..i] == edges[..i];
        var raws := RawGuards(edges[i]);
        ghost var known := guards;
        AddNothing(known);
        for k := 0 to |raws|
          invariant guards == AddAll(known, TokensOf(raws[..k]))
        {
          assert raws[..k + 1][..k] == raws[..k];
          var tokens := ScanTokens(raws[k]);
          AddAllSum(known, TokensOf(raws[..k]), tokens);
          guards := AddEach(guards, tokens);
        }
        assert raws[..|raws|] == raws;
        AddAllSum(old(guards), GuardNames(edges[..i]), TokensOf(raws));
      }
      assert edges[..|edges|] == edges;
    }

    static method ScanTokens(raw: string) returns (tokens: seq<string>)
      ensures tokens == Tokens(raw, "")
    {
      tokens := [];
      var token := "";
      for i := 0 to |raw|
        invariant tokens + Tokens(raw[i..], token) == Tokens(raw, "")
      {
        assert raw[i..][1..] == raw[i + 1..];
        if IsWordChar(raw[i]) {
          token := token + [raw[i]];
        } else {
          if IsGuardName(token) { tokens := tokens + [token]; }
          token := "";
        }
      }
      if IsGuardName(token) { tokens := tokens + [token]; }
    }

    static method AddEach(items: seq<Item>, names: seq<string>) returns (r: seq<Item>)
      ensures r == AddAll(items, names)
    {
      r := items;
      for i := 0 to |names|
        invariant r == AddAll(items, names[..i])
      {
        assert names[..i + 1][..i] == names[..i];
        var found := false;
        for j := 0 to |r|
          invariant found <==> exists k :: 0 <= k < j && r[k].name == names[i]
        {
          if r[j].name == names[i] { found := true; }
        }
        if !found { r := r + [Item(names[i], "")]; }
      }
      assert names[..|names|] == names;
    }

    // -------------------------------------------------------- canonical form

    method Canonicalize()
      requires DistinctNames(Contents())
      modifies this
      ensures Contents() == Canonicalized(old(Contents()))
    {
      hide Arranged, Synced, Indexed, DistinctKeys;
      Arrange();
      SyncInterfaces();
      SyncedIsDistinct(old(Contents()));
      Reindex();
    }

    method Arrange()
      requires DistinctNames(Contents())
      modifies this
      ensures Contents() == Arranged(old(Contents()))
    {
      hide Sort, DistinctKeys, Canonical, AgreeGuards, Fnv.Id;
      if id == "" { id := Fnv.Id(Bytes(name + if package == "" then "" else "_" + package)); }
      if initialId == "" && initial != "" { initialId := initial; }
      AgreeAllGuards();
      SortTransitionsByPriority();
      SortDefinitions();
    }

    method Reindex()
      requires DistinctKeys(guards, NameOrder) && DistinctKeys(actions, NameOrder)
      modifies this
      ensures Contents() == Indexed(old(Contents()))
    {
      hide Sort, DistinctKeys, Adjacent;
      SortInterfaces();
      RebuildAdjacencyIndices();
    }

    method AgreeAllGuards()
      modifies this`edges
      ensures edges == AgreeGuards(old(edges))
    {
      ghost var before := edges;
      for i := 0 to |edges|
        invariant |edges| == |before|
        invariant forall j :: 0 <= j < i ==> edges[j] == AgreeGuard(before[j])
        invariant forall j :: i <= j < |edges| ==> edges[j] == before[j]
      {
        var tr := edges[i];
        if tr.guardAst.Some? && (tr.guard.None? || tr.guard.value != Guard.ToCpp(tr.guardAst.value)) {
          edges := edges[i := tr.(guard := Some(Guard.ToCpp(tr.guardAst.value)))];
        } else if tr.guardAst.None? && tr.guard.Some? && tr.guard.value != "" {
          edges := edges[i := tr.(guardAst := Some(Guard.Guard(Guard.Atomic, tr.guard.value, [])))];
        }
      }
    }

    method SortStates()
      requires DistinctKeys(states, FqnOrder)
      modifies this`states
      ensures states == Sort(old(states), FqnOrder)
    {
      NameOrdersAreTotal();
      states := SortDistinct(states, FqnOrder);
    }

    method SortDefinitions()
      requires DistinctKeys(states, FqnOrder) && DistinctKeys(ports, NameOrder) && DistinctKeys(signals, NameOrder)
      requires DistinctKeys(variables, NameOrder) && DistinctKeys(types, NameOrder)
        && DistinctKeys(properties, NameOrder)
      modifies this`states, this`ports, this`signals, this`variables, this`types, this`properties
      ensures states == Sort(old(states), FqnOrder) && ports == Sort(old(ports), NameOrder)
      ensures signals == Sort(old(signals), NameOrder) && variables == Sort(old(variables), NameOrder)
      ensures types == Sort(old(types), NameOrder) && properties == Sort(old(properties), NameOrder)
    {
      hide Sort, DistinctKeys;
      SortStates();
      ports := SortNamed(ports);
      signals := SortNamed(signals);
      variables := SortNamed(variables);
      types := SortNamed(types);
      properties := SortNamed(properties);
    }

    method SortInterfaces()
      requires DistinctKeys(guards, NameOrder) && DistinctKeys(actions, NameOrder)
      modifies this`guards, this`actions
      ensures guards == Sort(old(guards), NameOrder) && actions == Sort(old(actions), NameOrder)
    {
      hide Sort, DistinctKeys;
      guards := SortNamed(guards);
      actions := SortNamed(actions);
    }
  }

  method SortDistinct<T(!new)>(s: seq<T>, le: (T, T) -> bool) returns (r: seq<T>)
    requires DistinctKeys(s, le) && TotalPreorder(le)
    ensures r == Sort(s, le)
  {
    r := SortAnyhow(s, le);
    NoTies(s, r, le);
  }

  method SortNamed(items: seq<Item>) returns (r: seq<Item>)
    requires DistinctKeys(items, NameOrder)
    ensures r == Sort(items, NameOrder)
  {
    NameOrdersAreTotal();
    r := SortDistinct(items, NameOrder);
  }

  lemma SyncedIsDistinct(g: Graph)
    requires DistinctNames(g)
    ensures DistinctKeys(Synced(Arranged(g)).guards, NameOrder)
    ensures DistinctKeys(Synced(Arranged(g)).actions, NameOrder)
  {
    var a := Arranged(g);
    AddAllKeepsDistinct(g.guards, GuardNames(a.edges));
    AddAllKeepsDistinct(g.actions, EdgeActions(a.edges) + StateActions(a.states));
  }
}
