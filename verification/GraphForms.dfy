/** Hierarchy repair and canonical form, field by field against the graph they start from. */
module GraphForms {
  import opened Text
  import opened Ir
  import opened Order
  import opened Priority
  import opened GraphSpec
  import opened GraphOps
  import opened GraphProps
  import opened GraphNames
  import Fnv
  import Guard
  import Strings

  // -------------------------------------------------------- hierarchy repair

  /** Repair puts state `k` at the root: the initial one, or one with a transition at the root scope. */
  predicate MovesToRoot(g: Graph, k: nat)
    requires k < |g.states|
  {
    var s := g.states[k];
    && (forall j :: 0 <= j < k ==> g.states[j].name != s.name)
    && ((s.name == g.initial && g.initial != "")
        || (!s.pinned && s.name != "" && exists e :: e in g.edges && e.source == s.name && e.parentScope == ""))
  }

  /** `ids` names, in order of declaration, the states whose parent is `name`, each by its identifier. */
  ghost predicate ListsChildren(states: seq<State>, name: string, k: nat, ids: seq<string>, at: seq<nat>) {
    && k <= |states| && |at| == |ids|
    && (forall a :: 0 <= a < |at| ==> at[a] < k && states[at[a]].id == ids[a] && states[at[a]].parent == name)
    && (forall a, b :: 0 <= a < b < |at| ==> at[a] < at[b])
    && (forall i :: 0 <= i < k && states[i].parent == name ==> i in at)
  }

  lemma {:induction false} ChildIdsList(states: seq<State>, name: string, k: nat) returns (at: seq<nat>)
    requires k <= |states|
    ensures ListsChildren(states, name, k, ChildIds(states, name, k), at)
  {
    at := [];
    if k > 0 {
      at := ChildIdsList(states, name, k - 1);
      if states[k - 1].parent == name { at := at + [k - 1]; }
    }
  }

  /**
   * What repair makes of each state: only the parent, the children, the composite flag and the kind
   * of an atomic state may change, and those as the parents in the repaired list say.
   */
  lemma RepairExactly(g: Graph, k: nat) returns (at: seq<nat>)
    requires k < |g.states|
    ensures |Normalized(g).states| == |g.states| && Normalized(g) == g.(states := Normalized(g).states)
    ensures var s, n := g.states[k], Normalized(g).states;
      && n[k] == s.(parent := n[k].parent, children := n[k].children, composite := n[k].composite, kind := n[k].kind)
      && n[k].parent == (if MovesToRoot(g, k) then "" else s.parent)
      && ListsChildren(n, s.name, |n|, n[k].children, at)
      && (n[k].composite <==> s.initialSub != "" || exists c :: c in n && c.parent == s.name)
      && n[k].kind == (if s.kind == Atomic && n[k].composite then Composite else s.kind)
  {
    var s, n := g.states[k], Normalized(g).states;
    var r := Replanted(g.states, g.initial, g.edges);
    NormalisationMoves(g.states, g.initial, g.edges);
    RootedExactly(g, k);
    forall j | 0 <= j < |n| ensures n[j].parent == r[j].parent && n[j].id == r[j].id {
      assert n[j] == WithChildren(r, r[j]);
    }
    assert n[k] == WithChildren(r, r[k]);
    ChildIdsAlike(n, r, s.name, |n|);
    HasChildAlike(n, r, s.name);
    at := ChildIdsList(n, s.name, |n|);
    HasChildExactly(n, s.name);
  }

  lemma HasChildExactly(states: seq<State>, name: string)
    ensures HasChild(states, name) <==> exists c :: c in states && c.parent == name
  {
    if c :| c in states && c.parent == name {
      var i :| 0 <= i < |states| && states[i] == c;
    }
  }

  lemma RootedExactly(g: Graph, k: nat)
    requires k < |g.states|
    ensures Rooted(g.states, g.initial, g.edges, k) <==> MovesToRoot(g, k)
  {
    var s := g.states[k];
    if e :| e in g.edges && e.source == s.name && e.parentScope == "" {
      var i :| 0 <= i < |g.edges| && g.edges[i] == e;
    }
  }

  // ---------------------------------------------------------- canonical form

  /** `e` is `o` with guard text and guard tree made to agree. */
  predicate Agrees(o: Edge, e: Edge) {
    && e == o.(guard := e.guard, guardAst := e.guardAst)
    && (o.guardAst.Some? ==> e.guardAst == o.guardAst && e.guard == Some(Guard.ToCpp(o.guardAst.value)))
    && (o.guardAst.None? ==>
          && e.guard == o.guard
          && (if o.guard == None || o.guard == Some("") then e.guardAst == None
              else e.guardAst == Some(Guard.Guard(Guard.Atomic, o.guard.value, []))))
  }

  /** Transitions of one source stand together, sources in the order they first occur, most urgent first. */
  ghost predicate GroupedBySource(edges: seq<Edge>, sorted: seq<Edge>) {
    forall i, j :: 0 <= i < j < |sorted| ==> InPlace(edges, sorted[i], sorted[j])
  }

  ghost predicate InPlace(edges: seq<Edge>, a: Edge, b: Edge) {
    if a.source == b.source then !Ahead(b, a)
    else exists p :: 0 <= p < |edges| && edges[p].source == a.source && NoneFrom(edges, b.source, p)
  }

  /** Up to position `p` no transition begins in `s`. */
  predicate NoneFrom(edges: seq<Edge>, s: string, p: nat) {
    forall q :: 0 <= q <= p && q < |edges| ==> edges[q].source != s
  }

  /** A smaller number means an earlier first occurrence. */
  lemma SmallerNumberIsEarlier(edges: seq<Edge>, s: string, t: string)
    requires s in SourceOrder(edges) && t in SourceOrder(edges) && SourceOrder(edges)[s] < SourceOrder(edges)[t]
    ensures exists p :: 0 <= p < |edges| && edges[p].source == s && NoneFrom(edges, t, p)
  {
    hide SourceOrder;
    SourceIsThere(edges, s);
    var p := FirstOf(edges, s);
    if !NoneFrom(edges, t, p) {
      var q :| 0 <= q <= p && edges[q].source == t;
      EarlierHasSmallerNumber(edges, q, s);
    }
  }

  lemma {:induction false} FirstOf(edges: seq<Edge>, s: string) returns (p: nat)
    requires exists i :: 0 <= i < |edges| && edges[i].source == s
    ensures p < |edges| && edges[p].source == s && forall q :: 0 <= q < p ==> edges[q].source != s
  {
    var i :| 0 <= i < |edges| && edges[i].source == s;
    if j :| 0 <= j < i && edges[j].source == s {
      p := FirstOf(edges[..i], s) by { assert edges[..i][j].source == s; }
    } else {
      p := i;
    }
  }

  lemma CanonicalIsGrouped(edges: seq<Edge>)
    ensures GroupedBySource(edges, Canonical(edges)) && multiset(Canonical(edges)) == multiset(edges)
  {
    hide SourceOrder, MoreUrgent, Ahead;
    var y := Canonical(edges);
    OrdersAreTotal(edges);
    SortSorted(edges, CanonicalOrder(edges));
    OrdersTellSources(edges);
    forall i, j | 0 <= i < j < |y| ensures InPlace(edges, y[i], y[j]) {
      assert CanonicalOrder(edges)(y[i], y[j]);
      MembersOfCanonical(edges, i);
      MembersOfCanonical(edges, j);
      if y[i].source == y[j].source {
        AheadIsLessRank(y[j], y[i]);
      } else {
        SmallerNumberIsEarlier(edges, y[i].source, y[j].source);
      }
    }
  }

  lemma GuardsAgree(o: Edge)
    ensures Agrees(o, AgreeGuard(o))
  {
  }

  /** The same elements, by ascending name. */
  ghost predicate Arranges(before: seq<Item>, list: seq<Item>) {
    && multiset(list) == multiset(before)
    && forall i, j :: 0 <= i < j < |list| ==> Strings.AtMost(list[i].name, list[j].name)
  }

  lemma SortArranges(items: seq<Item>)
    ensures Arranges(items, Sort(items, NameOrder))
  {
    NameOrdersAreTotal();
    SortSorted(items, NameOrder);
    var s := Sort(items, NameOrder);
    forall i, j | 0 <= i < j < |s| ensures Strings.AtMost(s[i].name, s[j].name) { assert NameOrder(s[i], s[j]); }
  }

  /** The identifier a graph without one gets: that of its name, with the package behind an underscore. */
  predicate Identified(g: Graph, id: string) {
    if g.id != "" then id == g.id
    else id == Fnv.Id(Bytes(if g.package == "" then g.name else g.name + "_" + g.package))
  }

  /**
   * The canonical graph keeps its names, gets an identifier and an initial state if it had none,
   * and lists everything in its order: definitions by name, transitions by source and urgency.
   */
  lemma CanonicalExactly(g: Graph)
    ensures var c := Canonicalized(g);
      && c.name == g.name && c.package == g.package && c.initial == g.initial && Identified(g, c.id)
      && c.initialId == (if g.initialId != "" then g.initialId else g.initial)
      && Arranges(g.ports, c.ports) && Arranges(g.variables, c.variables) && Arranges(g.types, c.types)
      && Arranges(g.properties, c.properties)
      && Arranges(c.guards, c.guards) && Arranges(c.actions, c.actions)
      && |g.signals| <= |c.signals| && Arranges(g.signals, c.signals[..|g.signals|])
    ensures exists agreed: seq<Edge> ::
      && |agreed| == |g.edges|
      && (forall k :: 0 <= k < |agreed| ==> Agrees(g.edges[k], agreed[k]))
      && multiset(Canonicalized(g).edges) == multiset(agreed) && GroupedBySource(agreed, Canonicalized(g).edges)
  {
    hide Sort, AddAll, GuardNames, EventNames, EdgeActions, StateActions, Adjacent, Canonical, Arranges,
         GroupedBySource, Agrees, AgreeGuard;
    var a := Arranged(g);
    var s := Synced(a);
    SortArranges(g.ports);
    SortArranges(g.variables);
    SortArranges(g.types);
    SortArranges(g.properties);
    SortArranges(g.signals);
    SortArranges(s.guards);
    SortArranges(s.actions);
    ArrangedAgain(s.guards, Sort(s.guards, NameOrder));
    ArrangedAgain(s.actions, Sort(s.actions, NameOrder));
    AddAllAppends(a.signals, EventNames(a.edges));
    var agreed := AgreeGuards(g.edges);
    forall k | 0 <= k < |agreed| ensures Agrees(g.edges[k], agreed[k]) { GuardsAgree(g.edges[k]); }
    CanonicalIsGrouped(agreed);
    NameIsIdentified(g);
  }

  lemma NameIsIdentified(g: Graph)
    ensures Identified(g, ModelId(g))
  {
    hide Fnv.Id;
    assert g.name + "" == g.name;
    assert g.name + ("_" + g.package) == g.name + "_" + g.package;
  }

  lemma ArrangedAgain(before: seq<Item>, list: seq<Item>)
    requires Arranges(before, list)
    ensures Arranges(list, list)
  {
  }

  lemma {:induction false} AddAllAppends(items: seq<Item>, names: seq<string>)
    ensures |items| <= |AddAll(items, names)| && AddAll(items, names)[..|items|] == items
  {
    if |names| > 0 { AddAllAppends(items, names[..|names| - 1]); }
  }

  /** Adjacency lists apart, the states of the canonical graph are those given, by ascending qualified name. */
  lemma StatesExactly(g: Graph, sorted: seq<State>)
    requires sorted == Sort(g.states, FqnOrder)
    ensures multiset(sorted) == multiset(g.states)
    ensures forall i, j :: 0 <= i < j < |sorted| ==> Strings.AtMost(sorted[i].fqn, sorted[j].fqn)
    ensures var c := Canonicalized(g).states;
      && |c| == |sorted|
      && forall k :: 0 <= k < |c| ==> c[k] == sorted[k].(outgoing := c[k].outgoing, incoming := c[k].incoming)
  {
    hide Sort, AddAll, GuardNames, EventNames, EdgeActions, StateActions, Canonical, LeavesFrom, ReachesTo;
    NameOrdersAreTotal();
    SortSorted(g.states, FqnOrder);
    forall i, j | 0 <= i < j < |sorted| ensures Strings.AtMost(sorted[i].fqn, sorted[j].fqn) {
      assert FqnOrder(sorted[i], sorted[j]);
    }
  }
}
