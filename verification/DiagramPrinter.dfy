/** The diagram printers as they run: a growing text and a shared record of printed transitions. */
module DiagramPrinter {
  import opened Text
  import opened Ir
  import opened Order
  import opened GraphSpec
  import opened GraphProps
  import opened Traps
  import opened Diagram

  lemma Snoc(states: seq<State>, out: seq<Line>, l: Line)
    ensures StatesOf(out + [l]) == StatesOf(out) + if l.OpenState? || l.LeafState? then [l.index] else []
    ensures ArrowsOf(out + [l]) == ArrowsOf(out) + if l.Arrow? then [l.edge] else []
    ensures l.OpenState? ==> Blocks(out + [l]) == Blocks(out) + [l.index]
    ensures l.CloseState? && |Blocks(out)| > 0 ==> Blocks(out + [l]) == Blocks(out)[..|Blocks(out)| - 1]
    ensures l.LeafState? || l.Arrow? ==> Blocks(out + [l]) == Blocks(out)
    ensures forall p :: ArrowsIn(states, out + [l], p) ==
                        ArrowsIn(states, out, p) + if l.Arrow? && Current(states, out) == p then [l.edge] else []
  {
    assert (out + [l])[..|out|] == out;
  }

  lemma PlacedSnoc(states: seq<State>, edges: seq<Edge>, out: seq<Line>, l: Line)
    requires Placed(states, edges, out) && Fits(states, edges, out, l)
    ensures Placed(states, edges, out + [l])
  {
    forall j | 0 <= j < |out + [l]| ensures Fits(states, edges, (out + [l])[..j], (out + [l])[j]) {
      if j < |out| { assert (out + [l])[..j] == out[..j]; } else { assert (out + [l])[..j] == out; }
    }
  }

  /** A printed transition is printed in its scope, and whatever a scope shows is printed. */
  lemma {:induction false} PrintedInScope(states: seq<State>, edges: seq<Edge>, out: seq<Line>, e: nat)
    requires Placed(states, edges, out) && e < |edges|
    ensures e in ArrowsOf(out) ==> e in ArrowsIn(states, out, ScopeOf(states, edges[e]))
    ensures forall p :: e in ArrowsIn(states, out, p) ==> e in ArrowsOf(out)
  {
    if |out| > 0 {
      var before := out[..|out| - 1];
      forall j | 0 <= j < |before| ensures Fits(states, edges, before[..j], before[j]) {
        assert before[..j] == out[..j];
      }
      PrintedInScope(states, edges, before, e);
      assert Fits(states, edges, out[..|out| - 1], out[|out| - 1]);
    }
  }

  lemma {:induction false} InScopeHolds(states: seq<State>, edges: seq<Edge>, order: seq<nat>, scope: string, e: nat)
    requires e < |edges|
    ensures e in InScope(states, edges, order, scope) <==> e in order && ScopeOf(states, edges[e]) == scope
  {
    if |order| > 0 {
      InScopeHolds(states, edges, order[..|order| - 1], scope, e);
      assert order == order[..|order| - 1] + [order[|order| - 1]];
    }
  }

  lemma OrderHolds(order: seq<nat>, n: nat, e: nat)
    requires IsOrder(order, n)
    ensures e in order <==> e < n
  {
    NumbersCount(n, e);
    assert e in order <==> e in multiset(order);
  }

  lemma NoRepeat(order: seq<nat>, n: nat, j: nat)
    requires IsOrder(order, n) && j < |order|
    ensures order[j] !in order[..j] && order[j] < n
  {
    assert order == order[..j] + [order[j]] + order[j + 1..];
    assert multiset(order) == multiset(order[..j]) + multiset{order[j]} + multiset(order[j + 1..]);
    OrderHolds(order, n, order[j]);
    NumbersCount(n, order[j]);
    assert multiset(order[..j])[order[j]] == 0;
  }

  class Printer {
    const states: seq<State>
    const edges: seq<Edge>
    /** The order in which transitions are looked at. */
    const order: seq<nat>
    var out: seq<Line>
    var emitted: set<nat>

    constructor (states: seq<State>, edges: seq<Edge>, order: seq<nat>)
      ensures this.states == states && this.edges == edges && this.order == order
      ensures out == [] && emitted == {}
    {
      this.states, this.edges, this.order, out, emitted := states, edges, order, [], {};
    }

    /** The record holds exactly the printed transitions, each printed once, and every line is in its block. */
    ghost predicate Consistent()
      reads this
    {
      && IsOrder(order, |edges|)
      && multiset(ArrowsOf(out)) == multiset(emitted)
      && (forall e :: e in emitted ==> e < |edges|)
      && Placed(states, edges, out)
    }

    /** Every block shows none of its transitions yet, or all of them in order. */
    ghost predicate AllOrNothing(lines: seq<Line>) {
      forall p :: ArrowsIn(states, lines, p) == [] || ArrowsIn(states, lines, p) == InScope(states, edges, order, p)
    }

    /** All states printed from position `m` on have their transitions printed. */
    ghost predicate ServedFrom(m: nat)
      reads this
    {
      forall j :: m <= j < |StatesOf(out)| && StatesOf(out)[j] < |states| ==>
        Served(states, edges, states[StatesOf(out)[j]].name, emitted)
    }

    method WriteState(l: Line)
      requires (l.OpenState? || l.LeafState?) && Consistent() && AllOrNothing(out) && Fits(states, edges, out, l)
      modifies this`out
      ensures Consistent() && AllOrNothing(out) && StatesOf(out) == StatesOf(old(out)) + [l.index]
      ensures Blocks(out) == Blocks(old(out)) + if l.OpenState? then [l.index] else []
    {
      Snoc(states, out, l);
      PlacedSnoc(states, edges, out, l);
      out := out + [l];
    }

    method WriteClose()
      requires Consistent() && AllOrNothing(out) && Blocks(out) != []
      modifies this`out
      ensures Consistent() && AllOrNothing(out) && StatesOf(out) == StatesOf(old(out))
      ensures Blocks(out) == Blocks(old(out))[..|Blocks(old(out))| - 1]
    {
      Snoc(states, out, CloseState);
      PlacedSnoc(states, edges, out, CloseState);
      out := out + [CloseState];
    }

    method WriteArrow(e: nat)
      requires e < |edges| && e !in emitted && Current(states, out) == ScopeOf(states, edges[e]) && Consistent()
      modifies this
      ensures Consistent() && emitted == old(emitted) + {e}
      ensures StatesOf(out) == StatesOf(old(out)) && Blocks(out) == Blocks(old(out))
      ensures forall p :: ArrowsIn(states, out, p) ==
                          ArrowsIn(states, old(out), p) + if p == ScopeOf(states, edges[e]) then [e] else []
    {
      hide ArrowsIn, ArrowsOf, StatesOf, Blocks, Current;
      Snoc(states, out, Arrow(e));
      PlacedSnoc(states, edges, out, Arrow(e));
      assert multiset(emitted + {e}) == multiset(emitted) + multiset{e};
      emitted := emitted + {e};
      out := out + [Arrow(e)];
    }

    /** Prints the transition unless it is printed already or, without `rest`, belongs elsewhere. */
    method EmitPending(e: nat, scope: string, rest: bool)
      requires Consistent() && Current(states, out) == scope && e < |edges|
      requires rest && e !in emitted ==> ScopeOf(states, edges[e]) == scope
      modifies this
      ensures Consistent() && StatesOf(out) == StatesOf(old(out)) && Blocks(out) == Blocks(old(out))
      ensures emitted == old(emitted) + if ScopeOf(states, edges[e]) == scope then {e} else {}
      ensures var pending := e !in old(emitted) && ScopeOf(states, edges[e]) == scope;
        forall p :: ArrowsIn(states, out, p) ==
                    ArrowsIn(states, old(out), p) + if pending && p == scope then [e] else []
    {
      if e !in emitted && (rest || ScopeOf(states, edges[e]) == scope) { WriteArrow(e); }
    }

    /**
     * The transitions of the open scope that are not printed yet; with `rest`, all that
     * are not printed yet, which is done once, outside all blocks.
     */
    method EmitScope(scope: string, rest: bool)
      requires Consistent() && AllOrNothing(out) && Current(states, out) == scope
      requires rest ==> forall e :: 0 <= e < |edges| && e !in emitted ==> ScopeOf(states, edges[e]) == scope
      modifies this
      ensures Consistent() && AllOrNothing(out) && old(emitted) <= emitted
      ensures StatesOf(out) == StatesOf(old(out)) && Blocks(out) == Blocks(old(out))
      ensures Served(states, edges, scope, emitted)
    {
      hide StatesOf, Blocks, ArrowsIn, ScopeOf, Consistent, AllOrNothing, InScope, Served, IsOrder;
      ghost var known, untouched := emitted, ArrowsIn(states, out, scope) == [];
      NothingYet(scope);
      for j := 0 to |order|
        invariant Consistent() && StatesOf(out) == StatesOf(old(out)) && Blocks(out) == Blocks(old(out))
        invariant forall p :: p != scope ==> ArrowsIn(states, out, p) == ArrowsIn(states, old(out), p)
        invariant ArrowsIn(states, out, scope) ==
          if untouched then InScope(states, edges, order[..j], scope) else ArrowsIn(states, old(out), scope)
        invariant emitted == known + Members(order[..j], scope)
      {
        var e := order[j];
        Step(j, scope);
        EmitPending(e, scope, rest);
      }
      assert order[..|order|] == order;
      ScopeIsDone(scope, known, old(out));
    }

    /** A block with nothing in it has no printed transition; one with something has all. */
    lemma NothingYet(scope: string)
      requires Consistent() && AllOrNothing(out)
      ensures InScope(states, edges, [], scope) == [] && Members([], scope) == {}
      ensures ArrowsIn(states, out, scope) == [] ==>
        forall e :: e in emitted ==> e < |edges| && ScopeOf(states, edges[e]) != scope
      ensures ArrowsIn(states, out, scope) != [] ==> Served(states, edges, scope, emitted)
    {
      if ArrowsIn(states, out, scope) != [] {
        FullScope(scope);
      } else {
        forall e | e in emitted ensures ScopeOf(states, edges[e]) != scope {
          assert e in multiset(ArrowsOf(out));
          PrintedInScope(states, edges, out, e);
        }
      }
    }

    ghost function Members(seen: seq<nat>, scope: string): set<nat> {
      set e | e in seen && e < |edges| && ScopeOf(states, edges[e]) == scope
    }

    lemma Step(j: nat, scope: string)
      requires Consistent() && j < |order|
      ensures order[j] < |edges| && order[j] !in Members(order[..j], scope)
      ensures var mine := ScopeOf(states, edges[order[j]]) == scope;
        && InScope(states, edges, order[..j + 1], scope) ==
           InScope(states, edges, order[..j], scope) + (if mine then [order[j]] else [])
        && Members(order[..j + 1], scope) == Members(order[..j], scope) + if mine then {order[j]} else {}
    {
      NoRepeat(order, |edges|, j);
      assert order[..j + 1][..j] == order[..j];
      assert order[..j + 1] == order[..j] + [order[j]];
    }

    lemma ScopeIsDone(scope: string, known: set<nat>, before: seq<Line>)
      requires Consistent() && AllOrNothing(before) && emitted == known + Members(order, scope)
      requires forall p :: p != scope ==> ArrowsIn(states, out, p) == ArrowsIn(states, before, p)
      requires ArrowsIn(states, out, scope) == InScope(states, edges, order, scope)
            || ArrowsIn(states, out, scope) == ArrowsIn(states, before, scope)
      ensures AllOrNothing(out) && Served(states, edges, scope, emitted)
    {
      hide ArrowsIn, InScope;
      forall e | 0 <= e < |edges| && ScopeOf(states, edges[e]) == scope ensures e in emitted {
        OrderHolds(order, |edges|, e);
      }
    }

    lemma FullScope(scope: string)
      requires Consistent() && AllOrNothing(out) && ArrowsIn(states, out, scope) != []
      ensures Served(states, edges, scope, emitted)
    {
      forall e | 0 <= e < |edges| && ScopeOf(states, edges[e]) == scope ensures e in emitted {
        OrderHolds(order, |edges|, e);
        InScopeHolds(states, edges, order, scope, e);
        PrintedInScope(states, edges, out, e);
        assert e in multiset(ArrowsOf(out));
      }
    }

    method EmitState(k: nat, ghost depth: string -> nat, ghost height: nat)
      requires WellShaped(states, depth, height) && k < |states| && Consistent() && AllOrNothing(out)
      requires Current(states, out) == states[k].parent
      modifies this
      ensures Consistent() && AllOrNothing(out) && old(emitted) <= emitted && Blocks(out) == Blocks(old(out))
      ensures StatesOf(out) == StatesOf(old(out)) + ([k] + Walk(states, states[k].name, 0, depth, height))
      ensures ServedFrom(|StatesOf(old(out))|)
      decreases Below(height, depth(states[k].name)), 1
    {
      hide WellShaped, Walk, Served, Placed, ArrowsIn, StatesOf, IsOrder, AllOrNothing, Blocks, Consistent;
      ghost var m := |StatesOf(out)|;
      WriteState(OpenState(k));
      ghost var open := Blocks(out);
      EmitChildren(states[k].name, depth, height);
      ghost var known := emitted;
      EmitScope(states[k].name, false);
      WriteClose();
      HeadIsServed(m, known);
    }

    lemma HeadIsServed(m: nat, known: set<nat>)
      requires m < |StatesOf(out)| && StatesOf(out)[m] < |states| && known <= emitted
      requires forall j :: m + 1 <= j < |StatesOf(out)| && StatesOf(out)[j] < |states| ==>
                             Served(states, edges, states[StatesOf(out)[j]].name, known)
      requires Served(states, edges, states[StatesOf(out)[m]].name, emitted)
      ensures ServedFrom(m)
    {
    }

    /** The children of one scope, composite ones with all below them. */
    method EmitChildren(scope: string, ghost depth: string -> nat, ghost height: nat)
      requires WellShaped(states, depth, height) && Consistent() && AllOrNothing(out) && Current(states, out) == scope
      modifies this
      ensures Consistent() && AllOrNothing(out) && old(emitted) <= emitted && Blocks(out) == Blocks(old(out))
      ensures StatesOf(out) == StatesOf(old(out)) + Walk(states, scope, 0, depth, height)
      ensures ServedFrom(|StatesOf(old(out))|)
      decreases Below(height, depth(scope)), 0
    {
      hide UniqueNames, ParentsDeclared, CompositeExactly, Forest, Walk, Served, Placed, ArrowsIn, StatesOf, IsOrder,
        AllOrNothing, Blocks, ArrowsOf, BlockOf;
      WalkEnds(states, scope, depth, height);
      for c := 0 to |states|
        invariant Consistent() && AllOrNothing(out) && old(emitted) <= emitted && Blocks(out) == Blocks(old(out))
        invariant StatesOf(out) + Walk(states, scope, c, depth, height)
          == StatesOf(old(out)) + Walk(states, scope, 0, depth, height)
        invariant |StatesOf(old(out))| <= |StatesOf(out)| && ServedFrom(|StatesOf(old(out))|)
      {
        WalkStep(states, scope, c, depth, height);
        if states[c].parent == scope {
          ChildIsDeeper(states, c, depth, height);
          EmitChild(c, |StatesOf(old(out))|, depth, height);
        }
      }
    }

    method EmitChild(c: nat, ghost m: nat, ghost depth: string -> nat, ghost height: nat)
      requires WellShaped(states, depth, height) && Consistent() && AllOrNothing(out)
      requires c < |states| && Current(states, out) == states[c].parent
      requires m <= |StatesOf(out)| && ServedFrom(m)
      modifies this
      ensures Consistent() && AllOrNothing(out) && old(emitted) <= emitted && Blocks(out) == Blocks(old(out))
      ensures StatesOf(out) == StatesOf(old(out)) + ([c] + BlockOf(states, c, depth, height))
      ensures ServedFrom(m)
      decreases Below(height, depth(states[c].name)), 2
    {
      hide WellShaped, Walk, Served, Placed, ArrowsIn, StatesOf, IsOrder, AllOrNothing, Blocks, Consistent;
      ghost var before, known := StatesOf(out), emitted;
      if states[c].composite {
        EmitState(c, depth, height);
      } else {
        LeafNeedsNothing(states, edges, c, emitted, depth, height);
        WriteState(LeafState(c));
      }
      StillServed(before, known, m);
    }

    lemma StillServed(before: seq<nat>, known: set<nat>, m: nat)
      requires m <= |before| <= |StatesOf(out)| && StatesOf(out)[..|before|] == before && known <= emitted
      requires forall j :: m <= j < |before| && before[j] < |states| ==>
        Served(states, edges, states[before[j]].name, known)
      requires ServedFrom(|before|)
      ensures ServedFrom(m)
    {
      var all := StatesOf(out);
      forall j | m <= j < |all| && all[j] < |states| ensures Served(states, edges, states[all[j]].name, emitted) {
        if j < |before| { assert before[j] == all[j]; }
      }
    }

    /** The whole walk: the states from the root, then the transitions left over. */
    method Print(ghost depth: string -> nat, ghost height: nat)
      requires WellShaped(states, depth, height) && IsOrder(order, |edges|) && out == [] && emitted == {}
      modifies this
      ensures StatesOf(out) == Walk(states, "", 0, depth, height)
      ensures Placed(states, edges, out) && Blocks(out) == []
      ensures forall p :: ArrowsIn(states, out, p) == InScope(states, edges, order, p)
      ensures multiset(ArrowsOf(out)) == multiset(Numbers(|edges|))
    {
      EmitChildren("", depth, height);
      LeftOversAreRoot(depth, height);
      EmitScope("", true);
      EverythingShown(depth, height);
    }

    lemma LeftOversAreRoot(depth: string -> nat, height: nat)
      requires WellShaped(states, depth, height) && ServedFrom(0)
      requires StatesOf(out) == Walk(states, "", 0, depth, height)
      ensures forall e :: 0 <= e < |edges| && e !in emitted ==> ScopeOf(states, edges[e]) == ""
    {
      forall e | 0 <= e < |edges| && ScopeOf(states, edges[e]) != "" ensures e in emitted {
        var q := ScopeOf(states, edges[e]);
        var s := FindState(states, edges[e].source).value;
        var n :| 0 <= n < |states| && states[n] == s;
        assert Declared(states, states[n].parent);
        var i := IndexOf(states, q);
        WalkIsComplete(states, i, depth, height);
        assert i in multiset(StatesOf(out));
        var j :| 0 <= j < |StatesOf(out)| && StatesOf(out)[j] == i;
        assert Served(states, edges, states[StatesOf(out)[j]].name, emitted);
      }
    }

    lemma EverythingShown(depth: string -> nat, height: nat)
      requires WellShaped(states, depth, height) && Consistent() && AllOrNothing(out)
        && Served(states, edges, "", emitted)
      requires forall e :: 0 <= e < |edges| && ScopeOf(states, edges[e]) != "" ==> e in emitted
      ensures forall p :: ArrowsIn(states, out, p) == InScope(states, edges, order, p)
      ensures multiset(ArrowsOf(out)) == multiset(Numbers(|edges|))
    {
      var printed: multiset<nat>, all: multiset<nat> := multiset(ArrowsOf(out)), multiset(Numbers(|edges|));
      forall e: nat ensures printed[e] == all[e] {
        NumbersCount(|edges|, e);
      }
      forall p ensures ArrowsIn(states, out, p) == InScope(states, edges, order, p) {
        var shown := InScope(states, edges, order, p);
        if shown != [] && ArrowsIn(states, out, p) == [] {
          var e := shown[0];
          InScopeInRange(states, edges, order, p);
          assert e in shown;
          InScopeHolds(states, edges, order, p, e);
          assert e in multiset(ArrowsOf(out));
          PrintedInScope(states, edges, out, e);
        }
      }
    }
  }

  lemma {:induction false} InScopeInRange(states: seq<State>, edges: seq<Edge>, order: seq<nat>, scope: string)
    ensures forall e :: e in InScope(states, edges, order, scope) ==> e < |edges|
  {
    if |order| > 0 { InScopeInRange(states, edges, order[..|order| - 1], scope); }
  }

  lemma ScopeHasChild(states: seq<State>, e: Edge)
    ensures ScopeOf(states, e) != "" ==> HasChild(states, ScopeOf(states, e))
  {
    if ScopeOf(states, e) != "" {
      var n :| 0 <= n < |states| && states[n] == FindState(states, e.source).value;
    }
  }

  lemma LeafNeedsNothing(states: seq<State>, edges: seq<Edge>, c: nat, emitted: set<nat>, depth: string -> nat,
                         height: nat)
    requires WellShaped(states, depth, height) && c < |states| && !states[c].composite
    ensures Served(states, edges, states[c].name, emitted)
  {
    forall e | 0 <= e < |edges| ensures ScopeOf(states, edges[e]) != states[c].name {
      ScopeHasChild(states, edges[e]);
    }
  }

  lemma {:induction false} WalkInRange(states: seq<State>, p: string, k: nat, depth: string -> nat, height: nat)
    requires k <= |states| && Forest(states, depth, height)
    ensures forall i :: i in Walk(states, p, k, depth, height) ==> i < |states|
    decreases Below(height, depth(p)), |states| - k
  {
    if k < |states| {
      WalkInRange(states, p, k + 1, depth, height);
      if states[k].parent == p && states[k].composite {
        ChildIsDeeper(states, k, depth, height);
        WalkInRange(states, states[k].name, 0, depth, height);
      }
    }
  }

  lemma EachStateOnce(states: seq<State>, depth: string -> nat, height: nat)
    requires WellShaped(states, depth, height)
    ensures multiset(Walk(states, "", 0, depth, height)) == multiset(Numbers(|states|))
  {
    var w := Walk(states, "", 0, depth, height);
    WalkInRange(states, "", 0, depth, height);
    var printed: multiset<nat>, all: multiset<nat> := multiset(w), multiset(Numbers(|states|));
    forall i: nat ensures printed[i] == all[i] {
      NumbersCount(|states|, i);
      if i < |states| { WalkIsComplete(states, i, depth, height); } else { assert i !in w; }
    }
  }

  // ------------------------------------------------------ the two back ends

  /** Position of the source state; unknown sources come last. */
  function SourcePosition(states: seq<State>, edges: seq<Edge>, e: nat): nat {
    if e < |edges| then PositionOf(states, edges[e].source, |states|) else |states|
  }

  function PositionOf(states: seq<State>, name: string, k: nat): nat
    requires k <= |states|
  {
    if k == 0 then |states| else if states[k - 1].name == name then k - 1 else PositionOf(states, name, k - 1)
  }

  function BySource(states: seq<State>, edges: seq<Edge>): (nat, nat) -> bool {
    (a: nat, b: nat) => SourcePosition(states, edges, a) <= SourcePosition(states, edges, b)
  }

  /** PlantUML looks at transitions in document order, Mermaid in the order of their source states. */
  function PrintingOrder(states: seq<State>, edges: seq<Edge>, mermaid: bool): seq<nat> {
    if mermaid then Sort(Numbers(|edges|), BySource(states, edges)) else Numbers(|edges|)
  }

  lemma BothAreOrders(states: seq<State>, edges: seq<Edge>, mermaid: bool)
    ensures IsOrder(PrintingOrder(states, edges, mermaid), |edges|)
  {
    SortKeeps(Numbers(|edges|), BySource(states, edges));
  }

  /**
   * Printing a normalised model: every state and every transition appears exactly once, blocks
   * are balanced, every state stands in its parent's block, and every block lists exactly the
   * transitions that leave its direct children, in printing order.
   */
  method PrintDiagram(g: Graph, mermaid: bool, ghost depth: string -> nat, ghost height: nat) returns (out: seq<Line>)
    requires Forest(g.states, depth, height) && depth("") == 0 && ParentsDeclared(g.states) && UniqueNames(g.states)
    requires forall k :: 0 <= k < |g.states| ==> g.states[k].name != ""
    ensures multiset(StatesOf(out)) == multiset(Numbers(|g.states|))
    ensures multiset(ArrowsOf(out)) == multiset(Numbers(|g.edges|))
    ensures var n := Normalized(g);
      && Placed(n.states, g.edges, out) && Blocks(out) == []
      && forall p :: ArrowsIn(n.states, out, p) ==
                     InScope(n.states, g.edges, PrintingOrder(n.states, g.edges, mermaid), p)
  {
    var n := Normalized(g);
    NormalisationKeepsForest(g, depth, height);
    assert UniqueNames(n.states);
    BothAreOrders(n.states, n.edges, mermaid);
    var p := new Printer(n.states, n.edges, PrintingOrder(n.states, n.edges, mermaid));
    p.Print(depth, height);
    EachStateOnce(n.states, depth, height);
    out := p.out;
  }
}
