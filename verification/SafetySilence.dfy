/** When the unreachable-state warning may be trusted for its silence. */
module SafetySilence {
  import opened Text
  import opened Ir
  import opened Table
  import opened Traps
  import opened Safety
  import opened Runs
  import opened SafetyRuns

  /**
   * Entering a state, or the one around it, comes to one initial leaf, at or below the state:
   * every tree is a single chain that is entered as a whole.
   */
  ghost predicate EnteredAsAWhole(states: seq<State>, r: Ranks)
    requires Ranked(states, r)
  {
    forall s :: s in states ==>
      && s.name in Around(states, Leaf(states, s.name, r), r)
      && (s.parent != "" ==> Leaf(states, s.parent, r) == Leaf(states, s.name, r))
  }

  /** Each transition has a target; an internal one leads back to its source. */
  predicate Targeted(edges: seq<Edge>) {
    forall t :: t in edges ==> t.target != "" && (t.kind == Internal ==> t.target == t.source)
  }

  lemma WholeCoversName(states: seq<State>, x: string, r: Ranks)
    requires Ranked(states, r) && EnteredAsAWhole(states, r) && x != ""
    ensures x in Around(states, Leaf(states, x, r), r)
  {
    var s := FindState(states, x);
    if s.Some? { assert s.value in states; }
  }

  lemma {:induction false} WholeLeaf(states: seq<State>, x: string, y: string, r: Ranks)
    requires Ranked(states, r) && EnteredAsAWhole(states, r) && y in Around(states, x, r)
    ensures Leaf(states, y, r) == Leaf(states, x, r)
    decreases r.depth(x)
  {
    hide Leaf;
    var s := FindState(states, x);
    if y != x {
      assert s.value in states && y in Around(states, s.value.parent, r);
      WholeLeaf(states, s.value.parent, y, r);
    }
  }

  lemma LeafOfLeaf(states: seq<State>, x: string, r: Ranks)
    requires Ranked(states, r) && EnteredAsAWhole(states, r) && x != ""
    ensures Leaf(states, Leaf(states, x, r), r) == Leaf(states, x, r)
  {
    WholeCoversName(states, x, r);
    WholeLeaf(states, Leaf(states, x, r), x, r);
  }

  /** What is entered is the leaf of the target, or a substate that history has recorded. */
  lemma LeafOfEntered(states: seq<State>, target: string, history: map<string, string>, r: Ranks)
    requires Ranked(states, r) && EnteredAsAWhole(states, r) && target != ""
    ensures var e := Entered(states, target, history, r);
      && e != "" && Leaf(states, e, r) == Leaf(states, target, r)
      && (e == Leaf(states, target, r) || target in history)
  {
    LeafOfLeaf(states, target, r);
    LeafIsNamed(states, target, r);
    var found := FindState(states, target);
    if found.Some? {
      var t := found.value;
      var subs := Substates(states, target, t.deepHistory, 0, Tree(r));
      forall sub | sub in subs ensures sub != "" && Leaf(states, sub, r) == Leaf(states, target, r) {
        SubstateIsInside(states, target, t.deepHistory, 0, sub, r);
        BelowHasItAround(states, target, sub, r);
        WholeLeaf(states, sub, target, r);
      }
      if |subs| > 0 { assert subs[0] in subs; }
    }
  }

  lemma {:induction false} RememberedAreAround(states: seq<State>, history: map<string, string>, name: string,
                                               p: string, r: Ranks)
    requires Ranked(states, r) && p in Remember(states, history, name, r)
    ensures p in history || p in Around(states, name, r)
    decreases r.depth(name)
  {
    var s := FindState(states, name);
    if s.Some? && s.value.parent != "" {
      RememberedAreAround(states, history[s.value.parent := name], s.value.parent, p, r);
      NameIsAround(states, s.value.parent, r);
      assert Around(states, name, r) == {name} + Around(states, s.value.parent, r);
    }
  }

  /** Some run ends in that state. */
  ghost predicate Visits(m: Machine, r: Ranks, x: string)
    requires Ranked(m.states, r)
  {
    exists run: seq<Configuration> :: IsRun(m, r, false, run) && run[|run| - 1].here == {x}
  }

  /** Whatever is active or recorded, the leaf of its tree has been entered before. */
  lemma {:induction false} LeavesAreVisited(m: Machine, r: Ranks, run: seq<Configuration>)
    requires Ranked(m.states, r) && EnteredAsAWhole(m.states, r) && m.root != "" && Targeted(m.edges)
    requires IsRun(m, r, false, run)
    ensures forall h, x :: h in run[|run| - 1].here && x in Around(m.states, h, r) ==>
      Visits(m, r, Leaf(m.states, x, r))
    ensures forall p :: p in run[|run| - 1].history ==> Visits(m, r, Leaf(m.states, p, r))
    ensures exists h :: h != "" && run[|run| - 1].here == {h}
  {
    hide Leaf, Around, Entered, Remember;
    var last := run[|run| - 1];
    if |run| == 1 {
      var leaf := Leaf(m.states, m.root, r);
      LeafOfLeaf(m.states, m.root, r);
      LeafIsNamed(m.states, m.root, r);
      assert Visits(m, r, leaf);
      forall x | x in Around(m.states, leaf, r) ensures Visits(m, r, Leaf(m.states, x, r)) {
        WholeLeaf(m.states, leaf, x, r);
      }
    } else {
      var init := run[..|run| - 1];
      Shorter(m, r, false, run);
      LeavesAreVisited(m, r, init);
      var before := run[|run| - 2];
      assert before == init[|init| - 1];
      var t, from :| Fires(m, r, false, t, from, before, last);
      StepVisits(m, r, run, t, from);
    }
  }

  lemma StepVisits(m: Machine, r: Ranks, run: seq<Configuration>, t: Edge, from: string)
    requires Ranked(m.states, r) && EnteredAsAWhole(m.states, r) && Targeted(m.edges)
    requires |run| > 1 && IsRun(m, r, false, run) && Fires(m, r, false, t, from, run[|run| - 2], run[|run| - 1])
    requires forall x :: x in Around(m.states, from, r) ==> Visits(m, r, Leaf(m.states, x, r))
    requires forall p :: p in run[|run| - 2].history ==> Visits(m, r, Leaf(m.states, p, r))
    requires exists h :: h != "" && run[|run| - 2].here == {h}
    ensures forall h, x :: h in run[|run| - 1].here && x in Around(m.states, h, r) ==>
      Visits(m, r, Leaf(m.states, x, r))
    ensures forall p :: p in run[|run| - 1].history ==> Visits(m, r, Leaf(m.states, p, r))
    ensures exists h :: h != "" && run[|run| - 1].here == {h}
  {
    hide Leaf, Around, Entered, Remember;
    var before, last := run[|run| - 2], run[|run| - 1];
    if Stays(m.states, t) { return; }
    var e := Entered(m.states, t.target, before.history, r);
    assert before.here == {from};
    assert Targets(t, false) == {t.target};
    assert (set f | f in {t.target} :: Entered(m.states, f, before.history, r)) == {e};
    assert last.here == {e};
    LeafOfEntered(m.states, t.target, before.history, r);
    var leaf := Leaf(m.states, t.target, r);
    assert Visits(m, r, leaf);
    forall x | x in Around(m.states, e, r) ensures Visits(m, r, Leaf(m.states, x, r)) {
      WholeLeaf(m.states, e, x, r);
    }
    forall p | p in last.history ensures Visits(m, r, Leaf(m.states, p, r)) {
      RememberedAreAround(m.states, before.history, from, p, r);
    }
  }

  /** Along a path of hops the leaf of every tree it comes to is entered in some run. */
  lemma {:induction false} PathIsVisited(m: Machine, r: Ranks, path: seq<string>)
    requires Ranked(m.states, r) && EnteredAsAWhole(m.states, r) && m.root != "" && Targeted(m.edges)
    requires IsPath(m.states, m.edges, path) && path[0] == m.root
    ensures path[|path| - 1] != "" && Visits(m, r, Leaf(m.states, path[|path| - 1], r))
  {
    hide Leaf, Around, Entered, Remember;
    if |path| == 1 {
      var start := Configuration({Leaf(m.states, m.root, r)}, map[]);
      assert IsRun(m, r, false, [start]);
    } else {
      var init := path[..|path| - 1];
      assert forall i :: 0 <= i < |init| - 1 ==> Hop(m.states, m.edges, path[i], path[i + 1]);
      PathIsVisited(m, r, init);
      hide Visits;
      var x, y := path[|path| - 2], path[|path| - 2 + 1];
      assert Hop(m.states, m.edges, x, y);
      HopIsVisited(m, r, x, y);
    }
  }

  lemma HopIsVisited(m: Machine, r: Ranks, x: string, y: string)
    requires Ranked(m.states, r) && EnteredAsAWhole(m.states, r) && m.root != "" && Targeted(m.edges)
    requires Hop(m.states, m.edges, x, y) && x != "" && Visits(m, r, Leaf(m.states, x, r))
    ensures y != "" && Visits(m, r, Leaf(m.states, y, r))
  {
    hide Leaf, Around, Entered, Remember, Visits;
    if t :| t in m.edges && t.source == x && t.target == y {
      if t.kind != Internal { EdgeIsVisited(m, r, t); }
    } else if s :| s in m.states && s.parent == x && s.name == y {
      assert Leaf(m.states, s.parent, r) == Leaf(m.states, s.name, r);
    } else {
      var s := FindState(m.states, x).value;
      assert s in m.states && s.parent == y && s.name == x;
    }
  }

  lemma EdgeIsVisited(m: Machine, r: Ranks, t: Edge)
    requires Ranked(m.states, r) && EnteredAsAWhole(m.states, r) && m.root != "" && Targeted(m.edges)
    requires t in m.edges && t.kind != Internal && t.source != "" && Visits(m, r, Leaf(m.states, t.source, r))
    ensures Visits(m, r, Leaf(m.states, t.target, r))
  {
    hide Leaf, Around, Entered, Remember;
    var from := Leaf(m.states, t.source, r);
    var run: seq<Configuration> :| IsRun(m, r, false, run) && run[|run| - 1].here == {from};
    var before := run[|run| - 1];
    WholeCoversName(m.states, t.source, r);
    var e := Entered(m.states, t.target, before.history, r);
    var next := Configuration({e}, Remember(m.states, before.history, from, r));
    assert Targets(t, false) == {t.target};
    assert (set f | f in {t.target} :: Entered(m.states, f, before.history, r)) == {e};
    assert Fires(m, r, false, t, from, before, next);
    Longer(m, r, false, run, next);
    LeavesAreVisited(m, r, run + [next]);
    LeafOfEntered(m.states, t.target, before.history, r);
    NameIsAround(m.states, e, r);
    assert e in (run + [next])[|run + [next]| - 1].here;
  }

  // -------------------------------------------------------------- the other way

  lemma {:induction false} DownIsFound(states: seq<State>, x: string, y: string, r: Ranks)
    requires Ranked(states, r) && y in Around(states, x, r)
    ensures ReachedByPath(states, [], y, x)
    decreases r.depth(x)
  {
    if y == x {
      PathStarts(states, [], y);
    } else {
      var s := FindState(states, x).value;
      assert s in states && y in Around(states, s.parent, r);
      DownIsFound(states, s.parent, y, r);
      PathGoesOn(states, [], y, s.parent, x);
    }
  }

  lemma {:induction false} AroundIsAnOrder(states: seq<State>, x: string, y: string, r: Ranks)
    requires Ranked(states, r) && x in Around(states, y, r)
    ensures r.depth(x) <= r.depth(y) && (y in Around(states, x, r) ==> x == y)
    decreases r.depth(y)
  {
    if x != y {
      var s := FindState(states, y).value;
      assert s in states && x in Around(states, s.parent, r);
      AroundIsAnOrder(states, x, s.parent, r);
      if y in Around(states, x, r) { DepthFalls(states, x, y, r); }
    }
  }

  lemma {:induction false} DepthFalls(states: seq<State>, x: string, y: string, r: Ranks)
    requires Ranked(states, r) && y in Around(states, x, r)
    ensures r.depth(y) <= r.depth(x)
    decreases r.depth(x)
  {
    if x != y {
      var s := FindState(states, x).value;
      assert s in states && y in Around(states, s.parent, r);
      DepthFalls(states, s.parent, y, r);
    }
  }

  ghost predicate Trusted(states: seq<State>, r: Ranks, edges: seq<Edge>, root: string, x: string)
    requires Ranked(states, r)
  {
    ReachedByPath(states, edges, root, x) ==> Active(Machine(states, edges, root), r, false, x)
  }

  lemma TrustedIsWhole(states: seq<State>, r: Ranks, s: State)
    requires Ranked(states, r) && s in states
    requires forall root, x :: root != "" ==> Trusted(states, r, [], root, x)
    ensures s.name in Around(states, Leaf(states, s.name, r), r)
    ensures s.parent != "" ==> Leaf(states, s.parent, r) == Leaf(states, s.name, r)
  {
    hide Active, ReachedByPath, Leaf, Around;
    var p, l := s.parent, Leaf(states, s.name, r);
    PathStarts(states, [], s.name);
    assert Trusted(states, r, [], s.name, s.name);
    QuietMachine(states, s.name, r, s.name);
    if p != "" {
      var k := Leaf(states, p, r);
      PathStarts(states, [], p);
      PathGoesOn(states, [], p, p, s.name);
      assert Trusted(states, r, [], p, s.name);
      QuietMachine(states, p, r, s.name);
      DownIsFound(states, k, s.name, r);
      assert Trusted(states, r, [], s.name, k);
      QuietMachine(states, s.name, r, k);
      ParentIsAround(states, s, l, r);
      DownIsFound(states, l, p, r);
      assert Trusted(states, r, [], p, l);
      QuietMachine(states, p, r, l);
      AroundIsAnOrder(states, k, l, r);
    }
  }

  lemma ParentIsAround(states: seq<State>, s: State, x: string, r: Ranks)
    requires Ranked(states, r) && s in states && s.parent != "" && s.name in Around(states, x, r)
    ensures s.parent in Around(states, x, r)
  {
    ChildHasTop(states, s, r);
    NameIsAround(states, s.parent, r);
    UpIsTransitive(states, x, s.name, r.depth, r.height);
  }

  /**
   * Every state the search finds becomes active in some run, whatever the root and the
   * transitions, exactly when each tree of states is entered as a whole.
   */
  lemma SilenceIsRightExactly(states: seq<State>, r: Ranks)
    requires Ranked(states, r)
    ensures (forall edges, root, x :: root != "" && Targeted(edges) ==> Trusted(states, r, edges, root, x))
      <==> EnteredAsAWhole(states, r)
  {
    hide Active, Leaf, Around;
    if EnteredAsAWhole(states, r) {
      forall edges, root, x | root != "" && Targeted(edges) ensures Trusted(states, r, edges, root, x) {
        if ReachedByPath(states, edges, root, x) { FoundIsActive(Machine(states, edges, root), r, x); }
      }
    }
    if forall edges, root, x :: root != "" && Targeted(edges) ==> Trusted(states, r, edges, root, x) {
      assert Targeted([]);
      forall s | s in states
        ensures s.name in Around(states, Leaf(states, s.name, r), r)
        ensures s.parent != "" ==> Leaf(states, s.parent, r) == Leaf(states, s.name, r)
      {
        TrustedIsWhole(states, r, s);
      }
    }
  }

  lemma FoundIsActive(m: Machine, r: Ranks, x: string)
    requires Ranked(m.states, r) && EnteredAsAWhole(m.states, r) && m.root != "" && Targeted(m.edges)
    requires ReachedByPath(m.states, m.edges, m.root, x)
    ensures Active(m, r, false, x)
  {
    hide Leaf, Around;
    var path :| IsPath(m.states, m.edges, path) && path[0] == m.root && path[|path| - 1] == x;
    PathIsVisited(m, r, path);
    var leaf := Leaf(m.states, x, r);
    var run: seq<Configuration> :| IsRun(m, r, false, run) && run[|run| - 1].here == {leaf};
    WholeCoversName(m.states, x, r);
    assert leaf in run[|run| - 1].here && ActiveAfter(m, r, run, x);
  }

  /** Trees entered as a whole are left by no initial substate, so there the report is exact. */
  lemma WholeStaysInTree(states: seq<State>, r: Ranks)
    requires Ranked(states, r) && EnteredAsAWhole(states, r)
    ensures InitialsStayInTree(states, r)
  {
    forall s | s in states ensures Top(states, Leaf(states, s.name, r), r) == Top(states, s.name, r) {
      AroundIsOneTree(states, Leaf(states, s.name, r), s.name, r);
    }
  }
}
