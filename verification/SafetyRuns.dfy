/** The unreachable-state warning against the runs of the generated machine. */
module SafetyRuns {
  import opened Text
  import opened Ir
  import opened Table
  import opened Traps
  import opened Safety
  import opened Runs

  // -------------------------------------------------------------------- paths

  /** One hop of the search: to a substate, the enclosing state, or a transition's target. */
  predicate Hop(states: seq<State>, edges: seq<Edge>, x: string, y: string) {
    || (exists s :: s in states && s.parent == x && s.name == y)
    || (y != "" && Enclosing(states, x) == y)
    || (y != "" && exists t :: t in edges && t.source == x && t.target == y)
  }

  predicate IsPath(states: seq<State>, edges: seq<Edge>, path: seq<string>) {
    |path| > 0 && forall i :: 0 <= i < |path| - 1 ==> Hop(states, edges, path[i], path[i + 1])
  }

  lemma {:induction false} PathStaysInside(states: seq<State>, edges: seq<Edge>, root: string, c: set<string>,
                                           path: seq<string>)
    requires Closed(states, edges, root, c) && IsPath(states, edges, path) && path[0] == root
    ensures path[|path| - 1] in c
  {
    if |path| > 1 {
      var init := path[..|path| - 1];
      assert forall i :: 0 <= i < |init| - 1 ==> Hop(states, edges, path[i], path[i + 1]);
      PathStaysInside(states, edges, root, c, init);
      assert Hop(states, edges, path[|path| - 2], path[|path| - 2 + 1]);
    }
  }

  ghost function PathEnds(states: seq<State>, edges: seq<Edge>, root: string): set<string> {
    set x | x in Universe(states, edges, root) && ReachedByPath(states, edges, root, x)
  }

  ghost predicate ReachedByPath(states: seq<State>, edges: seq<Edge>, root: string, x: string) {
    exists path :: IsPath(states, edges, path) && path[0] == root && path[|path| - 1] == x
  }

  lemma PathGoesOn(states: seq<State>, edges: seq<Edge>, root: string, x: string, y: string)
    requires ReachedByPath(states, edges, root, x) && Hop(states, edges, x, y)
    ensures ReachedByPath(states, edges, root, y)
  {
    var path :| IsPath(states, edges, path) && path[0] == root && path[|path| - 1] == x;
    var longer := path + [y];
    forall i | 0 <= i < |longer| - 1 ensures Hop(states, edges, longer[i], longer[i + 1]) {
      if i < |path| - 1 { assert Hop(states, edges, path[i], path[i + 1]); }
    }
    assert IsPath(states, edges, longer) && longer[0] == root && longer[|longer| - 1] == y;
  }

  lemma PathEndsAreClosed(states: seq<State>, edges: seq<Edge>, root: string)
    ensures Closed(states, edges, root, PathEnds(states, edges, root))
  {
    var c := PathEnds(states, edges, root);
    assert ReachedByPath(states, edges, root, root) by {
      assert IsPath(states, edges, [root]) && [root][0] == root;
    }
    forall s | s in states && s.parent in c ensures s.name in c {
      assert Hop(states, edges, s.parent, s.name);
      PathGoesOn(states, edges, root, s.parent, s.name);
    }
    forall x | x in c && Enclosing(states, x) != "" ensures Enclosing(states, x) in c {
      var s := FindState(states, x).value;
      assert s in states;
      assert Hop(states, edges, x, s.parent);
      PathGoesOn(states, edges, root, x, s.parent);
    }
    forall t | t in edges && t.source in c && t.target != "" ensures t.target in c {
      assert Hop(states, edges, t.source, t.target);
      PathGoesOn(states, edges, root, t.source, t.target);
    }
  }

  /** What lies in every closed set is exactly what a path of hops leads to. */
  lemma LeastClosedIsPaths(states: seq<State>, edges: seq<Edge>, root: string, reachable: set<string>)
    requires Closed(states, edges, root, reachable)
    requires forall c: set<string> :: Closed(states, edges, root, c) ==> reachable <= c
    ensures forall x :: x in reachable <==> ReachedByPath(states, edges, root, x)
  {
    PathEndsAreClosed(states, edges, root);
    forall x | ReachedByPath(states, edges, root, x) ensures x in reachable {
      var path :| IsPath(states, edges, path) && path[0] == root && path[|path| - 1] == x;
      PathStaysInside(states, edges, root, reachable, path);
    }
  }

  /** No hop at all leads to the root. */
  lemma PathStarts(states: seq<State>, edges: seq<Edge>, root: string)
    ensures ReachedByPath(states, edges, root, root)
  {
    assert IsPath(states, edges, [root]) && [root][0] == root;
  }

  // ---------------------------------------------------------- no false alarms

  /** Following initial substates never leads out of the tree a composite stands in. */
  ghost predicate InitialsStayInTree(states: seq<State>, r: Ranks)
    requires Ranked(states, r)
  {
    forall s :: s in states ==> Top(states, Leaf(states, s.name, r), r) == Top(states, s.name, r)
  }

  lemma {:induction false} AroundStaysInside(states: seq<State>, c: set<string>, x: string, y: string, r: Ranks)
    requires Ranked(states, r) && HierarchyClosed(states, c) && x in c && y in Around(states, x, r)
    ensures y in c
    decreases r.depth(x)
  {
    var s := FindState(states, x);
    if y != x {
      assert Enclosing(states, x) == s.value.parent && y in Around(states, s.value.parent, r);
      AroundStaysInside(states, c, s.value.parent, y, r);
    }
  }

  lemma {:induction false} TopStaysInside(states: seq<State>, c: set<string>, x: string, r: Ranks)
    requires Ranked(states, r) && HierarchyClosed(states, c) && x != ""
    ensures x in c <==> Top(states, x, r) in c
    decreases r.depth(x)
  {
    var s := FindState(states, x);
    if s.Some? && s.value.parent != "" {
      assert s.value in states && Enclosing(states, x) == s.value.parent;
      TopStaysInside(states, c, s.value.parent, r);
    }
  }

  lemma {:induction false} BelowStaysInside(states: seq<State>, c: set<string>, x: string, k: nat, y: string, r: Ranks)
    requires Ranked(states, r) && HierarchyClosed(states, c) && x in c && k <= |states|
    requires y in Down(states, x, k, r.depth, r.height)
    ensures y in c
    decreases Below(r.height, r.depth(x)), |states| - k
  {
    var s := states[k];
    if s.parent == x && y != s.name && y in Down(states, s.name, 0, r.depth, r.height) {
      BelowStaysInside(states, c, s.name, 0, y, r);
    } else if !(s.parent == x && y == s.name) {
      BelowStaysInside(states, c, x, k + 1, y, r);
    }
  }

  lemma LeafStaysInside(states: seq<State>, c: set<string>, x: string, r: Ranks)
    requires Ranked(states, r) && HierarchyClosed(states, c) && InitialsStayInTree(states, r) && x != ""
    ensures Leaf(states, x, r) != "" && (x in c <==> Leaf(states, x, r) in c)
  {
    LeafIsNamed(states, x, r);
    if FindState(states, x).Some? {
      TopStaysInside(states, c, x, r);
      TopStaysInside(states, c, Leaf(states, x, r), r);
    }
  }

  lemma {:induction false} LeafIsNamed(states: seq<State>, x: string, r: Ranks)
    requires Ranked(states, r) && x != ""
    ensures Leaf(states, x, r) != ""
    decreases r.chain(x)
  {
    var s := FindState(states, x);
    if s.Some? && s.value.composite && s.value.initialSub != "" { LeafIsNamed(states, s.value.initialSub, r); }
  }

  /** What a transition enters stands in the tree of its target, whatever history says. */
  lemma EnteredStaysInside(states: seq<State>, c: set<string>, target: string, history: map<string, string>, r: Ranks)
    requires Ranked(states, r) && HierarchyClosed(states, c) && InitialsStayInTree(states, r) && target != ""
    ensures var e := Entered(states, target, history, r); e != "" && (target in c ==> e in c)
  {
    var found := FindState(states, target);
    if found.Some? {
      var t := found.value;
      var subs := Substates(states, target, t.deepHistory, 0, Tree(r));
      LeafStaysInside(states, c, target, r);
      forall sub | sub in subs ensures sub != "" && (target in c ==> sub in c) {
        SubstateIsInside(states, target, t.deepHistory, 0, sub, r);
        BelowHasItAround(states, target, sub, r);
        if target in c { BelowStaysInside(states, c, target, 0, sub, r); }
      }
      if t.composite && t.history && |subs| > 0 {
        assert subs[0] in subs;
        LeafStaysInside(states, c, subs[0], r);
      }
    }
  }

  /** The set holds every further target of a fork that can fire from within it. */
  ghost predicate ForkClosed(m: Machine, r: Ranks, c: set<string>)
    requires Ranked(m.states, r)
  {
    forall t :: t in m.edges && !Stays(m.states, t) && t.source in c && Active(m, r, true, t.source) ==>
      forall f :: f in t.targetIds && f != "" ==> f in c
  }

  /** A closed set that also holds the further targets of its active forks holds every run. */
  lemma {:induction false} RunStaysInside(m: Machine, r: Ranks, forks: bool, c: set<string>, run: seq<Configuration>)
    requires Ranked(m.states, r) && InitialsStayInTree(m.states, r) && m.root != ""
    requires Closed(m.states, m.edges, m.root, c) && IsRun(m, r, forks, run)
    requires forks ==> ForkClosed(m, r, c)
    ensures forall h :: h in run[|run| - 1].here && h != "" ==> h in c
  {
    hide Entered, Around, Remember, Active;
    if |run| == 1 {
      LeafStaysInside(m.states, c, m.root, r);
    } else {
      var init, next := run[..|run| - 1], run[|run| - 1];
      Shorter(m, r, forks, run);
      RunStaysInside(m, r, forks, c, init);
      var before := run[|run| - 2];
      var t, from :| Fires(m, r, forks, t, from, before, next);
      assert before == init[|init| - 1];
      assert t.source in c && Active(m, r, forks, t.source) by {
        SourceIsActive(m, r, forks, init, t, from);
        AroundStaysNamed(m.states, c, from, t.source, r);
      }
      if !Stays(m.states, t) {
        forall h | h in next.here && h != "" ensures h in c {
          if h !in before.here {
            var f :| f in Targets(t, forks) && h == Entered(m.states, f, before.history, r);
            if f == "" { NowhereIsNowhere(m.states, before.history, r); }
            EnteredStaysInside(m.states, c, f, before.history, r);
          }
        }
      }
    }
  }

  lemma NowhereIsNowhere(states: seq<State>, history: map<string, string>, r: Ranks)
    requires Ranked(states, r)
    ensures Entered(states, "", history, r) == ""
  {
  }

  lemma AroundStaysNamed(states: seq<State>, c: set<string>, x: string, y: string, r: Ranks)
    requires Ranked(states, r) && HierarchyClosed(states, c) && (x != "" ==> x in c) && y in Around(states, x, r)
    ensures y in c
  {
    AroundStaysInside(states, c, x, y, r);
  }

  lemma SourceIsActive(m: Machine, r: Ranks, forks: bool, run: seq<Configuration>, t: Edge, from: string)
    requires Ranked(m.states, r) && IsRun(m, r, forks, run)
    requires from in run[|run| - 1].here && t.source in Around(m.states, from, r)
    ensures Active(m, r, forks, t.source)
  {
    assert ActiveAfter(m, r, run, t.source);
  }

  /** Each name active in a run is found, if initial substates stay in the tree of their composite. */
  lemma ActiveIsFound(m: Machine, r: Ranks, x: string)
    requires Ranked(m.states, r) && InitialsStayInTree(m.states, r) && m.root != "" && Active(m, r, false, x)
    ensures ReachedByPath(m.states, m.edges, m.root, x)
  {
    PathEndsAreClosed(m.states, m.edges, m.root);
    var c := PathEnds(m.states, m.edges, m.root);
    var run: seq<Configuration> :| IsRun(m, r, false, run) && ActiveAfter(m, r, run, x);
    RunStaysInside(m, r, false, c, run);
    var h :| h in run[|run| - 1].here && x in Around(m.states, h, r);
    AroundStaysNamed(m.states, c, h, x, r);
  }

  lemma QuietMachine(states: seq<State>, root: string, r: Ranks, x: string)
    requires Ranked(states, r)
    ensures Active(Machine(states, [], root), r, false, x) <==> x in Around(states, Leaf(states, root, r), r)
  {
    hide Around, Leaf;
    var m, leaf := Machine(states, [], root), Leaf(states, root, r);
    var start := Configuration({leaf}, map[]);
    if x in Around(states, leaf, r) { assert IsRun(m, r, false, [start]) && ActiveAfter(m, r, [start], x); }
    if Active(m, r, false, x) {
      var run: seq<Configuration> :| IsRun(m, r, false, run) && ActiveAfter(m, r, run, x);
      if |run| > 1 { Shorter(m, r, false, run); }
    }
  }

  /** Without transitions the search stays in the tree of the root. */
  lemma {:induction false} QuietPath(states: seq<State>, path: seq<string>, r: Ranks)
    requires Ranked(states, r) && IsPath(states, [], path) && path[0] != ""
    ensures Top(states, path[|path| - 1], r) == Top(states, path[0], r) && path[|path| - 1] != ""
  {
    if |path| > 1 {
      var init := path[..|path| - 1];
      assert forall i :: 0 <= i < |init| - 1 ==> Hop(states, [], path[i], path[i + 1]);
      QuietPath(states, init, r);
      var x, y := path[|path| - 2], path[|path| - 2 + 1];
      assert Hop(states, [], x, y);
      if Enclosing(states, x) != y {
        var s :| s in states && s.parent == x && s.name == y;
        ChildHasTop(states, s, r);
      }
    }
  }

  /**
   * The search finds every state that becomes active, whatever the transitions and the root,
   * exactly when initial substates stay in the tree of their composite.
   */
  lemma NoFalseAlarmExactly(states: seq<State>, r: Ranks)
    requires Ranked(states, r)
    ensures (forall edges, root, x :: root != "" && Active(Machine(states, edges, root), r, false, x) ==>
               ReachedByPath(states, edges, root, x))
      <==> InitialsStayInTree(states, r)
  {
    hide Active, ReachedByPath;
    if InitialsStayInTree(states, r) {
      forall edges, root, x | root != "" && Active(Machine(states, edges, root), r, false, x)
        ensures ReachedByPath(states, edges, root, x)
      {
        ActiveIsFound(Machine(states, edges, root), r, x);
      }
    } else {
      var s :| s in states && Top(states, Leaf(states, s.name, r), r) != Top(states, s.name, r);
      var leaf := Leaf(states, s.name, r);
      LeafIsNamed(states, s.name, r);
      QuietMachine(states, s.name, r, leaf);
      LeafIsNotFound(states, s.name, leaf, r);
    }
  }

  lemma LeafIsNotFound(states: seq<State>, root: string, x: string, r: Ranks)
    requires Ranked(states, r) && root != "" && Top(states, x, r) != Top(states, root, r)
    ensures !ReachedByPath(states, [], root, x)
  {
    if ReachedByPath(states, [], root, x) {
      var path :| IsPath(states, [], path) && path[0] == root && path[|path| - 1] == x;
      QuietPath(states, path, r);
    }
  }

  /** Where the initial leaf of a composite lies below it, it lies in its tree. */
  lemma BelowIsEnough(states: seq<State>, r: Ranks)
    requires Ranked(states, r)
    requires forall s :: s in states && Leaf(states, s.name, r) != s.name ==>
      Leaf(states, s.name, r) in Down(states, s.name, 0, r.depth, r.height)
    ensures InitialsStayInTree(states, r)
  {
    forall s | s in states ensures Top(states, Leaf(states, s.name, r), r) == Top(states, s.name, r) {
      var leaf := Leaf(states, s.name, r);
      if leaf != s.name {
        BelowHasItAround(states, s.name, leaf, r);
        AroundIsOneTree(states, leaf, s.name, r);
      }
    }
  }
}
