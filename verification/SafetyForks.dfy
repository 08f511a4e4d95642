/** Forks: the search follows the main target of a transition, a fork enters all of its targets. */
module SafetyForks {
  import opened Text
  import opened Ir
  import opened Table
  import opened Traps
  import opened Safety
  import opened Runs
  import opened SafetyRuns
  import opened SafetySilence
  import opened SafetyReport

  /** No run in which forks enter all their targets makes a state active that is not found. */
  ghost predicate ForksAreFound(m: Machine, r: Ranks)
    requires Ranked(m.states, r)
  {
    forall x :: Active(m, r, true, x) ==> ReachedByPath(m.states, m.edges, m.root, x)
  }

  ghost predicate TargetsFound(m: Machine, t: Edge) {
    forall f :: f in t.targetIds && f != "" ==> ReachedByPath(m.states, m.edges, m.root, f)
  }

  /** Each further target of a fork is found, if a path of hops leads to the source of the fork. */
  ghost predicate CoveredOnPaths(m: Machine) {
    forall t :: t in m.edges && ReachedByPath(m.states, m.edges, m.root, t.source) && !Stays(m.states, t) ==>
      TargetsFound(m, t)
  }

  /** Each further target of a fork is found, if the source of the fork becomes active. */
  ghost predicate CoveredWhenActive(m: Machine, r: Ranks)
    requires Ranked(m.states, r)
  {
    forall t :: t in m.edges && Active(m, r, true, t.source) && !Stays(m.states, t) ==> TargetsFound(m, t)
  }

  lemma CoveredIsFound(m: Machine, r: Ranks)
    requires Ranked(m.states, r) && InitialsStayInTree(m.states, r) && m.root != ""
    requires CoveredOnPaths(m) || CoveredWhenActive(m, r)
    ensures ForksAreFound(m, r)
  {
    hide Active, IsRun, ReachedByPath, Ranked, InitialsStayInTree, Around;
    PathEndsAreClosed(m.states, m.edges, m.root);
    var c := PathEnds(m.states, m.edges, m.root);
    forall x | ReachedByPath(m.states, m.edges, m.root, x) ensures x in c { FoundIsPathEnd(m, x); }
    assert ForkClosed(m, r, c);
    forall x | Active(m, r, true, x) ensures ReachedByPath(m.states, m.edges, m.root, x) {
      ForkActiveIsFound(m, r, c, x);
    }
  }

  lemma FoundIsPathEnd(m: Machine, x: string)
    requires ReachedByPath(m.states, m.edges, m.root, x)
    ensures x in PathEnds(m.states, m.edges, m.root)
  {
    PathEndsAreClosed(m.states, m.edges, m.root);
    var path :| IsPath(m.states, m.edges, path) && path[0] == m.root && path[|path| - 1] == x;
    PathStaysInside(m.states, m.edges, m.root, PathEnds(m.states, m.edges, m.root), path);
  }

  lemma ForkActiveIsFound(m: Machine, r: Ranks, c: set<string>, x: string)
    requires Ranked(m.states, r) && InitialsStayInTree(m.states, r) && m.root != ""
    requires Closed(m.states, m.edges, m.root, c) && ForkClosed(m, r, c) && Active(m, r, true, x)
    ensures x in c
  {
    hide ForkClosed;
    var run: seq<Configuration> :| IsRun(m, r, true, run) && ActiveAfter(m, r, run, x);
    RunStaysInside(m, r, true, c, run);
    var h :| h in run[|run| - 1].here && x in Around(m.states, h, r);
    AroundStaysNamed(m.states, c, h, x, r);
  }

  /** A further target of a fork that can fire is entered in some run. */
  lemma FurtherTargetIsEntered(m: Machine, r: Ranks, t: Edge, f: string)
    requires Ranked(m.states, r) && InitialsStayInTree(m.states, r) && m.root != "" && ForksAreFound(m, r)
    requires t in m.edges && !Stays(m.states, t) && Active(m, r, true, t.source) && f in t.targetIds && f != ""
    ensures ReachedByPath(m.states, m.edges, m.root, f)
  {
    hide Entered, Around, Remember, ReachedByPath;
    var run: seq<Configuration> :| IsRun(m, r, true, run) && ActiveAfter(m, r, run, t.source);
    var before := run[|run| - 1];
    var from :| from in before.here && t.source in Around(m.states, from, r);
    var e := Entered(m.states, f, before.history, r);
    var next := Configuration(
      before.here - {from} + (set g | g in Targets(t, true) :: Entered(m.states, g, before.history, r)),
      Remember(m.states, before.history, from, r));
    assert f in Targets(t, true);
    assert Fires(m, r, true, t, from, before, next);
    Longer(m, r, true, run, next);
    var longer := run + [next];
    var c := PathEnds(m.states, m.edges, m.root);
    PathEndsAreClosed(m.states, m.edges, m.root);
    EnteredHasTop(m.states, c, f, before.history, r);
    NameIsAround(m.states, e, r);
    assert e in longer[|longer| - 1].here && ActiveAfter(m, r, longer, e);
    FoundIsPathEnd(m, e);
  }

  /** What is entered stands in the tree of its target, so a closed set has both or neither. */
  lemma EnteredHasTop(states: seq<State>, c: set<string>, target: string, history: map<string, string>, r: Ranks)
    requires Ranked(states, r) && HierarchyClosed(states, c) && InitialsStayInTree(states, r) && target != ""
    ensures var e := Entered(states, target, history, r); e != "" && (target in c <==> e in c)
  {
    var found := FindState(states, target);
    EnteredStaysInside(states, c, target, history, r);
    if found.Some? {
      var t := found.value;
      var subs := Substates(states, target, t.deepHistory, 0, Tree(r));
      LeafStaysInside(states, c, target, r);
      forall sub | sub in subs ensures sub != "" && (target in c <==> sub in c) {
        SubstateIsInside(states, target, t.deepHistory, 0, sub, r);
        BelowHasItAround(states, target, sub, r);
        if target in c { BelowStaysInside(states, c, target, 0, sub, r); }
        if sub in c { AroundStaysInside(states, c, sub, target, r); }
      }
      if t.composite && t.history && |subs| > 0 {
        assert subs[0] in subs;
        LeafStaysInside(states, c, subs[0], r);
      }
    }
  }

  /** A run without forks is followed by one with them, as one of the states it is in. */
  lemma {:induction false} ForkRunFollows(m: Machine, r: Ranks, run: seq<Configuration>)
    returns (wide: seq<Configuration>)
    requires Ranked(m.states, r) && IsRun(m, r, false, run)
    ensures IsRun(m, r, true, wide) && run[|run| - 1].here <= wide[|wide| - 1].here
    ensures run[|run| - 1].history == wide[|wide| - 1].history && |run[|run| - 1].here| == 1
  {
    hide Entered, Around, Remember, Ranked, Step;
    if |run| == 1 {
      wide := run;
    } else {
      var init := run[..|run| - 1];
      Shorter(m, r, false, run);
      wide := ForkRunFollows(m, r, init);
      var before, next, broad := run[|run| - 2], run[|run| - 1], wide[|wide| - 1];
      var t, from := StepFires(m, r, before, next);
      assert before == init[|init| - 1] && from in broad.here;
      if !Stays(m.states, t) {
        var last := FollowOnce(m, r, t, from, before, next, broad);
        Longer(m, r, true, wide, last);
        wide := wide + [last];
      }
    }
  }

  lemma StepFires(m: Machine, r: Ranks, before: Configuration, next: Configuration) returns (t: Edge, from: string)
    requires Ranked(m.states, r) && Step(m, r, false, before, next)
    ensures Fires(m, r, false, t, from, before, next)
  {
    t, from :| Fires(m, r, false, t, from, before, next);
  }

  lemma FollowOnce(m: Machine, r: Ranks, t: Edge, from: string, before: Configuration, next: Configuration,
                   broad: Configuration) returns (last: Configuration)
    requires Ranked(m.states, r) && Fires(m, r, false, t, from, before, next) && !Stays(m.states, t)
    requires |before.here| == 1 && before.here <= broad.here && before.history == broad.history
    ensures Step(m, r, true, broad, last)
    ensures next.here <= last.here && next.history == last.history && |next.here| == 1
  {
    hide Entered, Around, Remember, Ranked;
    var e := Entered(m.states, t.target, before.history, r);
    OneLeft(before.here, from);
    assert (set f | f in {t.target} :: Entered(m.states, f, before.history, r)) == {e};
    assert next.here == {e};
    last := Configuration(
      broad.here - {from} + (set f | f in Targets(t, true) :: Entered(m.states, f, broad.history, r)),
      Remember(m.states, broad.history, from, r));
    assert t.target in Targets(t, true);
    assert Fires(m, r, true, t, from, broad, last);
  }

  lemma OneLeft(s: set<string>, x: string)
    requires |s| == 1 && x in s
    ensures s - {x} == {}
  {
    assert |s - {x}| == 0;
  }

  lemma ActiveWithForks(m: Machine, r: Ranks, x: string)
    requires Ranked(m.states, r) && Active(m, r, false, x)
    ensures Active(m, r, true, x)
  {
    var run: seq<Configuration> :| IsRun(m, r, false, run) && ActiveAfter(m, r, run, x);
    var wide := ForkRunFollows(m, r, run);
    var h :| h in run[|run| - 1].here && x in Around(m.states, h, r);
    assert h in wide[|wide| - 1].here && ActiveAfter(m, r, wide, x);
  }

  /**
   * With forks the search stays safe exactly when the further targets of forks that become active
   * are found; where trees are entered as a whole, exactly when those of forks on paths are.
   */
  lemma ForksAreCoveredExactly(m: Machine, r: Ranks)
    requires Ranked(m.states, r) && InitialsStayInTree(m.states, r) && m.root != ""
    ensures CoveredOnPaths(m) ==> ForksAreFound(m, r)
    ensures ForksAreFound(m, r) <==> CoveredWhenActive(m, r)
    ensures EnteredAsAWhole(m.states, r) && Targeted(m.edges) ==> (ForksAreFound(m, r) <==> CoveredOnPaths(m))
  {
    hide Active, ReachedByPath, EnteredAsAWhole, InitialsStayInTree;
    if CoveredOnPaths(m) || CoveredWhenActive(m, r) { CoveredIsFound(m, r); }
    if ForksAreFound(m, r) {
      forall t, f | t in m.edges && Active(m, r, true, t.source) && !Stays(m.states, t) && f in t.targetIds && f != ""
        ensures ReachedByPath(m.states, m.edges, m.root, f)
      {
        FurtherTargetIsEntered(m, r, t, f);
      }
      assert CoveredWhenActive(m, r);
      if EnteredAsAWhole(m.states, r) && Targeted(m.edges) {
        forall t | t in m.edges && ReachedByPath(m.states, m.edges, m.root, t.source)
          ensures Active(m, r, true, t.source)
        {
          FoundIsActive(m, r, t.source);
          ActiveWithForks(m, r, t.source);
        }
      }
    }
  }

  // -------------------------------------------------------------- failing input

  function Flat(): seq<State> { [Declared("Start", "", ""), Declared("a", "", ""), Declared("b", "", "")] }

  function ForkArrow(): Edge { Arrow("Start", "a").(targetIds := ["a", "b"]) }

  ghost function FlatRanks(): Ranks { Ranks((s: string) => if s == "" then 0 else 1, 1, (s: string) => 0) }

  lemma FlatIsRanked()
    ensures Ranked(Flat(), FlatRanks()) && Leaf(Flat(), "Start", FlatRanks()) == "Start"
    ensures Entered(Flat(), "b", map[], FlatRanks()) == "b"
    ensures "Start" in Around(Flat(), "Start", FlatRanks()) && "b" in Around(Flat(), "b", FlatRanks())
    ensures !Stays(Flat(), ForkArrow()) && ForkArrow().source == "Start" && Reportable(Flat(), [], Flat()[2])
  {
    ThreeStates(Flat(), Flat()[0], Flat()[1], Flat()[2]);
    assert Flat()[0] in Flat() && Flat()[2] in Flat();
  }

  lemma BIsNotFound()
    ensures !ReachedByPath(Flat(), [ForkArrow()], "Start", "b")
  {
    var c := {"Start", "a"};
    ThreeStates(Flat(), Flat()[0], Flat()[1], Flat()[2]);
    assert Closed(Flat(), [ForkArrow()], "Start", c) by {
      assert FindState(Flat(), "Start") == Some(Flat()[0]) && FindState(Flat(), "a") == Some(Flat()[1]);
    }
    if ReachedByPath(Flat(), [ForkArrow()], "Start", "b") {
      var path :| IsPath(Flat(), [ForkArrow()], path) && path[0] == "Start" && path[|path| - 1] == "b";
      PathStaysInside(Flat(), [ForkArrow()], "Start", c, path);
    }
  }

  /** A fork from `Start` into `a` and `b`: every run that fires it enters `b`, and `b` is reported. */
  lemma ForkTargetIsReported()
    ensures Flat()[2].name == "b" && Reportable(Flat(), [], Flat()[2])
    ensures !ReachedByPath(Flat(), [ForkArrow()], "Start", "b")
    ensures exists r :: Ranked(Flat(), r) && Active(Machine(Flat(), [ForkArrow()], "Start"), r, true, "b")
  {
    hide Entered, Leaf, Around, Remember, ReachedByPath, Ranked, FlatRanks, Reportable;
    BIsNotFound();
    FlatIsRanked();
    var m, r := Machine(Flat(), [ForkArrow()], "Start"), FlatRanks();
    var before := Configuration({"Start"}, map[]);
    var next := Configuration(
      before.here - {"Start"} + (set f | f in Targets(ForkArrow(), true) :: Entered(Flat(), f, map[], r)),
      Remember(Flat(), map[], "Start", r));
    assert ForkArrow().targetIds[1] == "b" && "b" in Targets(ForkArrow(), true);
    assert ForkArrow() in m.edges;
    assert Fires(m, r, true, ForkArrow(), "Start", before, next);
    var run := [before, next];
    assert IsRun(m, r, true, run);
    assert "b" in run[|run| - 1].here && ActiveAfter(m, r, run, "b");
  }
}
