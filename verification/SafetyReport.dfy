/** The unreachable-state warning: what it reports, and where it is wrong in both directions. */
module SafetyReport {
  import opened Text
  import opened Ir
  import opened Table
  import opened Traps
  import opened Safety
  import opened Runs
  import opened SafetyRuns
  import opened SafetySilence
  import GraphSpec
  import GraphProps

  /** Final states and choices are never reported. */
  predicate Reportable(states: seq<State>, choices: seq<string>, s: State) {
    s.kind != Final && !IsChoice(states, choices, s.name)
  }

  /** The root of the search: the initial state, or else the first declared one. */
  function Root(states: seq<State>, initialId: string, initial: string): string {
    var given := if initialId == "" then initial else initialId;
    if given == "" && |states| > 0 then states[0].name else given
  }

  /**
   * Positions reported with W0201: the reportable states no path of hops leads to. None of them
   * is ever active when initial substates stay in the tree of their composite; they are exactly
   * the states never active when each tree is entered as a whole.
   */
  method ReportUnreachable(states: seq<State>, edges: seq<Edge>, choices: seq<string>, initialId: string,
                           initial: string, ghost r: Ranks)
    returns (reported: seq<nat>)
    ensures forall a, b :: 0 <= a < b < |reported| ==> reported[a] < reported[b]
    ensures var root := Root(states, initialId, initial);
      forall k :: k in reported <==>
        && root != "" && 0 <= k < |states| && Reportable(states, choices, states[k])
        && !ReachedByPath(states, edges, root, states[k].name)
    ensures Ranked(states, r) && InitialsStayInTree(states, r) ==>
      forall k :: k in reported ==>
        !Active(Machine(states, edges, Root(states, initialId, initial)), r, false, states[k].name)
    ensures Ranked(states, r) && EnteredAsAWhole(states, r) && Targeted(edges) ==>
      var m := Machine(states, edges, Root(states, initialId, initial));
      forall k :: m.root != "" && 0 <= k < |states| && Reportable(states, choices, states[k]) ==>
        (k in reported <==> !Active(m, r, false, states[k].name))
  {
    hide IsChoice, ReachedByPath, Active, Ranked;
    reported := [];
    var root := Root(states, initialId, initial);
    if root == "" { return; }
    var reachable := Search(states, edges, root);
    LeastClosedIsPaths(states, edges, root, reachable);
    for k := 0 to |states|
      invariant forall j :: j in reported <==>
        0 <= j < k && Reportable(states, choices, states[j]) && states[j].name !in reachable
      invariant forall a, b :: 0 <= a < b < |reported| ==> reported[a] < reported[b]
      invariant forall a :: 0 <= a < |reported| ==> reported[a] < k
    {
      var s := states[k];
      if !(s.kind == Final || IsChoice(states, choices, s.name)) && s.name !in reachable {
        reported := reported + [k];
      }
    }
    if Ranked(states, r) { ReportIsSound(states, edges, root, r); }
  }

  lemma ReportIsSound(states: seq<State>, edges: seq<Edge>, root: string, r: Ranks)
    requires Ranked(states, r) && root != ""
    ensures InitialsStayInTree(states, r) ==>
      forall x :: Active(Machine(states, edges, root), r, false, x) ==> ReachedByPath(states, edges, root, x)
    ensures EnteredAsAWhole(states, r) && Targeted(edges) ==>
      forall x :: Active(Machine(states, edges, root), r, false, x) <==> ReachedByPath(states, edges, root, x)
  {
    hide Active, ReachedByPath;
    NoFalseAlarmExactly(states, r);
    SilenceIsRightExactly(states, r);
    if EnteredAsAWhole(states, r) {
      WholeStaysInTree(states, r);
      if Targeted(edges) {
        forall x | ReachedByPath(states, edges, root, x) ensures Active(Machine(states, edges, root), r, false, x) {
          assert Trusted(states, r, edges, root, x);
        }
      }
    }
  }

  // ------------------------------------------------------------- failing inputs

  function Declared(name: string, parent: string, initialSub: string): State {
    State(name, name, name, if initialSub == "" then Atomic else Composite, parent, [],
          initialSub != "", false, initialSub, false, false, [], [], None, [], [], [], [])
  }

  function Arrow(source: string, target: string): Edge {
    Edge(source, target, [source], [target], "go", None, None, OtherTrigger(""), None, None, External, 0, "")
  }

  /** Three different names, each with its parent, and what the walks find for them. */
  lemma ThreeStates(states: seq<State>, a: State, b: State, c: State)
    requires states == [a, b, c] && a.name != b.name && a.name != c.name && b.name != c.name
    requires a.name != "" && b.name != "" && c.name != ""
    ensures UniqueNames(states) && forall s :: s in states ==> s.name != "" && FindState(states, s.name) == Some(s)
  {
    assert states[1..] == [b, c] && [b, c][1..] == [c];
  }

  function Parsed(): seq<State> { [Declared("Idle", "", ""), Declared("C", "", "X"), Declared("X", "C", "")] }

  function Arrows(): seq<Edge> { [Arrow("Idle", "C"), Arrow("X", "Idle")] }

  function Moved(): seq<State> { [Declared("Idle", "", ""), Declared("C", "", "X"), Declared("X", "", "")] }

  lemma NormalisationMovesX()
    ensures GraphSpec.NormalStates(Parsed(), "Idle", Arrows()) == Moved()
  {
    var moved := GraphProps.Replanted(Parsed(), "Idle", Arrows());
    GraphProps.NormalisationMoves(Parsed(), "Idle", Arrows());
    assert moved == Moved() by {
      assert Arrows()[1].parentScope == "" && Arrows()[1].source == "X";
      assert GraphProps.Rooted(Parsed(), "Idle", Arrows(), 2) by { assert "X" != "Idle" && "X" != "C"; }
    }
    forall k | 0 <= k < 3 ensures GraphSpec.WithChildren(moved, moved[k]) == moved[k] { NoChildren(moved, k); }
    assert GraphSpec.RebuildChildren(moved) == moved;
  }

  lemma NoChildren(states: seq<State>, k: nat)
    requires states == Moved() && k < 3
    ensures GraphSpec.WithChildren(states, states[k]) == states[k]
  {
    var name := states[k].name;
    assert name != "" && states[0].parent == "" && states[1].parent == "" && states[2].parent == "";
    assert !GraphSpec.HasChild(states, name);
    assert GraphSpec.ChildIds(states, name, 1) == [];
    assert GraphSpec.ChildIds(states, name, 2) == [];
  }

  lemma XIsNotFound()
    ensures |Moved()| == 3 && Moved()[2].name == "X" && Reportable(Moved(), [], Moved()[2])
    ensures !ReachedByPath(Moved(), Arrows(), "Idle", "X")
  {
    var states, edges, c := Moved(), Arrows(), {"Idle", "C"};
    ThreeStates(states, states[0], states[1], states[2]);
    assert Closed(states, edges, "Idle", c) by {
      assert FindState(states, "Idle") == Some(states[0]) && FindState(states, "C") == Some(states[1]);
    }
    if ReachedByPath(states, edges, "Idle", "X") {
      var path :| IsPath(states, edges, path) && path[0] == "Idle" && path[|path| - 1] == "X";
      PathStaysInside(states, edges, "Idle", c, path);
    }
  }

  ghost function MovedRanks(): Ranks {
    Ranks((s: string) => if s == "" then 0 else 1, 1, (s: string) => if s == "C" then 1 else 0)
  }

  lemma MovedIsRanked()
    ensures Ranked(Moved(), MovedRanks())
  {
    ThreeStates(Moved(), Moved()[0], Moved()[1], Moved()[2]);
  }

  lemma XIsEntered()
    ensures Ranked(Moved(), MovedRanks())
    ensures Entered(Moved(), "C", map[], MovedRanks()) == "X"
    ensures Leaf(Moved(), "Idle", MovedRanks()) == "Idle"
    ensures Around(Moved(), "Idle", MovedRanks()) == {"Idle"} && "X" in Around(Moved(), "X", MovedRanks())
    ensures Remember(Moved(), map[], "Idle", MovedRanks()) == map[]
  {
    MovedIsRanked();
    ThreeStates(Moved(), Moved()[0], Moved()[1], Moved()[2]);
    assert Moved()[0] in Moved() && Moved()[1] in Moved() && Moved()[2] in Moved();
  }

  /**
   * A composite `C` whose initial substate `X` has its transition at the root scope: normalisation
   * moves `X` out of `C`, the machine still enters it through `C`, and the search does not find it.
   */
  lemma FalseAlarm()
    ensures var states := GraphSpec.NormalStates(Parsed(), "Idle", Arrows());
      && |states| == 3 && states[2].name == "X" && Reportable(states, [], states[2])
      && !ReachedByPath(states, Arrows(), "Idle", "X")
      && exists r :: Ranked(states, r) && Active(Machine(states, Arrows(), "Idle"), r, false, "X")
  {
    hide Entered, Leaf, Around, Remember, ReachedByPath, Ranked, MovedRanks, Moved, GraphSpec.NormalStates;
    NormalisationMovesX();
    XIsNotFound();
    XIsEntered();
    var m, r, t := Machine(Moved(), Arrows(), "Idle"), MovedRanks(), Arrows()[0];
    var before, next := Configuration({"Idle"}, map[]), Configuration({"X"}, map[]);
    assert Targets(t, false) == {"C"};
    assert (set f | f in {"C"} :: Entered(Moved(), f, map[], r)) == {"X"};
    assert Fires(m, r, false, t, "Idle", before, next);
    var run := [before, next];
    assert IsRun(m, r, false, run);
    assert "X" in run[|run| - 1].here && ActiveAfter(m, r, run, "X");
  }

  function Missed(): seq<State> { [Declared("C", "", "A"), Declared("A", "C", ""), Declared("B", "C", "")] }

  ghost function MissedRanks(): Ranks {
    Ranks((s: string) => if s == "" then 0 else if s == "C" then 1 else 2, 2, (s: string) => if s == "C" then 1 else 0)
  }

  lemma AIsEntered()
    ensures Ranked(Missed(), MissedRanks()) && Leaf(Missed(), "C", MissedRanks()) == "A"
    ensures Around(Missed(), "A", MissedRanks()) == {"A", "C"}
  {
    var states := Missed();
    ThreeStates(states, states[0], states[1], states[2]);
    assert Ranked(states, MissedRanks());
    assert states[0] in states && states[1] in states;
    ChildHasTop(states, states[0], MissedRanks());
    ChildHasTop(states, states[1], MissedRanks());
  }

  /** A composite that starts in `A` while nothing enters its other substate `B`: `B` is not reported. */
  lemma MissedState()
    ensures ReachedByPath(Missed(), [], "C", "B")
    ensures exists r :: Ranked(Missed(), r) && !Active(Machine(Missed(), [], "C"), r, false, "B")
  {
    hide Leaf, Around, Ranked, MissedRanks, Active, ReachedByPath;
    PathStarts(Missed(), [], "C");
    assert Missed()[2] in Missed();
    PathGoesOn(Missed(), [], "C", "C", "B");
    AIsEntered();
    QuietMachine(Missed(), "C", MissedRanks(), "B");
  }

  function Beside(): seq<State> { [Declared("P", "", ""), Declared("C", "P", "X"), Declared("X", "P", "")] }

  ghost function BesideRanks(): Ranks {
    Ranks((s: string) => if s == "" then 0 else if s == "P" then 1 else 2, 2, (s: string) => if s == "C" then 1 else 0)
  }

  lemma BesideLeaves()
    ensures Ranked(Beside(), BesideRanks())
    ensures Leaf(Beside(), "P", BesideRanks()) == "P" && Leaf(Beside(), "C", BesideRanks()) == "X"
    ensures Leaf(Beside(), "X", BesideRanks()) == "X" && "C" !in Around(Beside(), "X", BesideRanks())
    ensures Top(Beside(), "C", BesideRanks()) == "P" == Top(Beside(), "X", BesideRanks())
  {
    var states := Beside();
    ThreeStates(states, states[0], states[1], states[2]);
    assert Ranked(states, BesideRanks());
    assert states[0] in states && states[1] in states && states[2] in states;
    ChildHasTop(states, states[0], BesideRanks());
    ChildHasTop(states, states[1], BesideRanks());
    ChildHasTop(states, states[2], BesideRanks());
  }

  /** An initial substate beside its composite is harmless: the search goes up and down again. */
  lemma BesideIsHarmless()
    ensures exists r ::
      && Ranked(Beside(), r)
      && InitialsStayInTree(Beside(), r)
      && Leaf(Beside(), "C", r) !in Down(Beside(), "C", 0, r.depth, r.height)
  {
    hide Leaf, Around, Top, Ranked, BesideRanks, Down;
    BesideLeaves();
    var states, r := Beside(), BesideRanks();
    if "X" in Down(states, "C", 0, r.depth, r.height) { BelowHasItAround(states, "C", "X", r); }
  }
}
