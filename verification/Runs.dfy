/**
 * Runs of the generated machine. It is in one state at a time, and with it in the states around
 * that one; what a transition enters is decided by the rows of the transition table.
 */
module Runs {
  import opened Text
  import opened Ir
  import opened Table
  import opened Traps

  /** Measures along which the walks over the hierarchy end: upwards, and down initial substates. */
  datatype Ranks = Ranks(depth: string -> nat, height: nat, chain: string -> nat)

  ghost predicate Ranked(states: seq<State>, r: Ranks) {
    && Forest(states, r.depth, r.height) && ChainEnds(states, r.chain)
    && UniqueNames(states) && forall s :: s in states ==> s.name != ""
  }

  ghost function Tree(r: Ranks): string -> nat { (name: string) => Below(r.height, r.depth(name)) }

  /** A name with everything around it. */
  ghost function Around(states: seq<State>, name: string, r: Ranks): set<string>
    requires Ranked(states, r)
  {
    Up(states, name, r.depth, r.height)
  }

  ghost function Leaf(states: seq<State>, name: string, r: Ranks): string
    requires Ranked(states, r)
  {
    InitialLeaf(states, name, r.chain)
  }

  ghost function Entered(states: seq<State>, target: string, history: map<string, string>, r: Ranks): string
    requires Ranked(states, r)
  {
    Destination(states, target, history, r.chain, Tree(r))
  }

  /** On leaving `name` each state around it records the one it was left from. */
  ghost function Remember(states: seq<State>, history: map<string, string>, name: string, r: Ranks): map<string, string>
    requires Ranked(states, r)
    decreases r.depth(name)
  {
    match FindState(states, name)
    case None => history
    case Some(s) => if s.parent == "" then history else Remember(states, history[s.parent := name], s.parent, r)
  }

  // --------------------------------------------------------------------- runs

  datatype Machine = Machine(states: seq<State>, edges: seq<Edge>, root: string)

  /** The states entered last, a single one unless a fork has fired, and the records of history. */
  datatype Configuration = Configuration(here: set<string>, history: map<string, string>)

  /** The row of such a transition leaves the state alone. */
  predicate Stays(states: seq<State>, t: Edge) { t.kind == Internal && !InternalOnComposite(states, t) }

  function Targets(t: Edge, forks: bool): set<string> {
    {t.target} + if forks then set f | f in t.targetIds else {}
  }

  ghost predicate Fires(m: Machine, r: Ranks, forks: bool, t: Edge, from: string, before: Configuration,
                        next: Configuration)
    requires Ranked(m.states, r)
  {
    && t in m.edges && from in before.here && t.source in Around(m.states, from, r)
    && if Stays(m.states, t) then next == before
       else
         && next.history == Remember(m.states, before.history, from, r)
         && next.here == before.here - {from}
                         + set f | f in Targets(t, forks) :: Entered(m.states, f, before.history, r)
  }

  /** One step of the machine; with `forks`, a transition enters all its targets and not the main one alone. */
  ghost predicate Step(m: Machine, r: Ranks, forks: bool, before: Configuration, next: Configuration)
    requires Ranked(m.states, r)
  {
    exists t, from :: Fires(m, r, forks, t, from, before, next)
  }

  ghost predicate IsRun(m: Machine, r: Ranks, forks: bool, run: seq<Configuration>)
    requires Ranked(m.states, r)
  {
    && |run| > 0 && run[0] == Configuration({Leaf(m.states, m.root, r)}, map[])
    && forall i :: 0 <= i < |run| - 1 ==> Step(m, r, forks, run[i], run[i + 1])
  }

  /** What is active at the end of a run: the states entered and those around them. */
  ghost predicate ActiveAfter(m: Machine, r: Ranks, run: seq<Configuration>, x: string)
    requires Ranked(m.states, r) && |run| > 0
  {
    exists h :: h in run[|run| - 1].here && x in Around(m.states, h, r)
  }

  /** Some run makes `x` active; any moment of a run is the end of a shorter one. */
  ghost predicate Active(m: Machine, r: Ranks, forks: bool, x: string)
    requires Ranked(m.states, r)
  {
    exists run :: IsRun(m, r, forks, run) && ActiveAfter(m, r, run, x)
  }

  lemma Shorter(m: Machine, r: Ranks, forks: bool, run: seq<Configuration>)
    requires Ranked(m.states, r) && IsRun(m, r, forks, run) && |run| > 1
    ensures IsRun(m, r, forks, run[..|run| - 1]) && Step(m, r, forks, run[|run| - 2], run[|run| - 1])
  {
    hide Step;
    var init := run[..|run| - 1];
    forall i | 0 <= i < |init| - 1 ensures Step(m, r, forks, init[i], init[i + 1]) {
      assert Step(m, r, forks, run[i], run[i + 1]);
    }
    assert Step(m, r, forks, run[|run| - 2], run[|run| - 2 + 1]);
  }

  lemma Longer(m: Machine, r: Ranks, forks: bool, run: seq<Configuration>, next: Configuration)
    requires Ranked(m.states, r) && IsRun(m, r, forks, run) && Step(m, r, forks, run[|run| - 1], next)
    ensures IsRun(m, r, forks, run + [next])
  {
    hide Step;
    var longer := run + [next];
    forall i | 0 <= i < |longer| - 1 ensures Step(m, r, forks, longer[i], longer[i + 1]) {
      if i < |run| - 1 { assert Step(m, r, forks, run[i], run[i + 1]); }
    }
  }

  /** Every step the generated table makes is a step here, whatever the event and the guards. */
  lemma TableSteps(m: Machine, r: Ranks, current: string, history: map<string, string>, now: Situation)
    requires Ranked(m.states, r)
    requires now.active == Around(m.states, current, r) && now.history == history
    ensures match TableOutcome(TransitionTable(m.states, m.edges, r.chain, Tree(r)), now)
      case None => true
      case Some(Stay(_)) =>
        Step(m, r, false, Configuration({current}, history), Configuration({current}, history))
      case Some(Enter(target, _)) =>
        Step(m, r, false, Configuration({current}, history),
             Configuration({target}, Remember(m.states, history, current, r)))
  {
    hide TransitionTable, Destination, Remember, Up;
    var got := TableOutcome(TransitionTable(m.states, m.edges, r.chain, Tree(r)), now);
    var i := TableKeepsMeaning(m.states, m.edges, now, r.chain, Tree(r));
    if got.Some? {
      var t := m.edges[i];
      assert Enabled(t, now);
      var before := Configuration({current}, history);
      var target := Entered(m.states, t.target, history, r);
      var next := if Stays(m.states, t) then before
                  else Configuration({target}, Remember(m.states, history, current, r));
      assert Targets(t, false) == {t.target};
      assert (set f | f in {t.target} :: Entered(m.states, f, history, r)) == {target};
      assert Fires(m, r, false, t, current, before, next);
    }
  }

  // ---------------------------------------------------------------- the trees

  /** The root of the tree a name stands in. */
  ghost function Top(states: seq<State>, name: string, r: Ranks): string
    requires Ranked(states, r)
    decreases r.depth(name)
  {
    match FindState(states, name)
    case None => name
    case Some(s) => if s.parent == "" then name else Top(states, s.parent, r)
  }

  lemma ChildHasTop(states: seq<State>, s: State, r: Ranks)
    requires Ranked(states, r) && s in states
    ensures FindState(states, s.name) == Some(s)
    ensures s.parent != "" ==> Top(states, s.name, r) == Top(states, s.parent, r)
    ensures Around(states, s.name, r) == {s.name} + Around(states, s.parent, r)
  {
    var k :| 0 <= k < |states| && states[k] == s;
    FindsTheOne(states, k);
  }

  lemma NameIsAround(states: seq<State>, x: string, r: Ranks)
    requires Ranked(states, r) && x != ""
    ensures x in Around(states, x, r)
  {
  }

  lemma {:induction false} AroundIsOneTree(states: seq<State>, x: string, y: string, r: Ranks)
    requires Ranked(states, r) && y in Around(states, x, r)
    ensures Top(states, y, r) == Top(states, x, r) && y != ""
    decreases r.depth(x)
  {
    var s := FindState(states, x);
    if y != x { AroundIsOneTree(states, s.value.parent, y, r); }
  }

  lemma {:induction false} SubstateIsInside(states: seq<State>, parent: string, deep: bool, k: nat, sub: string,
                                            r: Ranks)
    requires Ranked(states, r) && k <= |states| && sub in Substates(states, parent, deep, k, Tree(r))
    ensures sub in Down(states, parent, k, r.depth, r.height)
    decreases Tree(r)(parent), |states| - k
  {
    assert k < |states|;
    var s := states[k];
    if s.parent == parent
      && (sub == s.name || (deep && s.composite && sub in Substates(states, s.name, deep, 0, Tree(r)))) {
      if sub != s.name { SubstateIsInside(states, s.name, deep, 0, sub, r); }
    } else {
      SubstateIsInside(states, parent, deep, k + 1, sub, r);
    }
  }

  /** What lies below a name has it around itself. */
  lemma BelowHasItAround(states: seq<State>, x: string, y: string, r: Ranks)
    requires Ranked(states, r) && x != "" && y in Down(states, x, 0, r.depth, r.height)
    ensures x in Around(states, y, r) && y != ""
  {
    DownHasItAbove(states, x, y, 0, r.depth, r.height);
    var i :| 0 <= i < |states| && states[i].name == y && x in Up(states, states[i].parent, r.depth, r.height);
    ChildHasTop(states, states[i], r);
  }
}
