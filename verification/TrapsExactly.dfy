/** What the trap warning says about the states and transitions themselves. */
module TrapsExactly {
  import opened Text
  import opened Ir
  import opened Safety
  import opened Traps

  /** `y` is the parent of a state called `x`. */
  predicate Inside(states: seq<State>, x: string, y: string) {
    y != "" && exists i :: 0 <= i < |states| && states[i].name == x && states[i].parent == y
  }

  /** A way from `path[0]` to enclosing states, one parent after the other. */
  predicate Rises(states: seq<State>, path: seq<string>) {
    |path| >= 2 && forall j :: 0 <= j < |path| - 1 ==> Inside(states, path[j], path[j + 1])
  }

  /** `y` encloses `x`, directly or through other states. */
  ghost predicate Encloses(states: seq<State>, y: string, x: string) {
    exists path :: Rises(states, path) && path[0] == x && path[|path| - 1] == y
  }

  lemma {:induction false} UpHasPath(states: seq<State>, i: nat, y: string, depth: string -> nat, height: nat)
    returns (path: seq<string>)
    requires Forest(states, depth, height) && UniqueNames(states) && i < |states|
    requires y in Up(states, states[i].parent, depth, height)
    ensures Rises(states, path) && path[0] == states[i].name && path[|path| - 1] == y
    decreases depth(states[i].name)
  {
    var p := states[i].parent;
    assert Inside(states, states[i].name, p);
    path := [states[i].name, p];
    if y != p {
      var k :| 0 <= k < |states| && states[k] == FindState(states, p).value;
      var rest := UpHasPath(states, k, y, depth, height);
      path := [states[i].name] + rest;
    }
  }

  lemma {:induction false} PathIsUp(states: seq<State>, i: nat, path: seq<string>, depth: string -> nat, height: nat)
    requires Forest(states, depth, height) && UniqueNames(states) && i < |states|
    requires Rises(states, path) && path[0] == states[i].name
    ensures path[|path| - 1] in Up(states, states[i].parent, depth, height)
    decreases |path|
  {
    assert Inside(states, path[0], path[1]);
    var k :| 0 <= k < |states| && states[k].name == path[0] && states[k].parent == path[1];
    assert k == i;
    if |path| > 2 {
      var rest := path[1..];
      forall j | 0 <= j < |rest| - 1 ensures Inside(states, rest[j], rest[j + 1]) {
        assert Inside(states, path[j + 1], path[j + 2]);
      }
      assert Inside(states, path[1], path[2]);
      var n :| 0 <= n < |states| && states[n].name == path[1] && states[n].parent == path[2];
      FindsTheOne(states, n);
      PathIsUp(states, n, rest, depth, height);
    }
  }

  /** The ancestor walk sees exactly the states around a state. */
  lemma UpIsEncloses(states: seq<State>, i: nat, y: string, depth: string -> nat, height: nat)
    requires Forest(states, depth, height) && UniqueNames(states) && i < |states|
    ensures y in Up(states, states[i].parent, depth, height) <==> Encloses(states, y, states[i].name)
  {
    if y in Up(states, states[i].parent, depth, height) {
      var path := UpHasPath(states, i, y, depth, height);
    }
    if Encloses(states, y, states[i].name) {
      var path :| Rises(states, path) && path[0] == states[i].name && path[|path| - 1] == y;
      PathIsUp(states, i, path, depth, height);
    }
  }

  /** The descendant queue sees exactly the states within a state. */
  lemma DownIsEncloses(states: seq<State>, x: string, y: string, depth: string -> nat, height: nat)
    requires Forest(states, depth, height) && UniqueNames(states) && x != "" && forall s :: s in states ==> s.name != ""
    ensures y in Down(states, x, 0, depth, height) <==> Encloses(states, x, y)
  {
    if y in Down(states, x, 0, depth, height) {
      DownHasItAbove(states, x, y, 0, depth, height);
      var i :| 0 <= i < |states| && states[i].name == y && x in Up(states, states[i].parent, depth, height);
      UpIsEncloses(states, i, x, depth, height);
    }
    if Encloses(states, x, y) {
      var path :| Rises(states, path) && path[0] == y && path[|path| - 1] == x;
      assert Inside(states, path[0], path[1]);
      var i :| 0 <= i < |states| && states[i].name == path[0] && states[i].parent == path[1];
      UpIsEncloses(states, i, x, depth, height);
      AboveIsBelow(states, i, x, depth, height);
    }
  }

  /** Final states, choices, composites and two families of names are passed over. */
  predicate PassedOver(states: seq<State>, choices: seq<string>, s: State) {
    || s.kind == Final || s.kind == Choice || s.name in choices || s.composite
    || (|s.name| >= 8 && s.name[..8] == "Terminal") || (|s.name| >= 5 && s.name[..5] == "Final")
  }

  /**
   * A state is reported exactly when it is not passed over, some transition enters it, and every
   * transition begins elsewhere: neither in it, nor around it, nor within it.
   */
  lemma TrapExactly(states: seq<State>, edges: seq<Edge>, choices: seq<string>, i: nat, depth: string -> nat,
                    height: nat)
    requires Forest(states, depth, height) && UniqueNames(states) && forall s :: s in states ==> s.name != ""
    requires i < |states|
    ensures var s := states[i];
      IsTrap(states, edges, choices, s, depth, height) <==>
        (&& !PassedOver(states, choices, s) && (exists e :: e in edges && e.target == s.name)
         && forall e :: e in edges ==>
              e.source != s.name && !Encloses(states, e.source, s.name) && !Encloses(states, s.name, e.source))
  {
    hide Exempt, PassedOver, LeftSomewhere, HasEntry, Encloses;
    ExemptExactly(states, choices, i);
    EntryExactly(edges, states[i].name);
    LeftExactly(states, edges, i, depth, height);
  }

  lemma ExemptExactly(states: seq<State>, choices: seq<string>, i: nat)
    requires UniqueNames(states) && i < |states|
    ensures Exempt(states, choices, states[i]) <==> PassedOver(states, choices, states[i])
  {
    ChoiceByKind(states, choices, i);
    hide IsChoice;
  }

  lemma EntryExactly(edges: seq<Edge>, name: string)
    ensures HasEntry(edges, name) <==> exists e :: e in edges && e.target == name
  {
  }

  lemma LeftExactly(states: seq<State>, edges: seq<Edge>, i: nat, depth: string -> nat, height: nat)
    requires Forest(states, depth, height) && UniqueNames(states) && forall s :: s in states ==> s.name != ""
    requires i < |states|
    ensures var s := states[i];
      !LeftSomewhere(states, edges, s, depth, height) <==>
        forall e :: e in edges ==>
          e.source != s.name && !Encloses(states, e.source, s.name) && !Encloses(states, s.name, e.source)
  {
    var s := states[i];
    hide Encloses, Up, Down, AnySource, IsSource;
    forall e | e in edges
      ensures e.source in Up(states, s.parent, depth, height) <==> Encloses(states, e.source, s.name)
      ensures e.source in Down(states, s.name, 0, depth, height) <==> Encloses(states, s.name, e.source)
    {
      UpIsEncloses(states, i, e.source, depth, height);
      DownIsEncloses(states, s.name, e.source, depth, height);
    }
    SourcesAreMembers(edges, Up(states, s.parent, depth, height));
    SourcesAreMembers(edges, Down(states, s.name, 0, depth, height));
    SourcesAreMembers(edges, {s.name});
  }

  lemma ChoiceByKind(states: seq<State>, choices: seq<string>, i: nat)
    requires UniqueNames(states) && i < |states|
    ensures IsChoice(states, choices, states[i].name) <==> states[i].name in choices || states[i].kind == Choice
  {
    FindsTheOne(states, i);
  }

  lemma SourcesAreMembers(edges: seq<Edge>, names: set<string>)
    ensures AnySource(edges, names) <==> exists e :: e in edges && e.source in names
    ensures forall x :: names == {x} ==> (IsSource(edges, x) <==> exists e :: e in edges && e.source in names)
  {
    if AnySource(edges, names) {
      var x :| x in names && IsSource(edges, x);
      var i :| 0 <= i < |edges| && edges[i].source == x;
      assert edges[i] in edges;
    }
    if e :| e in edges && e.source in names {
      var i :| 0 <= i < |edges| && edges[i] == e;
      assert IsSource(edges, e.source);
    }
    forall x | names == {x}
      ensures IsSource(edges, x) <==> exists e :: e in edges && e.source in names
    {
      if IsSource(edges, x) {
        var i :| 0 <= i < |edges| && edges[i].source == x;
        assert edges[i] in edges;
      }
    }
  }

  /** A pseudostate that is entered and never left is reported, unless it is a choice or final. */
  lemma DeadJunctionIsReported(s: State, t: State, e: Edge)
    requires s.name == "A" && t.name == "B" && s.parent == t.parent == "" && e.source == "A" && e.target == "B"
    requires !t.composite && t.kind != Final && t.kind != Choice
    ensures IsTrap([s, t], [e], [], t, x => if x == "" then 0 else 1, 1)
    ensures !IsTrap([s, t], [e], ["B"], t, x => if x == "" then 0 else 1, 1)
  {
    var states, depth := [s, t], (x: string) => if x == "" then 0 else 1;
    assert s.name[0] != t.name[0];
    assert Forest(states, depth, 1) && UniqueNames(states);
    NothingEncloses(states, "A", "B");
    NothingEncloses(states, "B", "A");
    hide Encloses;
    assert e in [e];
    TrapExactly(states, [e], [], 1, depth, 1);
    TrapExactly(states, [e], ["B"], 1, depth, 1);
  }

  lemma NothingEncloses(states: seq<State>, y: string, x: string)
    requires forall s :: s in states ==> s.parent == ""
    ensures !Encloses(states, y, x)
  {
    forall path ensures !Rises(states, path) {
      if Rises(states, path) { FirstStepRises(states, path); }
    }
  }

  lemma FirstStepRises(states: seq<State>, path: seq<string>)
    requires Rises(states, path)
    ensures exists s :: s in states && s.name == path[0] && s.parent != ""
  {
    assert Inside(states, path[0], path[1]);
  }
}
