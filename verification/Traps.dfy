/** The trap warning: a state that is entered but neither it, nor an ancestor, nor a descendant is left. */
module Traps {
  import opened Text
  import opened Ir
  import opened Safety

  predicate IsSource(edges: seq<Edge>, name: string) {
    exists i :: 0 <= i < |edges| && edges[i].source == name
  }

  /** `name`, its parent, and so on up to the root. */
  ghost function Up(states: seq<State>, name: string, depth: string -> nat, height: nat): set<string>
    requires Forest(states, depth, height)
    decreases depth(name)
  {
    if name == "" then {}
    else
      var s := FindState(states, name);
      {name} + if s.None? then {} else Up(states, s.value.parent, depth, height)
  }

  /** The states below `name`, counted from declaration `k` on. */
  ghost function Down(states: seq<State>, name: string, k: nat, depth: string -> nat, height: nat): set<string>
    requires k <= |states| && Forest(states, depth, height)
    decreases Below(height, depth(name)), |states| - k
  {
    if k == |states| then {}
    else
      (if states[k].parent == name then {states[k].name} + Down(states, states[k].name, 0, depth, height) else {})
      + Down(states, name, k + 1, depth, height)
  }

  /** How many names the descendant queue will still see through `name`, itself included. */
  ghost function Load(states: seq<State>, name: string, k: nat, depth: string -> nat, height: nat): nat
    requires k <= |states| && Forest(states, depth, height)
    decreases Below(height, depth(name)), |states| - k
  {
    if k == |states| then 1
    else
      (if states[k].parent == name then Load(states, states[k].name, 0, depth, height) else 0)
      + Load(states, name, k + 1, depth, height)
  }

  ghost function QueueLoad(states: seq<State>, queue: seq<string>, depth: string -> nat, height: nat): nat
    requires Forest(states, depth, height)
  {
    if |queue| == 0 then 0
    else QueueLoad(states, queue[..|queue| - 1], depth, height) + Load(states, queue[|queue| - 1], 0, depth, height)
  }

  lemma {:induction false} QueueLoadSum(states: seq<State>, a: seq<string>, b: seq<string>, depth: string -> nat,
                                        height: nat)
    requires Forest(states, depth, height)
    ensures QueueLoad(states, a + b, depth, height)
      == QueueLoad(states, a, depth, height) + QueueLoad(states, b, depth, height)
    decreases |b|
  {
    if |b| == 0 {
      assert a + b == a;
    } else {
      assert (a + b)[..|a + b| - 1] == a + b[..|b| - 1];
      QueueLoadSum(states, a, b[..|b| - 1], depth, height);
    }
  }

  ghost function QueueDown(states: seq<State>, queue: seq<string>, depth: string -> nat, height: nat): set<string>
    requires Forest(states, depth, height)
  {
    if |queue| == 0 then {}
    else Down(states, queue[0], 0, depth, height) + QueueDown(states, queue[1..], depth, height)
  }

  lemma {:induction false} QueueDownSum(states: seq<State>, a: seq<string>, b: seq<string>, depth: string -> nat,
                                        height: nat)
    requires Forest(states, depth, height)
    ensures QueueDown(states, a + b, depth, height)
      == QueueDown(states, a, depth, height) + QueueDown(states, b, depth, height)
    decreases |a|
  {
    if |a| == 0 {
      assert a + b == b;
    } else {
      assert (a + b)[1..] == a[1..] + b;
      QueueDownSum(states, a[1..], b, depth, height);
    }
  }

  ghost predicate AnySource(edges: seq<Edge>, names: set<string>) {
    exists x :: x in names && IsSource(edges, x)
  }

  /** The state, an ancestor or a descendant is the source of a transition. */
  ghost predicate LeftSomewhere(states: seq<State>, edges: seq<Edge>, s: State, depth: string -> nat, height: nat)
    requires Forest(states, depth, height)
  {
    || IsSource(edges, s.name)
    || AnySource(edges, Up(states, s.parent, depth, height))
    || AnySource(edges, Down(states, s.name, 0, depth, height))
  }

  // ----------------------------------------------------------------- the walks

  method HasSource(edges: seq<Edge>, name: string) returns (found: bool)
    ensures found == IsSource(edges, name)
  {
    for i := 0 to |edges|
      invariant forall j :: 0 <= j < i ==> edges[j].source != name
    {
      if edges[i].source == name { return true; }
    }
    found := false;
  }

  method HasOutgoingHierarchical(states: seq<State>, edges: seq<Edge>, s: State, ghost depth: string -> nat,
                                 ghost height: nat)
    returns (found: bool)
    requires Forest(states, depth, height)
    ensures found == LeftSomewhere(states, edges, s, depth, height)
  {
    var direct := HasSource(edges, s.name);
    if direct { return true; }
    var above := AncestorIsLeft(states, edges, s.parent, depth, height);
    if above { return true; }
    found := DescendantIsLeft(states, edges, s.name, depth, height);
  }

  method AncestorIsLeft(states: seq<State>, edges: seq<Edge>, start: string, ghost depth: string -> nat,
                        ghost height: nat)
    returns (found: bool)
    requires Forest(states, depth, height)
    ensures found == AnySource(edges, Up(states, start, depth, height))
  {
    var parent := start;
    while parent != ""
      invariant Up(states, parent, depth, height) <= Up(states, start, depth, height)
      invariant AnySource(edges, Up(states, start, depth, height)) ==>
        AnySource(edges, Up(states, parent, depth, height))
      decreases if parent == "" then 0 else 1, depth(parent)
    {
      var here := HasSource(edges, parent);
      if here { assert parent in Up(states, start, depth, height); return true; }
      var p := FindState(states, parent);
      parent := if p.Some? then p.value.parent else "";
    }
    found := false;
  }

  method DescendantIsLeft(states: seq<State>, edges: seq<Edge>, start: string, ghost depth: string -> nat,
                          ghost height: nat)
    returns (found: bool)
    requires Forest(states, depth, height)
    ensures found == AnySource(edges, Down(states, start, 0, depth, height))
  {
    var queue := [start];
    assert queue[1..] == [] && queue[..0] == [];
    while |queue| > 0
      invariant QueueDown(states, queue, depth, height) <= Down(states, start, 0, depth, height)
      invariant AnySource(edges, Down(states, start, 0, depth, height)) ==>
        AnySource(edges, QueueDown(states, queue, depth, height))
      decreases QueueLoad(states, queue, depth, height)
    {
      var current := queue[0];
      ghost var rest := queue[1..];
      assert queue == [current] + rest;
      QueueLoadSum(states, [current], rest, depth, height);
      OneInQueue(states, current, depth, height);
      var hit, children := ChildrenWithoutExit(states, edges, current, depth, height);
      if hit { return true; }
      QueueLoadSum(states, rest, children, depth, height);
      QueueDownSum(states, rest, children, depth, height);
      queue := queue[1..] + children;
    }
    found := false;
  }

  ghost function ChildrenOf(states: seq<State>, name: string, k: nat): set<string>
    requires k <= |states|
  {
    set i | 0 <= i < k && states[i].parent == name :: states[i].name
  }

  /** Checks the children of one state and lists them for the queue. */
  method ChildrenWithoutExit(states: seq<State>, edges: seq<Edge>, current: string, ghost depth: string -> nat,
                             ghost height: nat)
    returns (hit: bool, children: seq<string>)
    requires Forest(states, depth, height)
    ensures hit ==> AnySource(edges, Down(states, current, 0, depth, height))
    ensures !hit ==> QueueLoad(states, children, depth, height) + 1 == Load(states, current, 0, depth, height)
    ensures !hit ==> QueueDown(states, children, depth, height) <= Down(states, current, 0, depth, height)
    ensures !hit ==> (AnySource(edges, Down(states, current, 0, depth, height))
                      ==> AnySource(edges, QueueDown(states, children, depth, height)))
  {
    children := [];
    for k := 0 to |states|
      invariant Checked(states, edges, current, k, children, depth, height)
    {
      var child := states[k];
      CheckOneMore(states, edges, current, k, children, depth, height);
      if child.parent == current {
        var here := HasSource(edges, child.name);
        if here {
          ChildIsDown(states, k, 0, depth, height);
          return true, children;
        }
        children := children + [child.name];
      }
    }
    hit := false;
  }

  /** The children among the first `k` declarations are listed, and none of them is left. */
  ghost predicate Checked(states: seq<State>, edges: seq<Edge>, current: string, k: nat, children: seq<string>,
                          depth: string -> nat, height: nat)
    requires Forest(states, depth, height) && k <= |states|
  {
    && QueueLoad(states, children, depth, height) + Load(states, current, k, depth, height)
       == Load(states, current, 0, depth, height)
    && Down(states, current, 0, depth, height)
       == ChildrenOf(states, current, k) + QueueDown(states, children, depth, height)
         + Down(states, current, k, depth, height)
    && forall x :: x in ChildrenOf(states, current, k) ==> !IsSource(edges, x)
  }

  lemma CheckOneMore(states: seq<State>, edges: seq<Edge>, current: string, k: nat, children: seq<string>,
                     depth: string -> nat, height: nat)
    requires Forest(states, depth, height) && k < |states|
      && Checked(states, edges, current, k, children, depth, height)
    ensures states[k].parent != current ==> Checked(states, edges, current, k + 1, children, depth, height)
    ensures states[k].parent == current && !IsSource(edges, states[k].name) ==>
      Checked(states, edges, current, k + 1, children + [states[k].name], depth, height)
  {
    hide IsSource;
    var name := states[k].name;
    assert ChildrenOf(states, current, k + 1)
      == ChildrenOf(states, current, k) + if states[k].parent == current then {name} else {};
    if states[k].parent == current {
      QueueLoadSum(states, children, [name], depth, height);
      QueueDownSum(states, children, [name], depth, height);
      OneInQueue(states, name, depth, height);
    }
  }

  lemma OneInQueue(states: seq<State>, name: string, depth: string -> nat, height: nat)
    requires Forest(states, depth, height)
    ensures QueueLoad(states, [name], depth, height) == Load(states, name, 0, depth, height)
    ensures QueueDown(states, [name], depth, height) == Down(states, name, 0, depth, height)
  {
    assert [name][1..] == [] && [name][..0] == [];
  }

  // ----------------------------------------------- ancestors and descendants

  lemma {:induction false} DownIsTransitive(states: seq<State>, x: string, y: string, k: nat, depth: string -> nat,
                                            height: nat)
    requires Forest(states, depth, height) && k <= |states| && y in Down(states, x, k, depth, height)
    ensures Down(states, y, 0, depth, height) <= Down(states, x, k, depth, height)
    decreases Below(height, depth(x)), |states| - k
  {
    var c := states[k];
    if c.parent == x && y != c.name && y in Down(states, c.name, 0, depth, height) {
      DownIsTransitive(states, c.name, y, 0, depth, height);
    } else if !(c.parent == x && y == c.name) {
      DownIsTransitive(states, x, y, k + 1, depth, height);
    }
  }

  lemma {:induction false} ChildIsDown(states: seq<State>, i: nat, k: nat, depth: string -> nat, height: nat)
    requires Forest(states, depth, height) && k <= i < |states|
    ensures states[i].name in Down(states, states[i].parent, k, depth, height)
    decreases i - k
  {
    if k < i { ChildIsDown(states, i, k + 1, depth, height); }
  }

  /** Everything below `x` is the name of a state that has `x` above it. */
  lemma {:induction false} DownHasItAbove(states: seq<State>, x: string, y: string, k: nat, depth: string -> nat,
                                          height: nat)
    requires Forest(states, depth, height) && k <= |states| && x != "" && UniqueNames(states)
    requires (forall s :: s in states ==> s.name != "") && y in Down(states, x, k, depth, height)
    ensures exists i :: 0 <= i < |states| && states[i].name == y && x in Up(states, states[i].parent, depth, height)
    decreases Below(height, depth(x)), |states| - k
  {
    var c := states[k];
    if c.parent == x && y == c.name {
      assert x in Up(states, states[k].parent, depth, height);
    } else if c.parent == x && y in Down(states, c.name, 0, depth, height) {
      DownHasItAbove(states, c.name, y, 0, depth, height);
      var i :| 0 <= i < |states| && states[i].name == y && c.name in Up(states, states[i].parent, depth, height);
      FindsTheOne(states, k);
      UpIsTransitive(states, states[i].parent, c.name, depth, height);
      assert x in Up(states, c.name, depth, height) by { assert x in Up(states, c.parent, depth, height); }
    } else {
      DownHasItAbove(states, x, y, k + 1, depth, height);
    }
  }

  lemma {:induction false} UpIsTransitive(states: seq<State>, x: string, y: string, depth: string -> nat, height: nat)
    requires Forest(states, depth, height) && y in Up(states, x, depth, height)
    ensures Up(states, y, depth, height) <= Up(states, x, depth, height)
    decreases depth(x)
  {
    var s := FindState(states, x);
    if y != x { UpIsTransitive(states, s.value.parent, y, depth, height); }
  }

  lemma {:induction false} UpHasItBelow(states: seq<State>, i: nat, x: string, p: string, depth: string -> nat,
                                        height: nat)
    requires Forest(states, depth, height) && i < |states|
    requires states[i].name in Down(states, p, 0, depth, height) && x in Up(states, p, depth, height)
    ensures states[i].name in Down(states, x, 0, depth, height)
    decreases depth(p)
  {
    if x != p {
      var s := FindState(states, p).value;
      var k :| 0 <= k < |states| && states[k] == s;
      ChildIsDown(states, k, 0, depth, height);
      DownIsTransitive(states, s.parent, p, 0, depth, height);
      UpHasItBelow(states, i, x, s.parent, depth, height);
    }
  }

  /** The two walks look at one relation: `x` is above a state exactly when the state is below `x`. */
  lemma AboveIsBelow(states: seq<State>, i: nat, x: string, depth: string -> nat, height: nat)
    requires Forest(states, depth, height) && UniqueNames(states) && i < |states| && x != ""
    requires forall s :: s in states ==> s.name != ""
    ensures x in Up(states, states[i].parent, depth, height) <==> states[i].name in Down(states, x, 0, depth, height)
  {
    if x in Up(states, states[i].parent, depth, height) {
      ChildIsDown(states, i, 0, depth, height);
      UpHasItBelow(states, i, x, states[i].parent, depth, height);
    }
    if states[i].name in Down(states, x, 0, depth, height) {
      DownHasItAbove(states, x, states[i].name, 0, depth, height);
    }
  }

  // ----------------------------------------------------------------- the pass

  predicate HasEntry(edges: seq<Edge>, name: string) {
    exists i :: 0 <= i < |edges| && edges[i].target == name
  }

  predicate Exempt(states: seq<State>, choices: seq<string>, s: State) {
    || s.kind == Final || IsChoice(states, choices, s.name) || s.composite || "Terminal" <= s.name || "Final" <= s.name
  }

  ghost predicate IsTrap(states: seq<State>, edges: seq<Edge>, choices: seq<string>, s: State, depth: string -> nat,
                         height: nat)
    requires Forest(states, depth, height)
  {
    !Exempt(states, choices, s) && HasEntry(edges, s.name) && !LeftSomewhere(states, edges, s, depth, height)
  }

  /** Positions reported with W0202: exactly the trap states, in declaration order. */
  method ReportTraps(states: seq<State>, edges: seq<Edge>, choices: seq<string>, ghost depth: string -> nat,
                     ghost height: nat)
    returns (reported: seq<nat>)
    requires Forest(states, depth, height)
    ensures forall k :: k in reported <==> 0 <= k < |states| && IsTrap(states, edges, choices, states[k], depth, height)
    ensures forall a, b :: 0 <= a < b < |reported| ==> reported[a] < reported[b]
  {
    reported := [];
    for k := 0 to |states|
      invariant forall j :: j in reported <==> 0 <= j < k && IsTrap(states, edges, choices, states[j], depth, height)
      invariant forall a, b :: 0 <= a < b < |reported| ==> reported[a] < reported[b]
      invariant forall a :: 0 <= a < |reported| ==> reported[a] < k
    {
      var s := states[k];
      if !Exempt(states, choices, s) {
        var hasIn := HasTarget(edges, s.name);
        var hasOut := HasOutgoingHierarchical(states, edges, s, depth, height);
        if hasIn && !hasOut { reported := reported + [k]; }
      }
    }
  }

  method HasTarget(edges: seq<Edge>, name: string) returns (found: bool)
    ensures found == HasEntry(edges, name)
  {
    for i := 0 to |edges|
      invariant forall j :: 0 <= j < i ==> edges[j].target != name
    {
      if edges[i].target == name { return true; }
    }
    found := false;
  }
}
