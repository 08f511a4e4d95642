/** Where a transition leads: initial leaves, substates and records of history, by the states themselves. */
module TableTargets {
  import opened Text
  import opened Ir
  import opened Order
  import opened Table

  // ---------------------------------------------------------- initial leaves

  /** The state names an initial substate that is entered with it. */
  predicate Starts(states: seq<State>, name: string, sub: string) {
    var s := FindState(states, name);
    s.Some? && s.value.composite && s.value.initialSub == sub != ""
  }

  /** Each name on the way is the initial substate of the one before. */
  predicate Descends(states: seq<State>, path: seq<string>) {
    |path| > 0 && forall i :: 0 <= i < |path| - 1 ==> Starts(states, path[i], path[i + 1])
  }

  /** The initial leaf ends the way down along initial substates, and none goes on from it. */
  lemma {:induction false} LeafEndsTheWay(states: seq<State>, name: string, chain: string -> nat)
    returns (path: seq<string>)
    requires ChainEnds(states, chain)
    ensures Descends(states, path) && path[0] == name
    ensures path[|path| - 1] == InitialLeaf(states, name, chain)
    ensures forall sub :: !Starts(states, InitialLeaf(states, name, chain), sub)
    decreases chain(name)
  {
    var s := FindState(states, name);
    if s.Some? && s.value.composite && s.value.initialSub != "" {
      var rest := LeafEndsTheWay(states, s.value.initialSub, chain);
      path := [name] + rest;
      forall i | 0 <= i < |path| - 1 ensures Starts(states, path[i], path[i + 1]) {
        if i > 0 { assert Starts(states, rest[i - 1], rest[i - 1 + 1]); }
      }
    } else {
      path := [name];
    }
  }

  // --------------------------------------------------------------- substates

  /** A way down from `path[0]` through children, passing composite states and ending in another. */
  predicate WayDown(states: seq<State>, path: seq<nat>, parent: string) {
    && |path| > 0 && (forall i :: 0 <= i < |path| ==> path[i] < |states|)
    && states[path[0]].parent == parent
    && (forall i :: 0 <= i < |path| - 1 ==>
          states[path[i]].composite && states[path[i + 1]].parent == states[path[i]].name)
    && !states[path[|path| - 1]].composite
  }

  /** With deep history: what is reached through composite children. Without: the children themselves. */
  ghost predicate IsSubstate(states: seq<State>, parent: string, deep: bool, k: nat, sub: string) {
    if deep then exists path :: WayDown(states, path, parent) && path[0] >= k && states[path[|path| - 1]].name == sub
    else exists i :: k <= i < |states| && states[i].parent == parent && states[i].name == sub
  }

  /** What one child contributes. */
  function Contributes(states: seq<State>, i: nat, deep: bool, ghost tree: string -> nat): seq<string>
    requires i < |states| && TreeEnds(states, tree)
  {
    if deep && states[i].composite then Substates(states, states[i].name, deep, 0, tree) else [states[i].name]
  }

  lemma SubstatesStep(states: seq<State>, parent: string, deep: bool, k: nat, tree: string -> nat)
    requires k < |states| && TreeEnds(states, tree)
    ensures Substates(states, parent, deep, k, tree) ==
      (if states[k].parent == parent then Contributes(states, k, deep, tree) else [])
      + Substates(states, parent, deep, k + 1, tree)
  {
  }

  lemma {:induction false} SubstatesAreBelow(states: seq<State>, parent: string, deep: bool, k: nat, sub: string,
                                             tree: string -> nat)
    requires k <= |states| && TreeEnds(states, tree) && sub in Substates(states, parent, deep, k, tree)
    ensures IsSubstate(states, parent, deep, k, sub)
    decreases tree(parent), |states| - k
  {
    if k == |states| { return; }
    var s := states[k];
    SubstatesStep(states, parent, deep, k, tree);
    hide Substates, WayDown;
    if sub in Substates(states, parent, deep, k + 1, tree) {
      SubstatesAreBelow(states, parent, deep, k + 1, sub, tree);
    } else if deep && s.composite {
      SubstatesAreBelow(states, s.name, deep, 0, sub, tree);
      LongerWay(states, k, parent, sub);
    } else if deep {
      ShortWay(states, k, parent);
    }
  }

  lemma ShortWay(states: seq<State>, k: nat, parent: string)
    requires k < |states| && states[k].parent == parent && !states[k].composite
    ensures IsSubstate(states, parent, true, k, states[k].name)
  {
    assert WayDown(states, [k], parent) && [k][0] == k;
  }

  lemma LongerWay(states: seq<State>, k: nat, parent: string, sub: string)
    requires k < |states| && states[k].parent == parent && states[k].composite
    requires IsSubstate(states, states[k].name, true, 0, sub)
    ensures IsSubstate(states, parent, true, k, sub)
  {
    var s := states[k];
    var rest :| WayDown(states, rest, s.name) && rest[0] >= 0 && states[rest[|rest| - 1]].name == sub;
    var path := [k] + rest;
    forall i | 0 <= i < |path| - 1
      ensures states[path[i]].composite && states[path[i + 1]].parent == states[path[i]].name
    {
      if i > 0 { assert path[i] == rest[i - 1] && path[i + 1] == rest[i - 1 + 1]; }
    }
    assert WayDown(states, path, parent) && path[0] == k;
  }

  lemma {:induction false} BelowAreSubstates(states: seq<State>, path: seq<nat>, parent: string, k: nat,
                                             tree: string -> nat)
    requires k <= |states| && TreeEnds(states, tree) && WayDown(states, path, parent) && path[0] >= k
    ensures states[path[|path| - 1]].name in Substates(states, parent, true, k, tree)
    decreases tree(parent), |states| - k
  {
    var s := states[k];
    if path[0] == k {
      if |path| > 1 {
        var rest := path[1..];
        forall i | 0 <= i < |rest| - 1
          ensures states[rest[i]].composite && states[rest[i + 1]].parent == states[rest[i]].name
        {
          assert rest[i] == path[i + 1] && rest[i + 1] == path[i + 1 + 1];
        }
        assert path[0 + 1] == rest[0] && states[rest[0]].parent == s.name;
        BelowAreSubstates(states, rest, s.name, 0, tree);
      }
    } else {
      BelowAreSubstates(states, path, parent, k + 1, tree);
    }
  }

  lemma {:induction false} ChildIsSubstate(states: seq<State>, parent: string, k: nat, i: nat, tree: string -> nat)
    requires k <= i < |states| && TreeEnds(states, tree) && states[i].parent == parent
    ensures states[i].name in Substates(states, parent, false, k, tree)
    decreases i - k
  {
    if k < i { ChildIsSubstate(states, parent, k + 1, i, tree); }
  }

  /** The substates history may restore are exactly those. */
  lemma SubstatesExactly(states: seq<State>, parent: string, deep: bool, sub: string, tree: string -> nat)
    requires TreeEnds(states, tree)
    ensures sub in Substates(states, parent, deep, 0, tree) <==> IsSubstate(states, parent, deep, 0, sub)
  {
    if sub in Substates(states, parent, deep, 0, tree) { SubstatesAreBelow(states, parent, deep, 0, sub, tree); }
    if IsSubstate(states, parent, deep, 0, sub) {
      if deep {
        var path :| WayDown(states, path, parent) && states[path[|path| - 1]].name == sub;
        BelowAreSubstates(states, path, parent, 0, tree);
      } else {
        var i :| 0 <= i < |states| && states[i].parent == parent && states[i].name == sub;
        ChildIsSubstate(states, parent, 0, i, tree);
      }
    }
  }

  /** Of two children the one declared first contributes first. */
  lemma SubstatesInOrder(states: seq<State>, parent: string, deep: bool, i: nat, j: nat, tree: string -> nat)
    returns (a: seq<string>, b: seq<string>, c: seq<string>)
    requires i < j < |states| && TreeEnds(states, tree) && states[i].parent == parent == states[j].parent
    ensures Substates(states, parent, deep, 0, tree) ==
      a + Contributes(states, i, deep, tree) + (b + Contributes(states, j, deep, tree) + c)
  {
    a := ChildSplits(states, parent, deep, 0, i, tree);
    b := ChildSplits(states, parent, deep, i + 1, j, tree);
    c := Substates(states, parent, deep, j + 1, tree);
  }

  lemma {:induction false} ChildSplits(states: seq<State>, parent: string, deep: bool, k: nat, j: nat,
                                       tree: string -> nat) returns (b: seq<string>)
    requires k <= j < |states| && TreeEnds(states, tree) && states[j].parent == parent
    ensures Substates(states, parent, deep, k, tree) ==
      b + Contributes(states, j, deep, tree) + Substates(states, parent, deep, j + 1, tree)
    decreases j - k
  {
    var y, z := Contributes(states, j, deep, tree), Substates(states, parent, deep, j + 1, tree);
    SubstatesStep(states, parent, deep, k, tree);
    hide Substates, Contributes;
    if k < j {
      var more := ChildSplits(states, parent, deep, k + 1, j, tree);
      b := (if states[k].parent == parent then Contributes(states, k, deep, tree) else []) + more;
      Regroup(if states[k].parent == parent then Contributes(states, k, deep, tree) else [], more, y, z);
    } else {
      b := [];
      Regroup([], [], y, z);
    }
  }

  lemma Regroup(a: seq<string>, b: seq<string>, c: seq<string>, d: seq<string>)
    ensures a + (b + c + d) == (a + b) + c + d
    ensures c + d == [] + c + d
  {
  }

  // ----------------------------------------------------------------- records

  predicate Records(history: map<string, string>, x: string, y: string) { x in history && history[x] == y != "" }

  /** Each name on the way is what history records for the one before. */
  predicate FollowsRecords(history: map<string, string>, path: seq<string>) {
    |path| > 0 && forall i :: 0 <= i < |path| - 1 ==> Records(history, path[i], path[i + 1])
  }

  lemma {:induction false} RecallsAlong(history: map<string, string>, path: seq<string>, steps: nat)
    requires FollowsRecords(history, path) && 1 < |path| <= steps + 1
    ensures Recalls(history, path[0], path[|path| - 1], steps)
    decreases steps
  {
    assert Records(history, path[0], path[0 + 1]);
    if |path| > 2 {
      var rest := path[1..];
      forall i | 0 <= i < |rest| - 1 ensures Records(history, rest[i], rest[i + 1]) {
        assert Records(history, path[i + 1], path[i + 1 + 1]);
      }
      RecallsAlong(history, rest, steps - 1);
    }
  }

  lemma {:induction false} RecallsPath(history: map<string, string>, composite: string, sub: string, steps: nat)
    returns (path: seq<string>)
    requires Recalls(history, composite, sub, steps)
    ensures FollowsRecords(history, path) && 1 < |path| <= steps + 1
    ensures path[0] == composite && path[|path| - 1] == sub
    decreases steps
  {
    if history[composite] == sub {
      path := [composite, sub];
    } else {
      var rest := RecallsPath(history, history[composite], sub, steps - 1);
      path := [composite] + rest;
      forall i | 0 <= i < |path| - 1 ensures Records(history, path[i], path[i + 1]) {
        if i > 0 { assert Records(history, rest[i - 1], rest[i - 1 + 1]); }
      }
    }
  }

  /** A substate is recorded exactly when the records lead to it. */
  lemma RecordedExactly(history: map<string, string>, composite: string, sub: string)
    ensures Recorded(history, composite, sub) <==>
      exists path :: FollowsRecords(history, path) && 1 < |path| <= |history| + 1
                     && path[0] == composite && path[|path| - 1] == sub
  {
    if Recorded(history, composite, sub) {
      var path := RecallsPath(history, composite, sub, |history|);
    }
    if path :| FollowsRecords(history, path) && 1 < |path| <= |history| + 1
               && path[0] == composite && path[|path| - 1] == sub {
      RecallsAlong(history, path, |history|);
    }
  }

  /** Where a transition with that target leads, by the declared states and the records alone. */
  ghost predicate Leads(states: seq<State>, target: string, history: map<string, string>, d: string) {
    var t := FindState(states, target);
    if t.None? || !t.value.composite then d == target
    else
      var restored := (sub: string) => IsSubstate(states, target, t.value.deepHistory, 0, sub)
                                       && Recorded(history, target, sub);
      if t.value.history && exists sub :: restored(sub) then restored(d)
      else if t.value.initialSub != "" then ComesTo(states, t.value.initialSub, d)
      else if t.value.history && exists sub :: IsSubstate(states, target, t.value.deepHistory, 0, sub) then
        exists sub :: IsSubstate(states, target, t.value.deepHistory, 0, sub) && ComesTo(states, sub, d)
      else d == target
  }

  /** Going down initial substates from `start` ends in `d`. */
  ghost predicate ComesTo(states: seq<State>, start: string, d: string) {
    && (exists path :: Descends(states, path) && path[0] == start && path[|path| - 1] == d)
    && forall sub :: !Starts(states, d, sub)
  }

  lemma LeafIsComeTo(states: seq<State>, start: string, chain: string -> nat)
    requires ChainEnds(states, chain)
    ensures ComesTo(states, start, InitialLeaf(states, start, chain))
  {
    var path := LeafEndsTheWay(states, start, chain);
  }

  /** The destination of a transition is such a place. */
  lemma DestinationLeads(states: seq<State>, target: string, history: map<string, string>, chain: string -> nat,
                         tree: string -> nat)
    requires ChainEnds(states, chain) && TreeEnds(states, tree)
    ensures Leads(states, target, history, Destination(states, target, history, chain, tree))
  {
    hide ComesTo, IsSubstate, Recorded;
    var found := FindState(states, target);
    if found.Some? && found.value.composite {
      var t := found.value;
      var subs := Substates(states, target, t.deepHistory, 0, tree);
      forall sub ensures sub in subs <==> IsSubstate(states, target, t.deepHistory, 0, sub) {
        SubstatesExactly(states, target, t.deepHistory, sub, tree);
      }
      if t.initialSub != "" { LeafIsComeTo(states, t.initialSub, chain); }
      if |subs| > 0 {
        assert subs[0] in subs;
        LeafIsComeTo(states, subs[0], chain);
      }
    }
  }
}
