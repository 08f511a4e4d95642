/** The walk both diagram printers make over the state tree and the transitions. */
module Diagram {
  import opened Text
  import opened Ir
  import opened Order
  import opened GraphSpec
  import opened GraphProps
  import opened Traps

  /** A printed line: a state opened or shown as a leaf, a transition, or the end of the block opened last. */
  datatype Line = OpenState(index: nat) | LeafState(index: nat) | Arrow(edge: nat) | CloseState

  // -------------------------------------------------------------- the tree

  /** What normalised models with unique names look like. */
  ghost predicate WellShaped(states: seq<State>, depth: string -> nat, height: nat) {
    && Forest(states, depth, height) && UniqueNames(states) && ParentsDeclared(states) && CompositeExactly(states)
    && forall k :: 0 <= k < |states| ==> states[k].name != ""
  }

  /** States printed below the scope `parent`, from declaration `k` on, in printing order. */
  ghost function Walk(states: seq<State>, parent: string, k: nat, depth: string -> nat, height: nat): seq<nat>
    requires k <= |states| && Forest(states, depth, height)
    decreases Below(height, depth(parent)), |states| - k
  {
    if k == |states| then []
    else
      (if states[k].parent != parent then []
       else [k] + if states[k].composite then Walk(states, states[k].name, 0, depth, height) else [])
      + Walk(states, parent, k + 1, depth, height)
  }

  ghost function IndexOf(states: seq<State>, name: string): (i: nat)
    requires Declared(states, name)
    ensures i < |states| && states[i].name == name
  {
    var i :| 0 <= i < |states| && states[i].name == name;
    i
  }

  /** `p` is an enclosing scope of state `i`; the root scope "" encloses all. */
  ghost predicate Encloses(states: seq<State>, p: string, i: nat, depth: string -> nat, height: nat)
    requires WellShaped(states, depth, height) && i < |states|
    decreases depth(states[i].name)
  {
    var q := states[i].parent;
    assert states[i] in states;
    q == p || (q != "" && Encloses(states, p, IndexOf(states, q), depth, height))
  }

  /** The child of `p` through which state `i` hangs below `p`. */
  ghost function Branch(states: seq<State>, p: string, i: nat, depth: string -> nat, height: nat): nat
    requires WellShaped(states, depth, height) && i < |states| && Encloses(states, p, i, depth, height)
    decreases depth(states[i].name)
  {
    var q := states[i].parent;
    assert states[i] in states;
    if q == p then i else Branch(states, p, IndexOf(states, q), depth, height)
  }

  lemma {:induction false} EnclosesIsAbove(states: seq<State>, p: string, i: nat, depth: string -> nat, height: nat)
    requires WellShaped(states, depth, height) && i < |states| && Encloses(states, p, i, depth, height)
    ensures depth(p) < depth(states[i].name) && HasChild(states, p)
    decreases depth(states[i].name)
  {
    assert states[i] in states;
    if states[i].parent != p { EnclosesIsAbove(states, p, IndexOf(states, states[i].parent), depth, height); }
  }

  lemma {:induction false} RootEncloses(states: seq<State>, i: nat, depth: string -> nat, height: nat)
    requires WellShaped(states, depth, height) && i < |states|
    ensures Encloses(states, "", i, depth, height)
    decreases depth(states[i].name)
  {
    assert states[i] in states;
    if states[i].parent != "" { RootEncloses(states, IndexOf(states, states[i].parent), depth, height); }
  }

  /** A state is a child of `p` or below one of its children: it is so for exactly one child. */
  lemma {:induction false} OneBranch(states: seq<State>, p: string, k: nat, i: nat, depth: string -> nat, height: nat)
    requires WellShaped(states, depth, height) && i < |states| && k < |states| && states[k].parent == p
    ensures i == k || Encloses(states, states[k].name, i, depth, height)
      <==> Encloses(states, p, i, depth, height) && Branch(states, p, i, depth, height) == k
    ensures !(i == k && Encloses(states, states[k].name, i, depth, height))
    decreases depth(states[i].name)
  {
    var q := states[i].parent;
    assert states[i] in states && states[k] in states;
    if Encloses(states, states[k].name, i, depth, height) { EnclosesIsAbove(states, states[k].name, i, depth, height); }
    if q != p && q != "" {
      var j := IndexOf(states, q);
      OneBranch(states, p, k, j, depth, height);
      assert states[k].name == q ==> j == k;
    }
    if q == p && i != k && p != "" {
      var j := IndexOf(states, p);
      if Encloses(states, states[k].name, j, depth, height) {
        EnclosesIsAbove(states, states[k].name, j, depth, height);
      }
    }
  }

  ghost function BlockOf(states: seq<State>, k: nat, depth: string -> nat, height: nat): seq<nat>
    requires k < |states| && Forest(states, depth, height)
  {
    if states[k].composite then Walk(states, states[k].name, 0, depth, height) else []
  }

  lemma WalkStep(states: seq<State>, p: string, k: nat, depth: string -> nat, height: nat)
    requires k < |states| && Forest(states, depth, height)
    ensures Walk(states, p, k, depth, height) ==
      if states[k].parent == p then [k] + BlockOf(states, k, depth, height) + Walk(states, p, k + 1, depth, height)
      else Walk(states, p, k + 1, depth, height)
  {
  }

  lemma WalkEnds(states: seq<State>, p: string, depth: string -> nat, height: nat)
    requires Forest(states, depth, height)
    ensures Walk(states, p, |states|, depth, height) == []
  {
  }

  lemma ChildIsDeeper(states: seq<State>, k: nat, depth: string -> nat, height: nat)
    requires k < |states| && Forest(states, depth, height)
    ensures Below(height, depth(states[k].name)) < Below(height, depth(states[k].parent))
  {
    assert states[k] in states;
  }

  /** The walk from child `k` on prints exactly the states below those children, each once. */
  lemma {:induction false} WalkCounts(states: seq<State>, p: string, k: nat, i: nat, depth: string -> nat, height: nat)
    requires WellShaped(states, depth, height) && k <= |states| && i < |states|
    ensures multiset(Walk(states, p, k, depth, height))[i] ==
      if Encloses(states, p, i, depth, height) && Branch(states, p, i, depth, height) >= k then 1 else 0
    decreases Below(height, depth(p)), |states| - k
  {
    hide Encloses, Branch, BlockOf, UniqueNames, ParentsDeclared, CompositeExactly, Forest, Walk;
    WalkEnds(states, p, depth, height);
    if Encloses(states, p, i, depth, height) { BranchIsState(states, p, i, depth, height); }
    if k < |states| {
      ChildIsDeeper(states, k, depth, height);
      WalkCounts(states, p, k + 1, i, depth, height);
      WalkStep(states, p, k, depth, height);
      if states[k].parent == p {
        OneBranch(states, p, k, i, depth, height);
        BelowCounts(states, k, i, depth, height);
        CountOfThree(k, BlockOf(states, k, depth, height), Walk(states, p, k + 1, depth, height), i);
      }
    }
  }

  lemma CountOfThree(k: nat, block: seq<nat>, rest: seq<nat>, i: nat)
    ensures multiset([k] + block + rest)[i] == (if i == k then 1 else 0) + multiset(block)[i] + multiset(rest)[i]
  {
    assert multiset([k] + block + rest) == multiset([k]) + multiset(block) + multiset(rest);
  }

  lemma {:induction false} BelowCounts(states: seq<State>, k: nat, i: nat, depth: string -> nat, height: nat)
    requires WellShaped(states, depth, height) && k < |states| && i < |states|
    ensures multiset(BlockOf(states, k, depth, height))[i] ==
      if Encloses(states, states[k].name, i, depth, height) then 1 else 0
    decreases Below(height, depth(states[k].name)), |states| + 1
  {
    if states[k].composite {
      WalkCounts(states, states[k].name, 0, i, depth, height);
    } else if Encloses(states, states[k].name, i, depth, height) {
      EnclosesIsAbove(states, states[k].name, i, depth, height);
    }
  }

  lemma {:induction false} BranchIsState(states: seq<State>, p: string, i: nat, depth: string -> nat, height: nat)
    requires WellShaped(states, depth, height) && i < |states| && Encloses(states, p, i, depth, height)
    ensures Branch(states, p, i, depth, height) < |states|
    ensures states[Branch(states, p, i, depth, height)].parent == p
    decreases depth(states[i].name)
  {
    assert states[i] in states;
    if states[i].parent != p { BranchIsState(states, p, IndexOf(states, states[i].parent), depth, height); }
  }

  /** The walk from the root prints every state exactly once. */
  lemma WalkIsComplete(states: seq<State>, i: nat, depth: string -> nat, height: nat)
    requires WellShaped(states, depth, height) && i < |states|
    ensures multiset(Walk(states, "", 0, depth, height))[i] == 1
  {
    RootEncloses(states, i, depth, height);
    WalkCounts(states, "", 0, i, depth, height);
  }

  // ------------------------------------------------------------- the lines

  function StatesOf(out: seq<Line>): seq<nat> {
    if |out| == 0 then []
    else
      var l := out[|out| - 1];
      StatesOf(out[..|out| - 1]) + if l.OpenState? || l.LeafState? then [l.index] else []
  }

  function ArrowsOf(out: seq<Line>): seq<nat> {
    if |out| == 0 then []
    else
      var l := out[|out| - 1];
      ArrowsOf(out[..|out| - 1]) + if l.Arrow? then [l.edge] else []
  }

  /** The blocks still open after these lines, the innermost last. */
  function Blocks(out: seq<Line>): seq<nat> {
    if |out| == 0 then []
    else
      var l, before := out[|out| - 1], Blocks(out[..|out| - 1]);
      if l.OpenState? then before + [l.index]
      else if l.CloseState? && |before| > 0 then before[..|before| - 1]
      else before
  }

  /** The name of the innermost open block; "" outside all blocks. */
  function Current(states: seq<State>, out: seq<Line>): string {
    var b := Blocks(out);
    if |b| > 0 && b[|b| - 1] < |states| then states[b[|b| - 1]].name else ""
  }

  /** The transitions printed directly inside block `p`, in printing order. */
  function ArrowsIn(states: seq<State>, out: seq<Line>, p: string): seq<nat> {
    if |out| == 0 then []
    else
      var l, before := out[|out| - 1], out[..|out| - 1];
      ArrowsIn(states, before, p) + if l.Arrow? && Current(states, before) == p then [l.edge] else []
  }

  /** The scope a transition belongs to: the parent of its source. */
  function ScopeOf(states: seq<State>, e: Edge): string {
    match FindState(states, e.source)
    case None => ""
    case Some(s) => s.parent
  }

  /** Each state stands in the block of its parent, each transition in the block of its source's parent. */
  predicate Placed(states: seq<State>, edges: seq<Edge>, out: seq<Line>) {
    forall j :: 0 <= j < |out| ==> Fits(states, edges, out[..j], out[j])
  }

  predicate Fits(states: seq<State>, edges: seq<Edge>, before: seq<Line>, l: Line) {
    match l
    case OpenState(k) => k < |states| && Current(states, before) == states[k].parent
    case LeafState(k) => k < |states| && Current(states, before) == states[k].parent
    case Arrow(e) => e < |edges| && Current(states, before) == ScopeOf(states, edges[e])
    case CloseState => Blocks(before) != []
  }

  /** All transitions whose source lies directly in that scope are printed. */
  predicate Served(states: seq<State>, edges: seq<Edge>, scope: string, emitted: set<nat>) {
    forall e :: 0 <= e < |edges| && ScopeOf(states, edges[e]) == scope ==> e in emitted
  }

  /** The transitions of one scope, in the order in which transitions are looked at. */
  function InScope(states: seq<State>, edges: seq<Edge>, order: seq<nat>, scope: string): seq<nat> {
    if |order| == 0 then []
    else
      var e := order[|order| - 1];
      InScope(states, edges, order[..|order| - 1], scope)
      + if e < |edges| && ScopeOf(states, edges[e]) == scope then [e] else []
  }

  function Numbers(n: nat): seq<nat> { if n == 0 then [] else Numbers(n - 1) + [n - 1] }

  lemma {:induction false} NumbersCount(n: nat, e: nat)
    ensures multiset(Numbers(n))[e] == if e < n then 1 else 0
  {
    if n > 0 { NumbersCount(n - 1, e); }
  }

  /** An order of printing: some arrangement of all transition indices. */
  predicate IsOrder(order: seq<nat>, n: nat) {
    multiset(order) == multiset(Numbers(n))
  }
}
