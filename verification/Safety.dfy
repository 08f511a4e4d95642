/** The safety pass: which states can be reached, and which ones trap the machine. */
module Safety {
  import opened Text
  import opened Ir

  predicate IsChoice(states: seq<State>, choices: seq<string>, name: string) {
    name in choices || (FindState(states, name).Some? && FindState(states, name).value.kind == Choice)
  }

  // ------------------------------------------------------------ reachability

  /** Closed under entering substates and enclosing states. */
  predicate HierarchyClosed(states: seq<State>, set0: set<string>) {
    && (forall s :: s in states && s.parent in set0 ==> s.name in set0)
    && (forall x :: x in set0 && Enclosing(states, x) != "" ==> Enclosing(states, x) in set0)
  }

  predicate EdgesClosed(edges: seq<Edge>, set0: set<string>) {
    forall t :: t in edges && t.source in set0 && t.target != "" ==> t.target in set0
  }

  predicate Closed(states: seq<State>, edges: seq<Edge>, root: string, set0: set<string>) {
    root in set0 && HierarchyClosed(states, set0) && EdgesClosed(edges, set0)
  }

  /** The parent of a declared state, "" for anything else. */
  function Enclosing(states: seq<State>, name: string): string {
    match FindState(states, name)
    case None => ""
    case Some(s) => s.parent
  }

  /** Everything one state leads to is in the set. */
  predicate Expanded(states: seq<State>, edges: seq<Edge>, x: string, set0: set<string>) {
    && (forall s :: s in states && s.parent == x ==> s.name in set0)
    && (Enclosing(states, x) != "" ==> Enclosing(states, x) in set0)
    && (forall t :: t in edges && t.source == x && t.target != "" ==> t.target in set0)
  }

  ghost function Universe(states: seq<State>, edges: seq<Edge>, root: string): set<string> {
    {root} + (set s | s in states :: s.name) + (set s | s in states :: s.parent) + (set t | t in edges :: t.target)
  }

  /** Nothing that every closed set must hold is missing, and nothing else is in. */
  ghost predicate Within(states: seq<State>, edges: seq<Edge>, root: string, set0: set<string>) {
    && set0 <= Universe(states, edges, root)
    && forall c: set<string> :: Closed(states, edges, root, c) ==> set0 <= c
  }

  /** The state of the search while `current` is being expanded. */
  ghost predicate Searching(states: seq<State>, edges: seq<Edge>, root: string, reachable: set<string>,
                            queue: seq<string>, current: set<string>)
  {
    && root in reachable && current <= reachable
    && Within(states, edges, root, reachable)
    && (forall q :: q in queue ==> q in reachable)
    && (forall x :: x in reachable && x !in queue && x !in current ==> Expanded(states, edges, x, reachable))
  }

  /** Adding a name that `x` leads to keeps the search on course. */
  lemma Discover(states: seq<State>, edges: seq<Edge>, root: string, reachable: set<string>, queue: seq<string>,
                 x: string, name: string)
    requires Searching(states, edges, root, reachable, queue, {x})
    requires (exists s :: s in states && s.parent == x && s.name == name)
      || (name != "" && Enclosing(states, x) == name)
      || (name != "" && exists t :: t in edges && t.source == x && t.target == name)
    ensures Searching(states, edges, root, reachable + {name}, queue + [name], {x})
  {
    assert name in Universe(states, edges, root) by {
      if name != "" && Enclosing(states, x) == name {
        var s := FindState(states, x).value;
        assert s in states && s.parent == name;
      }
    }
    forall c: set<string> | Closed(states, edges, root, c) ensures reachable + {name} <= c {
      assert x in c;
    }
  }

  method Search(states: seq<State>, edges: seq<Edge>, root: string) returns (reachable: set<string>)
    ensures Closed(states, edges, root, reachable)
    ensures forall c: set<string> :: Closed(states, edges, root, c) ==> reachable <= c
  {
    reachable := {root};
    var queue := [root];
    while |queue| > 0
      invariant Searching(states, edges, root, reachable, queue, {})
      decreases Universe(states, edges, root) - reachable, |queue|
    {
      ghost var before, length := reachable, |queue|;
      var current := queue[0];
      queue := queue[1..];
      reachable, queue := AddChildren(states, edges, root, reachable, queue, current);
      reachable, queue := AddParent(states, edges, root, reachable, queue, current);
      reachable, queue := AddTargets(states, edges, root, reachable, queue, current);
      assert Expanded(states, edges, current, reachable);
      assert before != reachable ==> Universe(states, edges, root) - reachable < Universe(states, edges, root) - before;
    }
  }

  /** Only grows, and only names not yet known are queued. */
  predicate Grows(before: set<string>, queue: seq<string>, reachable: set<string>, longer: seq<string>) {
    before <= reachable && |queue| <= |longer| && (before == reachable ==> longer == queue)
  }

  method AddChildren(states: seq<State>, ghost edges: seq<Edge>, ghost root: string, known: set<string>,
                     waiting: seq<string>, current: string)
    returns (reachable: set<string>, queue: seq<string>)
    requires Searching(states, edges, root, known, waiting, {current})
    ensures Searching(states, edges, root, reachable, queue, {current}) && Grows(known, waiting, reachable, queue)
    ensures forall s :: s in states && s.parent == current ==> s.name in reachable
  {
    hide Searching;
    reachable, queue := known, waiting;
    for i := 0 to |states|
      invariant Searching(states, edges, root, reachable, queue, {current}) && Grows(known, waiting, reachable, queue)
      invariant forall j :: 0 <= j < i && states[j].parent == current ==> states[j].name in reachable
    {
      var s := states[i];
      if s.parent == current && s.name !in reachable {
        Discover(states, edges, root, reachable, queue, current, s.name);
        reachable, queue := reachable + {s.name}, queue + [s.name];
      }
    }
  }

  method AddParent(states: seq<State>, ghost edges: seq<Edge>, ghost root: string, known: set<string>,
                   waiting: seq<string>, current: string)
    returns (reachable: set<string>, queue: seq<string>)
    requires Searching(states, edges, root, known, waiting, {current})
    ensures Searching(states, edges, root, reachable, queue, {current}) && Grows(known, waiting, reachable, queue)
    ensures Enclosing(states, current) != "" ==> Enclosing(states, current) in reachable
  {
    reachable, queue := known, waiting;
    var state := FindState(states, current);
    if state.Some? && state.value.parent != "" && state.value.parent !in reachable {
      Discover(states, edges, root, reachable, queue, current, state.value.parent);
      reachable, queue := reachable + {state.value.parent}, queue + [state.value.parent];
    }
  }

  method AddTargets(ghost states: seq<State>, edges: seq<Edge>, ghost root: string, known: set<string>,
                    waiting: seq<string>, current: string)
    returns (reachable: set<string>, queue: seq<string>)
    requires Searching(states, edges, root, known, waiting, {current})
    ensures Searching(states, edges, root, reachable, queue, {current}) && Grows(known, waiting, reachable, queue)
    ensures forall t :: t in edges && t.source == current && t.target != "" ==> t.target in reachable
  {
    hide Searching;
    reachable, queue := known, waiting;
    for i := 0 to |edges|
      invariant Searching(states, edges, root, reachable, queue, {current}) && Grows(known, waiting, reachable, queue)
      invariant forall j :: 0 <= j < i && edges[j].source == current && edges[j].target != "" ==>
        edges[j].target in reachable
    {
      var t := edges[i];
      if t.source == current && t.target !in reachable && t.target != "" {
        Discover(states, edges, root, reachable, queue, current, t.target);
        reachable, queue := reachable + {t.target}, queue + [t.target];
      }
    }
  }
}
