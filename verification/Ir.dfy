/** States and transitions of the intermediate representation, as far as the model uses them. */
module Ir {
  import opened Text
  import Guard

  datatype StateKind =
    | Atomic | Composite | Parallel | Initial | Final | ShallowHistory | DeepHistory
    | Choice | Junction | Fork | Join | EntryPoint | ExitPoint | Terminate

  datatype State = State(
    id: string, name: string, fqn: string, kind: StateKind, parent: string, children: seq<string>,
    composite: bool, pinned: bool, initialSub: string, history: bool, deepHistory: bool,
    entryActions: seq<string>, exitActions: seq<string>, activity: Option<string>,
    requirements: seq<string>, deferred: seq<string>, outgoing: seq<nat>, incoming: seq<nat>)

  datatype Trigger =
    | SignalTrigger(signal: string)
    | TimeTrigger(every: bool, milliseconds: nat, dynamic: string)
    | OtherTrigger(display: string)

  datatype EdgeKind = External | Internal | Local

  /** A priority is an unsigned 32-bit number; 0 stands for none given. */
  type Priority = n: nat | n < 0x1_0000_0000

  datatype Edge = Edge(
    source: string, target: string, sourceIds: seq<string>, targetIds: seq<string>,
    event: string, guard: Option<string>, guardAst: Option<Guard.Guard>, trigger: Trigger,
    conditionAction: Option<string>, transitionAction: Option<string>,
    kind: EdgeKind, priority: Priority, parentScope: string)

  /** The state a name stands for: the first of that name. */
  function FindState(states: seq<State>, name: string): (r: Option<State>)
    ensures r.Some? ==> r.value in states && r.value.name == name
    ensures r.None? ==> forall s :: s in states ==> s.name != name
  {
    if |states| == 0 then None
    else if states[0].name == name then Some(states[0])
    else FindState(states[1..], name)
  }

  /** The hierarchy is a forest: parents lie strictly above, down to a greatest depth. */
  ghost predicate Forest(states: seq<State>, depth: string -> nat, height: nat) {
    forall s :: s in states ==> depth(s.parent) < depth(s.name) <= height
  }

  /** How far a depth lies above the floor. */
  ghost function Below(height: nat, d: nat): nat { if d <= height then height - d + 1 else 0 }

  predicate UniqueNames(states: seq<State>) {
    forall i, j :: 0 <= i < j < |states| ==> states[i].name != states[j].name
  }

  lemma {:induction false} FindsTheOne(states: seq<State>, i: nat)
    requires UniqueNames(states) && i < |states|
    ensures FindState(states, states[i].name) == Some(states[i])
  {
    if i > 0 {
      assert states[0].name != states[i].name;
      FindsTheOne(states[1..], i - 1);
    }
  }
}
