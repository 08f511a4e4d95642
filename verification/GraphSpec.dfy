/** What the graph operations make of a model: each of them as a function on its contents. */
module GraphSpec {
  import opened Text
  import opened Ir
  import opened Order
  import opened Priority
  import Guard
  import Fnv
  import Strings

  /** A named definition: port, signal, variable, type, property, guard or action. */
  datatype Item = Item(name: string, detail: string)

  datatype Graph = Graph(
    id: string, name: string, package: string, initial: string, initialId: string,
    states: seq<State>, edges: seq<Edge>,
    ports: seq<Item>, signals: seq<Item>, variables: seq<Item>, types: seq<Item>, properties: seq<Item>,
    guards: seq<Item>, actions: seq<Item>)

  // -------------------------------------------------------------- hierarchy

  /** Puts the first state of that name at the root, unless `respectPin` and it is pinned. */
  function Uproot(states: seq<State>, name: string, respectPin: bool): (r: seq<State>)
    ensures |r| == |states|
  {
    if |states| == 0 then []
    else if states[0].name == name then
      [if respectPin && states[0].pinned then states[0] else states[0].(parent := "")] + states[1..]
    else [states[0]] + Uproot(states[1..], name, respectPin)
  }

  function UprootSources(states: seq<State>, edges: seq<Edge>): (r: seq<State>)
    ensures |r| == |states|
  {
    if |edges| == 0 then states
    else
      var e, before := edges[|edges| - 1], UprootSources(states, edges[..|edges| - 1]);
      if e.parentScope == "" && e.source != "" then Uproot(before, e.source, true) else before
  }

  function UprootInitial(states: seq<State>, initial: string): (r: seq<State>)
    ensures |r| == |states|
  {
    if initial == "" then states else Uproot(states, initial, false)
  }

  /** Identifiers of the states whose parent has that name, among the first `k`. */
  function ChildIds(states: seq<State>, name: string, k: nat): seq<string>
    requires k <= |states|
  {
    if k == 0 then []
    else ChildIds(states, name, k - 1) + if states[k - 1].parent == name then [states[k - 1].id] else []
  }

  predicate HasChild(states: seq<State>, name: string) {
    exists i :: 0 <= i < |states| && states[i].parent == name
  }

  function WithChildren(states: seq<State>, s: State): State {
    var composite := HasChild(states, s.name) || s.initialSub != "";
    s.(children := ChildIds(states, s.name, |states|),
       composite := composite,
       kind := if composite && s.kind == Atomic then Composite else s.kind)
  }

  function RebuildChildren(states: seq<State>): (r: seq<State>)
    ensures |r| == |states|
    ensures forall i :: 0 <= i < |states| ==> r[i] == WithChildren(states, states[i])
  {
    seq(|states|, i requires 0 <= i < |states| => WithChildren(states, states[i]))
  }

  function NormalStates(states: seq<State>, initial: string, edges: seq<Edge>): seq<State> {
    RebuildChildren(UprootSources(UprootInitial(states, initial), edges))
  }

  function Normalized(g: Graph): Graph {
    g.(states := NormalStates(g.states, g.initial, g.edges))
  }

  // -------------------------------------------------------------- adjacency

  /** The transition leaves the state `x`. */
  predicate Leaves(e: Edge, x: string) { (e.source == x && x != "") || (x in e.sourceIds && x != e.source) }

  predicate Reaches(e: Edge, x: string) { (e.target == x && x != "") || (x in e.targetIds && x != e.target) }

  /** The indices of the transitions in `edges[..n]` that satisfy `p`, in order. */
  function Indices(edges: seq<Edge>, n: nat, p: Edge -> bool): seq<nat>
    requires n <= |edges|
  {
    if n == 0 then [] else Indices(edges, n - 1, p) + if p(edges[n - 1]) then [n - 1] else []
  }

  function LeavesFrom(x: string): Edge -> bool { (e: Edge) => Leaves(e, x) }

  function ReachesTo(x: string): Edge -> bool { (e: Edge) => Reaches(e, x) }

  predicate FirstOfName(states: seq<State>, k: nat)
    requires k < |states|
  {
    forall j :: 0 <= j < k ==> states[j].name != states[k].name
  }

  /** State `k` with its two transition lists; of several states with one name the first has them. */
  function WithLists(states: seq<State>, edges: seq<Edge>, n: nat, k: nat): State
    requires n <= |edges| && k < |states|
  {
    var s := states[k];
    if FirstOfName(states, k) then
      s.(outgoing := Indices(edges, n, LeavesFrom(s.name)), incoming := Indices(edges, n, ReachesTo(s.name)))
    else s.(outgoing := [], incoming := [])
  }

  function Adjacent(states: seq<State>, edges: seq<Edge>, n: nat): (r: seq<State>)
    requires n <= |edges|
    ensures |r| == |states|
    ensures forall k :: 0 <= k < |states| ==> r[k] == WithLists(states, edges, n, k)
  {
    seq(|states|, k requires 0 <= k < |states| => WithLists(states, edges, n, k))
  }

  // ------------------------------------------------------------- interfaces

  predicate Mentioned(items: seq<Item>, name: string) {
    exists i :: 0 <= i < |items| && items[i].name == name
  }

  /** Appends each name that is not there yet. */
  function AddAll(items: seq<Item>, names: seq<string>): seq<Item> {
    if |names| == 0 then items
    else
      var before := AddAll(items, names[..|names| - 1]);
      var name := names[|names| - 1];
      if Mentioned(before, name) then before else before + [Item(name, "")]
  }

  predicate ValidIdent(s: string) {
    |s| > 0 && (IsAlpha(s[0]) || s[0] == '_') && forall k :: 0 <= k < |s| ==> IsWordChar(s[k])
  }

  predicate IsGuardName(t: string) {
    ValidIdent(t) && t != "true" && t != "false" && t != "else" && t != "otherwise" && t != "default"
    && t != "fsm" && t != "and_" && t != "or_" && t != "not_"
  }

  /** The words of a guard text that name guards, `pending` being the word read so far. */
  function Tokens(raw: string, pending: string): seq<string> {
    if |raw| == 0 then if IsGuardName(pending) then [pending] else []
    else if IsWordChar(raw[0]) then Tokens(raw[1..], pending + [raw[0]])
    else (if IsGuardName(pending) then [pending] else []) + Tokens(raw[1..], "")
  }

  function TokensOf(raws: seq<string>): seq<string> {
    if |raws| == 0 then [] else TokensOf(raws[..|raws| - 1]) + Tokens(raws[|raws| - 1], "")
  }

  function RawGuards(e: Edge): seq<string> {
    if e.guardAst.Some? then Guard.Atoms(e.guardAst.value)
    else if e.guard.Some? && e.guard.value != "" then [e.guard.value]
    else []
  }

  function GuardNames(edges: seq<Edge>): seq<string> {
    if |edges| == 0 then []
    else GuardNames(edges[..|edges| - 1]) + TokensOf(RawGuards(edges[|edges| - 1]))
  }

  function NonEmpty(names: seq<string>): seq<string> {
    if |names| == 0 then []
    else NonEmpty(names[..|names| - 1]) + if names[|names| - 1] == "" then [] else [names[|names| - 1]]
  }

  function OneName(o: Option<string>): seq<string> { if o.Some? then [o.value] else [] }

  function EdgeActions(edges: seq<Edge>): seq<string> {
    if |edges| == 0 then []
    else
      var e := edges[|edges| - 1];
      EdgeActions(edges[..|edges| - 1]) + NonEmpty(OneName(e.conditionAction) + OneName(e.transitionAction))
  }

  function StateActions(states: seq<State>): seq<string> {
    if |states| == 0 then []
    else
      var s := states[|states| - 1];
      StateActions(states[..|states| - 1]) + NonEmpty(s.entryActions + s.exitActions)
  }

  predicate IsEventName(e: string) {
    e != "" && e != "anonymous_event" && e != "completion_event" && ValidIdent(e)
  }

  function EventNames(edges: seq<Edge>): seq<string> {
    if |edges| == 0 then []
    else
      var last := edges[|edges| - 1].event;
      EventNames(edges[..|edges| - 1]) + if IsEventName(last) then [last] else []
  }

  function Synced(g: Graph): Graph {
    g.(guards := AddAll(g.guards, GuardNames(g.edges)),
       actions := AddAll(g.actions, EdgeActions(g.edges) + StateActions(g.states)),
       signals := AddAll(g.signals, EventNames(g.edges)))
  }

  // -------------------------------------------------------- canonical form

  predicate NameOrder(a: Item, b: Item) { Strings.AtMost(a.name, b.name) }

  predicate FqnOrder(a: State, b: State) { Strings.AtMost(a.fqn, b.fqn) }

  /** Guard text and guard tree of a transition, made to agree. */
  function AgreeGuard(e: Edge): Edge {
    if e.guardAst.Some? then
      if e.guard.None? || e.guard.value != Guard.ToCpp(e.guardAst.value)
      then e.(guard := Some(Guard.ToCpp(e.guardAst.value))) else e
    else if e.guard.Some? && e.guard.value != "" then
      e.(guardAst := Some(Guard.Guard(Guard.Atomic, e.guard.value, [])))
    else e
  }

  function AgreeGuards(edges: seq<Edge>): (r: seq<Edge>)
    ensures |r| == |edges| && forall i :: 0 <= i < |edges| ==> r[i] == AgreeGuard(edges[i])
  {
    seq(|edges|, i requires 0 <= i < |edges| => AgreeGuard(edges[i]))
  }

  function Bytes(s: string): seq<Fnv.Byte> {
    seq(|s|, i requires 0 <= i < |s| => (s[i] as int) % 256)
  }

  function ModelId(g: Graph): string {
    if g.id == "" then Fnv.Id(Bytes(g.name + if g.package == "" then "" else "_" + g.package)) else g.id
  }

  /** Everything up to the synchronisation of the interfaces. */
  function Arranged(g: Graph): Graph {
    g.(id := ModelId(g),
       initialId := if g.initialId == "" && g.initial != "" then g.initial else g.initialId,
       edges := Canonical(AgreeGuards(g.edges)),
       states := Sort(g.states, FqnOrder),
       ports := Sort(g.ports, NameOrder),
       signals := Sort(g.signals, NameOrder),
       variables := Sort(g.variables, NameOrder),
       types := Sort(g.types, NameOrder),
       properties := Sort(g.properties, NameOrder))
  }

  /** What follows the synchronisation. */
  function Indexed(g: Graph): Graph {
    g.(guards := Sort(g.guards, NameOrder),
       actions := Sort(g.actions, NameOrder),
       states := Adjacent(g.states, g.edges, |g.edges|))
  }

  function Canonicalized(g: Graph): Graph { Indexed(Synced(Arranged(g))) }
}
