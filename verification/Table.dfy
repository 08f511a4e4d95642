/**
 * The transition table of the C++ back end. Composite targets, history and initial substates
 * are flattened into rows; of the rows the first that matches is taken.
 */
module Table {
  import opened Text
  import opened Ir
  import opened Order
  import opened Priority

  // ------------------------------------------------------------------- rows

  datatype EventType = Anonymous | Named(name: string) | EveryMs(ms: nat) | AfterMs(ms: nat)

  datatype ActionType = NoAction | Single(name: string) | Both(first: string, second: string)

  datatype GuardType =
    | NoGuard
    | Holds(guard: string)
    | HistoryIs(composite: string, sub: string)
    | HoldsAndHistoryIs(guard: string, composite: string, sub: string)

  datatype Row =
    | GotoRow(source: string, event: EventType, target: string, action: ActionType, guard: GuardType)
    | InternalRow(source: string, event: EventType, action: ActionType, guard: GuardType)

  function EventOf(e: Edge): EventType {
    if e.trigger.TimeTrigger? then
      if e.trigger.milliseconds > 0 then
        if e.trigger.every then EveryMs(e.trigger.milliseconds) else AfterMs(e.trigger.milliseconds)
      else if e.trigger.dynamic != "" then AfterMs(1000)
      else AfterMs(0)
    else if e.event == "" then Anonymous
    else Named(e.event)
  }

  function GetAction(e: Edge): string {
    if e.transitionAction.Some? then e.transitionAction.value
    else if e.conditionAction.Some? then e.conditionAction.value
    else ""
  }

  function ActionOf(e: Edge): ActionType {
    if e.conditionAction.Some? && e.conditionAction.value != ""
       && e.transitionAction.Some? && e.transitionAction.value != ""
    then Both(e.conditionAction.value, e.transitionAction.value)
    else if GetAction(e) == "" then NoAction
    else Single(GetAction(e))
  }

  function GuardOf(e: Edge): Option<string> {
    match e.guard
    case None => None
    case Some(g) => if g == "" || g == "else" || g == "default" then None else Some(g)
  }

  function PlainGuard(g: Option<string>): GuardType {
    if g.None? then NoGuard else Holds(g.value)
  }

  function HistoryGuard(g: Option<string>, composite: string, sub: string): GuardType {
    if g.None? then HistoryIs(composite, sub) else HoldsAndHistoryIs(g.value, composite, sub)
  }

  // -------------------------------------------------------------- hierarchy

  /** Following initial substates goes down `chain`. */
  ghost predicate ChainEnds(states: seq<State>, chain: string -> nat) {
    forall s :: s in states && s.composite && s.initialSub != "" ==> chain(s.initialSub) < chain(s.name)
  }

  /** Going from a state to its children goes down `tree`. */
  ghost predicate TreeEnds(states: seq<State>, tree: string -> nat) {
    forall s :: s in states ==> tree(s.name) < tree(s.parent)
  }

  function InitialLeaf(states: seq<State>, name: string, ghost chain: string -> nat): string
    requires ChainEnds(states, chain)
    decreases chain(name)
  {
    match FindState(states, name)
    case None => name
    case Some(s) =>
      if s.composite && s.initialSub != "" then InitialLeaf(states, s.initialSub, chain) else name
  }

  function Substates(states: seq<State>, parent: string, deep: bool, k: nat, ghost tree: string -> nat): seq<string>
    requires k <= |states| && TreeEnds(states, tree)
    decreases tree(parent), |states| - k
  {
    if k == |states| then []
    else
      (if states[k].parent != parent then []
       else if deep && states[k].composite then Substates(states, states[k].name, deep, 0, tree)
       else [states[k].name])
      + Substates(states, parent, deep, k + 1, tree)
  }

  // -------------------------------------------------------------- expansion

  function HistoryRows(e: Edge, subs: seq<string>): seq<Row> {
    if |subs| == 0 then []
    else
      HistoryRows(e, subs[..|subs| - 1])
      + [GotoRow(e.source, EventOf(e), subs[|subs| - 1], ActionOf(e),
                 HistoryGuard(GuardOf(e), e.target, subs[|subs| - 1]))]
  }

  function Goto(e: Edge, target: string): Row {
    GotoRow(e.source, EventOf(e), target, ActionOf(e), PlainGuard(GuardOf(e)))
  }

  function Expand(states: seq<State>, e: Edge, ghost chain: string -> nat, ghost tree: string -> nat): seq<Row>
    requires ChainEnds(states, chain) && TreeEnds(states, tree)
  {
    match FindState(states, e.target)
    case Some(t) =>
      if t.composite then
        var subs := Substates(states, t.name, t.deepHistory, 0, tree);
        if t.history && |subs| > 0 then
          HistoryRows(e, subs)
          + [Goto(e, InitialLeaf(states, if t.initialSub != "" then t.initialSub else subs[0], chain))]
        else if t.initialSub != "" then [Goto(e, InitialLeaf(states, t.initialSub, chain))]
        else [Goto(e, e.target)]
      else if e.kind == Internal then [InternalRow(e.source, EventOf(e), ActionOf(e), PlainGuard(GuardOf(e)))]
      else [Goto(e, e.target)]
    case None =>
      if e.kind == Internal then [InternalRow(e.source, EventOf(e), ActionOf(e), PlainGuard(GuardOf(e)))]
      else [Goto(e, e.target)]
  }

  function ExpandAll(states: seq<State>, edges: seq<Edge>, ghost chain: string -> nat,
                     ghost tree: string -> nat): seq<Row>
    requires ChainEnds(states, chain) && TreeEnds(states, tree)
  {
    if |edges| == 0 then []
    else ExpandAll(states, edges[..|edges| - 1], chain, tree) + Expand(states, edges[|edges| - 1], chain, tree)
  }

  function TransitionTable(states: seq<State>, edges: seq<Edge>, ghost chain: string -> nat,
                           ghost tree: string -> nat): seq<Row>
    requires ChainEnds(states, chain) && TreeEnds(states, tree)
  {
    ExpandAll(states, ByUrgency(edges), chain, tree)
  }

  method EmitTransitionTable(states: seq<State>, edges: seq<Edge>, ghost chain: string -> nat,
                             ghost tree: string -> nat)
    returns (rows: seq<Row>)
    requires ChainEnds(states, chain) && TreeEnds(states, tree)
    ensures rows == TransitionTable(states, edges, chain, tree)
  {
    var sorted := Sort(edges, MoreUrgent);
    rows := [];
    for i := 0 to |sorted|
      invariant rows == ExpandAll(states, sorted[..i], chain, tree)
    {
      var t := sorted[i];
      assert sorted[..i + 1][..i] == sorted[..i];
      var more := EmitRows(states, t, chain, tree);
      rows := rows + more;
    }
    assert sorted[..|sorted|] == sorted;
  }

  method EmitRows(states: seq<State>, t: Edge, ghost chain: string -> nat, ghost tree: string -> nat)
    returns (rows: seq<Row>)
    requires ChainEnds(states, chain) && TreeEnds(states, tree)
    ensures rows == Expand(states, t, chain, tree)
  {
    var event, action, guard := EventOf(t), ActionOf(t), GuardOf(t);
    var node := FindState(states, t.target);
    if node.Some? && node.value.composite {
      var target := node.value;
      var subs := Substates(states, target.name, target.deepHistory, 0, tree);
      if target.history && |subs| > 0 {
        rows := [];
        for k := 0 to |subs|
          invariant rows == HistoryRows(t, subs[..k])
        {
          assert subs[..k + 1][..k] == subs[..k];
          rows := rows + [GotoRow(t.source, event, subs[k], action, HistoryGuard(guard, target.name, subs[k]))];
        }
        assert subs[..|subs|] == subs;
        var defaultSub := InitialLeaf(states, if target.initialSub != "" then target.initialSub else subs[0], chain);
        rows := rows + [GotoRow(t.source, event, defaultSub, action, PlainGuard(guard))];
      } else if target.initialSub != "" {
        rows := [GotoRow(t.source, event, InitialLeaf(states, target.initialSub, chain), action, PlainGuard(guard))];
      } else {
        rows := [GotoRow(t.source, event, t.target, action, PlainGuard(guard))];
      }
    } else if t.kind == Internal {
      rows := [InternalRow(t.source, event, action, PlainGuard(guard))];
    } else {
      rows := [GotoRow(t.source, event, t.target, action, PlainGuard(guard))];
    }
  }

  // ---------------------------------------------------------------- meaning

  /** What a step of the machine looks at. */
  datatype Situation = Situation(
    active: set<string>, event: EventType, holding: set<string>, history: map<string, string>)

  datatype Outcome = Stay(action: ActionType) | Enter(target: string, action: ActionType)

  /**
   * The walk of the history guard from `composite` along the records, at most `steps` of them;
   * no more than `|history|` are needed, since a recorded substate lies below its composite.
   */
  predicate Recalls(history: map<string, string>, composite: string, sub: string, steps: nat)
    decreases steps
  {
    steps > 0 && composite in history && history[composite] != ""
    && (history[composite] == sub || Recalls(history, history[composite], sub, steps - 1))
  }

  predicate Recorded(history: map<string, string>, composite: string, sub: string) {
    Recalls(history, composite, sub, |history|)
  }

  predicate GuardMet(g: GuardType, now: Situation) {
    match g
    case NoGuard => true
    case Holds(x) => x in now.holding
    case HistoryIs(c, s) => Recorded(now.history, c, s)
    case HoldsAndHistoryIs(x, c, s) => x in now.holding && Recorded(now.history, c, s)
  }

  predicate Matches(r: Row, now: Situation) {
    r.source in now.active && r.event == now.event && GuardMet(r.guard, now)
  }

  function RowMatcher(now: Situation): Row -> bool { (r: Row) => Matches(r, now) }

  function RowOutcome(r: Row): Outcome {
    match r
    case GotoRow(_, _, target, action, _) => Enter(target, action)
    case InternalRow(_, _, action, _) => Stay(action)
  }

  /** A transition hears `event`: its event name, or the kind and duration of its time trigger. */
  predicate Hears(e: Edge, event: EventType) {
    match event
    case Anonymous => !e.trigger.TimeTrigger? && e.event == ""
    case Named(name) => !e.trigger.TimeTrigger? && e.event == name != ""
    case EveryMs(ms) => e.trigger.TimeTrigger? && e.trigger.every && e.trigger.milliseconds == ms > 0
    case AfterMs(ms) =>
      e.trigger.TimeTrigger?
      && if e.trigger.milliseconds > 0 then !e.trigger.every && e.trigger.milliseconds == ms
         else ms == if e.trigger.dynamic == "" then 0 else 1000
  }

  /** No guard is given, or one that always holds, or it holds now. */
  predicate Allowed(e: Edge, holding: set<string>) {
    || e.guard == None || e.guard == Some("") || e.guard == Some("else") || e.guard == Some("default")
    || e.guard.value in holding
  }

  predicate Enabled(e: Edge, now: Situation) {
    e.source in now.active && Hears(e, now.event) && Allowed(e, now.holding)
  }

  /** `a` is what the transition says it does: a transition action, even an empty one, hides the other. */
  predicate Performs(e: Edge, a: ActionType) {
    match a
    case NoAction =>
      e.transitionAction == Some("")
      || (e.transitionAction == None && (e.conditionAction == None || e.conditionAction == Some("")))
    case Single(x) =>
      x != ""
      && ((e.transitionAction == Some(x) && (e.conditionAction == None || e.conditionAction == Some("")))
          || (e.transitionAction == None && e.conditionAction == Some(x)))
    case Both(x, y) => x != "" && y != "" && e.conditionAction == Some(x) && e.transitionAction == Some(y)
  }

  function EdgeMatcher(now: Situation): Edge -> bool { (e: Edge) => Enabled(e, now) }

  /** The first of the substates that is recorded for the composite. */
  function FirstRecorded(history: map<string, string>, composite: string, subs: seq<string>): (r: Option<string>)
    ensures r.Some? ==> r.value in subs && Recorded(history, composite, r.value)
    ensures r.None? ==> forall s :: s in subs ==> !Recorded(history, composite, s)
  {
    if |subs| == 0 then None
    else
      var r := FirstRecorded(history, composite, subs[..|subs| - 1]);
      if r.Some? then r
      else if Recorded(history, composite, subs[|subs| - 1]) then Some(subs[|subs| - 1])
      else None
  }

  /** Where a transition leads: the recorded substate, else the initial leaf, else the target itself. */
  function Destination(states: seq<State>, target: string, history: map<string, string>,
                       ghost chain: string -> nat, ghost tree: string -> nat): string
    requires ChainEnds(states, chain) && TreeEnds(states, tree)
  {
    match FindState(states, target)
    case None => target
    case Some(t) =>
      var subs := Substates(states, target, t.deepHistory, 0, tree);
      var recorded := FirstRecorded(history, target, subs);
      if t.composite && t.history && recorded.Some? then recorded.value
      else if t.composite && t.initialSub != "" then InitialLeaf(states, t.initialSub, chain)
      else if t.composite && t.history && |subs| > 0 then InitialLeaf(states, subs[0], chain)
      else target
  }

  /** The meaning of a transition: an internal one never leaves its state. */
  predicate Means(states: seq<State>, e: Edge, now: Situation, o: Outcome, ghost chain: string -> nat,
                  ghost tree: string -> nat)
    requires ChainEnds(states, chain) && TreeEnds(states, tree)
  {
    Performs(e, o.action)
    && if e.kind == Internal then o.Stay?
       else o.Enter? && o.target == Destination(states, e.target, now.history, chain, tree)
  }

  /** The guard of the branch in which an internal transition is emitted as an ordinary row. */
  predicate InternalOnComposite(states: seq<State>, e: Edge) {
    e.kind == Internal && FindState(states, e.target).Some? && FindState(states, e.target).value.composite
  }

  /**
   * What the table does for a transition: what it means, unless it is internal with a composite
   * target; such a one enters the composite instead.
   */
  predicate Delivers(states: seq<State>, e: Edge, now: Situation, o: Outcome, ghost chain: string -> nat,
                     ghost tree: string -> nat)
    requires ChainEnds(states, chain) && TreeEnds(states, tree)
  {
    && (Means(states, e, now, o, chain, tree) <==> !InternalOnComposite(states, e))
    && (InternalOnComposite(states, e) ==>
          o.Enter? && o.target == Destination(states, e.target, now.history, chain, tree) && Performs(e, o.action))
  }

  // ------------------------------------------------------------ correctness

  /** A row carries the event, guard and actions its transition gives in its fields. */
  lemma RowSaysWhatTheEdgeSays(e: Edge, now: Situation)
    ensures EventOf(e) == now.event <==> Hears(e, now.event)
    ensures GuardMet(PlainGuard(GuardOf(e)), now) <==> Allowed(e, now.holding)
    ensures Performs(e, ActionOf(e))
  {
  }

  lemma {:induction false} HistoryRowsMatch(e: Edge, subs: seq<string>, now: Situation)
    ensures var f := First(HistoryRows(e, subs), RowMatcher(now));
      var recorded := FirstRecorded(now.history, e.target, subs);
      && (f.Some? <==> Enabled(e, now) && recorded.Some?)
      && (f.Some? ==> var o := RowOutcome(f.value); o.Enter? && o.target == recorded.value && Performs(e, o.action))
  {
    if |subs| > 0 {
      var init, last := subs[..|subs| - 1], subs[|subs| - 1];
      HistoryRowsMatch(e, init, now);
      assert subs == init + [last];
      var row := GotoRow(e.source, EventOf(e), last, ActionOf(e), HistoryGuard(GuardOf(e), e.target, last));
      FirstOfSum(HistoryRows(e, init), [row], RowMatcher(now));
    }
  }

  /** One row without a history guard matches exactly when its transition is enabled. */
  lemma PlainRowMatches(e: Edge, target: string, now: Situation)
    ensures Matches(Goto(e, target), now) <==> Enabled(e, now)
    ensures RowOutcome(Goto(e, target)) == Enter(target, ActionOf(e)) && Performs(e, ActionOf(e))
    ensures var r := InternalRow(e.source, EventOf(e), ActionOf(e), PlainGuard(GuardOf(e)));
      (Matches(r, now) <==> Enabled(e, now)) && RowOutcome(r) == Stay(ActionOf(e))
  {
    RowSaysWhatTheEdgeSays(e, now);
    hide EventOf, Hears, Allowed, Performs, GuardMet;
  }

  /** The rows of one transition match exactly when it is enabled, and lead where it leads. */
  lemma ExpansionMatches(states: seq<State>, e: Edge, now: Situation, chain: string -> nat, tree: string -> nat)
    requires ChainEnds(states, chain) && TreeEnds(states, tree)
    ensures var f := First(Expand(states, e, chain, tree), RowMatcher(now));
      && (f.Some? <==> Enabled(e, now))
      && (f.Some? ==> Delivers(states, e, now, RowOutcome(f.value), chain, tree))
  {
    hide Matches, Enabled, Performs, Goto, EventOf, ActionOf, GuardOf, Substates, InitialLeaf, HistoryRows;
    forall target { PlainRowMatches(e, target, now); }
    var t := FindState(states, e.target);
    if t.Some? && t.value.composite && t.value.history {
      var subs := Substates(states, e.target, t.value.deepHistory, 0, tree);
      if |subs| > 0 {
        HistoryRowsMatch(e, subs, now);
        var leaf := InitialLeaf(states, if t.value.initialSub != "" then t.value.initialSub else subs[0], chain);
        FirstOfSum(HistoryRows(e, subs), [Goto(e, leaf)], RowMatcher(now));
      }
    }
  }

  /** The outcome the table gives, if a row matches. */
  function TableOutcome(rows: seq<Row>, now: Situation): Option<Outcome> {
    match First(rows, RowMatcher(now))
    case None => None
    case Some(r) => Some(RowOutcome(r))
  }

  lemma {:induction false} RowsOfAll(states: seq<State>, edges: seq<Edge>, now: Situation, chain: string -> nat,
                                     tree: string -> nat)
    requires ChainEnds(states, chain) && TreeEnds(states, tree)
    ensures var f := First(edges, EdgeMatcher(now));
      TableOutcome(ExpandAll(states, edges, chain, tree), now)
        == if f.None? then None else TableOutcome(Expand(states, f.value, chain, tree), now)
  {
    if |edges| > 0 {
      var init, last := edges[..|edges| - 1], edges[|edges| - 1];
      RowsOfAll(states, init, now, chain, tree);
      assert edges == init + [last];
      FirstOfSum(init, [last], EdgeMatcher(now));
      FirstOfSum(ExpandAll(states, init, chain, tree), Expand(states, last, chain, tree), RowMatcher(now));
      ExpansionMatches(states, last, now, chain, tree);
      var f := First(init, EdgeMatcher(now));
      if f.Some? { ExpansionMatches(states, f.value, now, chain, tree); }
    }
  }

  /**
   * In every situation the table does nothing when no transition is enabled; otherwise the
   * most urgent enabled transition `edges[i]` decides, and the table does what it means exactly
   * when it is not an internal transition with a composite target.
   */
  lemma TableKeepsMeaning(states: seq<State>, edges: seq<Edge>, now: Situation, chain: string -> nat,
                          tree: string -> nat)
    returns (i: nat)
    requires ChainEnds(states, chain) && TreeEnds(states, tree)
    ensures var got := TableOutcome(TransitionTable(states, edges, chain, tree), now);
      if forall j :: 0 <= j < |edges| ==> !Enabled(edges[j], now) then got == None
      else
        && Wins(edges, i, EdgeMatcher(now))
        && got.Some? && Delivers(states, edges[i], now, got.value, chain, tree)
  {
    i := FirstMatchWins(edges, EdgeMatcher(now));
    RowsOfAll(states, ByUrgency(edges), now, chain, tree);
    var f := First(ByUrgency(edges), EdgeMatcher(now));
    if f.Some? {
      assert EdgeMatcher(now)(edges[i]);
      ExpansionMatches(states, edges[i], now, chain, tree);
    } else {
      forall j | 0 <= j < |edges| ensures !Enabled(edges[j], now) { assert !EdgeMatcher(now)(edges[j]); }
    }
  }

  function Busy(): State {
    State("", "Busy", "Busy", Composite, "", [], true, false, "Run", false, false, [], [], None, [], [], [], [])
  }

  function Ping(): Edge {
    Edge("Busy", "Busy", [], [], "ping", None, None, OtherTrigger(""), None, Some("log"), Internal, 0, "")
  }

  /** An internal transition aimed at a composite state leaves its source after all. */
  lemma InternalOnCompositeLeaves()
    ensures var now := Situation({"Busy"}, Named("ping"), {}, map[]);
      exists chain, tree :: ChainEnds([Busy()], chain) && TreeEnds([Busy()], tree)
        && TableOutcome(TransitionTable([Busy()], [Ping()], chain, tree), now) == Some(Enter("Run", Single("log")))
        && Means([Busy()], Ping(), now, Stay(Single("log")), chain, tree)
  {
    var now := Situation({"Busy"}, Named("ping"), {}, map[]);
    var rank: string -> nat := (s: string) => if s == "Run" then 0 else if s == "Busy" then 1 else 2;
    BusyEnters(now, rank);
    hide TransitionTable, Destination, InternalOnComposite;
    var i := TableKeepsMeaning([Busy()], [Ping()], now, rank, rank);
    assert Enabled([Ping()][0], now);
  }

  lemma BusyEnters(now: Situation, rank: string -> nat)
    requires now.history == map[] && rank("Run") == 0 && rank("Busy") == 1 && rank("") == 2
    ensures ChainEnds([Busy()], rank) && TreeEnds([Busy()], rank)
    ensures InternalOnComposite([Busy()], Ping()) && Destination([Busy()], "Busy", now.history, rank, rank) == "Run"
  {
    assert FindState([Busy()], "Busy") == Some(Busy());
    assert InitialLeaf([Busy()], "Run", rank) == "Run";
  }
}
