/**
 * The step relation of the emitted SMV model: a case list for the next state, and a tick
 * counter for every state that has time triggers. Names are taken as already sanitised.
 */
module SmvTimers {
  import opened Text
  import opened Ir
  import opened Order
  import opened Priority

  // ---------------------------------------------------------- the emitted model

  /** A time trigger of no duration waits one tick. */
  function Duration(e: Edge): (d: nat)
    requires e.trigger.TimeTrigger?
    ensures d >= 1
  {
    if e.trigger.milliseconds == 0 then 1 else e.trigger.milliseconds
  }

  function Max(a: nat, b: nat): nat { if a < b then b else a }

  /** For each state the longest duration among its time triggers. */
  function Timeouts(edges: seq<Edge>): map<string, nat> {
    if |edges| == 0 then map[]
    else
      var m, e := Timeouts(edges[..|edges| - 1]), edges[|edges| - 1];
      if e.trigger.TimeTrigger? && e.source != "" then
        m[e.source := Max(if e.source in m then m[e.source] else 0, Duration(e))]
      else m
  }

  datatype Condition = Always | OnEvent(event: string) | TimerAtLeast(ticks: nat)

  datatype CaseRow = CaseRow(source: string, condition: Condition, guard: Option<string>, target: string)

  function TriggerName(e: Edge): string {
    if e.event != "" then e.event
    else match e.trigger
      case SignalTrigger(s) => s
      case OtherTrigger(d) => d
      case TimeTrigger(_, _, _) => ""
  }

  function ConditionOf(e: Edge): Condition {
    if e.trigger.TimeTrigger? then TimerAtLeast(Duration(e))
    else if TriggerName(e) != "" && TriggerName(e) != "Anonymous" && TriggerName(e) != "none" then
      OnEvent(TriggerName(e))
    else Always
  }

  function GuardOf(e: Edge): Option<string> {
    if e.guard.Some? && e.guard.value != "" then e.guard else None
  }

  function RowOf(e: Edge): CaseRow { CaseRow(e.source, ConditionOf(e), GuardOf(e), e.target) }

  function RowsOf(edges: seq<Edge>): seq<CaseRow> {
    if |edges| == 0 then []
    else
      var e := edges[|edges| - 1];
      RowsOf(edges[..|edges| - 1]) + if e.source == "" || e.target == "" then [] else [RowOf(e)]
  }

  datatype Model = Model(initial: string, rows: seq<CaseRow>, timeouts: map<string, nat>)

  function ModelOf(initial: string, edges: seq<Edge>): Model {
    Model(initial, RowsOf(ByUrgency(edges)), Timeouts(edges))
  }

  method CollectTimeouts(edges: seq<Edge>) returns (m: map<string, nat>)
    ensures m == Timeouts(edges)
  {
    m := map[];
    for i := 0 to |edges|
      invariant m == Timeouts(edges[..i])
    {
      var t := edges[i];
      assert edges[..i + 1][..i] == edges[..i];
      if t.trigger.TimeTrigger? && t.source != "" {
        var dur := t.trigger.milliseconds;
        if dur == 0 { dur := 1; }
        m := m[t.source := Max(if t.source in m then m[t.source] else 0, dur)];
      }
    }
    assert edges[..|edges|] == edges;
  }

  method Serialize(initial: string, edges: seq<Edge>) returns (model: Model)
    ensures model == ModelOf(initial, edges)
  {
    var timeouts := CollectTimeouts(edges);
    var sorted := Sort(edges, MoreUrgent);
    var rows: seq<CaseRow> := [];
    for i := 0 to |sorted|
      invariant rows == RowsOf(sorted[..i])
    {
      var t := sorted[i];
      assert sorted[..i + 1][..i] == sorted[..i];
      if t.source != "" && t.target != "" { rows := rows + [RowOf(t)]; }
    }
    assert sorted[..|sorted|] == sorted;
    model := Model(initial, rows, timeouts);
  }

  // ------------------------------------------------------------------- runs

  /** The event and the guard variables are free inputs of every step. */
  datatype Input = Input(event: string, guards: set<string>)

  datatype Config = Config(state: string, timers: map<string, nat>)

  function TimerOf(c: Config, s: string): nat { if s in c.timers then c.timers[s] else 0 }

  predicate Takes(r: CaseRow, c: Config, input: Input) {
    && r.source == c.state
    && (match r.condition
        case Always => true
        case OnEvent(e) => input.event == e
        case TimerAtLeast(d) => TimerOf(c, c.state) >= d)
    && (r.guard.None? || r.guard.value in input.guards)
  }

  function TakenBy(c: Config, input: Input): CaseRow -> bool { (r: CaseRow) => Takes(r, c, input) }

  /** The case list: the first row that applies, else the state stays. */
  function NextState(m: Model, c: Config, input: Input): string {
    match First(m.rows, TakenBy(c, input))
    case None => c.state
    case Some(r) => r.target
  }

  function NextTimer(c: Config, s: string, max: nat): nat {
    if c.state == s && TimerOf(c, s) < max then TimerOf(c, s) + 1 else 0
  }

  function Start(m: Model): Config { Config(m.initial, map s | s in m.timeouts :: 0) }

  function Next(m: Model, c: Config, input: Input): Config {
    Config(NextState(m, c, input), map s | s in m.timeouts :: NextTimer(c, s, m.timeouts[s]))
  }

  /** The configuration after `n` steps over a sequence of inputs. */
  function At(m: Model, inputs: seq<Input>, n: nat): Config
    requires n <= |inputs|
  {
    if n == 0 then Start(m) else Next(m, At(m, inputs, n - 1), inputs[n - 1])
  }

  /** How many of the steps just before `n` were spent in `s`, without a break. */
  function Dwell(m: Model, inputs: seq<Input>, s: string, n: nat): (d: nat)
    requires n <= |inputs|
    ensures d <= n
  {
    if n == 0 || At(m, inputs, n - 1).state != s then 0 else 1 + Dwell(m, inputs, s, n - 1)
  }

  // ----------------------------------------------------------------- timers

  /** In every run the counter of `s` is the time just spent in `s`, modulo its range. */
  lemma {:induction false} TimerCountsDwell(m: Model, inputs: seq<Input>, s: string, n: nat)
    requires n <= |inputs| && s in m.timeouts
    ensures TimerOf(At(m, inputs, n), s) == Dwell(m, inputs, s, n) % (m.timeouts[s] + 1)
    ensures TimerOf(At(m, inputs, n), s) <= m.timeouts[s]
  {
    hide NextState;
    var max := m.timeouts[s];
    if n > 0 {
      TimerCountsDwell(m, inputs, s, n - 1);
      TimerSteps(m, At(m, inputs, n - 1), inputs[n - 1], s);
      NextResidue(Dwell(m, inputs, s, n - 1), max + 1);
    }
    if Dwell(m, inputs, s, n) == 0 { UniqueResidue(0, max + 1, 0, 0); }
  }

  lemma TimerSteps(m: Model, c: Config, input: Input, s: string)
    requires s in m.timeouts
    ensures TimerOf(Next(m, c, input), s) == NextTimer(c, s, m.timeouts[s])
  {
  }

  lemma NextResidue(d: nat, k: nat)
    requires k > 0
    ensures (d + 1) % k == if d % k + 1 < k then d % k + 1 else 0
  {
    var q := d / k;
    assert d == q * k + d % k;
    if d % k + 1 < k {
      UniqueResidue(d + 1, k, q, d % k + 1);
    } else {
      assert d + 1 == (q + 1) * k;
      UniqueResidue(d + 1, k, q + 1, 0);
    }
  }

  lemma UniqueResidue(n: nat, k: nat, q: nat, r: nat)
    requires 0 <= r < k && n == q * k + r
    ensures n % k == r
  {
    var a, b := n / k, n % k;
    assert n == a * k + b && 0 <= b < k;
    if a < q { OneMoreTime(a, q, k); }
    if q < a { OneMoreTime(q, a, k); }
  }

  lemma OneMoreTime(a: nat, b: nat, k: nat)
    requires a < b
    ensures a * k + k <= b * k
  {
    var d := b - a - 1;
    assert b * k == (a + 1 + d) * k == a * k + k + d * k;
    assert d * k >= 0;
  }

  /** Entering a state from another one finds its counter at zero. */
  lemma TimerZeroOnEntry(m: Model, inputs: seq<Input>, s: string, n: nat)
    requires n <= |inputs| && s in m.timeouts && (n == 0 || At(m, inputs, n - 1).state != s)
    ensures TimerOf(At(m, inputs, n), s) == 0
  {
    TimerCountsDwell(m, inputs, s, n);
  }

  /**
   * A row that waits `d` ticks is not simply enabled from then on: the counter wraps, so the
   * row applies exactly while the time spent, modulo the range, has reached `d`.
   */
  lemma TimedRowAppliesExactly(m: Model, inputs: seq<Input>, r: CaseRow, n: nat, input: Input)
    requires n <= |inputs| && r.source in m.timeouts && r.condition.TimerAtLeast?
    ensures Takes(r, At(m, inputs, n), input) <==>
      && At(m, inputs, n).state == r.source
      && Dwell(m, inputs, r.source, n) % (m.timeouts[r.source] + 1) >= r.condition.ticks
      && (r.guard.None? || r.guard.value in input.guards)
  {
    TimerCountsDwell(m, inputs, r.source, n);
  }

  /** A transition from `A` to `B` after `d` ticks, if the guard `g` holds. */
  function GuardedTimeout(d: nat): Edge {
    Edge("A", "B", [], [], "", Some("g"), None, TimeTrigger(false, d, ""), None, None, External, 0, "")
  }

  function Quiet(n: nat): (inputs: seq<Input>)
    ensures |inputs| == n && forall i :: 0 <= i < n ==> inputs[i] == Input("", {})
  {
    seq(n, i => Input("", {}))
  }

  lemma OneTimedRow(d: nat)
    requires d > 0
    ensures ModelOf("A", [GuardedTimeout(d)])
      == Model("A", [CaseRow("A", TimerAtLeast(d), Some("g"), "B")], map["A" := d])
  {
    var e := GuardedTimeout(d);
    SortOfSorted([e], MoreUrgent);
    assert ByUrgency([e]) == [e];
    assert [e][..0] == [];
    assert RowsOf([e]) == [RowOf(e)];
    assert Timeouts([e]) == map["A" := d];
  }

  lemma {:induction false} StaysWhileQuiet(m: Model, d: nat, inputs: seq<Input>, n: nat)
    requires m.initial == "A" && m.rows == [CaseRow("A", TimerAtLeast(d), Some("g"), "B")]
    requires n <= |inputs| && forall i :: 0 <= i < n ==> inputs[i] == Input("", {})
    ensures At(m, inputs, n).state == "A" && Dwell(m, inputs, "A", n) == n
  {
    hide NextState, NextTimer;
    if n > 0 {
      StaysWhileQuiet(m, d, inputs, n - 1);
      NothingTaken(m, d, At(m, inputs, n - 1), inputs[n - 1]);
      DwellGrows(m, inputs, "A", n);
    }
  }

  lemma DwellGrows(m: Model, inputs: seq<Input>, s: string, n: nat)
    requires 0 < n <= |inputs| && At(m, inputs, n - 1).state == s
    ensures Dwell(m, inputs, s, n) == 1 + Dwell(m, inputs, s, n - 1)
  {
    hide At;
  }

  lemma NothingTaken(m: Model, d: nat, c: Config, input: Input)
    requires m.rows == [CaseRow("A", TimerAtLeast(d), Some("g"), "B")] && input.guards == {}
    ensures NextState(m, c, input) == c.state
  {
    assert !TakenBy(c, input)(m.rows[0]);
  }

  /**
   * The guard of a timeout of `d` ticks stays off for `d + 1` steps and then comes on: the timeout
   * is long due, but the counter has wrapped and its row does not apply.
   */
  lemma DueTimeoutIsOffAgain(d: nat)
    requires d > 0
    ensures var m, inputs := ModelOf("A", [GuardedTimeout(d)]), Quiet(d + 1);
      var row, now := CaseRow("A", TimerAtLeast(d), Some("g"), "B"), At(m, inputs, d + 1);
      && row in m.rows && now.state == "A" && Dwell(m, inputs, "A", d + 1) > d
      && !Takes(row, now, Input("", {"g"}))
      && Takes(row, At(m, inputs, d), Input("", {"g"}))
  {
    var m, inputs := ModelOf("A", [GuardedTimeout(d)]), Quiet(d + 1);
    var row := CaseRow("A", TimerAtLeast(d), Some("g"), "B");
    OneTimedRow(d);
    StaysWhileQuiet(m, d, inputs, d);
    StaysWhileQuiet(m, d, inputs, d + 1);
    TimedRowAppliesExactly(m, inputs, row, d + 1, Input("", {"g"}));
    TimedRowAppliesExactly(m, inputs, row, d, Input("", {"g"}));
    UniqueResidue(d + 1, d + 1, 1, 0);
    UniqueResidue(d, d + 1, 0, d);
  }

  // --------------------------------------------------------- timeouts respond

  lemma {:induction false} TimeoutCovers(edges: seq<Edge>, i: nat)
    requires i < |edges| && edges[i].trigger.TimeTrigger? && edges[i].source != ""
    ensures edges[i].source in Timeouts(edges) && Duration(edges[i]) <= Timeouts(edges)[edges[i].source]
  {
    if i < |edges| - 1 { TimeoutCovers(edges[..|edges| - 1], i); }
  }

  lemma {:induction false} RowsHoldEveryEdge(edges: seq<Edge>, e: Edge)
    requires e in edges && e.source != "" && e.target != ""
    ensures RowOf(e) in RowsOf(edges)
  {
    var init, last := edges[..|edges| - 1], edges[|edges| - 1];
    assert edges == init + [last];
    if e in init { RowsHoldEveryEdge(init, e); }
  }

  lemma {:induction false} RowsComeFromEdges(edges: seq<Edge>, r: CaseRow)
    requires r in RowsOf(edges)
    ensures exists i :: 0 <= i < |edges| && r == RowOf(edges[i])
  {
    var init, last := edges[..|edges| - 1], edges[|edges| - 1];
    if r in RowsOf(init) {
      RowsComeFromEdges(init, r);
      var i :| 0 <= i < |init| && r == RowOf(init[i]);
      assert r == RowOf(edges[i]);
    } else {
      assert r == RowOf(edges[|edges| - 1]);
    }
  }

  /** A transition out of `s` that waits for nothing but its time. */
  predicate UnguardedTimer(e: Edge) {
    e.trigger.TimeTrigger? && e.source != "" && e.target != "" && GuardOf(e).None?
  }

  lemma TimerRowIsThere(edges: seq<Edge>, initial: string, i: nat)
    requires i < |edges| && UnguardedTimer(edges[i])
    ensures CaseRow(edges[i].source, TimerAtLeast(Duration(edges[i])), None, edges[i].target)
            in ModelOf(initial, edges).rows
    ensures edges[i].source in ModelOf(initial, edges).timeouts
    ensures Duration(edges[i]) <= ModelOf(initial, edges).timeouts[edges[i].source]
  {
    var e := edges[i];
    SortKeeps(edges, MoreUrgent);
    assert e in multiset(edges);
    assert e in ByUrgency(edges);
    RowsHoldEveryEdge(ByUrgency(edges), e);
    TimeoutCovers(edges, i);
  }

  /** Once its counter has reached an unguarded duration, a state takes some row. */
  lemma NoStutterOnceDue(edges: seq<Edge>, initial: string, i: nat, c: Config, input: Input)
    requires i < |edges| && UnguardedTimer(edges[i])
    requires c.state == edges[i].source && TimerOf(c, c.state) >= Duration(edges[i])
    ensures First(ModelOf(initial, edges).rows, TakenBy(c, input)).Some?
  {
    TimerRowIsThere(edges, initial, i);
    assert TakenBy(c, input)(CaseRow(edges[i].source, TimerAtLeast(Duration(edges[i])), None, edges[i].target));
  }

  /**
   * Response in every run: a state with an unguarded timer of duration d and no transition
   * back to itself is never found occupied for more than d earlier steps in a row.
   */
  lemma {:induction false} TimeoutIsMet(edges: seq<Edge>, initial: string, i: nat, inputs: seq<Input>, n: nat)
    requires i < |edges| && UnguardedTimer(edges[i]) && n <= |inputs|
    requires forall j :: 0 <= j < |edges| && edges[j].source == edges[i].source ==> edges[j].target != edges[i].source
    ensures var m, s := ModelOf(initial, edges), edges[i].source;
      At(m, inputs, n).state == s ==> Dwell(m, inputs, s, n) <= Duration(edges[i])
  {
    hide ModelOf, First, TakenBy;
    var m, s, d := ModelOf(initial, edges), edges[i].source, Duration(edges[i]);
    if n > 0 && At(m, inputs, n).state == s && At(m, inputs, n - 1).state == s {
      TimeoutIsMet(edges, initial, i, inputs, n - 1);
      var c, input := At(m, inputs, n - 1), inputs[n - 1];
      TimerRowIsThere(edges, initial, i);
      if Dwell(m, inputs, s, n - 1) == d {
        TimerCountsDwell(m, inputs, s, n - 1);
        UniqueResidue(d, m.timeouts[s] + 1, 0, d);
        NoStutterOnceDue(edges, initial, i, c, input);
        LeavesForAnother(edges, initial, s, c, input);
      }
    }
  }

  lemma LeavesForAnother(edges: seq<Edge>, initial: string, s: string, c: Config, input: Input)
    requires c.state == s && First(ModelOf(initial, edges).rows, TakenBy(c, input)).Some?
    requires forall j :: 0 <= j < |edges| && edges[j].source == s ==> edges[j].target != s
    ensures NextState(ModelOf(initial, edges), c, input) != s
  {
    var r := First(ModelOf(initial, edges).rows, TakenBy(c, input)).value;
    RowsComeFromEdges(ByUrgency(edges), r);
    var k :| 0 <= k < |ByUrgency(edges)| && r == RowOf(ByUrgency(edges)[k]);
    SortKeeps(edges, MoreUrgent);
    assert ByUrgency(edges)[k] in multiset(edges);
    var j :| 0 <= j < |edges| && edges[j] == ByUrgency(edges)[k];
  }
}
