/** Which transition the emitted SMV model takes, by the transitions themselves. */
module SmvSteps {
  import opened Text
  import opened Ir
  import opened Order
  import opened Priority
  import opened SmvTimers

  /** The name that sets an untimed transition off: its event, or else its trigger. */
  predicate Listens(e: Edge, name: string) {
    if e.event != "" then e.event == name else e.trigger == SignalTrigger(name) || e.trigger == OtherTrigger(name)
  }

  /** The input sets the transition off: its time has been reached, its event occurs, or it needs none. */
  predicate SetsOff(e: Edge, c: Config, input: Input) {
    if e.trigger.TimeTrigger? then
      TimerOf(c, c.state) >= if e.trigger.milliseconds == 0 then 1 else e.trigger.milliseconds
    else Listens(e, "") || Listens(e, "Anonymous") || Listens(e, "none") || Listens(e, input.event)
  }

  predicate CanTake(e: Edge, c: Config, input: Input) {
    && e.source != "" && e.target != "" && e.source == c.state
    && SetsOff(e, c, input)
    && (e.guard == None || e.guard == Some("") || e.guard.value in input.guards)
  }

  function Taker(c: Config, input: Input): Edge -> bool { (e: Edge) => CanTake(e, c, input) }

  lemma RowOfEdge(e: Edge, c: Config, input: Input)
    requires e.source != "" && e.target != ""
    ensures Takes(RowOf(e), c, input) <==> CanTake(e, c, input)
    ensures RowOf(e).target == e.target
  {
  }

  lemma {:induction false} RowsOfEdges(edges: seq<Edge>, c: Config, input: Input)
    ensures var row, e := First(RowsOf(edges), TakenBy(c, input)), First(edges, Taker(c, input));
      (row.Some? <==> e.Some?) && (row.Some? ==> row.value.target == e.value.target)
  {
    if |edges| > 0 {
      var init, last := edges[..|edges| - 1], edges[|edges| - 1];
      RowsOfEdges(init, c, input);
      assert edges == init + [last];
      FirstOfSum(init, [last], Taker(c, input));
      if last.source != "" && last.target != "" {
        RowOfEdge(last, c, input);
        FirstOfSum(RowsOf(init), [RowOf(last)], TakenBy(c, input));
      } else {
        assert RowsOf(edges) == RowsOf(init);
      }
    }
  }

  /**
   * In every configuration, under every input, the model goes to the target of the most urgent
   * transition that can be taken, the earliest on ties; if there is none, the state stays.
   */
  lemma NextStateExactly(edges: seq<Edge>, initial: string, c: Config, input: Input) returns (i: nat)
    ensures var next := NextState(ModelOf(initial, edges), c, input);
      if forall j :: 0 <= j < |edges| ==> !CanTake(edges[j], c, input) then next == c.state
      else Wins(edges, i, Taker(c, input)) && next == edges[i].target
  {
    i := FirstMatchWins(edges, Taker(c, input));
    RowsOfEdges(ByUrgency(edges), c, input);
    if First(ByUrgency(edges), Taker(c, input)).None? {
      forall j | 0 <= j < |edges| ensures !CanTake(edges[j], c, input) { assert !Taker(c, input)(edges[j]); }
    } else {
      assert Taker(c, input)(edges[i]);
    }
  }

  /** `d` ticks are asked for by a timed transition out of `s`, no duration counting as one. */
  predicate Waits(e: Edge, s: string, d: nat) {
    && e.trigger.TimeTrigger? && e.source == s != ""
    && d == if e.trigger.milliseconds == 0 then 1 else e.trigger.milliseconds
  }

  /** A state has a timer exactly if some transition waits in it, and its bound is the longest wait. */
  lemma {:induction false} BoundIsLongestWait(edges: seq<Edge>, s: string)
    ensures s in Timeouts(edges) <==> exists i, d :: 0 <= i < |edges| && Waits(edges[i], s, d)
    ensures s in Timeouts(edges) ==> exists i :: 0 <= i < |edges| && Waits(edges[i], s, Timeouts(edges)[s])
    ensures forall i, d :: 0 <= i < |edges| && Waits(edges[i], s, d) ==> d <= Timeouts(edges)[s]
  {
    if |edges| > 0 {
      var init, e := edges[..|edges| - 1], edges[|edges| - 1];
      BoundIsLongestWait(init, s);
      BoundGrows(edges, s);
      hide Timeouts, Waits;
      if s in Timeouts(init) {
        var i :| 0 <= i < |init| && Waits(init[i], s, Timeouts(init)[s]);
        assert Waits(edges[i], s, Timeouts(init)[s]);
      }
      forall i, d | 0 <= i < |edges| && Waits(edges[i], s, d) ensures s in Timeouts(edges) && d <= Timeouts(edges)[s] {
        if i < |init| { assert Waits(init[i], s, d); }
      }
    }
  }

  lemma BoundGrows(edges: seq<Edge>, s: string)
    requires |edges| > 0
    ensures var init, e := edges[..|edges| - 1], edges[|edges| - 1];
      && (s in Timeouts(init) ==> s in Timeouts(edges) && Timeouts(init)[s] <= Timeouts(edges)[s])
      && (forall d :: Waits(e, s, d) ==> s in Timeouts(edges) && d <= Timeouts(edges)[s])
      && (s in Timeouts(edges) ==>
            (s in Timeouts(init) && Timeouts(edges)[s] == Timeouts(init)[s]) || Waits(e, s, Timeouts(edges)[s]))
  {
  }
}
