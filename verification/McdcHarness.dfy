/** From a guard to its coverage harness: printed, read again, searched for independence pairs. */
module McdcHarness {
  import opened Text
  import opened Bool
  import opened Guard
  import opened GuardReparse
  import opened GuardMeaning
  import opened Mcdc

  /** The names a guard's meaning mentions, with multiplicity. */
  function Mentions(g: Guard): multiset<string>
    decreases g, 1
  {
    match g.op
    case Atomic => multiset{g.expression}
    case Negation => if |g.children| == 0 then multiset{g.expression} else Mentions(g.children[0])
    case _ => MentionsOf(g.children)
  }

  function MentionsOf(cs: seq<Guard>): multiset<string>
    decreases cs, 0
  {
    if |cs| == 0 then multiset{} else MentionsOf(cs[..|cs| - 1]) + Mentions(cs[|cs| - 1])
  }

  function ReadOccurrences(ps: seq<string>, conditions: seq<string>): multiset<string> {
    if |ps| == 0 then multiset{}
    else ReadOccurrences(ps[..|ps| - 1], conditions) + Occurrences(ParseSimple(ps[|ps| - 1], conditions))
  }

  lemma {:induction false} ReadOccurrencesSum(xs: seq<string>, ys: seq<string>, conditions: seq<string>)
    ensures ReadOccurrences(xs + ys, conditions) == ReadOccurrences(xs, conditions) + ReadOccurrences(ys, conditions)
    decreases |ys|
  {
    if |ys| == 0 {
      assert xs + ys == xs;
    } else {
      assert (xs + ys)[..|xs + ys| - 1] == xs + ys[..|ys| - 1];
      ReadOccurrencesSum(xs, ys[..|ys| - 1], conditions);
    }
  }

  lemma {:induction false} JoinedOccurrences(ps: seq<string>, c: char, conditions: seq<string>)
    requires |ps| > 0 && PlainConditions(conditions) && Pieces(ps, '|')
    requires c == '|' || (c == '&' && Pieces(ps, '&'))
    ensures Occurrences(ParseSimple(Join(ps, c), conditions)) == ReadOccurrences(ps, conditions)
  {
    if |ps| > 1 {
      JoinedOccurrences(ps[..|ps| - 1], c, conditions);
      if c == '|' { JoinedDisjunctionSplits(ps, conditions); } else { JoinedConjunctionSplits(ps, conditions); }
    } else {
      assert ReadOccurrences(ps[..0], conditions) == multiset{};
    }
  }

  /** Reading the printed text mentions exactly what the guard mentions, as often. */
  lemma {:induction false} PrintedGuardMentions(g: Guard, conditions: seq<string>)
    requires WellFormed(g) && PlainConditions(conditions)
    ensures Occurrences(ParseSimple(ToCpp(g), conditions)) == Mentions(g)
    decreases g, 2
  {
    match g.op
    case Atomic => PlainReads(g.expression, conditions);
    case Negation => NegationMentions(g, conditions);
    case Conjunction =>
      ConjunctsAllPieces(g.children);
      ConjunctsPrint(g);
      JoinedOccurrences(ConjunctsOf(g.children), '&', conditions);
      ConjunctsMention(g.children, conditions);
    case Disjunction =>
      DisjunctsAllPieces(g.children);
      DisjunctsPrint(g);
      JoinedOccurrences(DisjunctsOf(g.children), '|', conditions);
      DisjunctsMention(g.children, conditions);
  }

  lemma {:induction false} NegationMentions(g: Guard, conditions: seq<string>)
    requires WellFormed(g) && g.op == Negation && PlainConditions(conditions)
    ensures Occurrences(ParseSimple(ToCpp(g), conditions)) == Mentions(g)
    decreases g, 1
  {
    if |g.children| == 0 {
      PlainPiece(g.expression, '|');
      PlainPiece(g.expression, '&');
      NegatedReads(g.expression, conditions);
      PlainReads(g.expression, conditions);
    } else {
      var sub := g.children[0];
      PrintedIsTidy(sub);
      PrintedGuardMentions(sub, conditions);
      if sub.op != Atomic {
        BracketedPiece(ToCpp(sub), '|');
        BracketedPiece(ToCpp(sub), '&');
        NegatedReads(Bracketed(ToCpp(sub)), conditions);
        BracketedReads(ToCpp(sub), conditions);
      } else {
        NegatedReads(ToCpp(sub), conditions);
      }
    }
  }

  lemma {:induction false} ConjunctsMention(cs: seq<Guard>, conditions: seq<string>)
    requires AllWellFormed(cs) && PlainConditions(conditions)
    ensures ReadOccurrences(ConjunctsOf(cs), conditions) == MentionsOf(cs)
    decreases cs, 0
  {
    if |cs| > 0 {
      var last := cs[|cs| - 1];
      ConjunctsMention(cs[..|cs| - 1], conditions);
      ReadOccurrencesSum(ConjunctsOf(cs[..|cs| - 1]), Conjuncts(last), conditions);
      if last.op == Conjunction {
        ConjunctsMention(last.children, conditions);
      } else {
        PrintedIsTidy(last);
        BracketedReads(ToCpp(last), conditions);
        PrintedGuardMentions(last, conditions);
        OneOccurrence(AsConjunct(last), conditions);
      }
    }
  }

  lemma {:induction false} DisjunctsMention(cs: seq<Guard>, conditions: seq<string>)
    requires AllWellFormed(cs) && PlainConditions(conditions)
    ensures ReadOccurrences(DisjunctsOf(cs), conditions) == MentionsOf(cs)
    decreases cs, 0
  {
    if |cs| > 0 {
      var last := cs[|cs| - 1];
      DisjunctsMention(cs[..|cs| - 1], conditions);
      ReadOccurrencesSum(DisjunctsOf(cs[..|cs| - 1]), Disjuncts(last), conditions);
      if last.op == Disjunction {
        DisjunctsMention(last.children, conditions);
      } else {
        PrintedGuardMentions(last, conditions);
        OneOccurrence(ToCpp(last), conditions);
      }
    }
  }

  lemma OneOccurrence(s: string, conditions: seq<string>)
    ensures ReadOccurrences([s], conditions) == Occurrences(ParseSimple(s, conditions))
  {
    assert [s][..0] == [];
  }

  /** The pairs the harness is generated from. */
  function HarnessPairs(g: Guard, conditions: seq<string>): seq<Pair> {
    Pairs(ParseSimple(ToCpp(g), conditions), conditions, |conditions|)
  }

  predicate GuardToggles(g: Guard, x: string, env: Env) {
    Holds(g, env[x := true]) != Holds(g, env[x := false])
  }

  /**
   * Every expectation in a generated test is met by the guard itself: both recorded outcomes
   * are the guard's, they differ, and the vectors differ in the named condition only. A
   * condition has a pair exactly when the guard can depend on it.
   */
  lemma HarnessExpectationsHold(g: Guard, conditions: seq<string>)
    requires WellFormed(g) && PlainConditions(conditions) && Distinct(conditions)
    requires forall x :: x in Mentions(g) ==> x in conditions
    ensures forall p :: p in HarnessPairs(g, conditions) ==>
      && p.whenTrue.outcome == Holds(g, p.whenTrue.values)
      && p.whenFalse.outcome == Holds(g, p.whenFalse.values)
      && p.whenTrue.outcome != p.whenFalse.outcome
      && p.name in p.whenTrue.values && p.whenTrue.values[p.name]
      && p.whenFalse.values == p.whenTrue.values[p.name := false]
    ensures forall i :: 0 <= i < |conditions| ==>
      ((exists env :: GuardToggles(g, conditions[i], env))
        <==> exists p :: p in HarnessPairs(g, conditions) && p.name == conditions[i])
  {
    var d := ParseSimple(ToCpp(g), conditions);
    PrintedGuardMentions(g, conditions);
    VarsOccur(d);
    SearchIsExact(d, conditions);
    forall env: Env ensures Evaluate(d, env) == Holds(g, env) {
      PrintedGuardReadsBack(g, conditions, env);
    }
    forall i | 0 <= i < |conditions|
      ensures (exists env :: GuardToggles(g, conditions[i], env)) <==> Matters(d, conditions[i])
    {
      forall env: Env ensures GuardToggles(g, conditions[i], env) <==> Toggles(d, conditions[i], env) {}
    }
  }

  /** A guard that mentions every condition exactly once gets a test for every condition. */
  lemma ReadOnceGuardIsFullyCovered(g: Guard, conditions: seq<string>)
    requires WellFormed(g) && PlainConditions(conditions) && Distinct(conditions)
    requires forall x :: Mentions(g)[x] == if x in conditions then 1 else 0
    ensures |HarnessPairs(g, conditions)| == |conditions|
    ensures forall i :: 0 <= i < |conditions| ==> HarnessPairs(g, conditions)[i].name == conditions[i]
  {
    var d := ParseSimple(ToCpp(g), conditions);
    PrintedGuardMentions(g, conditions);
    VarsOccur(d);
    forall x | x in Vars(d) ensures x in conditions { assert Mentions(g)[x] > 0; }
    ReadOnceIsFullyCovered(d, conditions);
  }
}
