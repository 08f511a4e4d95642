/** Printing a guard and reading the text again keeps the guard's meaning. */
module GuardMeaning {
  import opened Text
  import opened Bool
  import opened Guard
  import opened GuardReparse

  // --------------------------------------------------- text as joined pieces

  function Join(ps: seq<string>, c: char): string {
    if |ps| == 0 then ""
    else if |ps| == 1 then ps[0]
    else Join(ps[..|ps| - 1], c) + Separator(c) + ps[|ps| - 1]
  }

  lemma {:induction false} JoinSum(xs: seq<string>, ys: seq<string>, c: char)
    requires |xs| > 0 && |ys| > 0
    ensures Join(xs + ys, c) == Join(xs, c) + Separator(c) + Join(ys, c)
    decreases |ys|
  {
    var all := xs + ys;
    if |ys| == 1 {
      assert all[..|all| - 1] == xs;
    } else {
      var init := ys[..|ys| - 1];
      assert all[..|all| - 1] == xs + init;
      JoinSum(xs, init, c);
      var x, y, z, k := Join(xs, c), Join(init, c), ys[|ys| - 1], Separator(c);
      assert x + k + y + k + z == x + k + (y + k + z);
    }
  }

  /** The operands a disjunction shows once nested disjunctions are run together. */
  function Disjuncts(g: Guard): seq<string>
    decreases g, 1
  {
    if g.op == Disjunction then DisjunctsOf(g.children) else [ToCpp(g)]
  }

  function DisjunctsOf(cs: seq<Guard>): seq<string>
    decreases cs, 0
  {
    if |cs| == 0 then [] else DisjunctsOf(cs[..|cs| - 1]) + Disjuncts(cs[|cs| - 1])
  }

  function Conjuncts(g: Guard): seq<string>
    decreases g, 1
  {
    if g.op == Conjunction then ConjunctsOf(g.children) else [AsConjunct(g)]
  }

  function AsConjunct(g: Guard): string {
    if g.op == Disjunction then Bracketed(ToCpp(g)) else ToCpp(g)
  }

  function ConjunctsOf(cs: seq<Guard>): seq<string>
    decreases cs, 0
  {
    if |cs| == 0 then [] else ConjunctsOf(cs[..|cs| - 1]) + Conjuncts(cs[|cs| - 1])
  }

  lemma {:induction false} DisjunctsPrint(g: Guard)
    requires WellFormed(g)
    ensures |Disjuncts(g)| > 0 && Join(Disjuncts(g), '|') == ToCpp(g)
    decreases g, 1
  {
    if g.op == Disjunction { DisjunctsOfPrint(g.children); }
  }

  lemma {:induction false} DisjunctsOfPrint(cs: seq<Guard>)
    requires |cs| > 0 && AllWellFormed(cs)
    ensures |DisjunctsOf(cs)| > 0 && Join(DisjunctsOf(cs), '|') == Chain(Disjunction, cs)
    decreases cs, 0
  {
    var init, last := cs[..|cs| - 1], cs[|cs| - 1];
    DisjunctsPrint(last);
    if |init| > 0 {
      DisjunctsOfPrint(init);
      JoinSum(DisjunctsOf(init), Disjuncts(last), '|');
    } else {
      assert DisjunctsOf(cs) == Disjuncts(last);
    }
  }

  lemma {:induction false} ConjunctsPrint(g: Guard)
    requires WellFormed(g)
    ensures |Conjuncts(g)| > 0 && Join(Conjuncts(g), '&') == AsConjunct(g)
    decreases g, 1
  {
    if g.op == Conjunction { ConjunctsOfPrint(g.children); }
  }

  lemma {:induction false} ConjunctsOfPrint(cs: seq<Guard>)
    requires |cs| > 0 && AllWellFormed(cs)
    ensures |ConjunctsOf(cs)| > 0 && Join(ConjunctsOf(cs), '&') == Chain(Conjunction, cs)
    decreases cs, 0
  {
    var init, last := cs[..|cs| - 1], cs[|cs| - 1];
    ConjunctsPrint(last);
    if |init| > 0 {
      ConjunctsOfPrint(init);
      JoinSum(ConjunctsOf(init), Conjuncts(last), '&');
    } else {
      assert ConjunctsOf(cs) == Conjuncts(last);
    }
  }

  // --------------------------------------------------- every operand is a piece

  predicate Pieces(ps: seq<string>, c: char) {
    forall k :: 0 <= k < |ps| ==> Piece(ps[k], c)
  }

  /** A joined conjunction shows no `||` outside parentheses. */
  lemma {:induction false} JoinedConjunction(ps: seq<string>)
    requires |ps| > 0 && Pieces(ps, '|')
    ensures Piece(Join(ps, '&'), '|')
  {
    if |ps| > 1 {
      JoinedConjunction(ps[..|ps| - 1]);
      JointAddsNoOther(Join(ps[..|ps| - 1], '&'), ps[|ps| - 1], '&', '|');
    }
  }

  lemma {:induction false} JoinedIsTidy(ps: seq<string>, c: char)
    requires |ps| > 0 && Pieces(ps, c) && (c == '|' || c == '&')
    ensures Tidy(Join(ps, c))
  {
    if |ps| > 1 {
      JoinedIsTidy(ps[..|ps| - 1], c);
      JointIsFound(Join(ps[..|ps| - 1], c), ps[|ps| - 1], c);
    }
  }

  lemma {:induction false} PrintedIsTidy(g: Guard)
    requires WellFormed(g)
    ensures Tidy(ToCpp(g)) && (g.op != Disjunction ==> NoTop(ToCpp(g), '|'))
    ensures g.op == Atomic || g.op == Negation ==> NoTop(ToCpp(g), '&')
    decreases g, 2
  {
    match g.op
    case Atomic => PlainPiece(g.expression, '|'); PlainPiece(g.expression, '&');
    case Negation => NegationIsPiece(g, '|'); NegationIsPiece(g, '&');
    case Conjunction =>
      ConjunctsAllPieces(g.children);
      ConjunctsPrint(g);
      JoinedConjunction(ConjunctsOf(g.children));
    case Disjunction =>
      DisjunctsAllPieces(g.children);
      DisjunctsPrint(g);
      JoinedIsTidy(DisjunctsOf(g.children), '|');
  }

  lemma {:induction false} NegationIsPiece(g: Guard, c: char)
    requires WellFormed(g) && g.op == Negation && (c == '|' || c == '&')
    ensures Piece(ToCpp(g), c)
    decreases g, 1
  {
    if |g.children| == 0 {
      PlainPiece(g.expression, c);
      NegatedPiece(g.expression, c);
    } else {
      var sub := g.children[0];
      PrintedIsTidy(sub);
      if sub.op != Atomic {
        BracketedPiece(ToCpp(sub), c);
        NegatedPiece(Bracketed(ToCpp(sub)), c);
      } else {
        NegatedPiece(ToCpp(sub), c);
      }
    }
  }

  lemma {:induction false} ConjunctsAllPieces(cs: seq<Guard>)
    requires AllWellFormed(cs)
    ensures Pieces(ConjunctsOf(cs), '&') && Pieces(ConjunctsOf(cs), '|')
    decreases cs, 0
  {
    if |cs| > 0 {
      var last := cs[|cs| - 1];
      ConjunctsAllPieces(cs[..|cs| - 1]);
      if last.op == Conjunction {
        ConjunctsAllPieces(last.children);
      } else {
        PrintedIsTidy(last);
        BracketedPiece(ToCpp(last), '&');
        BracketedPiece(ToCpp(last), '|');
      }
    }
  }

  lemma {:induction false} DisjunctsAllPieces(cs: seq<Guard>)
    requires AllWellFormed(cs)
    ensures Pieces(DisjunctsOf(cs), '|')
    decreases cs, 0
  {
    if |cs| > 0 {
      var last := cs[|cs| - 1];
      DisjunctsAllPieces(cs[..|cs| - 1]);
      if last.op == Disjunction { DisjunctsAllPieces(last.children); } else { PrintedIsTidy(last); }
    }
  }

  // ------------------------------------------------------- reading the pieces

  /** What the reader makes of a text, under a valuation. */
  predicate Reading(s: string, conditions: seq<string>, env: Env) {
    Evaluate(ParseSimple(s, conditions), env)
  }

  predicate AllRead(ps: seq<string>, conditions: seq<string>, env: Env) {
    |ps| == 0 || (AllRead(ps[..|ps| - 1], conditions, env) && Reading(ps[|ps| - 1], conditions, env))
  }

  predicate AnyReads(ps: seq<string>, conditions: seq<string>, env: Env) {
    |ps| > 0 && (AnyReads(ps[..|ps| - 1], conditions, env) || Reading(ps[|ps| - 1], conditions, env))
  }

  predicate PlainConditions(conditions: seq<string>) {
    forall k :: 0 <= k < |conditions| ==> Plain(conditions[k])
  }

  lemma {:induction false} AllReadSum(xs: seq<string>, ys: seq<string>, conditions: seq<string>, env: Env)
    ensures AllRead(xs + ys, conditions, env) == (AllRead(xs, conditions, env) && AllRead(ys, conditions, env))
    decreases |ys|
  {
    if |ys| == 0 {
      assert xs + ys == xs;
    } else {
      assert (xs + ys)[..|xs + ys| - 1] == xs + ys[..|ys| - 1];
      AllReadSum(xs, ys[..|ys| - 1], conditions, env);
    }
  }

  lemma {:induction false} AnyReadsSum(xs: seq<string>, ys: seq<string>, conditions: seq<string>, env: Env)
    ensures AnyReads(xs + ys, conditions, env) == (AnyReads(xs, conditions, env) || AnyReads(ys, conditions, env))
    decreases |ys|
  {
    if |ys| == 0 {
      assert xs + ys == xs;
    } else {
      assert (xs + ys)[..|xs + ys| - 1] == xs + ys[..|ys| - 1];
      AnyReadsSum(xs, ys[..|ys| - 1], conditions, env);
    }
  }

  lemma NotACondition(s: string, k: nat, conditions: seq<string>)
    requires PlainConditions(conditions) && k < |s|
    requires IsBlank(s[k]) || s[k] == '(' || s[k] == '!'
    ensures s !in conditions
  {
  }

  lemma JoinedDisjunctionSplits(ps: seq<string>, conditions: seq<string>)
    requires |ps| > 1 && Pieces(ps, '|') && PlainConditions(conditions)
    ensures ParseSimple(Join(ps, '|'), conditions)
      == Or(ParseSimple(Join(ps[..|ps| - 1], '|'), conditions), ParseSimple(ps[|ps| - 1], conditions))
  {
    var a, b := Join(ps[..|ps| - 1], '|'), ps[|ps| - 1];
    JoinedIsTidy(ps[..|ps| - 1], '|');
    JointIsFound(a, b, '|');
    NotACondition(a + Separator('|') + b, |a|, conditions);
  }

  lemma JoinedConjunctionSplits(ps: seq<string>, conditions: seq<string>)
    requires |ps| > 1 && Pieces(ps, '&') && Pieces(ps, '|') && PlainConditions(conditions)
    ensures ParseSimple(Join(ps, '&'), conditions)
      == And(ParseSimple(Join(ps[..|ps| - 1], '&'), conditions), ParseSimple(ps[|ps| - 1], conditions))
  {
    var a, b := Join(ps[..|ps| - 1], '&'), ps[|ps| - 1];
    JoinedIsTidy(ps[..|ps| - 1], '&');
    JointIsFound(a, b, '&');
    NotACondition(a + Separator('&') + b, |a|, conditions);
    JoinedConjunction(ps);
    NoSplit(Join(ps, '&'), '|');
  }

  lemma {:induction false} JoinedDisjunctionReads(ps: seq<string>, conditions: seq<string>, env: Env)
    requires |ps| > 0 && Pieces(ps, '|') && PlainConditions(conditions)
    ensures Reading(Join(ps, '|'), conditions, env) == AnyReads(ps, conditions, env)
  {
    if |ps| > 1 {
      JoinedDisjunctionReads(ps[..|ps| - 1], conditions, env);
      JoinedDisjunctionSplits(ps, conditions);
    } else {
      assert AnyReads(ps[..0], conditions, env) == false;
    }
  }

  lemma {:induction false} JoinedConjunctionReads(ps: seq<string>, conditions: seq<string>, env: Env)
    requires |ps| > 0 && Pieces(ps, '&') && Pieces(ps, '|') && PlainConditions(conditions)
    ensures Reading(Join(ps, '&'), conditions, env) == AllRead(ps, conditions, env)
  {
    if |ps| > 1 {
      JoinedConjunctionReads(ps[..|ps| - 1], conditions, env);
      JoinedConjunctionSplits(ps, conditions);
    } else {
      assert AllRead(ps[..0], conditions, env) == true;
    }
  }

  lemma PlainReads(s: string, conditions: seq<string>)
    requires Plain(s)
    ensures ParseSimple(s, conditions) == Var(s)
  {
    PlainPiece(s, '|');
    PlainPiece(s, '&');
    NoSplit(s, '|');
    NoSplit(s, '&');
  }

  lemma NegatedReads(s: string, conditions: seq<string>)
    requires Piece(s, '|') && Piece(s, '&') && PlainConditions(conditions)
    ensures ParseSimple("!" + s, conditions) == Not(ParseSimple(s, conditions))
  {
    NegatedPiece(s, '|');
    NegatedPiece(s, '&');
    NoSplit("!" + s, '|');
    NoSplit("!" + s, '&');
    NotACondition("!" + s, 0, conditions);
    assert ("!" + s)[1..] == s;
    TrimmedTidy(s);
  }

  lemma BracketedReads(s: string, conditions: seq<string>)
    requires Tidy(s) && PlainConditions(conditions)
    ensures ParseSimple(Bracketed(s), conditions) == ParseSimple(s, conditions)
  {
    var t := Bracketed(s);
    BracketedPiece(s, '|');
    BracketedPiece(s, '&');
    NoSplit(t, '|');
    NoSplit(t, '&');
    NotACondition(t, 0, conditions);
    assert t[1..|t| - 1] == s;
    TrimmedTidy(s);
  }

  /** Reading the printed text of a guard evaluates as the guard does, under every valuation. */
  lemma {:induction false} PrintedGuardReadsBack(g: Guard, conditions: seq<string>, env: Env)
    requires WellFormed(g) && PlainConditions(conditions)
    ensures Evaluate(ParseSimple(ToCpp(g), conditions), env) == Holds(g, env)
    decreases g, 2
  {
    match g.op
    case Atomic => PlainReads(g.expression, conditions);
    case Negation => NegationReadsBack(g, conditions, env);
    case Conjunction =>
      ConjunctsAllPieces(g.children);
      ConjunctsPrint(g);
      JoinedConjunctionReads(ConjunctsOf(g.children), conditions, env);
      ConjunctsReadBack(g.children, conditions, env);
    case Disjunction =>
      DisjunctsAllPieces(g.children);
      DisjunctsPrint(g);
      JoinedDisjunctionReads(DisjunctsOf(g.children), conditions, env);
      DisjunctsReadBack(g.children, conditions, env);
  }

  lemma {:induction false} NegationReadsBack(g: Guard, conditions: seq<string>, env: Env)
    requires WellFormed(g) && g.op == Negation && PlainConditions(conditions)
    ensures Evaluate(ParseSimple(ToCpp(g), conditions), env) == Holds(g, env)
    decreases g, 1
  {
    if |g.children| == 0 {
      PlainPiece(g.expression, '|');
      PlainPiece(g.expression, '&');
      NegatedReads(g.expression, conditions);
      PlainReads(g.expression, conditions);
    } else {
      var sub := g.children[0];
      PrintedIsTidy(sub);
      PrintedGuardReadsBack(sub, conditions, env);
      if sub.op != Atomic {
        BracketedPiece(ToCpp(sub), '|');
        BracketedPiece(ToCpp(sub), '&');
        NegatedReads(Bracketed(ToCpp(sub)), conditions);
        BracketedReads(ToCpp(sub), conditions);
      } else {
        NegatedReads(ToCpp(sub), conditions);
      }
    }
  }

  lemma {:induction false} ConjunctsReadBack(cs: seq<Guard>, conditions: seq<string>, env: Env)
    requires AllWellFormed(cs) && PlainConditions(conditions)
    ensures AllRead(ConjunctsOf(cs), conditions, env) == AllHold(cs, env)
    decreases cs, 0
  {
    if |cs| > 0 {
      var last := cs[|cs| - 1];
      ConjunctsReadBack(cs[..|cs| - 1], conditions, env);
      AllReadSum(ConjunctsOf(cs[..|cs| - 1]), Conjuncts(last), conditions, env);
      if last.op == Conjunction {
        ConjunctsReadBack(last.children, conditions, env);
      } else {
        PrintedIsTidy(last);
        BracketedReads(ToCpp(last), conditions);
        PrintedGuardReadsBack(last, conditions, env);
        OneRead(AsConjunct(last), conditions, env);
      }
    }
  }

  lemma {:induction false} DisjunctsReadBack(cs: seq<Guard>, conditions: seq<string>, env: Env)
    requires AllWellFormed(cs) && PlainConditions(conditions)
    ensures AnyReads(DisjunctsOf(cs), conditions, env) == AnyHolds(cs, env)
    decreases cs, 0
  {
    if |cs| > 0 {
      var last := cs[|cs| - 1];
      DisjunctsReadBack(cs[..|cs| - 1], conditions, env);
      AnyReadsSum(DisjunctsOf(cs[..|cs| - 1]), Disjuncts(last), conditions, env);
      if last.op == Disjunction {
        DisjunctsReadBack(last.children, conditions, env);
      } else {
        PrintedGuardReadsBack(last, conditions, env);
        OneRead(ToCpp(last), conditions, env);
      }
    }
  }

  lemma OneRead(s: string, conditions: seq<string>, env: Env)
    ensures AllRead([s], conditions, env) == Reading(s, conditions, env) == AnyReads([s], conditions, env)
  {
    assert [s][..0] == [];
  }

  // ------------------------------------------------------------- single texts

  /** A text that is listed as a condition is one condition, whatever operators stand in it. */
  lemma ListedTextIsOneCondition(s: string, conditions: seq<string>)
    ensures s in conditions ==> ParseSimple(s, conditions) == Var(s)
  {
  }

  /** An operator without an operand takes the empty name. */
  lemma BareOperators(conditions: seq<string>)
    requires "" !in conditions
    ensures "!" !in conditions ==> ParseSimple("!", conditions) == Not(Var(""))
    ensures "()" !in conditions ==> ParseSimple("()", conditions) == Var("")
    ensures "&&" !in conditions ==> ParseSimple("&&", conditions) == And(Var(""), Var(""))
    ensures "||" !in conditions ==> ParseSimple("||", conditions) == Or(Var(""), Var(""))
  {
    assert TrimBlanks("") == "";
    assert "!"[1..] == "" && "()"[1..1] == "" && "&&"[..0] == "&&"[2..] == "" && "||"[..0] == "||"[2..] == "";
    assert TopSplit("!", '|') == TopSplit("!", '&') == TopSplit("", '|') == TopSplit("", '&') == None;
    assert TopSplit("()", '|') == TopSplit("()", '&') == None;
    assert TopSplit("&&", '|') == None && TopSplit("&&", '&') == Some(1) && TopSplit("||", '|') == Some(1);
  }
}
