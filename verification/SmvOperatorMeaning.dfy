/** The converted text of a guard is one SMV expression and means what the guard means. */
module SmvOperatorMeaning {
  import opened Text
  import opened Bool
  import opened Guard
  import opened SmvReader
  import D = SmvDomains
  import opened SmvOperators
  import G = SmvGuard
  import M = SmvMeaning

  // ------------------------------------------------------ the tree that is read

  function Joined(level: nat, left: Option<Decision>, d: Decision): Decision {
    if left.None? then d else Combine(level, left.value, d)
  }

  /** The guard as an operand at a level: 1 joins alternatives, 2 joins conjuncts. */
  function Tree(level: nat, g: Guard, left: Option<Decision>): Decision
    requires 1 <= level <= 2 && Refers(g)
    decreases g, if level == 2 then 3 else if g.op == Disjunction then 1 else 4
  {
    if g.op == OpOf(level) then TreeChain(level, g.children, left)
    else Joined(level, left, if level == 1 then Tree(2, g, None) else Tight(g))
  }

  function Tight(g: Guard): Decision
    requires Refers(g) && g.op != Conjunction
    decreases g, 2
  {
    match g.op
    case Atomic => Var(g.expression)
    case Negation =>
      if |g.children| == 0 then Not(Var(g.expression))
      else if g.children[0].op == Atomic then Not(Var(g.children[0].expression))
      else Not(Tree(1, g.children[0], None))
    case Disjunction => Tree(1, g, None)
  }

  function TreeChain(level: nat, cs: seq<Guard>, left: Option<Decision>): Decision
    requires 1 <= level <= 2 && |cs| > 0 && AllRefer(cs)
    decreases cs, 0
  {
    if |cs| == 1 then Tree(level, cs[0], left)
    else Tree(level, cs[|cs| - 1], Some(TreeChain(level, cs[..|cs| - 1], left)))
  }

  function OpOf(level: nat): GuardOp { if level == 1 then Disjunction else Conjunction }

  predicate JoinedValue(level: nat, left: Option<Decision>, env: Env, value: bool) {
    if left.None? then value
    else if level == 1 then Evaluate(left.value, env) || value
    else Evaluate(left.value, env) && value
  }

  lemma {:induction false} TreeMeans(level: nat, g: Guard, left: Option<Decision>, env: Env)
    requires 1 <= level <= 2 && Refers(g)
    ensures Evaluate(Tree(level, g, left), env) == JoinedValue(level, left, env, Holds(g, env))
    decreases g, if level == 2 then 3 else if g.op == Disjunction then 1 else 4
  {
    if g.op == OpOf(level) {
      ChainMeans(level, g.children, left, env);
    } else if level == 1 {
      TreeMeans(2, g, None, env);
    } else {
      TightMeans(g, env);
    }
  }

  lemma {:induction false} TightMeans(g: Guard, env: Env)
    requires Refers(g) && g.op != Conjunction
    ensures Evaluate(Tight(g), env) == Holds(g, env)
    decreases g, 2
  {
    match g.op
    case Atomic =>
    case Negation => if |g.children| > 0 && g.children[0].op != Atomic { TreeMeans(1, g.children[0], None, env); }
    case Disjunction => TreeMeans(1, g, None, env);
  }

  lemma {:induction false} ChainMeans(level: nat, cs: seq<Guard>, left: Option<Decision>, env: Env)
    requires 1 <= level <= 2 && |cs| > 0 && AllRefer(cs)
    ensures Evaluate(TreeChain(level, cs, left), env)
         == JoinedValue(level, left, env, if level == 1 then AnyHolds(cs, env) else AllHold(cs, env))
    decreases cs, 0
  {
    if |cs| == 1 {
      TreeMeans(level, cs[0], left, env);
      assert AllHold(cs[..0], env) && !AnyHolds(cs[..0], env);
    } else {
      ChainMeans(level, cs[..|cs| - 1], left, env);
      TreeMeans(level, cs[|cs| - 1], Some(TreeChain(level, cs[..|cs| - 1], left)), env);
    }
  }

  // ------------------------------------------------------------- reading it

  function Go(level: nat, s: string, a: nat, left: Option<Decision>): Reading
    requires 1 <= level <= 2 && a <= |s|
  {
    if left.None? then Read(level, s, a) else ReadRest(level, s, a, left.value)
  }

  function Lead(level: nat, left: Option<Decision>): string {
    if left.None? then "" else [' ', Mark(level), ' ']
  }

  function Part(level: nat, g: Guard): string { LayoutPart(OpOf(level), g, " & ", " | ") }

  /** A name ends at `j`, and no operator of a tighter level follows. */
  predicate Ends(level: nat, s: string, j: nat) {
    EndsName(s, j) && (level == 1 && SkipBlanks(s, j) < |s| ==> s[SkipBlanks(s, j)] != '&')
  }

  lemma OperandFollows(level: nat, s: string, a: nat, left: Option<Decision>, text: string, d: Decision, j: nat)
    requires 1 <= level <= 2 && At(s, a, Lead(level, left) + text) && j <= |s|
    requires Read(level + 1, s, a + |Lead(level, left)|) == Good(d, j)
    ensures Go(level, s, a, left) == ReadRest(level, s, j, Joined(level, left, d))
  {
    if left.Some? {
      AtSplit(s, a, Lead(level, left), text);
      AtChar(s, a, Lead(level, left), 0);
      AtChar(s, a, Lead(level, left), 1);
      AtChar(s, a, Lead(level, left), 2);
      SpanUnique(s, a, IsBlank, a + 1);
      ReadSkipsBlanks(level + 1, s, a + 2);
      RestTakesOne(level, s, a, a + 1, left.value, d, j);
    }
  }

  lemma {:induction false} ReadsPart(level: nat, g: Guard, left: Option<Decision>, s: string, a: nat, j: nat)
    requires 1 <= level <= 2 && Refers(g)
    requires At(s, a, Lead(level, left) + Part(level, g)) && j == a + |Lead(level, left)| + |Part(level, g)|
    requires Ends(level, s, j)
    ensures Go(level, s, a, left) == ReadRest(level, s, j, Tree(level, g, left))
    decreases g, if level == 2 then 3 else if g.op == Disjunction then 1 else 4, 0
  {
    hide Read, ReadRest, At, SkipBlanks, Go;
    var b := a + |Lead(level, left)|;
    AtSplit(s, a, Lead(level, left), Part(level, g));
    if g.op == OpOf(level) {
      assert Part(level, g) == Layout(g, " & ", " | ");
      assert Layout(g, " & ", " | ") == LayoutChain(g.op, g.children, " & ", " | ");
      ReadsChain(level, g.children, left, s, a, j);
    } else if level == 1 {
      assert Lead(2, None) + Part(2, g) == Part(1, g);
      ReadsPart(2, g, None, s, b, j);
      OperandEnds(s, b, j, Tree(2, g, None));
      OperandFollows(1, s, a, left, Part(1, g), Tree(2, g, None), j);
    } else {
      ReadsTight(g, s, b, j);
      OperandFollows(2, s, a, left, Part(2, g), Tight(g), j);
    }
  }

  lemma OperandEnds(s: string, i: nat, j: nat, d: Decision)
    requires i <= |s| && Ends(1, s, j) && Go(2, s, i, None) == ReadRest(2, s, j, d)
    ensures Read(2, s, i) == Good(d, j)
  {
  }

  lemma {:induction false} ReadsTight(g: Guard, s: string, i: nat, j: nat)
    requires Refers(g) && g.op != Conjunction
    requires At(s, i, Part(2, g)) && j == i + |Part(2, g)| && EndsName(s, j)
    ensures Read(3, s, i) == Good(Tight(g), j)
    decreases g, 2
  {
    hide Read, ReadRest, At, SkipBlanks, Go;
    var text := Layout(g, " & ", " | ");
    assert Part(2, g) == if g.op == Disjunction then "(" + (text + ")") else text;
    match g.op
    case Atomic => ReadsName(g.expression, s, i);
    case Negation =>
      if |g.children| == 0 {
        BangName(g.expression, s, i);
      } else if g.children[0].op == Atomic {
        assert Layout(g.children[0], " & ", " | ") == g.children[0].expression;
        assert text == "!" + g.children[0].expression;
        assert G.IsReference(g.children[0].expression);
        BangName(g.children[0].expression, s, i);
      } else {
        var x := Layout(g.children[0], " & ", " | ");
        assert "!(" + (x + ")") == "!" + ("(" + (x + ")"));
        AtSplit(s, i, "!", "(" + (x + ")"));
        AtChar(s, i, "!", 0);
        ReadsInside(g.children[0], s, i + 1, j);
        ReadsBang(s, i, Tree(1, g.children[0], None), j);
      }
    case Disjunction => ReadsInside(g, s, i, j);
  }

  lemma BangName(id: string, s: string, i: nat)
    requires G.IsReference(id) && At(s, i, "!" + id) && EndsName(s, i + 1 + |id|)
    ensures Read(3, s, i) == Good(Not(Var(id)), i + 1 + |id|)
  {
    hide Read;
    AtSplit(s, i, "!", id);
    AtChar(s, i, "!", 0);
    ReadsName(id, s, i + 1);
    ReadsBang(s, i, Var(id), i + 1 + |id|);
  }

  /** A bracketed guard is read whole. */
  lemma {:induction false} ReadsInside(g: Guard, s: string, i: nat, j: nat)
    requires Refers(g) && At(s, i, "(" + (Layout(g, " & ", " | ") + ")"))
    requires j == i + |Layout(g, " & ", " | ")| + 2
    ensures Read(3, s, i) == Good(Tree(1, g, None), j)
    decreases g, if g.op == Disjunction then 1 else 4, 1
  {
    hide Read, ReadRest, Layout;
    var x := Layout(g, " & ", " | ");
    AtSplit(s, i, "(", x + ")");
    AtSplit(s, i + 1, x, ")");
    AtChar(s, i, "(", 0);
    AtChar(s, j - 1, ")", 0);
    SpanUnique(s, j - 1, IsBlank, j - 1);
    hide At;
    assert Lead(1, None) + Part(1, g) == x;
    ReadsPart(1, g, None, s, i + 1, j - 1);
    RestEnds(1, s, j - 1, Tree(1, g, None));
    ReadsBrackets(s, i, Tree(1, g, None), j - 1);
  }

  lemma {:induction false} ReadsChain(level: nat, cs: seq<Guard>, left: Option<Decision>, s: string, a: nat, j: nat)
    requires 1 <= level <= 2 && |cs| > 0 && AllRefer(cs)
    requires At(s, a, Lead(level, left) + LayoutChain(OpOf(level), cs, " & ", " | "))
    requires j == a + |Lead(level, left)| + |LayoutChain(OpOf(level), cs, " & ", " | ")|
    requires Ends(level, s, j)
    ensures Go(level, s, a, left) == ReadRest(level, s, j, TreeChain(level, cs, left))
    decreases cs, 0
  {
    hide Read, ReadRest, At, SkipBlanks, Go, LayoutPart, Tree;
    if |cs| == 1 {
      ReadsPart(level, cs[0], left, s, a, j);
    } else {
      var init, last := cs[..|cs| - 1], cs[|cs| - 1];
      var d := TreeChain(level, init, left);
      var m := ChainSplits(level, cs, left, s, a);
      ReadsChain(level, init, left, s, a, m);
      ReadsPart(level, last, Some(d), s, m, j);
      RestAgrees(level, s, m, d);
    }
  }

  lemma RestAgrees(level: nat, s: string, m: nat, d: Decision)
    requires 1 <= level <= 2 && m <= |s|
    ensures Go(level, s, m, Some(d)) == ReadRest(level, s, m, d)
  {
  }

  lemma ChainSplits(level: nat, cs: seq<Guard>, left: Option<Decision>, s: string, a: nat) returns (m: nat)
    requires 1 <= level <= 2 && |cs| > 1
    requires At(s, a, Lead(level, left) + LayoutChain(OpOf(level), cs, " & ", " | "))
    ensures var init := LayoutChain(OpOf(level), cs[..|cs| - 1], " & ", " | ");
      && m == a + |Lead(level, left)| + |init| && At(s, a, Lead(level, left) + init)
      && At(s, m, [' ', Mark(level), ' '] + Part(level, cs[|cs| - 1]))
      && m + 3 + |Part(level, cs[|cs| - 1])| == a + |Lead(level, left)| + |LayoutChain(OpOf(level), cs, " & ", " | ")|
    ensures Ends(level, s, m)
  {
    var lead, init := Lead(level, left), LayoutChain(OpOf(level), cs[..|cs| - 1], " & ", " | ");
    var last := [' ', Mark(level), ' '] + Part(level, cs[|cs| - 1]);
    m := a + |lead| + |init|;
    assert LayoutChain(OpOf(level), cs, " & ", " | ") == init + last;
    assert lead + (init + last) == (lead + init) + last;
    AtSplit(s, a, lead + init, last);
    AtChar(s, m, last, 0);
    AtChar(s, m, last, 1);
    SpanUnique(s, m, IsBlank, m + 1);
  }

  lemma LayoutReads(g: Guard)
    requires Refers(g)
    ensures ReadWhole(Layout(g, " & ", " | ")) == Some(Tree(1, g, None))
  {
    hide Read, ReadRest;
    var s := Layout(g, " & ", " | ");
    assert Lead(1, None) + Part(1, g) == s && s[0..|s|] == s;
    SpanUnique(s, |s|, IsBlank, |s|);
    ReadsPart(1, g, None, s, 0, |s|);
    RestAtEnd(s, Tree(1, g, None));
  }

  lemma RestAtEnd(s: string, d: Decision)
    ensures ReadRest(1, s, |s|, d) == Good(d, |s|)
  {
  }

  // -------------------------------------------------------------- the guard itself

  /** The names of the guard seen through their domains. */
  predicate Seen(g: Guard, env: Env, outer: Env)
    decreases g, 1
  {
    match g.op
    case Atomic => Value(outer, g.expression) == Value(env, D.Bare(g.expression))
    case Negation =>
      if |g.children| == 0 then Value(outer, g.expression) == Value(env, D.Bare(g.expression))
      else Seen(g.children[0], env, outer)
    case _ => AllSeen(g.children, env, outer)
  }

  predicate AllSeen(cs: seq<Guard>, env: Env, outer: Env)
    decreases cs, 0
  {
    |cs| == 0 || (AllSeen(cs[..|cs| - 1], env, outer) && Seen(cs[|cs| - 1], env, outer))
  }

  lemma {:induction false} BaredHolds(g: Guard, env: Env, outer: Env)
    requires Seen(g, env, outer)
    ensures Holds(Bared(g), env) == Holds(g, outer)
    decreases g, 1
  {
    hide D.Bare;
    match g.op
    case Atomic =>
    case Negation =>
      if |g.children| > 0 {
        FirstBared(g.children);
        BaredHolds(g.children[0], env, outer);
      }
    case _ => BaredChainHolds(g.children, env, outer);
  }

  lemma {:induction false} BaredChainHolds(cs: seq<Guard>, env: Env, outer: Env)
    requires AllSeen(cs, env, outer)
    ensures AllHold(BaredAll(cs), env) == AllHold(cs, outer) && AnyHolds(BaredAll(cs), env) == AnyHolds(cs, outer)
    decreases cs, 0
  {
    if |cs| > 0 {
      var bare := BaredAll(cs);
      BaredChainHolds(cs[..|cs| - 1], env, outer);
      BaredHolds(cs[|cs| - 1], env, outer);
      assert bare[..|bare| - 1] == BaredAll(cs[..|cs| - 1]);
    }
  }

  predicate Doubles(s: string, c: char) { exists k :: 0 <= k < |s| - 1 && Pair(s, k, c) }

  predicate Pair(s: string, k: nat, c: char) { k + 1 < |s| && s[k] == s[k + 1] == c }

  lemma {:induction false} LayoutIsLone(g: Guard, c: char)
    requires Refers(g) && IsSign(c)
    ensures M.Lone(Layout(g, " & ", " | "), c)
    decreases g, 1
  {
    match g.op
    case Atomic => NameHasNoSign(g.expression, c);
    case Negation => if |g.children| == 0 { NameHasNoSign(g.expression, c); } else { LayoutIsLone(g.children[0], c); }
    case _ => ChainIsLone(g.op, g.children, c);
  }

  lemma {:induction false} ChainIsLone(op: GuardOp, cs: seq<Guard>, c: char)
    requires AllRefer(cs) && IsSign(c)
    ensures M.Lone(LayoutChain(op, cs, " & ", " | "), c)
    decreases cs, 0
  {
    if |cs| > 0 {
      LayoutIsLone(cs[|cs| - 1], c);
      ChainIsLone(op, cs[..|cs| - 1], c);
    }
  }

  lemma LayoutIsSingle(g: Guard)
    requires Refers(g)
    ensures var s := Layout(g, " & ", " | "); !Doubles(s, '&') && !Doubles(s, '|') && !Doubles(s, '=')
  {
    hide Layout;
    LayoutIsLone(g, '&');
    LayoutIsLone(g, '|');
    LayoutIsLone(g, '=');
  }

  /**
   * Main result: a guard in C++ operators, over references that keep their names, is converted to
   * one SMV expression without a doubled operator, and it means what the guard means.
   */
  lemma OperatorGuardMeansTheSame(g: Guard)
    requires KeepsGuard(g)
    ensures var s := ToSmv(ToCpp(g));
      && !Doubles(s, '&') && !Doubles(s, '|') && !Doubles(s, '=')
      && ReadWhole(s).Some?
      && forall env, outer :: Seen(g, env, outer) ==> Evaluate(ReadWhole(s).value, env) == Holds(g, outer)
  {
    hide ToSmv, ReadWhole, Layout, Tree;
    var b := Bared(g);
    GuardTextConverts(g);
    BaredRefers(g);
    LayoutReads(b);
    LayoutIsSingle(b);
    forall env, outer | Seen(g, env, outer) ensures Evaluate(Tree(1, b, None), env) == Holds(g, outer) {
      TreeMeans(1, b, None, env);
      BaredHolds(g, env, outer);
    }
  }
}
