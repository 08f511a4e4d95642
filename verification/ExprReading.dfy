/** Every spelling, standing anywhere in a text, is read as the tree it stands for. */
module ExprReading {
  import opened Text
  import opened Order
  import opened Expr
  import opened ExprTokens
  import opened ExprSpelling

  // ----------------------------------------------------- shape of the text

  /** A character a spelling can begin with. */
  predicate Begins(c: char) {
    IsIdentStart(c) || IsDigit(c) || c == '(' || c == '-' || c == '~' || c == '!' || c == '+'
  }

  lemma {:induction false} SpeltBegins(p: Spelling)
    requires Spells(p)
    ensures |Spelt(p)| > 0 && Begins(Spelt(p)[0])
  {
    if p.Chain? { SpeltBegins(p.left); }
  }

  lemma {:induction false} SpeltEnds(p: Spelling)
    requires Spells(p)
    ensures |Spelt(p)| > 0 && !IsSpace(Spelt(p)[|Spelt(p)| - 1]) && Spelt(p)[|Spelt(p)| - 1] != ';'
  {
    SpeltBegins(p);
    match p
    case Word(t, _) => assert IsIdentChar(t[|t| - 1]);
    case Numeral(x, u) => assert IsNumberChar(x[|x| - 1]) && (|u| > 0 ==> IsSuffixChar(u[|u| - 1]));
    case Sign(_, _, c) => SpeltEnds(c);
    case Chain(_, _, _, _, r) => SpeltEnds(r);
    case Group(_, _, _) =>
  }

  lemma GapIsSkipped(s: string, i: nat, gap: string)
    requires AllSpace(gap) && At(s, i, gap) && (i + |gap| < |s| ==> !IsSpace(s[i + |gap|]))
    ensures SkipWs(s, i) == i + |gap|
  {
    forall k | i <= k < i + |gap| ensures IsSpace(s[k]) { AtChar(s, i, gap, k - i); }
    SpanUnique(s, i, IsSpace, i + |gap|);
  }

  /** The blanks before a spelling, and its first character. */
  lemma GapBefore(s: string, i: nat, gap: string, p: Spelling)
    requires AllSpace(gap) && Spells(p) && At(s, i, gap) && At(s, i + |gap|, Spelt(p))
    ensures i + |gap| < |s| && SkipWs(s, i) == i + |gap| && Begins(s[i + |gap|])
  {
    SpeltBegins(p);
    AtChar(s, i + |gap|, Spelt(p), 0);
    GapIsSkipped(s, i, gap);
  }

  // ------------------------------------------------------------------ leaves

  lemma ReadsNumeral(x: string, u: string, s: string, i: nat)
    requires Spells(Numeral(x, u)) && At(s, i, x + u) && EndsToken(s, i + |x| + |u|)
    ensures Level(7, s, i) == Ok(Meant(Numeral(x, u)), i + |x| + |u|)
  {
    var q, j := i + |x|, i + |x| + |u|;
    AtSplit(s, i, x, u);
    forall k | i <= k < q ensures IsNumberChar(s[k]) { AtChar(s, i, x, k - i); }
    forall k | q <= k < j ensures IsSuffixChar(s[k]) && !IsNumberChar(s[k]) {
      AtChar(s, q, u, k - q);
      assert IsSuffixChar(u[k - q]);
    }
    SpanUnique(s, i, IsNumberChar, q);
    SpanUnique(s, q, IsSuffixChar, j);
    AtChar(s, i, x, 0);
    assert s[i..q] == x;
    hide Span;
    assert Number(s, i) == Ok(Meant(Numeral(x, u)), j);
    hide Number;
    WsStays(s, i);
    assert PrimaryAt(s, i) == Number(s, i);
    PrimaryIsLevel(s, i);
  }

  lemma ReadsSign(op: Option<UnOp>, s: string, i: nat, e: Node, j: nat)
    requires At(s, i, SignText(op)) && i + 1 <= |s| && Level(7, s, i + 1) == Ok(e, j)
    ensures Level(7, s, i) == Ok(if op.None? then e else Unary(op.value, e), j)
  {
    hide PrimaryAt;
    AtChar(s, i, SignText(op), 0);
    assert s[i] == SignText(op)[0];
    WsStays(s, i);
    hide Span, SkipWs;
    assert UnaryAt(s, i + 1) == Ok(e, j);
    match op
    case None =>
    case Some(Negate) =>
    case Some(BitwiseNot) =>
    case Some(LogicalNot) =>
  }

  lemma ReadsGroup(s: string, i: nat, e: Node, q: nat)
    requires i + 1 <= q < |s| && s[i] == '(' && Level(1, s, i + 1) == Ok(e, q) && s[q] == ')'
    ensures Level(7, s, i) == Ok(e, q + 1)
  {
    hide Number, Classify, Level;
    WsStays(s, i);
    WsStays(s, q);
    assert PrimaryAt(s, i) == Ok(e, q + 1);
    PrimaryIsLevel(s, i);
  }

  // ----------------------------------------------------------------- chains

  lemma OperatorStands(op: BinOp, s: string, o: nat)
    requires At(s, o, BinText(op)) && o + |BinText(op)| < |s|
    requires s[o + |BinText(op)|] != '|' && s[o + |BinText(op)|] != '&'
    ensures OpAt(Prec(op), s, o) == Some(op) && LevelOfChar(s[o]) == Prec(op) && !IsSpace(s[o]) && !IsIdentChar(s[o])
  {
    AtChar(s, o, BinText(op), 0);
    AtChar(s, o, BinText(op), |BinText(op)| - 1);
  }

  /** Blanks and an operator end the operand before them. */
  lemma OperatorStops(op: BinOp, s: string, a: nat, before: string)
    requires AllSpace(before) && At(s, a, before) && At(s, a + |before|, BinText(op))
    requires a + |before| + |BinText(op)| < |s|
    requires s[a + |before| + |BinText(op)|] != '|' && s[a + |before| + |BinText(op)|] != '&'
    ensures Stops(Prec(op), s, a) && SkipWs(s, a) == a + |before|
    ensures OpAt(Prec(op), s, a + |before|) == Some(op)
  {
    OperatorStands(op, s, a + |before|);
    GapIsSkipped(s, a, before);
    if |before| > 0 { AtChar(s, a, before, 0); }
  }

  /** One turn of the loop at the operator's level. */
  lemma ChainStep(op: BinOp, l: Node, r: Node, s: string, i: nat, a: nat, o: nat, c: nat, j: nat)
    requires i <= a <= o && o + |BinText(op)| <= c <= j <= |s|
    requires SkipWs(s, a) == o && OpAt(Prec(op), s, o) == Some(op)
    requires ReadAs(l, Prec(op), s, i, a)
    requires Level(Prec(op) + 1, s, o + |BinText(op)|) == Level(Prec(op) + 1, s, c)
    requires ReadAs(r, Prec(op) + 1, s, c, j)
    requires Prec(op) + 1 <= 6 ==> OpAt(Prec(op) + 1, s, SkipWs(s, j)).None?
    ensures ReadAs(Binary(op, l, r), Prec(op), s, i, j)
  {
    hide OpAt, BinText, Level, Loop;
    var p, w := Prec(op), SkipWs(s, j);
    SpanUnique(s, w, IsSpace, w);
    if p < 6 { LoopStops(p + 1, s, w, r); }
    assert Level(p + 1, s, o + |BinText(op)|) == if p == 6 then Ok(r, j) else Ok(r, w);
    LoopTurns(p, s, o, l, op, r, if p == 6 then j else w);
  }

  /** Where the parts of a chain stand. */
  lemma ChainLayout(p: Spelling, s: string, i: nat) returns (a: nat, o: nat, b: nat, c: nat)
    requires p.Chain? && At(s, i, Spelt(p))
    ensures a == i + |Spelt(p.left)| && o == a + |p.before| && b == o + |BinText(p.bop)| && c == b + |p.behind|
    ensures c + |Spelt(p.right)| == i + |Spelt(p)|
    ensures At(s, i, Spelt(p.left)) && At(s, a, p.before) && At(s, o, BinText(p.bop)) && At(s, b, p.behind)
    ensures At(s, c, Spelt(p.right))
  {
    var l, op, r := Spelt(p.left), BinText(p.bop), Spelt(p.right);
    assert Spelt(p) == l + (p.before + (op + (p.behind + r)));
    hide At, Spelt;
    a := i + |l|;
    o := a + |p.before|;
    b := o + |op|;
    c := b + |p.behind|;
    AtSplit(s, i, l, p.before + (op + (p.behind + r)));
    AtSplit(s, a, p.before, op + (p.behind + r));
    AtSplit(s, o, op, p.behind + r);
    AtSplit(s, b, p.behind, r);
  }

  // ------------------------------------------------------------- the theorem

  lemma {:induction false} Reads(p: Spelling, level: nat, s: string, i: nat)
    requires Spells(p) && 1 <= level <= Tight(p)
    requires At(s, i, Spelt(p)) && Stops(level, s, i + |Spelt(p)|)
    ensures ReadAs(Meant(p), level, s, i, i + |Spelt(p)|)
    decreases p, 1
  {
    hide Level, Loop, OpAt, SkipWs, At, Classify, NamesLeaf, IsIdent;
    var j := i + |Spelt(p)|;
    match p
    case Chain(op, l, _, _, r) =>
      StopsMore(level, Prec(op), s, j);
      ReadsChain(p, s, i);
      Loosen(Prec(op), level, s, i, Meant(p), j);
    case _ =>
      ReadsTight(p, s, i);
      Loosen(7, level, s, i, Meant(p), j);
  }

  lemma {:induction false} ReadsTight(p: Spelling, s: string, i: nat)
    requires Spells(p) && !p.Chain? && At(s, i, Spelt(p)) && EndsToken(s, i + |Spelt(p)|)
    ensures Level(7, s, i) == Ok(Meant(p), i + |Spelt(p)|)
    decreases p, 0
  {
    hide Level, Loop, OpAt, SkipWs, At, Classify, NamesLeaf;
    var j := i + |Spelt(p)|;
    match p
    case Word(t, e) =>
      ReadsWord(t, s, i);
      ClassifyExactly(t, e);
    case Numeral(x, u) => ReadsNumeral(x, u, s, i);
    case Sign(op, gap, c) =>
      AtSplit(s, i, SignText(op), gap + Spelt(c));
      AtSplit(s, i + 1, gap, Spelt(c));
      GapBefore(s, i + 1, gap, c);
      StopsAnyway(s, j);
      Reads(c, 7, s, i + 1 + |gap|);
      LevelSkipsWs(7, s, i + 1);
      ReadsSign(op, s, i, Meant(c), j);
    case Group(a, c, b) =>
      var start, end, close := GroupLayout(p, s, i);
      Reads(c, 1, s, start);
      LevelSkipsWs(1, s, i + 1);
      LoopStops(1, s, close, Meant(c));
      ReadsGroup(s, i, Meant(c), close);
  }

  lemma StopsAnyway(s: string, j: nat)
    requires EndsToken(s, j)
    ensures Stops(7, s, j)
  {
  }

  lemma GroupLayout(p: Spelling, s: string, i: nat) returns (start: nat, end: nat, close: nat)
    requires Spells(p) && p.Group? && At(s, i, Spelt(p))
    ensures start == i + 1 + |p.before| && end == start + |Spelt(p.inside)| && close == end + |p.behind|
    ensures close + 1 == i + |Spelt(p)| <= |s| && s[i] == '(' && s[close] == ')'
    ensures At(s, start, Spelt(p.inside)) && SkipWs(s, i + 1) == start
    ensures Stops(1, s, end) && SkipWs(s, end) == close && OpAt(1, s, close).None?
  {
    var inner := Spelt(p.inside);
    assert Spelt(p) == "(" + (p.before + (inner + (p.behind + ")")));
    start, end, close := BracketLayout(p.before, inner, p.behind, s, i);
    hide At, SkipWs, OpAt, Spelt;
    GapBefore(s, i + 1, p.before, p.inside);
    CloseStops(p.behind, s, end);
  }

  lemma BracketLayout(before: string, inner: string, behind: string, s: string, i: nat)
    returns (start: nat, end: nat, close: nat)
    requires At(s, i, "(" + (before + (inner + (behind + ")"))))
    ensures start == i + 1 + |before| && end == start + |inner| && close == end + |behind| < |s|
    ensures s[i] == '(' && s[close] == ')'
    ensures At(s, i + 1, before) && At(s, start, inner) && At(s, end, behind)
  {
    start := i + 1 + |before|;
    end := start + |inner|;
    close := end + |behind|;
    AtSplit(s, i, "(", before + (inner + (behind + ")")));
    AtSplit(s, i + 1, before, inner + (behind + ")"));
    AtSplit(s, start, inner, behind + ")");
    AtSplit(s, end, behind, ")");
    AtChar(s, i, "(", 0);
    AtChar(s, close, ")", 0);
  }

  lemma CloseStops(behind: string, s: string, end: nat)
    requires AllSpace(behind) && At(s, end, behind) && end + |behind| < |s| && s[end + |behind|] == ')'
    ensures Stops(1, s, end) && SkipWs(s, end) == end + |behind| && OpAt(1, s, end + |behind|).None?
  {
    GapIsSkipped(s, end, behind);
    if |behind| > 0 { AtChar(s, end, behind, 0); }
    assert LevelOfChar(s[end + |behind|]) == 0;
  }

  lemma {:induction false} ReadsChain(p: Spelling, s: string, i: nat)
    requires Spells(p) && p.Chain? && At(s, i, Spelt(p)) && Stops(Prec(p.bop), s, i + |Spelt(p)|)
    ensures ReadAs(Meant(p), Prec(p.bop), s, i, i + |Spelt(p)|)
    decreases p, 0
  {
    hide Spelt, At, OpAt, BinText, SkipWs, Level, Loop, Stops, ReadAs, Spells, Meant, Tight, Prec;
    var op, j := p.bop, i + |Spelt(p)|;
    ChainParts(p);
    var a, o, b, c := ChainLayout(p, s, i);
    OperatorOf(p, s, a, o, b, c);
    Reads(p.left, Prec(op), s, i);
    StopsMore(Prec(op), Prec(op) + 1, s, j);
    Reads(p.right, Prec(op) + 1, s, c);
    ChainStep(op, Meant(p.left), Meant(p.right), s, i, a, o, c, j);
  }

  lemma ChainParts(p: Spelling)
    requires Spells(p) && p.Chain?
    ensures Spells(p.left) && Spells(p.right)
    ensures Tight(p.left) >= Prec(p.bop) && Tight(p.right) > Prec(p.bop)
    ensures Meant(p) == Binary(p.bop, Meant(p.left), Meant(p.right))
  {
  }

  /** The operator of a chain, with the blanks around it. */
  lemma OperatorOf(p: Spelling, s: string, a: nat, o: nat, b: nat, c: nat)
    requires Spells(p) && p.Chain? && o == a + |p.before| && b == o + |BinText(p.bop)| && c == b + |p.behind|
    requires At(s, a, p.before) && At(s, o, BinText(p.bop)) && At(s, b, p.behind) && At(s, c, Spelt(p.right))
    ensures c < |s| && Stops(Prec(p.bop), s, a) && SkipWs(s, a) == o && OpAt(Prec(p.bop), s, o) == Some(p.bop)
    ensures Level(Prec(p.bop) + 1, s, b) == Level(Prec(p.bop) + 1, s, c)
  {
    hide Spelt, At, OpAt, BinText, SkipWs, Level, Loop, Stops, Begins;
    GapBefore(s, b, p.behind, p.right);
    AfterOperator(s, b, p.behind);
    OperatorStops(p.bop, s, a, p.before);
    LevelSkipsWs(Prec(p.bop) + 1, s, b);
  }

  lemma AfterOperator(s: string, b: nat, behind: string)
    requires AllSpace(behind) && At(s, b, behind) && b + |behind| < |s| && Begins(s[b + |behind|])
    ensures b < |s| && s[b] != '|' && s[b] != '&'
  {
    if |behind| > 0 { AtChar(s, b, behind, 0); }
  }
}
