/** Printing a tree and parsing the text again: when the tree comes back. */
module ExprRoundTrip {
  import opened Text
  import opened Order
  import opened Expr
  import opened ExprTokens
  import opened ExprSpelling
  import opened ExprAccepted

  // ------------------------------------------------------- canonical trees

  /** Trees whose leaves are spelled as the grammar reads them. */
  predicate Canonical(e: Node) {
    match e
    case IntLiteral(v) => 0 <= v < INT64_LIMIT
    case BoolLiteral(_) => true
    case EnumLiteral(s) => IsIdent(s) && !Rooted(s) && HasScope(s)
    case VariableRef(s) => IsIdent(s) && s != "true" && s != "false" && !HasScope(s) && '.' !in s
    case PortRef(s) => IsIdent(s) && !Rooted(s) && !HasScope(s) && FirstDot(s) < |s| - 1
    case Unary(_, c) => Canonical(c)
    case Binary(_, l, r) => Canonical(l) && Canonical(r)
    case FloatLiteral(_) => false
    case EventParamRef(_) => false
    case Raw(_) => false
  }

  // ----------------------------------------------------- prints as spellings

  /** The spelling is laid out as the printer does it, whatever prefixes its words carry. */
  predicate Prints(e: Node, p: Spelling)
    decreases e, 0
  {
    match e
    case IntLiteral(v) => 0 <= v < INT64_LIMIT && p == Numeral(Digits(v), "")
    case Unary(op, c) => p.Sign? && p.op == Some(op) && p.gap == "" && PrintsOperand(c, 7, p.operand)
    case Binary(op, l, r) =>
      && p.Chain? && p.bop == op && p.before == " " && p.behind == " "
      && PrintsOperand(l, Prec(op), p.left) && PrintsOperand(r, Prec(op) + 1, p.right)
    case _ => p.Word? && p.leaf == e && Spells(p)
  }

  /** A looser operand stands in brackets. */
  predicate PrintsOperand(e: Node, level: nat, p: Spelling)
    decreases e, 1
  {
    if Strength(e) < level then p.Group? && p.before == "" && p.behind == "" && Prints(e, p.inside) else Prints(e, p)
  }

  lemma {:induction false} PrintsSpells(e: Node, p: Spelling)
    requires Prints(e, p)
    ensures Spells(p) && Meant(p) == e && Tight(p) == Strength(e) && InLine(Spelt(p))
    decreases e, 0
  {
    hide NamesLeaf, DigitsValue, Digits, BinText;
    match e
    case IntLiteral(v) => DigitsReadBack(v);
    case Unary(_, c) => PrintsOperandSpells(c, 7, p.operand);
    case Binary(op, l, r) =>
      PrintsOperandSpells(l, Prec(op), p.left);
      PrintsOperandSpells(r, Prec(op) + 1, p.right);
      OperatorInLine(op);
      hide Prec;
    case _ =>
  }

  lemma {:induction false} PrintsOperandSpells(e: Node, level: nat, p: Spelling)
    requires PrintsOperand(e, level, p) && level <= 7
    ensures Spells(p) && Meant(p) == e && Tight(p) >= level && InLine(Spelt(p))
    decreases e, 1
  {
    hide Prints;
    PrintsSpells(e, if Strength(e) < level then p.inside else p);
  }

  lemma OperatorInLine(op: BinOp)
    ensures InLine(BinText(op))
  {
  }

  /** Whatever prefixes its words carry, a printed tree is parsed to that tree. */
  lemma PrintParses(e: Node, p: Spelling)
    requires Prints(e, p)
    ensures Parse(Spelt(p)) == e
  {
    PrintsSpells(e, p);
    LineParses(p);
  }

  // ------------------------------------------------------------ canonical trees

  lemma RootedHasDot(s: string)
    requires Rooted(s)
    ensures '.' in s
  {
    assert s[if "in." <= s then 2 else 3] == '.';
  }

  lemma ClassifyCanonical(e: Node)
    requires Canonical(e) && (e.EnumLiteral? || e.VariableRef? || e.PortRef?)
    ensures Classify(e.symbol) == e
  {
    var s := e.symbol;
    if e.PortRef? {
      var d := FirstDot(s);
      assert s == s[..d] + "." + s[d + 1..];
    } else if e.VariableRef? {
      if Rooted(s) { RootedHasDot(s); }
    }
  }

  /** A canonical tree is printed without prefixes. */
  lemma {:induction false} PrintIsSpelling(e: Node) returns (p: Spelling)
    requires Canonical(e)
    ensures Prints(e, p) && Spelt(p) == ToString(e)
    decreases e, 0
  {
    hide HasScope, FirstDot, Classify, NamesLeaf, BinText;
    match e
    case IntLiteral(v) => p := Numeral(Digits(v), "");
    case Unary(op, c) =>
      var inner := PrintOperandIsSpelling(c, 7);
      p := Sign(Some(op), "", inner);
      assert Prints(e, p);
    case Binary(op, l, r) =>
      var left := PrintOperandIsSpelling(l, Prec(op));
      var right := PrintOperandIsSpelling(r, Prec(op) + 1);
      p := Chain(op, left, " ", " ", right);
      assert Prints(e, p);
    case BoolLiteral(b) =>
      ConstantsClassify();
      ClassifyExactly(ToString(e), e);
      p := Word(ToString(e), e);
    case _ =>
      ClassifyCanonical(e);
      ClassifyExactly(ToString(e), e);
      p := Word(ToString(e), e);
  }

  lemma ConstantsClassify()
    ensures Classify("true") == BoolLiteral(true) && Classify("false") == BoolLiteral(false)
  {
  }

  lemma {:induction false} PrintOperandIsSpelling(e: Node, level: nat) returns (p: Spelling)
    requires Canonical(e)
    ensures PrintsOperand(e, level, p) && Spelt(p) == Operand(e, level)
    decreases e, 1
  {
    p := PrintIsSpelling(e);
    if Strength(e) < level {
      p := Group("", p, "");
    }
  }

  lemma {:induction false} CanonicalRoundTrips(e: Node)
    requires Canonical(e)
    ensures Parse(ToString(e)) == e
  {
    var p := PrintIsSpelling(e);
    PrintParses(e, p);
  }
}
