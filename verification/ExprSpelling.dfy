/**
 * What the parser accepts, from the side of the texts: every way to spell a tree, with prefixes,
 * suffixes, blanks, signs and brackets, is read as that tree, and nothing else is accepted.
 */
module ExprSpelling {
  import opened Text
  import opened Order
  import opened Expr
  import opened ExprTokens

  /** A text with its meaning. `Sign` without an operator is a plus, which means nothing. */
  datatype Spelling =
    | Word(text: string, leaf: Node)
    | Numeral(lexeme: string, suffix: string)
    | Sign(op: Option<UnOp>, gap: string, operand: Spelling)
    | Chain(bop: BinOp, left: Spelling, before: string, behind: string, right: Spelling)
    | Group(before: string, inside: Spelling, behind: string)

  function Spelt(p: Spelling): string {
    match p
    case Word(t, _) => t
    case Numeral(x, u) => x + u
    case Sign(op, gap, c) => SignText(op) + (gap + Spelt(c))
    case Chain(op, l, a, b, r) => Spelt(l) + (a + (BinText(op) + (b + Spelt(r))))
    case Group(a, c, b) => "(" + (a + (Spelt(c) + (b + ")")))
  }

  function SignText(op: Option<UnOp>): string {
    if op == Some(Negate) then "-"
    else if op == Some(BitwiseNot) then "~"
    else if op == Some(LogicalNot) then "!"
    else "+"
  }

  /** The tree a spelling stands for. */
  function Meant(p: Spelling): Node
    requires Spells(p)
  {
    match p
    case Word(_, e) => e
    case Numeral(x, _) =>
      assert forall k :: 0 <= k < |x| ==> IsNumberChar(x[k]);
      if '.' in x then FloatLiteral(x) else IntLiteral(DigitsValue(x))
    case Sign(op, _, c) => if op.None? then Meant(c) else Unary(op.value, Meant(c))
    case Chain(op, l, _, _, r) => Binary(op, Meant(l), Meant(r))
    case Group(_, c, _) => Meant(c)
  }

  /** How tightly a spelling holds together: chains as their operator, the rest tightest. */
  function Tight(p: Spelling): (t: nat)
    ensures 1 <= t <= 7
  {
    if p.Chain? then Prec(p.bop) else 7
  }

  /** The spelling is one of the grammar: a looser one stands inside a tighter one in brackets only. */
  predicate Spells(p: Spelling) {
    match p
    case Word(t, e) => IsIdent(t) && NamesLeaf(t, e)
    case Numeral(x, u) =>
      && |x| > 0 && IsDigit(x[0]) && (forall k :: 0 <= k < |x| ==> IsNumberChar(x[k]))
      && (forall k :: 0 <= k < |u| ==> IsSuffixChar(u[k]))
      && ('.' !in x ==> DigitsValue(x) < INT64_LIMIT)
    case Sign(_, gap, c) => AllSpace(gap) && Spells(c) && Tight(c) == 7
    case Chain(op, l, a, b, r) =>
      AllSpace(a) && AllSpace(b) && Spells(l) && Spells(r) && Tight(l) >= Prec(op) && Tight(r) > Prec(op)
    case Group(a, c, b) => AllSpace(a) && AllSpace(b) && Spells(c)
  }

  /** The characters of numerals, suffixes, words and blanks. */
  lemma CharactersExactly(c: char)
    ensures IsNumberChar(c) <==> '0' <= c <= '9' || c == '.'
    ensures IsSuffixChar(c) <==> c in {'f', 'F', 'u', 'U', 'l', 'L'}
    ensures IsIdentStart(c) <==> 'a' <= c <= 'z' || 'A' <= c <= 'Z' || c == '_'
    ensures IsIdentChar(c) <==> 'a' <= c <= 'z' || 'A' <= c <= 'Z' || '0' <= c <= '9' || c in {'_', '.', ':'}
    ensures IsSpace(c) <==> c in {' ', '\t', '\n', '\r', '\U{0B}', '\U{0C}'}
  {
  }

  predicate HasColons(t: string) { exists k :: 0 <= k < |t| && At(t, k, "::") }

  predicate HasDomain(t: string) { "in." <= t || "out." <= t || "reg." <= t }

  /** An owner and its field with a dot between; a field left out takes the dot with it. */
  predicate Owned(t: string, x: string) {
    (t == x != "" && '.' in x[..|x| - 1]) || (t == x + "." && '.' !in x)
  }

  /**
   * What a word names: the constants; variables, bare or behind `reg.`; ports, behind `in.` or
   * `out.` or as an owner with a field, an empty field left out; enumerators with `::`.
   */
  predicate NamesLeaf(t: string, e: Node) {
    match e
    case BoolLiteral(b) => t == if b then "true" else "false"
    case VariableRef(x) =>
      t == "reg." + x || (t == x && x != "true" && x != "false" && '.' !in x && !HasColons(x))
    case PortRef(x) =>
      || t == "in." + x || t == "out." + x
      || (!HasDomain(t) && !HasColons(t) && Owned(t, x))
    case EnumLiteral(x) => t == x && HasColons(x) && !HasDomain(x)
    case _ => false
  }

  lemma ColonsAreScope(t: string)
    ensures HasColons(t) <==> HasScope(t)
  {
    if k :| 0 <= k < |t| && At(t, k, "::") {
      AtChar(t, k, "::", 0);
      AtChar(t, k, "::", 1);
      assert ScopeAt(t, k);
    }
    if k :| 0 <= k < |t| - 1 && ScopeAt(t, k) {
      assert t[k..k + 2] == "::";
      assert At(t, k, "::");
    }
  }

  /** The classification of words names the leaf they name, and no other. */
  lemma ClassifyExactly(t: string, e: Node)
    requires IsIdent(t)
    ensures NamesLeaf(t, e) <==> Classify(t) == e
  {
    hide HasColons, HasScope;
    ColonsAreScope(t);
    if "in." <= t {
      PrefixedExactly(t, "in.", e);
    } else if "out." <= t {
      PrefixedExactly(t, "out.", e);
    } else if "reg." <= t {
      PrefixedExactly(t, "reg.", e);
    } else if !HasScope(t) && '.' in t {
      OwnedExactly(t, e);
    } else {
      PlainExactly(t, e);
    }
  }

  lemma PrefixedExactly(t: string, p: string, e: Node)
    requires (p == "in." || p == "out." || p == "reg.") && p <= t
    ensures NamesLeaf(t, e) <==> e == if p == "reg." then VariableRef(t[4..]) else PortRef(t[|p|..])
  {
    hide HasColons;
    assert t == p + t[|p|..];
    assert t[|p| - 1] == '.';
    assert '.' in t;
    assert t[0] == p[0];
  }

  lemma OwnedExactly(t: string, e: Node)
    requires IsIdent(t) && !HasDomain(t) && !HasColons(t) && '.' in t
    ensures NamesLeaf(t, e) <==> e == MakePortRef(t[..FirstDot(t)], t[FirstDot(t) + 1..])
  {
    hide HasColons, Owned, FirstDot, MakePortRef;
    if e.PortRef? {
      var x := e.symbol;
      OwnerExactly(t, x);
      assert "in." <= "in." + x && "out." <= "out." + x;
    } else {
      OwnerExactly(t, "");
    }
  }

  lemma OwnerExactly(t: string, x: string)
    requires '.' in t
    ensures MakePortRef(t[..FirstDot(t)], t[FirstDot(t) + 1..]).PortRef?
    ensures Owned(t, x) <==> MakePortRef(t[..FirstDot(t)], t[FirstDot(t) + 1..]) == PortRef(x)
  {
    var d := FirstDot(t);
    assert t == t[..d] + "." + t[d + 1..];
    if d < |t| - 1 {
      assert t[..|t| - 1][d] == '.' && t[d + 1..] != "";
      assert t != x + "." || '.' in x by { if t == x + "." { assert x[d] == t[d]; } }
    } else {
      assert t[d + 1..] == "" && '.' !in t[..d] && t == t[..d] + ".";
      assert t[..|t| - 1] == t[..d];
      assert t == x + "." ==> x == t[..d];
    }
  }

  lemma PlainExactly(t: string, e: Node)
    requires IsIdent(t) && !HasDomain(t) && (HasColons(t) || '.' !in t)
    ensures var leaf :=
        if t == "true" then BoolLiteral(true) else if t == "false" then BoolLiteral(false)
        else if HasColons(t) then EnumLiteral(t) else VariableRef(t);
      NamesLeaf(t, e) <==> e == leaf
  {
    hide HasColons;
    if e.PortRef? { assert e.symbol + "." == t ==> t[|t| - 1] == '.'; }
    NoColonsInConstants();
  }

  lemma NoColonsInConstants()
    ensures !HasColons("true") && !HasColons("false")
  {
    forall k | 0 <= k < 4 ensures !At("true", k, "::") { if At("true", k, "::") { AtChar("true", k, "::", 0); } }
    forall k | 0 <= k < 5 ensures !At("false", k, "::") { if At("false", k, "::") { AtChar("false", k, "::", 0); } }
  }
}
