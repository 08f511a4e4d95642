/** What single families of texts are parsed to. */
module ExprCases {
  import opened Text
  import opened Order
  import opened Expr
  import opened ExprTokens
  import opened ExprSpelling
  import opened ExprAccepted
  import opened ExprRoundTrip

  /** A word alone is the leaf it names. */
  lemma WordParses(t: string, e: Node)
    requires IsIdent(t) && NamesLeaf(t, e)
    ensures Parse(t) == e
  {
    LineParses(Word(t, e));
  }

  /** A plus before an operand changes nothing; the other signs are kept. */
  lemma SignsParse(t: string, e: Node)
    requires IsIdent(t) && NamesLeaf(t, e)
    ensures Parse("+" + t) == e
    ensures Parse("-" + t) == Unary(Negate, e)
    ensures Parse("~" + t) == Unary(BitwiseNot, e)
    ensures Parse("!" + t) == Unary(LogicalNot, e)
  {
    hide Parse, NamesLeaf;
    SignParses(None, "+", t, e);
    SignParses(Some(Negate), "-", t, e);
    SignParses(Some(BitwiseNot), "~", t, e);
    SignParses(Some(LogicalNot), "!", t, e);
  }

  lemma SignParses(op: Option<UnOp>, sign: string, t: string, e: Node)
    requires IsIdent(t) && NamesLeaf(t, e) && sign == SignText(op) && |sign| == 1 && StaysInLine(sign[0])
    ensures Parse(sign + t) == if op.None? then e else Unary(op.value, e)
  {
    hide Parse, NamesLeaf;
    var p := Sign(op, "", Word(t, e));
    assert Spelt(p) == sign + t;
    LineParses(p);
  }

  /** A negative literal is printed with a sign, which is read as an operator. */
  lemma NegativeLiteralsBecomeNegations(v: int)
    requires -INT64_LIMIT < v < 0
    ensures Parse(ToString(IntLiteral(v))) == Unary(Negate, IntLiteral(-v))
  {
    hide Parse, Digits, DigitsValue;
    var p := Sign(Some(Negate), "", Numeral(Digits(-v), ""));
    DigitsReadBack(-v);
    DigitsAreNumeral(Digits(-v));
    assert Spelt(p) == "-" + Digits(-v);
    LineParses(p);
  }

  /** Numerals out of range are refused, and so is what they stand in first. */
  lemma LargeNumeralsAreKept(digits: string)
    requires |digits| > 0 && (forall k :: 0 <= k < |digits| ==> IsDigit(digits[k]))
    requires DigitsValue(digits) >= INT64_LIMIT
    ensures Parse(digits) == Raw(digits) && Parse("-" + digits) == Raw("-" + digits)
  {
    hide DigitsValue;
    FailsAtOnce(digits, 0, digits);
    FailsAtOnce("-" + digits, 1, digits);
  }

  lemma FailsAtOnce(t: string, i: nat, digits: string)
    requires |digits| > 0 && (forall k :: 0 <= k < |digits| ==> IsDigit(digits[k]))
    requires DigitsValue(digits) >= INT64_LIMIT
    requires (i == 0 && t == digits) || (i == 1 && t == "-" + digits)
    ensures Parse(t) == Raw(t)
  {
    hide DigitsValue, Level, Trimmed, UnaryAt;
    if i == 0 { assert t[0..|t|] == t; } else { assert t[1..|t|] == digits; }
    forall k | i <= k < |t| ensures IsDigit(t[k]) { assert t[k] == digits[k - i]; }
    NumberFails(t, i);
    if i == 1 { SignFails(t); }
    FailClimbs(1, t);
    DigitsAreTrimmed(t, i);
  }

  lemma DigitsAreTrimmed(t: string, i: nat)
    requires i < |t| && i <= 1 && (i == 1 ==> t[0] == '-') && forall k :: i <= k < |t| ==> IsDigit(t[k])
    ensures Trimmed(t) == t
  {
    hide Trimmed, Filter;
    FilterKeeps(t);
    assert t == "" + (t + "");
    TrimmedExactly(t, "", t, "");
  }

  lemma NumberFails(t: string, i: nat)
    requires i < |t| && (forall k :: i <= k < |t| ==> IsDigit(t[k])) && DigitsValue(t[i..|t|]) >= INT64_LIMIT
    ensures UnaryAt(t, i) == Fail
  {
    SpanUnique(t, i, IsNumberChar, |t|);
    WsStays(t, i);
    hide Level, Span;
    assert Number(t, i) == Fail;
  }

  lemma SignFails(t: string)
    requires |t| > 0 && t[0] == '-' && UnaryAt(t, 1) == Fail
    ensures UnaryAt(t, 0) == Fail
  {
    hide PrimaryAt;
    WsStays(t, 0);
  }

  lemma {:induction false} FailClimbs(level: nat, t: string)
    requires 1 <= level <= 7 && UnaryAt(t, 0) == Fail
    ensures Level(level, t, 0) == Fail
    decreases 7 - level
  {
    hide UnaryAt, Loop;
    if level < 7 { FailClimbs(level + 1, t); }
  }

  lemma DigitsAreNumeral(t: string)
    requires |t| > 0 && forall k :: 0 <= k < |t| ==> IsDigit(t[k])
    requires DigitsValue(t) < INT64_LIMIT
    ensures Spells(Numeral(t, "")) && Meant(Numeral(t, "")) == IntLiteral(DigitsValue(t)) && InLine(t)
  {
    hide DigitsValue;
  }

  /** A text kept as it was comes back if and only if it is no spelling, and not blank unless it is empty. */
  lemma KeptTextsComeBackExactly(s: string)
    ensures Parse(ToString(Raw(s))) == Raw(s) <==>
      (forall lead, p, tail :: !IsSpelling(s, lead, p, tail)) && (AllTail(s) ==> s == "")
  {
    hide IsSpelling, Parse, AllTail;
    ParsesExactly(s, Raw(s));
    if lead, p, tail :| IsSpelling(s, lead, p, tail) {
      SpellingIsNoRaw(s, lead, p, tail);
    }
  }

  lemma SpellingIsNoRaw(s: string, lead: string, p: Spelling, tail: string)
    requires IsSpelling(s, lead, p, tail)
    ensures !Parse(s).Raw?
  {
    hide Parse;
    SpellingParses(s, lead, p, tail);
    SpellsNoRaw(p);
  }

  // ------------------------------------------------------- how operators hold

  /** The operators with their texts, the loosest first. */
  predicate Denotes(x: string, op: BinOp, rank: nat) {
    || (x == "|" && op == BitwiseOr && rank == 1)
    || (x == "^" && op == BitwiseXor && rank == 2)
    || (x == "&" && op == BitwiseAnd && rank == 3)
    || (x == "<<" && op == ShiftLeft && rank == 4) || (x == ">>" && op == ShiftRight && rank == 4)
    || (x == "+" && op == Add && rank == 5) || (x == "-" && op == Subtract && rank == 5)
    || (x == "*" && op == Multiply && rank == 6) || (x == "/" && op == Divide && rank == 6)
    || (x == "%" && op == Modulo && rank == 6)
  }

  predicate Names(t: string, e: Node) { IsIdent(t) && NamesLeaf(t, e) }

  /** Of two operators the tighter one takes the operand between them, and of two equal ones the first. */
  lemma TighterTakesTheMiddle(a: string, ea: Node, x: string, opx: BinOp, rx: nat, b: string, eb: Node,
                              y: string, opy: BinOp, ry: nat, c: string, ec: Node)
    requires Names(a, ea) && Names(b, eb) && Names(c, ec) && Denotes(x, opx, rx) && Denotes(y, opy, ry)
    ensures Parse(a + " " + x + " " + b + " " + y + " " + c)
         == if ry > rx then Binary(opx, ea, Binary(opy, eb, ec)) else Binary(opy, Binary(opx, ea, eb), ec)
  {
    hide Parse, NamesLeaf, IsIdent, Spells, Spelt, Meant, Prec, BinText, Denotes;
    DenotesText(x, opx, rx);
    DenotesText(y, opy, ry);
    var text := a + " " + x + " " + b + " " + y + " " + c;
    var l, m, r := Word(a, ea), Word(b, eb), Word(c, ec);
    var p := if ry > rx then Of(opx, l, Of(opy, m, r)) else Of(opy, Of(opx, l, m), r);
    WordShows(a, ea);
    WordShows(b, eb);
    WordShows(c, ec);
    if ry > rx {
      OfShows(opy, m, r);
      OfShows(opx, l, Of(opy, m, r));
    } else {
      OfShows(opx, l, m);
      OfShows(opy, Of(opx, l, m), r);
    }
    TextOfTwo(opx, opy, l, m, r, ry > rx);
    LineParses(p);
  }

  lemma WordShows(t: string, e: Node)
    requires Names(t, e)
    ensures var p := Word(t, e);
      Spells(p) && Meant(p) == e && Spelt(p) == t && InLine(t) && Tight(p) == 7
  {
  }

  lemma OfShows(op: BinOp, l: Spelling, r: Spelling)
    requires Spells(l) && Spells(r) && Tight(l) >= Prec(op) && Tight(r) > Prec(op)
    requires InLine(Spelt(l)) && InLine(Spelt(r))
    ensures var p := Of(op, l, r);
      Spells(p) && Meant(p) == Binary(op, Meant(l), Meant(r)) && InLine(Spelt(p)) && Tight(p) == Prec(op)
  {
    OperatorInLine(op);
    hide BinText, Prec;
  }

  function Of(op: BinOp, l: Spelling, r: Spelling): Spelling { Chain(op, l, " ", " ", r) }

  lemma TextOfTwo(x: BinOp, y: BinOp, l: Spelling, m: Spelling, r: Spelling, second: bool)
    ensures Spelt(if second then Of(x, l, Of(y, m, r)) else Of(y, Of(x, l, m), r))
         == Spelt(l) + " " + BinText(x) + " " + Spelt(m) + " " + BinText(y) + " " + Spelt(r)
  {
    hide BinText;
    var a, b, c, p, q := Spelt(l), Spelt(m), Spelt(r), BinText(x), BinText(y);
    if second {
      var rest := b + (" " + (q + (" " + c)));
      assert Spelt(Of(y, m, r)) == rest;
      Spread(a, p, rest);
      SpreadBehind(a + " " + p + " ", b, q, c);
    } else {
      var first := a + (" " + (p + (" " + b)));
      assert Spelt(Of(x, l, m)) == first;
      Spread(a, p, b);
      Spread(first, q, c);
    }
  }

  lemma Spread(a: string, p: string, b: string)
    ensures a + (" " + (p + (" " + b))) == a + " " + p + " " + b
  {
  }

  lemma SpreadBehind(h: string, b: string, q: string, c: string)
    ensures h + (b + (" " + (q + (" " + c)))) == h + b + " " + q + " " + c
  {
    Spread(b, q, c);
    Spread(h + b, q, c);
    assert h + (b + (" " + (q + (" " + c)))) == h + b + (" " + (q + (" " + c)));
  }

  lemma DenotesText(x: string, op: BinOp, rank: nat)
    requires Denotes(x, op, rank)
    ensures BinText(op) == x && Prec(op) == rank
  {
  }

  // ------------------------------------------------------- words with prefixes

  lemma SumParses(a: string, ea: Node, b: string, eb: Node)
    requires Names(a, ea) && Names(b, eb)
    ensures Parse(a + " + " + b) == Binary(Add, ea, eb)
  {
    hide Parse, Spells, Spelt, Meant, Names, BinText;
    WordShows(a, ea);
    WordShows(b, eb);
    var l, r := Word(a, ea), Word(b, eb);
    OfShows(Add, l, r);
    SpeltOf(Add, l, r);
    assert BinText(Add) == "+" by { DenotesText("+", Add, 5); }
    assert a + (" " + ("+" + (" " + b))) == a + " + " + b;
    LineParses(Of(Add, l, r));
  }

  /** The prefixes tell ports from variables and are not kept. */
  lemma PrefixesAreRead()
    ensures Parse("in.sensor_temp + reg.offset") == Binary(Add, PortRef("sensor_temp"), VariableRef("offset"))
  {
    hide Parse, Names;
    SensorIsPort();
    OffsetIsVariable();
    SumParses("in.sensor_temp", PortRef("sensor_temp"), "reg.offset", VariableRef("offset"));
    assert "in.sensor_temp" + " + " + "reg.offset" == "in.sensor_temp + reg.offset";
  }

  lemma SensorIsPort()
    ensures Names("in.sensor_temp", PortRef("sensor_temp"))
  {
    PrefixNames("in.sensor_temp", PortRef("sensor_temp"));
  }

  lemma OffsetIsVariable()
    ensures Names("reg.offset", VariableRef("offset"))
  {
    PrefixNames("reg.offset", VariableRef("offset"));
  }

  lemma PrefixNames(t: string, e: Node)
    requires IsIdent(t) && ((e.VariableRef? && t == "reg." + e.symbol) || (e.PortRef? && t == "in." + e.symbol))
    ensures Names(t, e)
  {
  }

  lemma SpeltOf(op: BinOp, l: Spelling, r: Spelling)
    ensures Spelt(Of(op, l, r)) == Spelt(l) + (" " + (BinText(op) + (" " + Spelt(r))))
  {
  }

  // ------------------------------------------------------------------- calls

  /** A word with an opening bracket behind it is no spelling: calls are kept as they are. */
  lemma CallsAreKept(name: string, rest: string)
    requires IsIdent(name)
    ensures Parse(name + ("(" + rest)) == Raw(name + ("(" + rest))
  {
    hide Trimmed, Level, Filter;
    var text := name + ("(" + rest);
    var t := Trimmed(text);
    var lead, tail := TrimmedParts(text);
    FilterSplits(name, "(" + rest);
    FilterSplits("(", rest);
    FilterKeeps(name);
    FilterKeeps("(");
    CallStaysWhole(name, Filter(rest, StaysInLine), lead, t, tail);
    hide AllTail;
    ReadsWord(name, t, 0);
    WsStays(t, |name|);
    Climb(7, 1, t, 0, Classify(name), |name|);
    LoopStops(1, t, |name|, Classify(name));
  }

  lemma CallStaysWhole(name: string, rest: string, lead: string, t: string, tail: string)
    requires IsIdent(name) && AllSpace(lead) && AllTail(tail) && name + ("(" + rest) == lead + (t + tail)
    ensures |name| < |t| && At(t, 0, name) && t[|name|] == '('
  {
    var u := name + ("(" + rest);
    assert u[0] == name[0] && u[|name|] == '(';
    CharOf(lead, t + tail, 0);
    assert lead == "";
    CharOf(t, tail, |name|);
    assert t == u[..|t|];
    assert t[0..|name|] == name;
  }

  lemma CharOf(a: string, b: string, k: nat)
    requires k < |a + b|
    ensures (a + b)[k] == if k < |a| then a[k] else b[k - |a|]
  {
  }

  lemma {:induction false} FilterSplits(a: string, b: string)
    ensures Filter(a + b, StaysInLine) == Filter(a, StaysInLine) + Filter(b, StaysInLine)
  {
    if b == "" {
      assert a + b == a;
    } else {
      assert (a + b)[..|a + b| - 1] == a + b[..|b| - 1];
      FilterSplits(a, b[..|b| - 1]);
    }
  }

  lemma HashCallIsKept()
    ensures Parse("compute_hash(buffer, 128);") == Raw("compute_hash(buffer, 128);")
  {
    hide Parse;
    CallsAreKept("compute_hash", "buffer, 128);");
    assert "compute_hash(buffer, 128);" == "compute_hash" + ("(" + "buffer, 128);");
  }
}
