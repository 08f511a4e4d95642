/**
 * The converse of the round trip. Every leaf the grammar reads is no longer than the word it
 * was read from, and shorter when the word carried a prefix or suffix that is not kept. So a
 * tree that comes back from its own text was spelled canonically throughout.
 */
module ExprExact {
  import opened Text
  import opened Expr
  import opened ExprTokens
  import opened ExprSpelling
  import opened ExprRoundTrip
  import ExprCases

  /** Number of word characters in a text. */
  function Weight(t: string): nat {
    if |t| == 0 then 0 else Weight(t[..|t| - 1]) + if IsIdentChar(t[|t| - 1]) then 1 else 0
  }

  /** Characters spent on the leaves of a tree. */
  function LeafWeight(e: Node): nat {
    match e
    case Unary(_, c) => LeafWeight(c)
    case Binary(_, l, r) => LeafWeight(l) + LeafWeight(r)
    case _ => |ToString(e)|
  }

  predicate HasFloat(e: Node) {
    match e
    case FloatLiteral(_) => true
    case Unary(_, c) => HasFloat(c)
    case Binary(_, l, r) => HasFloat(l) || HasFloat(r)
    case _ => false
  }

  lemma {:induction false} WeightSum(a: string, b: string)
    ensures Weight(a + b) == Weight(a) + Weight(b)
  {
    if |b| == 0 {
      assert a + b == a;
    } else {
      assert (a + b)[..|a + b| - 1] == a + b[..|b| - 1];
      WeightSum(a, b[..|b| - 1]);
    }
  }

  lemma {:induction false} WeightBound(t: string)
    ensures Weight(t) <= |t|
    ensures (forall k :: 0 <= k < |t| ==> IsIdentChar(t[k])) ==> Weight(t) == |t|
  {
    if |t| > 0 { WeightBound(t[..|t| - 1]); }
  }

  lemma WeightCut(s: string, i: nat, j: nat, k: nat)
    requires i <= j <= k <= |s|
    ensures Weight(s[i..k]) == Weight(s[i..j]) + Weight(s[j..k])
  {
    assert s[i..k] == s[i..j] + s[j..k];
    WeightSum(s[i..j], s[j..k]);
  }

  /** What reading `s[i..q]` as `e` guarantees. */
  predicate Sound(e: Node, s: string, i: nat, q: nat)
    requires i <= q <= |s|
  {
    LeafWeight(e) <= Weight(s[i..q])
    && (LeafWeight(e) == Weight(s[i..q]) && !HasFloat(e) ==> Canonical(e))
  }

  lemma SoundWiden(e: Node, s: string, i: nat, a: nat, b: nat, q: nat)
    requires i <= a <= b <= q <= |s| && Sound(e, s, a, b)
    ensures Sound(e, s, i, q)
  {
    WeightCut(s, i, a, q);
    WeightCut(s, a, b, q);
  }

  lemma SoundJoin(op: BinOp, l: Node, r: Node, s: string, i: nat, a: nat, b: nat, q: nat)
    requires i <= a <= b <= q <= |s| && Sound(l, s, i, a) && Sound(r, s, b, q)
    ensures Sound(Binary(op, l, r), s, i, q)
  {
    WeightCut(s, i, a, q);
    WeightCut(s, a, b, q);
  }

  // ------------------------------------------------------------- the words

  lemma SoundNumber(s: string, i: nat)
    requires i < |s| && IsDigit(s[i]) && Number(s, i).Ok?
    ensures Sound(Number(s, i).node, s, i, Number(s, i).next)
  {
    var q := Span(s, i, IsNumberChar);
    var next := Span(s, q, IsSuffixChar);
    var lexeme := s[i..q];
    assert q > i by { assert IsNumberChar(s[i]); }
    WeightBound(lexeme);
    WeightCut(s, i, q, next);
    if '.' !in lexeme {
      assert forall k :: 0 <= k < |lexeme| ==> IsNumberChar(lexeme[k]);
      DigitsNoLonger(lexeme);
    }
  }

  lemma DotSplit(id: string)
    requires FirstDot(id) < |id|
    ensures id == id[..FirstDot(id)] + "." + id[FirstDot(id) + 1..]
  {
  }

  lemma ClassifyKeepsOrShortens(id: string)
    requires IsIdent(id)
    ensures var e := Classify(id);
      !e.Unary? && !e.Binary? && |ToString(e)| <= |id| && (|ToString(e)| == |id| ==> Canonical(e))
  {
    if !Rooted(id) && !HasScope(id) && '.' in id {
      DotSplit(id);
    }
  }

  lemma SoundWord(s: string, i: nat)
    requires i < |s| && IsIdentStart(s[i])
    ensures i < Span(s, i, IsIdentChar) && Sound(Classify(s[i..Span(s, i, IsIdentChar)]), s, i, Span(s, i, IsIdentChar))
  {
    var q := Span(s, i, IsIdentChar);
    assert q > i by { assert IsIdentChar(s[i]); }
    var id := s[i..q];
    assert forall k :: 0 <= k < |id| ==> IsIdentChar(id[k]);
    WeightBound(id);
    ClassifyKeepsOrShortens(id);
  }

  // ----------------------------------------------------------- the grammar

  lemma {:induction false} SoundPrimary(s: string, i: nat)
    requires i <= |s| && PrimaryAt(s, i).Ok?
    ensures Sound(PrimaryAt(s, i).node, s, i, PrimaryAt(s, i).next)
    decreases |s| - i, 0
  {
    hide Level, Number, Classify, Sound;
    var p := SkipWs(s, i);
    var r := PrimaryAt(s, i);
    if s[p] == '(' {
      SoundLevel(1, s, p + 1);
      SoundWiden(r.node, s, i, p + 1, Level(1, s, p + 1).next, r.next);
    } else {
      if IsDigit(s[p]) { SoundNumber(s, p); } else { SoundWord(s, p); }
      SoundWiden(r.node, s, i, p, r.next, r.next);
    }
  }

  lemma UnaryStaysSound(e: Node, s: string, i: nat, q: nat)
    requires i <= q <= |s| && Sound(e, s, i, q)
    ensures forall op :: Sound(Unary(op, e), s, i, q)
  {
  }

  lemma {:induction false} SoundUnary(s: string, i: nat)
    requires i <= |s| && UnaryAt(s, i).Ok?
    ensures Sound(UnaryAt(s, i).node, s, i, UnaryAt(s, i).next)
    decreases |s| - i, 1
  {
    hide Level, Loop, PrimaryAt, Sound, SkipWs;
    var p := SkipWs(s, i);
    var r := UnaryAt(s, i);
    if s[p] == '-' || s[p] == '~' || s[p] == '!' || s[p] == '+' {
      var c := UnaryAt(s, p + 1);
      SoundUnary(s, p + 1);
      SoundWiden(c.node, s, i, p + 1, c.next, c.next);
      UnaryStaysSound(c.node, s, i, c.next);
    } else {
      SoundPrimary(s, p);
      SoundWiden(r.node, s, i, p, r.next, r.next);
    }
  }

  lemma {:induction false} SoundLevel(level: nat, s: string, i: nat)
    requires 1 <= level <= 7 && i <= |s| && Level(level, s, i).Ok?
    ensures Sound(Level(level, s, i).node, s, i, Level(level, s, i).next)
    decreases |s| - i, 9 - level
  {
    if level == 7 {
      SoundUnary(s, i);
    } else {
      var l := Level(level + 1, s, i);
      SoundLevel(level + 1, s, i);
      var w := SkipWs(s, l.next);
      SoundWiden(l.node, s, i, i, l.next, w);
      SoundLoop(level, s, i, w, l.node);
    }
  }

  lemma {:induction false} SoundLoop(level: nat, s: string, start: nat, i: nat, left: Node)
    requires 1 <= level <= 6 && start <= i <= |s| && Sound(left, s, start, i)
    requires Loop(level, s, i, left).Ok?
    ensures Sound(Loop(level, s, i, left).node, s, start, Loop(level, s, i, left).next)
    decreases |s| - i, 9 - level
  {
    hide Sound, SkipWs, OpAt, BinText, Level;
    var op := OpAt(level, s, i);
    if op.Some? {
      var b := i + |BinText(op.value)|;
      var r := Level(level + 1, s, b);
      SoundLevel(level + 1, s, b);
      SoundJoin(op.value, left, r.node, s, start, i, b, r.next);
      var w := SkipWs(s, r.next);
      var e := Binary(op.value, left, r.node);
      SoundWiden(e, s, start, start, r.next, w);
      SoundLoop(level, s, start, w, e);
    }
  }

  // ------------------------------------------------------------ whole texts

  lemma {:induction false} DroppingLightens(t: string)
    ensures Weight(DropLineBreaks(t)) <= Weight(t)
  {
    if t != "" {
      assert t == [t[0]] + t[1..];
      WeightSum([t[0]], t[1..]);
      WeightSum([t[0]], DropLineBreaks(t[1..]));
      DroppingLightens(t[1..]);
    }
  }

  lemma {:induction false} TrimTailLightens(t: string)
    ensures Weight(TrimTail(t)) <= Weight(t)
  {
    if t != "" && (IsSpace(t[|t| - 1]) || t[|t| - 1] == ';') { TrimTailLightens(t[..|t| - 1]); }
  }

  lemma TrimmingLightens(text: string)
    ensures Weight(Trimmed(text)) <= Weight(text)
  {
    DroppingLightens(text);
    TrimTailLightens(DropLineBreaks(text));
    var t := TrimTail(DropLineBreaks(text));
    assert t == t[..SkipWs(t, 0)] + t[SkipWs(t, 0)..];
    WeightSum(t[..SkipWs(t, 0)], t[SkipWs(t, 0)..]);
  }

  lemma {:induction false} PrintingWeighs(e: Node)
    ensures Weight(ToString(e)) <= LeafWeight(e)
    decreases e, 0
  {
    match e
    case Unary(op, c) =>
      OperandWeighs(c, 7);
      assert Weight(UnText(op)) == 0;
      WeightSum(UnText(op), Operand(c, 7));
    case Binary(op, l, r) =>
      var left, right := Operand(l, Prec(op)), Operand(r, Prec(op) + 1);
      OperandWeighs(l, Prec(op));
      OperandWeighs(r, Prec(op) + 1);
      OperatorWeighsNothing(op);
      WeightSum(left, " " + (BinText(op) + (" " + right)));
      WeightSum(" ", BinText(op) + (" " + right));
      WeightSum(BinText(op), " " + right);
      WeightSum(" ", right);
    case _ => WeightBound(ToString(e));
  }

  lemma OperatorWeighsNothing(op: BinOp)
    ensures Weight(BinText(op)) == 0 && Weight(" ") == 0
  {
    var t := BinText(op);
    assert Weight(t[..1]) == 0 by { assert t[..1][..0] == ""; }
    if |t| == 2 { assert t[..|t| - 1] == t[..1]; } else { assert t == t[..1]; }
  }

  lemma {:induction false} OperandWeighs(e: Node, level: nat)
    ensures Weight(Operand(e, level)) <= LeafWeight(e)
    decreases e, 1
  {
    PrintingWeighs(e);
    if Strength(e) < level {
      WeightSum("(" + ToString(e), ")");
      WeightSum("(", ToString(e));
    }
  }

  lemma {:induction false} ComingBackIsCanonical(e: Node)
    requires !e.Raw? && !HasFloat(e) && Parse(ToString(e)) == e
    ensures Canonical(e)
  {
    var text := ToString(e);
    var t := Trimmed(text);
    var r := Level(1, t, 0);
    assert r.Ok? && r.node == e;
    SoundLevel(1, t, 0);
    WeightCut(t, 0, r.next, |t|);
    assert t[0..|t|] == t;
    TrimmingLightens(text);
    PrintingWeighs(e);
  }

  /** Exactly the canonically spelled trees survive being printed and parsed again. */
  lemma RoundTripExactly(e: Node)
    requires !e.Raw? && !HasFloat(e)
    ensures Parse(ToString(e)) == e <==> Canonical(e)
  {
    if Canonical(e) { CanonicalRoundTrips(e); }
    if Parse(ToString(e)) == e { ComingBackIsCanonical(e); }
  }

  /** A stripped `in.` prefix is not printed again: the second reading is another tree. */
  lemma PortPrefixIsLost()
    ensures Parse("in.x") == PortRef("x")
    ensures Parse(ToString(Parse("in.x"))) == VariableRef("x")
  {
    ExprCases.WordParses("in.x", PortRef("x"));
    ExprCases.WordParses("x", VariableRef("x"));
  }
}
