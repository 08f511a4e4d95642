/** Only spellings are accepted: the text the parser used is one, between blanks. */
module ExprAccepted {
  import opened Text
  import opened Order
  import opened Expr
  import opened ExprTokens
  import opened ExprSpelling
  import opened ExprReading

  /** Between `i` and `q` stands a spelling of `e`, from `a` to `b`, and blanks around it. */
  predicate Stands(p: Spelling, e: Node, level: nat, s: string, i: nat, a: nat, b: nat, q: nat) {
    && Spells(p) && Meant(p) == e && Tight(p) >= level
    && i <= a <= b <= q <= |s| && s[a..b] == Spelt(p)
    && AllSpace(s[i..a]) && AllSpace(s[b..q])
  }

  lemma SkippedIsSpace(s: string, i: nat)
    requires i <= |s|
    ensures AllSpace(s[i..SkipWs(s, i)])
  {
  }

  lemma SpaceJoins(s: string, i: nat, a: nat, b: nat)
    requires i <= a <= b <= |s| && AllSpace(s[i..a]) && AllSpace(s[a..b])
    ensures AllSpace(s[i..b])
  {
    assert s[i..b] == s[i..a] + s[a..b];
  }

  lemma Widen(p: Spelling, e: Node, level: nat, s: string, i: nat, a: nat, b: nat, q: nat, i': nat, q': nat)
    requires Stands(p, e, level, s, i, a, b, q)
    requires i' <= i && q <= q' <= |s| && AllSpace(s[i'..i]) && AllSpace(s[q..q'])
    ensures Stands(p, e, level, s, i', a, b, q')
  {
    hide Spells, Spelt, Meant, AllSpace;
    SpaceJoins(s, i', i, a);
    SpaceJoins(s, b, q, q');
  }

  lemma AcceptsNumber(s: string, i: nat) returns (p: Spelling)
    requires i < |s| && IsDigit(s[i]) && Number(s, i).Ok?
    ensures Stands(p, Number(s, i).node, 7, s, i, i, Number(s, i).next, Number(s, i).next)
  {
    var q := Span(s, i, IsNumberChar);
    var j := Span(s, q, IsSuffixChar);
    assert q > i by { assert IsNumberChar(s[i]); }
    p := Numeral(s[i..q], s[q..j]);
    assert s[i..j] == s[i..q] + s[q..j];
    assert s[i..q][0] == s[i];
    hide Span;
    assert Spells(p);
  }

  lemma AcceptsWord(s: string, i: nat) returns (p: Spelling)
    requires i < |s| && IsIdentStart(s[i])
    ensures Stands(p, Classify(s[i..Span(s, i, IsIdentChar)]), 7, s,
                   i, i, Span(s, i, IsIdentChar), Span(s, i, IsIdentChar))
  {
    var q := Span(s, i, IsIdentChar);
    assert q > i by { assert IsIdentChar(s[i]); }
    var t := s[i..q];
    assert IsIdent(t);
    hide Classify, NamesLeaf;
    ClassifyExactly(t, Classify(t));
    p := Word(t, Classify(t));
  }

  lemma MakesSign(op: Option<UnOp>, c: Spelling, e: Node, s: string, i: nat, a: nat, b: nat, q: nat)
    returns (p: Spelling)
    requires i < |s| && [s[i]] == SignText(op) && Stands(c, e, 7, s, i + 1, a, b, q)
    ensures Stands(p, if op.None? then e else Unary(op.value, e), 7, s, i, i, b, q)
  {
    p := Sign(op, s[i + 1..a], c);
    assert s[i..i + 1] == [s[i]];
    Cut(s, i + 1, a, b);
    Cut(s, i, i + 1, b);
    hide AllSpace;
    assert AllSpace(s[i..i]) by { AllSpaceEmpty(); assert s[i..i] == ""; }
  }

  lemma AllSpaceEmpty()
    ensures AllSpace("")
  {
  }

  lemma MakesGroup(c: Spelling, e: Node, s: string, i: nat, a: nat, b: nat, close: nat) returns (p: Spelling)
    requires i < |s| && s[i] == '(' && Stands(c, e, 1, s, i + 1, a, b, close) && close < |s| && s[close] == ')'
    ensures Stands(p, e, 7, s, i, i, close + 1, close + 1)
  {
    p := Group(s[i + 1..a], c, s[b..close]);
    assert s[i..i + 1] == "(" && s[close..close + 1] == ")";
    Cut(s, b, close, close + 1);
    Cut(s, a, b, close + 1);
    Cut(s, i + 1, a, close + 1);
    Cut(s, i, i + 1, close + 1);
    hide AllSpace;
    AllSpaceEmpty();
    assert s[i..i] == "" && s[close + 1..close + 1] == "";
  }

  lemma MakesChain(op: BinOp, l: Spelling, r: Spelling, el: Node, er: Node, s: string,
                   i: nat, a: nat, b: nat, o: nat, c: nat, d: nat, q: nat) returns (p: Spelling)
    requires Stands(l, el, Prec(op), s, i, a, b, o) && At(s, o, BinText(op))
    requires Stands(r, er, Prec(op) + 1, s, o + |BinText(op)|, c, d, q)
    ensures Stands(p, Binary(op, el, er), Prec(op), s, i, a, d, q)
  {
    var n := o + |BinText(op)|;
    p := Chain(op, l, s[b..o], s[n..c], r);
    Cut(s, n, c, d);
    Cut(s, o, n, d);
    Cut(s, b, o, d);
    Cut(s, a, b, d);
    hide AllSpace, BinText;
    assert Spelt(p) == Spelt(l) + (s[b..o] + (BinText(op) + (s[n..c] + Spelt(r))));
  }

  lemma Cut(s: string, a: nat, b: nat, c: nat)
    requires a <= b <= c <= |s|
    ensures s[a..c] == s[a..b] + s[b..c]
  {
  }

  lemma OperatorText(level: nat, s: string, i: nat)
    requires OpAt(level, s, i).Some?
    ensures At(s, i, BinText(OpAt(level, s, i).value))
  {
  }

  // ------------------------------------------------------------- the grammar

  lemma {:induction false} AcceptsPrimary(s: string, i: nat) returns (p: Spelling, a: nat, b: nat)
    requires i <= |s| && PrimaryAt(s, i).Ok?
    ensures Stands(p, PrimaryAt(s, i).node, 7, s, i, a, b, PrimaryAt(s, i).next)
    decreases |s| - i, 0
  {
    hide Level, Number, Classify, Stands, SkipWs;
    var w, r := SkipWs(s, i), PrimaryAt(s, i);
    SkippedIsSpace(s, i);
    if s[w] == '(' {
      var inside := Level(1, s, w + 1);
      var c, x, y := AcceptsLevel(1, s, w + 1);
      SkippedIsSpace(s, inside.next);
      var close := SkipWs(s, inside.next);
      NothingBetween(s, w + 1);
      Widen(c, inside.node, 1, s, w + 1, x, y, inside.next, w + 1, close);
      p := MakesGroup(c, r.node, s, w, x, y, close);
      a, b := w, close + 1;
    } else {
      if IsDigit(s[w]) { p := AcceptsNumber(s, w); } else { p := AcceptsWord(s, w); }
      a, b := w, r.next;
    }
    NothingBetween(s, r.next);
    Widen(p, r.node, 7, s, w, a, b, r.next, i, r.next);
  }

  lemma NothingBetween(s: string, i: nat)
    requires i <= |s|
    ensures AllSpace(s[i..i])
  {
  }

  lemma {:induction false} AcceptsUnary(s: string, i: nat) returns (p: Spelling, a: nat, b: nat)
    requires i <= |s| && UnaryAt(s, i).Ok?
    ensures Stands(p, UnaryAt(s, i).node, 7, s, i, a, b, UnaryAt(s, i).next)
    decreases |s| - i, 1
  {
    hide Level, Loop, PrimaryAt, Stands, SkipWs;
    var w, r := SkipWs(s, i), UnaryAt(s, i);
    SkippedIsSpace(s, i);
    if s[w] == '-' || s[w] == '~' || s[w] == '!' || s[w] == '+' {
      var op := if s[w] == '-' then Some(Negate) else if s[w] == '~' then Some(BitwiseNot)
        else if s[w] == '!' then Some(LogicalNot) else None;
      var c, x, y := AcceptsUnary(s, w + 1);
      p := MakesSign(op, c, UnaryAt(s, w + 1).node, s, w, x, y, r.next);
      a, b := w, y;
    } else {
      p, a, b := AcceptsPrimary(s, w);
    }
    NothingBetween(s, r.next);
    Widen(p, r.node, 7, s, w, a, b, r.next, i, r.next);
  }

  lemma {:induction false} AcceptsLevel(level: nat, s: string, i: nat) returns (p: Spelling, a: nat, b: nat)
    requires 1 <= level <= 7 && i <= |s| && Level(level, s, i).Ok?
    ensures Stands(p, Level(level, s, i).node, level, s, i, a, b, Level(level, s, i).next)
    decreases |s| - i, 9 - level
  {
    hide Loop, UnaryAt, Stands, SkipWs;
    if level == 7 {
      p, a, b := AcceptsUnary(s, i);
    } else {
      var l := Level(level + 1, s, i);
      p, a, b := AcceptsLevel(level + 1, s, i);
      LooserStands(p, l.node, level, s, i, a, b, l.next);
      p, a, b := AcceptsRest(level, s, i, p, a, b, l.next, l.node);
    }
  }

  lemma LooserStands(p: Spelling, e: Node, level: nat, s: string, i: nat, a: nat, b: nat, q: nat)
    requires Stands(p, e, level + 1, s, i, a, b, q)
    ensures Stands(p, e, level, s, i, a, b, q) && q <= |s|
  {
  }

  /** The loop of a level goes on behind the blanks at `q`. */
  lemma {:induction false} AcceptsRest(level: nat, s: string, start: nat, l: Spelling, a: nat, b: nat, q: nat,
                                          left: Node)
    returns (p: Spelling, c: nat, d: nat)
    requires 1 <= level <= 6 && start <= q <= |s| && Stands(l, left, level, s, start, a, b, q)
    requires Loop(level, s, SkipWs(s, q), left).Ok?
    ensures var r := Loop(level, s, SkipWs(s, q), left); Stands(p, r.node, level, s, start, c, d, r.next)
    decreases |s| - q, 9 - level
  {
    hide Stands, SkipWs, OpAt, BinText, Level, Prec;
    var o := SkipWs(s, q);
    SkippedIsSpace(s, q);
    NothingBetween(s, start);
    Widen(l, left, level, s, start, a, b, q, start, o);
    var op := OpAt(level, s, o);
    if op.None? {
      p, c, d := l, a, b;
    } else {
      var n := o + |BinText(op.value)|;
      var r := Level(level + 1, s, n);
      var rest, x, y := AcceptsLevel(level + 1, s, n);
      OperatorText(level, s, o);
      p := MakesChain(op.value, l, rest, left, r.node, s, start, a, b, o, x, y, r.next);
      p, c, d := AcceptsRest(level, s, start, p, a, y, r.next, Binary(op.value, left, r.node));
    }
  }

  // ------------------------------------------------------------ whole texts

  predicate StaysInLine(c: char) { c != '\r' && c != '\n' }

  predicate IsTail(c: char) { IsSpace(c) || c == ';' }

  predicate AllTail(s: string) { forall k :: 0 <= k < |s| ==> IsTail(s[k]) }

  /** Without its line breaks the text is a spelling, with blanks before it, and blanks and semicolons behind. */
  predicate IsSpelling(text: string, lead: string, p: Spelling, tail: string) {
    Filter(text, StaysInLine) == lead + (Spelt(p) + tail) && AllSpace(lead) && Spells(p) && AllTail(tail)
  }

  lemma {:induction false} DroppedIsFiltered(t: string)
    ensures DropLineBreaks(t) == Filter(t, StaysInLine)
  {
    if t != "" {
      DroppedIsFiltered(t[1..]);
      FilterFront(t);
    }
  }

  lemma {:induction false} FilterFront(t: string)
    requires t != ""
    ensures Filter(t, StaysInLine) == (if StaysInLine(t[0]) then [t[0]] else []) + Filter(t[1..], StaysInLine)
  {
    var init := t[..|t| - 1];
    if init == "" {
      assert Filter(init, StaysInLine) == [];
      assert t[1..] == "";
    } else {
      FilterFront(init);
      assert t[1..][..|t| - 2] == init[1..] && t[1..][|t| - 2] == t[|t| - 1];
    }
  }

  lemma {:induction false} TrimTailCuts(t: string)
    ensures TrimTail(t) <= t && AllTail(t[|TrimTail(t)|..])
    ensures |TrimTail(t)| > 0 ==> !IsTail(TrimTail(t)[|TrimTail(t)| - 1])
  {
    if t != "" && IsTail(t[|t| - 1]) {
      TrimTailCuts(t[..|t| - 1]);
      assert t[|TrimTail(t)|..] == t[..|t| - 1][|TrimTail(t)|..] + [t[|t| - 1]];
    }
  }

  lemma {:induction false} TrimTailUnique(a: string, tail: string)
    requires AllTail(tail) && (|a| > 0 ==> !IsTail(a[|a| - 1]))
    ensures TrimTail(a + tail) == a
  {
    if |tail| > 0 {
      assert (a + tail)[..|a + tail| - 1] == a + tail[..|tail| - 1];
      TrimTailUnique(a, tail[..|tail| - 1]);
    } else {
      assert a + tail == a;
    }
  }

  /** Trimming leaves the middle between blanks in front and blanks and semicolons behind. */
  lemma TrimmedExactly(text: string, lead: string, core: string, tail: string)
    requires AllSpace(lead) && AllTail(tail) && core != "" && !IsSpace(core[0]) && !IsTail(core[|core| - 1])
    requires Filter(text, StaysInLine) == lead + (core + tail)
    ensures Trimmed(text) == core
  {
    DroppedIsFiltered(text);
    assert lead + (core + tail) == (lead + core) + tail;
    TrimTailUnique(lead + core, tail);
    assert (lead + core)[|lead|] == core[0];
    GapIsSkipped(lead + core, 0, lead) by { assert (lead + core)[0..|lead|] == lead; }
  }

  lemma TrimmedParts(text: string) returns (lead: string, tail: string)
    ensures AllSpace(lead) && AllTail(tail) && Filter(text, StaysInLine) == lead + (Trimmed(text) + tail)
    ensures Trimmed(text) != "" ==> !IsTail(Trimmed(text)[|Trimmed(text)| - 1])
  {
    DroppedIsFiltered(text);
    var u := DropLineBreaks(text);
    var t := TrimTail(u);
    TrimTailCuts(u);
    SkippedIsSpace(t, 0);
    lead, tail := t[0..SkipWs(t, 0)], u[|t|..];
    assert u == t + tail && t == lead + Trimmed(text);
  }

  /** Every spelling is parsed to what it stands for, whatever breaks its lines. */
  lemma SpellingParses(text: string, lead: string, p: Spelling, tail: string)
    requires IsSpelling(text, lead, p, tail)
    ensures Parse(text) == Meant(p)
  {
    var t := Spelt(p);
    hide Spells, Spelt, Level, Trimmed, SkipWs, Filter, AllSpace, AllTail;
    SpeltBegins(p);
    SpeltEnds(p);
    TrimmedExactly(text, lead, t, tail);
    SpeltIsRead(p);
  }

  lemma SpeltIsRead(p: Spelling)
    requires Spells(p)
    ensures Spelt(p) != "" && Accepted(Spelt(p)) == Some(Meant(p))
  {
    hide Spells, Spelt, Level;
    var t := Spelt(p);
    SpeltBegins(p);
    assert At(t, 0, t) by { assert t[0..|t|] == t; }
    assert SkipWs(t, |t|) == |t|;
    assert Stops(1, t, |t|);
    Reads(p, 1, t, 0);
    LoopStops(1, t, |t|, Meant(p));
  }

  predicate InLine(t: string) { forall c :: c in t ==> StaysInLine(c) }

  lemma {:induction false} FilterKeeps(t: string)
    requires InLine(t)
    ensures Filter(t, StaysInLine) == t
  {
    if t != "" {
      FilterKeeps(t[..|t| - 1]);
      assert t == t[..|t| - 1] + [t[|t| - 1]];
    }
  }

  /** A spelling that stands in one line is parsed to its meaning. */
  lemma LineParses(p: Spelling)
    requires Spells(p) && InLine(Spelt(p))
    ensures Parse(Spelt(p)) == Meant(p)
  {
    hide Spells, Spelt, Parse, Filter, Meant, InLine;
    FilterKeeps(Spelt(p));
    assert Spelt(p) == "" + (Spelt(p) + "");
    SpellingParses(Spelt(p), "", p, "");
  }

  /** A text the grammar accepts is a spelling. */
  lemma AcceptedIsSpelling(text: string) returns (lead: string, p: Spelling, tail: string)
    requires Trimmed(text) != "" && Accepted(Trimmed(text)).Some?
    ensures IsSpelling(text, lead, p, tail) && Accepted(Trimmed(text)) == Some(Meant(p))
  {
    hide Level, Spells, Spelt, Trimmed, SkipWs, Filter, Meant, Tight;
    var t := Trimmed(text);
    var r := Level(1, t, 0);
    lead, tail := TrimmedParts(text);
    var a, b;
    p, a, b := AcceptsLevel(1, t, 0);
    SkippedIsSpace(t, r.next);
    assert t[r.next..|t|] == t[r.next..];
    Enclose(t, a, b, r.next, lead, tail);
    lead, tail := lead + t[..a], t[b..] + tail;
  }

  lemma Enclose(t: string, a: nat, b: nat, q: nat, lead: string, tail: string)
    requires a <= b <= q <= |t| && AllSpace(t[0..a]) && AllSpace(t[b..q]) && AllSpace(t[q..])
    requires AllSpace(lead) && AllTail(tail)
    ensures lead + (t + tail) == (lead + t[..a]) + (t[a..b] + (t[b..] + tail))
    ensures AllSpace(lead + t[..a]) && AllTail(t[b..] + tail)
  {
    assert t[..a] == t[0..a];
    assert t[b..] == t[b..q] + t[q..];
    assert t == t[..a] + (t[a..b] + t[b..]);
  }

  /**
   * Main result: a tree is parsed from exactly the texts that spell it, and a text that spells
   * none is kept as it is, or as nothing when it holds nothing but blanks and semicolons.
   */
  lemma ParsesExactly(text: string, e: Node)
    ensures !e.Raw? ==> (Parse(text) == e <==> exists lead, p, tail :: IsSpelling(text, lead, p, tail) && Meant(p) == e)
    ensures (forall lead, p, tail :: !IsSpelling(text, lead, p, tail)) ==>
      Parse(text) == Raw(if AllTail(text) then "" else text)
  {
    hide Spells, Spelt, Filter, AllSpace, Meant, Trimmed, Accepted;
    forall lead, p, tail | IsSpelling(text, lead, p, tail) ensures Parse(text) == Meant(p) && !Meant(p).Raw? {
      SpellingParses(text, lead, p, tail);
      SpellsNoRaw(p);
    }
    EmptyExactly(text);
    if Trimmed(text) != "" && Accepted(Trimmed(text)).Some? {
      var lead, p, tail := AcceptedIsSpelling(text);
    }
  }

  lemma {:induction false} SpellsNoRaw(p: Spelling)
    requires Spells(p)
    ensures !Meant(p).Raw?
  {
    match p
    case Sign(_, _, c) => SpellsNoRaw(c);
    case Group(_, c, _) => SpellsNoRaw(c);
    case _ =>
  }

  lemma EmptyExactly(text: string)
    ensures Trimmed(text) == "" <==> AllTail(text)
  {
    var lead, tail := TrimmedParts(text);
    var u := Filter(text, StaysInLine);
    FilterMembers(text, StaysInLine);
    if Trimmed(text) == "" {
      forall k | 0 <= k < |text| ensures IsTail(text[k]) {
        if StaysInLine(text[k]) { assert text[k] in u; assert u == lead + tail; }
      }
    } else {
      var last := Trimmed(text)[|Trimmed(text)| - 1];
      assert u[|lead| + |Trimmed(text)| - 1] == last;
      assert last in text;
    }
  }
}
