/** How words, levels and chains of operators are read, at any place of a text. */
module ExprTokens {
  import opened Text
  import opened Expr

  predicate IsIdent(s: string) {
    |s| > 0 && IsIdentStart(s[0]) && forall k :: 0 <= k < |s| ==> IsIdentChar(s[k])
  }

  predicate Rooted(s: string) { "in." <= s || "out." <= s || "reg." <= s }

  lemma {:induction false} DigitsReadBack(n: nat)
    ensures |Digits(n)| > 0
    ensures forall k :: 0 <= k < |Digits(n)| ==> IsDigit(Digits(n)[k])
    ensures DigitsValue(Digits(n)) == n
  {
    if n >= 10 {
      DigitsReadBack(n / 10);
      assert Digits(n)[..|Digits(n)| - 1] == Digits(n / 10);
    } else {
      assert Digits(n)[..0] == "";
    }
  }

  lemma {:induction false} DigitsNoLonger(t: string)
    requires |t| > 0 && forall k :: 0 <= k < |t| ==> IsDigit(t[k])
    ensures |Digits(DigitsValue(t))| <= |t|
  {
    var init := t[..|t| - 1];
    if init == "" {
      assert DigitsValue(init) == 0;
    } else {
      DigitsNoLonger(init);
      var v := DigitsValue(t);
      assert v / 10 == DigitsValue(init);
    }
  }

  predicate EndsToken(s: string, j: nat) {
    j <= |s| && (j < |s| ==> !IsIdentChar(s[j]))
  }

  predicate NoOpsAbove(level: nat, s: string, w: nat) {
    forall k :: level < k <= 6 ==> OpAt(k, s, w).None?
  }

  lemma WsStays(s: string, i: nat)
    requires i < |s| && !IsSpace(s[i])
    ensures SkipWs(s, i) == i
  {
  }

  lemma {:induction false} LevelSkipsWs(level: nat, s: string, i: nat)
    requires 1 <= level <= 7 && i <= |s|
    ensures Level(level, s, i) == Level(level, s, SkipWs(s, i))
    decreases 7 - level
  {
    hide Loop, UnaryAt, SkipWs;
    if level < 7 { LevelSkipsWs(level + 1, s, i); } else { UnarySkipsWs(s, i); }
  }

  lemma UnarySkipsWs(s: string, i: nat)
    requires i <= |s|
    ensures UnaryAt(s, i) == UnaryAt(s, SkipWs(s, i))
  {
    hide PrimaryAt;
    SpanUnique(s, SkipWs(s, i), IsSpace, SkipWs(s, i));
  }

  /** A result of a tight level is the first operand of every looser one. */
  lemma {:induction false} Climb(k: nat, level: nat, s: string, i: nat, e: Node, q: nat)
    requires 1 <= level < k <= 7 && i <= |s|
    requires Level(k, s, i) == Ok(e, q)
    requires NoOpsAbove(level, s, SkipWs(s, q))
    ensures Level(level, s, i) == Loop(level, s, SkipWs(s, q), e)
    decreases k
  {
    var w := SkipWs(s, q);
    if level < k - 1 {
      assert OpAt(k - 1, s, w).None?;
      assert Level(k - 1, s, i) == Ok(e, w);
      SpanUnique(s, w, IsSpace, w);
      Climb(k - 1, level, s, i, e, w);
    }
  }

  /** Reading at `i` delivers `e` and goes on at `j`: at a binary level, in the loop of that level. */
  predicate ReadAs(e: Node, level: nat, s: string, i: nat, j: nat)
    requires 1 <= level <= 7 && i <= |s| && j <= |s|
  {
    if level == 7 then Level(7, s, i) == Ok(e, j)
    else Level(level, s, i) == Loop(level, s, SkipWs(s, j), e)
  }

  /** No token and no operator of a level tighter than `level` goes on at `j`. */
  predicate Stops(level: nat, s: string, j: nat) {
    EndsToken(s, j) && NoOpsAbove(level, s, SkipWs(s, j))
  }

  lemma Loosen(k: nat, level: nat, s: string, i: nat, e: Node, j: nat)
    requires 1 <= level <= k <= 7 && i <= |s| && j <= |s|
    requires ReadAs(e, k, s, i, j) && NoOpsAbove(level, s, SkipWs(s, j))
    ensures ReadAs(e, level, s, i, j)
  {
    var w := SkipWs(s, j);
    SpanUnique(s, w, IsSpace, w);
    if level < k {
      assert k <= 6 ==> OpAt(k, s, w).None?;
      Climb(k, level, s, i, e, if k == 7 then j else w);
    }
  }

  lemma StopsMore(level: nat, tighter: nat, s: string, j: nat)
    requires Stops(level, s, j) && level <= tighter
    ensures Stops(tighter, s, j) && j <= |s|
    ensures level < tighter <= 6 ==> OpAt(tighter, s, SkipWs(s, j)).None?
  {
  }

  lemma LoopStops(level: nat, s: string, i: nat, left: Node)
    requires 1 <= level <= 6 && i <= |s| && OpAt(level, s, i).None?
    ensures Loop(level, s, i, left) == Ok(left, i)
  {
  }

  lemma LoopTurns(level: nat, s: string, i: nat, left: Node, op: BinOp, right: Node, q: nat)
    requires 1 <= level <= 6 && i + |BinText(op)| <= |s| && OpAt(level, s, i) == Some(op)
    requires Level(level + 1, s, i + |BinText(op)|) == Ok(right, q) && q <= |s|
    ensures Loop(level, s, i, left) == Loop(level, s, SkipWs(s, q), Binary(op, left, right))
  {
    hide Level, OpAt, BinText, SkipWs;
  }

  lemma ReadsWord(t: string, s: string, i: nat)
    requires IsIdent(t) && At(s, i, t) && EndsToken(s, i + |t|)
    ensures Level(7, s, i) == Ok(Classify(t), i + |t|)
  {
    AtChar(s, i, t, 0);
    forall k | i <= k < i + |t| ensures IsIdentChar(s[k]) { AtChar(s, i, t, k - i); }
    SpanUnique(s, i, IsIdentChar, i + |t|);
    WsStays(s, i);
    hide Level, Number, Classify;
    assert PrimaryAt(s, i) == Ok(Classify(t), i + |t|);
    PrimaryIsLevel(s, i);
  }

  lemma PrimaryIsLevel(s: string, i: nat)
    requires i < |s| && !IsSpace(s[i]) && s[i] != '-' && s[i] != '~' && s[i] != '!' && s[i] != '+'
    ensures Level(7, s, i) == PrimaryAt(s, i)
  {
    hide PrimaryAt;
    WsStays(s, i);
    assert UnaryAt(s, i) == PrimaryAt(s, i);
  }
}
