/** The parser as it runs: one cursor that the methods of every level advance. */
module ExprParser {
  import opened Text
  import opened Expr

  /** `left` is what a chain of `level` begun at `start` holds when its loop stands at `p`. */
  ghost predicate Chain(level: nat, s: string, start: nat, p: nat, left: Option<Node>)
    requires 1 <= level <= 6 && start <= |s|
  {
    start < p <= |s| && left.Some? && Loop(level, s, p, left.value) == Level(level, s, start)
  }

  lemma ChainStarts(level: nat, s: string, start: nat)
    requires 1 <= level <= 6 && start <= |s|
    ensures Level(level + 1, s, start).Fail? ==> Level(level, s, start).Fail?
    ensures var l := Level(level + 1, s, start);
      l.Ok? ==> Chain(level, s, start, SkipWs(s, l.next), Some(l.node))
  {
  }

  lemma ChainTurns(level: nat, s: string, start: nat, p: nat, left: Option<Node>, op: BinOp)
    requires 1 <= level <= 6 && start <= |s| && Chain(level, s, start, p, left)
    requires OpAt(level, s, p) == Some(op)
    ensures var r := Level(level + 1, s, p + |BinText(op)|);
      && (r.Fail? ==> Level(level, s, start).Fail?)
      && (r.Ok? ==> Chain(level, s, start, SkipWs(s, r.next), Some(Binary(op, left.value, r.node))))
  {
  }

  lemma ChainEnds(level: nat, s: string, start: nat, p: nat, left: Option<Node>)
    requires 1 <= level <= 6 && start <= |s| && Chain(level, s, start, p, left)
    requires OpAt(level, s, p).None?
    ensures Level(level, s, start) == Ok(left.value, p)
  {
  }

  class Parser {
    const src: string
    var pos: nat

    constructor (s: string)
      ensures src == s && pos == 0
    {
      src, pos := s, 0;
    }

    /** Outcome of a level started at `start`: what the grammar says, and where the cursor is left. */
    ghost predicate Delivers(r: Option<Node>, want: Parsed, start: nat)
      reads this
    {
      pos <= |src|
      && (want.Fail? <==> r.None?)
      && (want.Ok? ==> r == Some(want.node) && pos == want.next && pos > start)
    }

    method SkipBlanks()
      requires pos <= |src|
      modifies this
      ensures pos == SkipWs(src, old(pos))
    {
      while pos < |src| && IsSpace(src[pos])
        invariant pos <= |src| && SkipWs(src, pos) == SkipWs(src, old(pos))
      {
        pos := pos + 1;
      }
    }

    method IsEof() returns (eof: bool)
      requires pos <= |src|
      modifies this
      ensures pos == SkipWs(src, old(pos)) && eof == (pos == |src|)
    {
      SkipBlanks();
      eof := pos >= |src|;
    }

    method ParseBitwiseOr() returns (r: Option<Node>)
      requires pos <= |src|
      modifies this
      ensures Delivers(r, Level(1, src, old(pos)), old(pos))
      decreases |src| - pos, 8
    {
      var start := pos;
      hide Level, Loop, SkipWs, Span;
      ChainStarts(1, src, start);
      r := ParseBitwiseXor();
      if r.None? { return; }
      SkipBlanks();
      while pos < |src| && src[pos] == '|' && (pos + 1 >= |src| || src[pos + 1] != '|')
        invariant pos <= |src| && Chain(1, src, start, pos, r)
        decreases |src| - pos
      {
        ChainTurns(1, src, start, pos, r, BitwiseOr);
        pos := pos + 1;
        var right := ParseBitwiseXor();
        if right.None? { return None; }
        r := Some(Binary(BitwiseOr, r.value, right.value));
        SkipBlanks();
      }
      ChainEnds(1, src, start, pos, r);
    }

    method ParseBitwiseXor() returns (r: Option<Node>)
      requires pos <= |src|
      modifies this
      ensures Delivers(r, Level(2, src, old(pos)), old(pos))
      decreases |src| - pos, 7
    {
      var start := pos;
      hide Level, Loop, SkipWs, Span;
      ChainStarts(2, src, start);
      r := ParseBitwiseAnd();
      if r.None? { return; }
      SkipBlanks();
      while pos < |src| && src[pos] == '^'
        invariant pos <= |src| && Chain(2, src, start, pos, r)
        decreases |src| - pos
      {
        ChainTurns(2, src, start, pos, r, BitwiseXor);
        pos := pos + 1;
        var right := ParseBitwiseAnd();
        if right.None? { return None; }
        r := Some(Binary(BitwiseXor, r.value, right.value));
        SkipBlanks();
      }
      ChainEnds(2, src, start, pos, r);
    }

    method ParseBitwiseAnd() returns (r: Option<Node>)
      requires pos <= |src|
      modifies this
      ensures Delivers(r, Level(3, src, old(pos)), old(pos))
      decreases |src| - pos, 6
    {
      var start := pos;
      hide Level, Loop, SkipWs, Span;
      ChainStarts(3, src, start);
      r := ParseShift();
      if r.None? { return; }
      SkipBlanks();
      while pos < |src| && src[pos] == '&' && (pos + 1 >= |src| || src[pos + 1] != '&')
        invariant pos <= |src| && Chain(3, src, start, pos, r)
        decreases |src| - pos
      {
        ChainTurns(3, src, start, pos, r, BitwiseAnd);
        pos := pos + 1;
        var right := ParseShift();
        if right.None? { return None; }
        r := Some(Binary(BitwiseAnd, r.value, right.value));
        SkipBlanks();
      }
      ChainEnds(3, src, start, pos, r);
    }

    method ParseShift() returns (r: Option<Node>)
      requires pos <= |src|
      modifies this
      ensures Delivers(r, Level(4, src, old(pos)), old(pos))
      decreases |src| - pos, 5
    {
      var start := pos;
      hide Level, Loop, SkipWs, Span;
      ChainStarts(4, src, start);
      r := ParseAdditive();
      if r.None? { return; }
      SkipBlanks();
      while pos + 1 < |src|
        invariant pos <= |src| && Chain(4, src, start, pos, r)
        decreases |src| - pos
      {
        if src[pos] == '<' && src[pos + 1] == '<' {
          ChainTurns(4, src, start, pos, r, ShiftLeft);
          pos := pos + 2;
          var right := ParseAdditive();
          if right.None? { return None; }
          r := Some(Binary(ShiftLeft, r.value, right.value));
          SkipBlanks();
        } else if src[pos] == '>' && src[pos + 1] == '>' {
          ChainTurns(4, src, start, pos, r, ShiftRight);
          pos := pos + 2;
          var right := ParseAdditive();
          if right.None? { return None; }
          r := Some(Binary(ShiftRight, r.value, right.value));
          SkipBlanks();
        } else {
          break;
        }
      }
      ChainEnds(4, src, start, pos, r);
    }

    method ParseAdditive() returns (r: Option<Node>)
      requires pos <= |src|
      modifies this
      ensures Delivers(r, Level(5, src, old(pos)), old(pos))
      decreases |src| - pos, 4
    {
      var start := pos;
      hide Level, Loop, SkipWs, Span;
      ChainStarts(5, src, start);
      r := ParseMultiplicative();
      if r.None? { return; }
      SkipBlanks();
      while pos < |src|
        invariant pos <= |src| && Chain(5, src, start, pos, r)
        decreases |src| - pos
      {
        var c := src[pos];
        if c == '+' || c == '-' {
          var o := if c == '+' then Add else Subtract;
          ChainTurns(5, src, start, pos, r, o);
          pos := pos + 1;
          var right := ParseMultiplicative();
          if right.None? { return None; }
          r := Some(Binary(o, r.value, right.value));
          SkipBlanks();
        } else {
          break;
        }
      }
      ChainEnds(5, src, start, pos, r);
    }

    method ParseMultiplicative() returns (r: Option<Node>)
      requires pos <= |src|
      modifies this
      ensures Delivers(r, Level(6, src, old(pos)), old(pos))
      decreases |src| - pos, 3
    {
      var start := pos;
      hide Level, Loop, SkipWs, Span;
      ChainStarts(6, src, start);
      r := ParseUnary();
      if r.None? { return; }
      SkipBlanks();
      while pos < |src|
        invariant pos <= |src| && Chain(6, src, start, pos, r)
        decreases |src| - pos
      {
        var c := src[pos];
        if c == '*' || c == '/' || c == '%' {
          var o := if c == '*' then Multiply else if c == '/' then Divide else Modulo;
          ChainTurns(6, src, start, pos, r, o);
          pos := pos + 1;
          var right := ParseUnary();
          if right.None? { return None; }
          r := Some(Binary(o, r.value, right.value));
          SkipBlanks();
        } else {
          break;
        }
      }
      ChainEnds(6, src, start, pos, r);
    }

    method ParseUnary() returns (r: Option<Node>)
      requires pos <= |src|
      modifies this
      ensures Delivers(r, Level(7, src, old(pos)), old(pos))
      decreases |src| - pos, 2
    {
      SkipBlanks();
      if pos >= |src| { return None; }
      var c := src[pos];
      if c == '-' {
        pos := pos + 1;
        var child := ParseUnary();
        return if child.None? then None else Some(Unary(Negate, child.value));
      }
      if c == '~' {
        pos := pos + 1;
        var child := ParseUnary();
        return if child.None? then None else Some(Unary(BitwiseNot, child.value));
      }
      if c == '!' {
        pos := pos + 1;
        var child := ParseUnary();
        return if child.None? then None else Some(Unary(LogicalNot, child.value));
      }
      if c == '+' {
        pos := pos + 1;
        r := ParseUnary();
        return;
      }
      assert Level(7, src, old(pos)) == PrimaryAt(src, pos);
      r := ParsePrimary();
    }

    method ParsePrimary() returns (r: Option<Node>)
      requires pos <= |src|
      modifies this
      ensures Delivers(r, PrimaryAt(src, old(pos)), old(pos))
      decreases |src| - pos, 1
    {
      hide Level, Loop, UnaryAt, Classify, Number;
      SkipBlanks();
      if pos >= |src| { return None; }
      if src[pos] == '(' {
        pos := pos + 1;
        var inside := ParseBitwiseOr();
        SkipBlanks();
        if inside.None? || pos >= |src| || src[pos] != ')' { return None; }
        pos := pos + 1;
        return inside;
      }
      if IsDigit(src[pos]) {
        r := ParseNumber();
        return;
      }
      if IsIdentStart(src[pos]) {
        var idStart := pos;
        pos := pos + 1;
        while pos < |src| && IsIdentChar(src[pos])
          invariant idStart < pos <= |src|
          invariant Span(src, pos, IsIdentChar) == Span(src, idStart, IsIdentChar)
        {
          pos := pos + 1;
        }
        return Some(Classify(src[idStart..pos]));
      }
      return None;
    }

    method ParseNumber() returns (r: Option<Node>)
      requires pos < |src| && IsDigit(src[pos])
      modifies this
      ensures Delivers(r, Number(src, old(pos)), old(pos))
    {
      hide DigitsValue;
      var lexeme, isFloat := ScanNumber();
      if isFloat { return Some(FloatLiteral(lexeme)); }
      assert forall k :: 0 <= k < |lexeme| ==> IsNumberChar(lexeme[k]);
      if DigitsValue(lexeme) >= INT64_LIMIT { return None; }
      r := Some(IntLiteral(DigitsValue(lexeme)));
    }

    method SkipSuffix()
      requires pos <= |src|
      modifies this
      ensures pos == Span(src, old(pos), IsSuffixChar)
    {
      while pos < |src| && IsSuffixChar(src[pos])
        invariant pos <= |src| && Span(src, pos, IsSuffixChar) == Span(src, old(pos), IsSuffixChar)
      {
        pos := pos + 1;
      }
    }

    /** Runs over digits, dots and suffix letters; the suffix is not part of the lexeme. */
    method ScanNumber() returns (lexeme: string, isFloat: bool)
      requires pos < |src| && IsDigit(src[pos])
      modifies this
      ensures lexeme == src[old(pos)..Span(src, old(pos), IsNumberChar)]
      ensures pos == Span(src, Span(src, old(pos), IsNumberChar), IsSuffixChar)
      ensures isFloat <==> '.' in lexeme
    {
      hide Span;
      var numStart := pos;
      isFloat := false;
      while pos < |src| && (IsDigit(src[pos]) || src[pos] == '.')
        invariant numStart <= pos <= |src|
        invariant Span(src, pos, IsNumberChar) == Span(src, numStart, IsNumberChar)
        invariant isFloat <==> '.' in src[numStart..pos]
      {
        assert src[numStart..pos + 1] == src[numStart..pos] + [src[pos]];
        SpanNext(src, pos, IsNumberChar);
        if src[pos] == '.' { isFloat := true; }
        pos := pos + 1;
      }
      var numEnd := pos;
      SpanStops(src, pos, IsNumberChar);
      SkipSuffix();
      var last := pos;
      while last > numStart && IsSuffixChar(src[last - 1])
        invariant numEnd <= last <= pos
      {
        last := last - 1;
      }
      assert last == numEnd;
      lexeme := src[numStart..last];
    }
  }

  /** Parses a whole text, after cleaning it; falls back to the text itself. */
  method ParseText(text: string) returns (e: Node)
    ensures e == Parse(text)
  {
    var trimmed := "";
    for i := 0 to |text|
      invariant trimmed + DropLineBreaks(text[i..]) == DropLineBreaks(text)
    {
      assert text[i..][1..] == text[i + 1..];
      if text[i] != '\r' && text[i] != '\n' { trimmed := trimmed + [text[i]]; }
    }
    assert trimmed == DropLineBreaks(text) by { assert text[|text|..] == ""; }
    while trimmed != "" && (IsSpace(trimmed[|trimmed| - 1]) || trimmed[|trimmed| - 1] == ';')
      invariant TrimTail(trimmed) == TrimTail(DropLineBreaks(text))
      decreases |trimmed|
    {
      trimmed := trimmed[..|trimmed| - 1];
    }
    var start := 0;
    while start < |trimmed| && IsSpace(trimmed[start])
      invariant start <= |trimmed| && SkipWs(trimmed, start) == SkipWs(trimmed, 0)
    {
      start := start + 1;
    }
    trimmed := trimmed[start..];
    assert trimmed == Trimmed(text);
    if trimmed == "" { return Raw(""); }
    var parser := new Parser(trimmed);
    var result := parser.ParseBitwiseOr();
    if result.Some? {
      var eof := parser.IsEof();
      if eof { return result.value; }
    }
    return Raw(text);
  }
}
