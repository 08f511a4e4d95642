/** Written lines come back from the scanner unchanged. */
module ManifestScan {
  import opened Text
  import opened ManifestText
  import opened Manifest
  import opened ManifestLines
  import opened ManifestRoundTrip

  /** Characters that mean nothing to the comment scanner. */
  predicate IsCalm(c: char) { c != '#' && c != '\'' && c != '"' && c != '\n' }

  predicate Calm(s: string) { forall k :: 0 <= k < |s| ==> IsCalm(s[k]) }

  /** Text that may stand between double quotes on one line. */
  predicate Quotable(s: string) { '"' !in s && '\n' !in s }

  /** The scanner keeps all of a line, and trimming takes nothing off. */
  predicate Kept(text: string) {
    CommentAt(text, 0, false, false) == |text| && Solid(text) && '\n' !in text
  }

  lemma {:induction false} CommentShift(a: string, b: string, i: nat, single: bool, double: bool)
    requires i <= |b|
    ensures CommentAt(a + b, |a| + i, single, double) == |a| + CommentAt(b, i, single, double)
    decreases |b| - i
  {
    if i < |b| {
      var c := b[i];
      assert (a + b)[|a| + i] == c;
      CommentShift(a, b, i + 1, if c == '\'' && !double then !single else single,
                   if c == '"' && !single then !double else double);
    }
  }

  lemma {:induction false} CalmPasses(s: string, i: nat, n: nat)
    requires i <= n <= |s| && forall k :: i <= k < n ==> IsCalm(s[k])
    ensures CommentAt(s, i, false, false) == CommentAt(s, n, false, false)
    decreases n - i
  {
    if i < n { CalmPasses(s, i + 1, n); }
  }

  /** A calm beginning does not change where the comment starts. */
  lemma CalmPrefix(a: string, b: string)
    requires Calm(a)
    ensures CommentAt(a + b, 0, false, false) == |a| + CommentAt(b, 0, false, false)
  {
    CalmPasses(a + b, 0, |a|);
    CommentShift(a, b, 0, false, false);
  }

  lemma {:induction false} InsideQuotes(s: string, i: nat, n: nat)
    requires i <= n <= |s| && forall k :: i <= k < n ==> s[k] != '"'
    ensures CommentAt(s, i, false, true) == CommentAt(s, n, false, true)
    decreases n - i
  {
    if i < n { InsideQuotes(s, i + 1, n); }
  }

  lemma QuotedPasses(s: string)
    requires Quotable(s)
    ensures CommentAt(Quoted(s), 0, false, false) == |Quoted(s)|
  {
    InsideQuotes(Quoted(s), 1, |s| + 1);
  }

  /** A calm beginning before a value that the scanner keeps. */
  lemma LineKept(start: string, value: string)
    requires Calm(start) && |start| > 0 && !IsSpace(start[0])
    requires Solid(value) && '\n' !in value && CommentAt(value, 0, false, false) == |value|
    ensures Kept(start + value)
  {
    hide CommentAt;
    CalmPrefix(start, value);
    var text := start + value;
    assert text[0] == start[0] && text[|text| - 1] == value[|value| - 1];
    assert '\n' !in start by { forall k | 0 <= k < |start| ensures start[k] != '\n' { assert IsCalm(start[k]); } }
  }

  lemma EntryKept(key: string, value: string, dash: bool)
    requires IsKey(key) && Solid(value) && '\n' !in value && CommentAt(value, 0, false, false) == |value|
    ensures Kept((if dash then "- " else "") + Entry((key, value)))
  {
    hide CommentAt, Kept, Solid;
    var lead := if dash then "- " else "";
    var start := lead + key + ": ";
    assert Calm(key) && Calm(lead) && Calm(": ");
    assert start[0] == if dash then '-' else key[0];
    assert IsAlpha(key[0]);
    LineKept(start, value);
    assert lead + Entry((key, value)) == start + value;
  }

  // -------------------------------------------------------------- whole lines

  lemma {:induction false} SpacesSpan(n: nat, text: string, i: nat)
    requires |text| > 0 && !IsBlank(text[0]) && i <= n
    ensures Span(Spaces(n) + text, i, IsBlank) == n && Width(Spaces(n)) == n
  {
    SpacesAre(n);
    SpanUnique(Spaces(n) + text, i, IsBlank, n);
  }

  lemma {:induction false} SpacesAre(n: nat)
    ensures (forall k :: 0 <= k < n ==> Spaces(n)[k] == ' ') && Width(Spaces(n)) == n
  {
    if n > 0 { SpacesAre(n - 1); }
  }

  lemma RawCleans(l: Line)
    requires Kept(l.text)
    ensures CleanLine(Raw(l)) == Some(l) && '\n' !in Raw(l)
  {
    hide Trim, CommentAt, Span, Width;
    var blank, raw := Spaces(l.indent), Raw(l);
    SpacesAre(l.indent);
    CalmPrefix(blank, l.text);
    assert raw[..|raw|] == raw;
    SpacesSpan(l.indent, l.text, 0);
    assert raw[l.indent..] == l.text && raw[..l.indent] == blank;
    TrimmedStays(l.text);
  }

  predicate AllKept(ls: seq<Line>) { forall k :: 0 <= k < |ls| ==> Kept(ls[k].text) }

  predicate OneLine(raws: seq<string>) { forall k :: 0 <= k < |raws| ==> '\n' !in raws[k] }

  lemma {:induction false} CleanConcat(a: seq<string>, b: seq<string>)
    ensures CleanLines(a + b) == CleanLines(a) + CleanLines(b)
  {
    if |b| == 0 {
      assert a + b == a;
    } else {
      hide CleanLine;
      var front, last := b[..|b| - 1], if CleanLine(b[|b| - 1]).None? then [] else [CleanLine(b[|b| - 1]).value];
      CleanConcat(a, front);
      assert (a + b)[..|a + b| - 1] == a + front;
      assert CleanLines(a + b) == CleanLines(a + front) + last;
      assert CleanLines(a) + CleanLines(front) + last == CleanLines(a) + (CleanLines(front) + last);
    }
  }

  lemma CleanOne(raw: string)
    ensures CleanLines([raw]) == match CleanLine(raw) case None => [] case Some(l) => [l]
  {
    assert [raw][..0] == [];
  }

  lemma CleanNothing()
    ensures CleanLines([]) == []
  {
  }

  lemma EmptyIsSkipped()
    ensures CleanLine("") == None
  {
  }

  lemma {:induction false} RawsClean(ls: seq<Line>)
    requires AllKept(ls)
    ensures CleanLines(Raws(ls)) == ls && OneLine(Raws(ls))
  {
    if |ls| > 0 {
      RawCleans(ls[0]);
      RawsClean(ls[1..]);
      CleanOne(Raw(ls[0]));
      CleanConcat([Raw(ls[0])], Raws(ls[1..]));
      assert ls == [ls[0]] + ls[1..];
    }
  }

  function Block(title: string, body: seq<Line>): seq<Line> {
    if body == [] then [] else [Line(0, title + ":")] + body
  }

  lemma TitleKept(title: string)
    requires IsKey(title)
    ensures Kept(title + ":")
  {
    CalmPrefix(title + ":", "");
    assert title + ":" + "" == title + ":";
    assert (title + ":")[0] == title[0] && IsAlpha(title[0]);
  }

  lemma BlockCleans(title: string, body: seq<Line>)
    requires IsKey(title) && AllKept(body)
    ensures CleanLines(RawBlock(title, body)) == Block(title, body) && OneLine(RawBlock(title, body))
  {
    hide CleanLines, CleanLine, Kept, Raws, AllKept;
    if body == [] {
      CleanNothing();
    } else {
      TitleKept(title);
      RawCleans(Line(0, title + ":"));
      assert Raw(Line(0, title + ":")) == title + ":";
      CleanOne("");
      EmptyIsSkipped();
      CleanOne(title + ":");
      RawsClean(body);
      assert RawBlock(title, body) == [""] + ([title + ":"] + Raws(body));
      CleanConcat([""], [title + ":"] + Raws(body));
      CleanConcat([title + ":"], Raws(body));
    }
  }

  lemma {:induction false} JoinedSplits(raws: seq<string>)
    requires OneLine(raws)
    ensures RawLines(Joined(raws)) == raws
  {
    if |raws| > 0 {
      var text, n := Joined(raws), |raws[0]|;
      assert text[n] == '\n';
      forall k | 0 <= k < n ensures NotNewline(text[k]) { assert text[k] == raws[0][k]; }
      SpanUnique(text, 0, NotNewline, n);
      assert text[..n] == raws[0] && text[n + 1..] == Joined(raws[1..]);
      JoinedSplits(raws[1..]);
    }
  }

  lemma {:induction false} JoinedConcat(a: seq<string>, b: seq<string>)
    ensures Joined(a + b) == Joined(a) + Joined(b)
  {
    if |a| == 0 {
      assert a + b == b;
    } else {
      var first, rest := a[0] + "\n", Joined(a[1..]);
      assert (a + b)[1..] == a[1..] + b;
      JoinedConcat(a[1..], b);
      assert Joined(a + b) == first + (rest + Joined(b));
      assert first + (rest + Joined(b)) == first + rest + Joined(b);
    }
  }
}
