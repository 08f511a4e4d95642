/** Lines of a companion manifest: comments, indentation, trimming, keys and values. */
module ManifestText {
  import opened Text

  datatype Line = Line(indent: nat, text: string)

  function TrimRight(s: string): string {
    if |s| > 0 && IsSpace(s[|s| - 1]) then TrimRight(s[..|s| - 1]) else s
  }

  function Trim(s: string): (t: string)
    ensures |t| <= |s|
  {
    TrimRightShorter(s[SkipWs(s, 0)..]);
    TrimRight(s[SkipWs(s, 0)..])
  }

  lemma {:induction false} TrimRightShorter(s: string)
    ensures |TrimRight(s)| <= |s|
  {
    if |s| > 0 && IsSpace(s[|s| - 1]) { TrimRightShorter(s[..|s| - 1]); }
  }

  /** No blank at either end. */
  predicate Trimmed(s: string) { |s| > 0 ==> !IsSpace(s[0]) && !IsSpace(s[|s| - 1]) }

  lemma TrimmedStays(s: string)
    requires Trimmed(s)
    ensures Trim(s) == s
  {
    SpanUnique(s, 0, IsSpace, 0);
    assert s[0..] == s;
  }

  function Quoted(s: string): string { "\"" + s + "\"" }

  /** Removes one pair of quotes, or trailing commas first. */
  function Unquote(s: string): (r: string)
    ensures |r| <= |s|
    decreases |s|
  {
    var t := Trim(s);
    if |t| >= 2 && ((t[0] == '"' && t[|t| - 1] == '"') || (t[0] == '\'' && t[|t| - 1] == '\'')) then t[1..|t| - 1]
    else if |t| > 0 && t[|t| - 1] == ',' then Unquote(t[..|t| - 1])
    else t
  }

  lemma QuotesComeOff(s: string)
    ensures Unquote(Quoted(s)) == s && Trim(Quoted(s)) == Quoted(s)
  {
    TrimmedStays(Quoted(s));
    assert Quoted(s)[1..|s| + 1] == s;
  }

  // --------------------------------------------------------------- comments

  /** Where the comment begins: the first '#' outside both kinds of quotes, or the end. */
  function CommentAt(s: string, i: nat, single: bool, double: bool): (r: nat)
    requires i <= |s|
    ensures i <= r <= |s|
    decreases |s| - i
  {
    if i == |s| then i
    else if s[i] == '#' && !single && !double then i
    else CommentAt(s, i + 1, if s[i] == '\'' && !double then !single else single,
                   if s[i] == '"' && !single then !double else double)
  }

  function Width(s: string): nat {
    if |s| == 0 then 0 else Width(s[..|s| - 1]) + if s[|s| - 1] == '\t' then 2 else 1
  }

  function CleanLine(raw: string): Option<Line> {
    var cleaned := raw[..CommentAt(raw, 0, false, false)];
    var first := Span(cleaned, 0, IsBlank);
    var text := Trim(cleaned[first..]);
    if first == |cleaned| || text == "" then None else Some(Line(Width(cleaned[..first]), text))
  }

  predicate NotNewline(c: char) { c != '\n' }

  /** Lines as read one by one: what follows the last newline counts only if it is not empty. */
  function RawLines(s: string): seq<string>
    decreases |s|
  {
    if |s| == 0 then []
    else
      var n := Span(s, 0, NotNewline);
      [s[..n]] + if n < |s| then RawLines(s[n + 1..]) else []
  }

  function CleanLines(raws: seq<string>): seq<Line> {
    if |raws| == 0 then []
    else
      CleanLines(raws[..|raws| - 1]) +
      match CleanLine(raws[|raws| - 1])
      case None => []
      case Some(line) => [line]
  }

  // --------------------------------------------------------- keys and values

  predicate NotColon(c: char) { c != ':' }

  function KeyOf(text: string): string { Trim(text[..Span(text, 0, NotColon)]) }

  function ValueOf(text: string): string {
    var colon := Span(text, 0, NotColon);
    if colon == |text| then "" else Trim(text[colon + 1..])
  }

  lemma EntrySplits(key: string, value: string)
    requires ':' !in key && Trimmed(key) && Trimmed(value)
    ensures KeyOf(key + ": " + value) == key && ValueOf(key + ": " + value) == value
  {
    hide Trim, Trimmed;
    var text := key + ": " + value;
    forall k | 0 <= k < |key| ensures NotColon(text[k]) { assert text[k] == key[k]; }
    SpanUnique(text, 0, NotColon, |key|);
    TrimmedStays(key);
    TrimmedStays(value);
    assert text[..|key|] == key;
    assert text[|key| + 1..] == " " + value;
    TrimSpace(value);
  }

  lemma TrimSpace(s: string)
    ensures Trim(" " + s) == Trim(s)
  {
    var t := " " + s;
    assert SkipWs(t, 0) == SkipWs(t, 1);
    SpanShift(s, t, 0);
    assert t[SkipWs(t, 0)..] == s[SkipWs(s, 0)..];
  }

  lemma {:induction false} SpanShift(s: string, t: string, i: nat)
    requires t == " " + s && i <= |s|
    ensures SkipWs(t, i + 1) == SkipWs(s, i) + 1
    decreases |s| - i
  {
    if i < |s| && IsSpace(s[i]) { SpanShift(s, t, i + 1); }
  }
}
