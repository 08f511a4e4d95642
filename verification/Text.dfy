/** Character classes of the C locale, and cursors over text. */
module Text {

  datatype Option<+T> = None | Some(value: T)

  predicate IsSpace(c: char) {
    c == ' ' || c == '\t' || c == '\n' || c == '\r' || c == '\U{0B}' || c == '\U{0C}'
  }

  predicate IsDigit(c: char) { '0' <= c <= '9' }

  predicate IsAlpha(c: char) { 'a' <= c <= 'z' || 'A' <= c <= 'Z' }

  predicate IsBlank(c: char) { c == ' ' || c == '\t' }

  predicate IsWordChar(c: char) { IsAlnum(c) || c == '_' }

  predicate IsAlnum(c: char) { IsAlpha(c) || IsDigit(c) }

  /** The first index at or after `i` whose character is outside class `p`. */
  function Span(s: string, i: nat, p: char -> bool): (r: nat)
    requires i <= |s|
    ensures i <= r <= |s|
    ensures forall k :: i <= k < r ==> p(s[k])
    ensures r < |s| ==> !p(s[r])
    decreases |s| - i
  {
    if i < |s| && p(s[i]) then Span(s, i + 1, p) else i
  }

  lemma SpanUnique(s: string, i: nat, p: char -> bool, r: nat)
    requires i <= r <= |s|
    requires forall k :: i <= k < r ==> p(s[k])
    requires r < |s| ==> !p(s[r])
    ensures Span(s, i, p) == r
    decreases r - i
  {
    if i < r { SpanUnique(s, i + 1, p, r); }
  }

  lemma SpanNext(s: string, i: nat, p: char -> bool)
    requires i < |s| && p(s[i])
    ensures Span(s, i, p) == Span(s, i + 1, p)
  {
  }

  lemma SpanStops(s: string, i: nat, p: char -> bool)
    requires i <= |s| && (i < |s| ==> !p(s[i]))
    ensures Span(s, i, p) == i
  {
  }

  function SkipWs(s: string, i: nat): (r: nat)
    requires i <= |s|
    ensures i <= r <= |s|
  {
    Span(s, i, IsSpace)
  }

  /** Text `t` stands in `s` at position `i`. */
  predicate At(s: string, i: nat, t: string) {
    i + |t| <= |s| && s[i..i + |t|] == t
  }

  lemma AtSplit(s: string, i: nat, a: string, b: string)
    ensures At(s, i, a + b) <==> At(s, i, a) && At(s, i + |a|, b)
  {
    if i + |a| + |b| <= |s| {
      assert s[i..i + |a + b|] == s[i..i + |a|] + s[i + |a|..i + |a| + |b|];
      if At(s, i, a + b) {
        assert s[i..i + |a|] == (a + b)[..|a|] == a;
        assert s[i + |a|..i + |a| + |b|] == (a + b)[|a|..] == b;
      }
    }
  }

  lemma AtChar(s: string, i: nat, t: string, k: nat)
    requires At(s, i, t) && k < |t|
    ensures s[i + k] == t[k]
  {
    assert s[i..i + |t|][k] == s[i + k];
  }

  function TrimBlanksLeft(s: string): string {
    if |s| > 0 && IsBlank(s[0]) then TrimBlanksLeft(s[1..]) else s
  }

  function TrimBlanksRight(s: string): string {
    if |s| > 0 && IsBlank(s[|s| - 1]) then TrimBlanksRight(s[..|s| - 1]) else s
  }

  /** Without the spaces and tabs at both ends. */
  function TrimBlanks(s: string): (t: string)
    ensures |t| <= |s|
  {
    TrimBlanksNoLonger(s);
    TrimBlanksRight(TrimBlanksLeft(s))
  }

  lemma {:induction false} TrimBlanksLeftNoLonger(s: string)
    ensures |TrimBlanksLeft(s)| <= |s|
  {
    if |s| > 0 && IsBlank(s[0]) { TrimBlanksLeftNoLonger(s[1..]); }
  }

  lemma {:induction false} TrimBlanksRightNoLonger(s: string)
    ensures |TrimBlanksRight(s)| <= |s|
  {
    if |s| > 0 && IsBlank(s[|s| - 1]) { TrimBlanksRightNoLonger(s[..|s| - 1]); }
  }

  lemma TrimBlanksNoLonger(s: string)
    ensures |TrimBlanksRight(TrimBlanksLeft(s))| <= |s|
  {
    TrimBlanksLeftNoLonger(s);
    TrimBlanksRightNoLonger(TrimBlanksLeft(s));
  }

  predicate Distinct(s: seq<string>) {
    forall i, j :: 0 <= i < j < |s| ==> s[i] != s[j]
  }

  predicate AllSpace(s: string) { forall k :: 0 <= k < |s| ==> IsSpace(s[k]) }

  function Spaces(n: nat): (s: string)
    ensures |s| == n && AllSpace(s)
  {
    if n == 0 then "" else Spaces(n - 1) + " "
  }
}
