/** The coverage generator's reader of guard text: splits at the rightmost operator outside parentheses. */
module GuardReparse {
  import opened Text
  import opened Bool
  import opened Guard

  /** From position `i` down: the first doubled `c` met at parenthesis depth zero. */
  function Scan(s: string, c: char, i: int, depth: int): (r: Option<nat>)
    requires i < |s|
    ensures r.Some? ==> 1 <= r.value < |s|
    decreases i
  {
    if i < 1 then None
    else if s[i] == ')' then Scan(s, c, i - 1, depth + 1)
    else if s[i] == '(' then Scan(s, c, i - 1, depth - 1)
    else if depth == 0 && s[i] == c && s[i - 1] == c then Some(i)
    else Scan(s, c, i - 1, depth)
  }

  function TopSplit(s: string, c: char): (r: Option<nat>)
    ensures r.Some? ==> 1 <= r.value < |s|
  {
    Scan(s, c, |s| - 1, 0)
  }

  function ParseSimple(s: string, conditions: seq<string>): Decision
    decreases |s|
  {
    if s in conditions then Var(s)
    else if TopSplit(s, '|').Some? then
      var i := TopSplit(s, '|').value;
      Or(ParseSimple(TrimBlanks(s[..i - 1]), conditions), ParseSimple(TrimBlanks(s[i + 1..]), conditions))
    else if TopSplit(s, '&').Some? then
      var i := TopSplit(s, '&').value;
      And(ParseSimple(TrimBlanks(s[..i - 1]), conditions), ParseSimple(TrimBlanks(s[i + 1..]), conditions))
    else if |s| > 0 && s[0] == '!' then Not(ParseSimple(TrimBlanks(s[1..]), conditions))
    else if |s| >= 2 && s[0] == '(' && s[|s| - 1] == ')' then ParseSimple(TrimBlanks(s[1..|s| - 1]), conditions)
    else Var(s)
  }

  /** The reader as it runs. Every sub-reading delivers a tree, so the first split found is final. */
  method ParseSimpleExpr(s: string, conditions: seq<string>) returns (d: Decision)
    ensures d == ParseSimple(s, conditions)
    decreases |s|
  {
    for k := 0 to |conditions|
      invariant s !in conditions[..k]
    {
      if s == conditions[k] { return Var(conditions[k]); }
    }
    assert conditions[..|conditions|] == conditions;
    var orAt := FindTopLevel(s, '|');
    if orAt.Some? {
      var left := ParseSimpleExpr(TrimBlanks(s[..orAt.value - 1]), conditions);
      var right := ParseSimpleExpr(TrimBlanks(s[orAt.value + 1..]), conditions);
      return Or(left, right);
    }
    var andAt := FindTopLevel(s, '&');
    if andAt.Some? {
      var left := ParseSimpleExpr(TrimBlanks(s[..andAt.value - 1]), conditions);
      var right := ParseSimpleExpr(TrimBlanks(s[andAt.value + 1..]), conditions);
      return And(left, right);
    }
    if |s| > 0 && s[0] == '!' {
      var sub := ParseSimpleExpr(TrimBlanks(s[1..]), conditions);
      return Not(sub);
    }
    if |s| >= 2 && s[0] == '(' && s[|s| - 1] == ')' {
      d := ParseSimpleExpr(TrimBlanks(s[1..|s| - 1]), conditions);
      return;
    }
    d := Var(s);
  }

  method FindTopLevel(s: string, c: char) returns (at: Option<nat>)
    ensures at == TopSplit(s, c)
  {
    var depth := 0;
    var i := |s| - 1;
    while i >= 1
      invariant i < |s| && Scan(s, c, i, depth) == TopSplit(s, c)
    {
      if s[i] == ')' {
        depth := depth + 1;
      } else if s[i] == '(' {
        depth := depth - 1;
      } else if depth == 0 && s[i] == c && s[i - 1] == c {
        return Some(i);
      }
      i := i - 1;
    }
    at := None;
  }

  // ------------------------------------------------------ parenthesis depth

  /** Closing minus opening parentheses from `i` on. */
  function Depth(s: string, i: nat): int
    requires i <= |s|
    decreases |s| - i
  {
    if i == |s| then 0
    else Depth(s, i + 1) + (if s[i] == ')' then 1 else if s[i] == '(' then -1 else 0)
  }

  predicate Balanced(s: string) {
    Depth(s, 0) == 0 && forall i :: 0 <= i <= |s| ==> Depth(s, i) >= 0
  }

  /** A doubled `c` outside all parentheses. */
  predicate TopAt(s: string, c: char, i: int) {
    1 <= i < |s| && s[i] == c && s[i - 1] == c && Depth(s, i + 1) == 0
  }

  predicate NoTop(s: string, c: char) { forall i :: 1 <= i < |s| ==> !TopAt(s, c, i) }

  lemma {:induction false} ScanFindsRightmost(s: string, c: char, i: int, depth: int)
    requires c != '(' && c != ')' && -1 <= i < |s| && depth == Depth(s, i + 1)
    ensures var r := Scan(s, c, i, depth);
      && (r.Some? ==> r.value <= i && TopAt(s, c, r.value) && forall j :: r.value < j <= i ==> !TopAt(s, c, j))
      && (r.None? ==> forall j :: 1 <= j <= i ==> !TopAt(s, c, j))
    decreases i + 1
  {
    if i >= 1 && !(s[i] == c && s[i - 1] == c && depth == 0) {
      var next := if s[i] == ')' then depth + 1 else if s[i] == '(' then depth - 1 else depth;
      ScanFindsRightmost(s, c, i - 1, next);
    }
  }

  lemma SplitIs(s: string, c: char, i: nat)
    requires c != '(' && c != ')' && TopAt(s, c, i) && forall j :: i < j < |s| ==> !TopAt(s, c, j)
    ensures TopSplit(s, c) == Some(i)
  {
    ScanFindsRightmost(s, c, |s| - 1, 0);
  }

  lemma NoSplit(s: string, c: char)
    requires c != '(' && c != ')' && NoTop(s, c)
    ensures TopSplit(s, c) == None
  {
    ScanFindsRightmost(s, c, |s| - 1, 0);
  }

  lemma {:induction false} DepthOfSum(a: string, b: string, i: nat)
    requires i <= |a| + |b|
    ensures Depth(a + b, i) == if i >= |a| then Depth(b, i - |a|) else Depth(a, i) + Depth(b, 0)
    decreases |a| + |b| - i
  {
    if i < |a| + |b| { DepthOfSum(a, b, i + 1); }
  }

  lemma {:induction false} DepthOfFlat(s: string, i: nat)
    requires i <= |s| && forall k :: 0 <= k < |s| ==> s[k] != '(' && s[k] != ')'
    ensures Depth(s, i) == 0
    decreases |s| - i
  {
    if i < |s| { DepthOfFlat(s, i + 1); }
  }

  lemma BalancedSum(a: string, b: string)
    requires Balanced(a) && Balanced(b)
    ensures Balanced(a + b)
  {
    forall i | 0 <= i <= |a + b| ensures Depth(a + b, i) >= 0 { DepthOfSum(a, b, i); }
    DepthOfSum(a, b, 0);
  }

  lemma FlatIsBalanced(s: string)
    requires forall k :: 0 <= k < |s| ==> s[k] != '(' && s[k] != ')'
    ensures Balanced(s)
  {
    forall i | 0 <= i <= |s| ensures Depth(s, i) == 0 { DepthOfFlat(s, i); }
  }

  lemma DepthInBrackets(s: string, i: nat)
    requires i <= |s| + 2
    ensures Depth(Bracketed(s), i) ==
      if i == 0 then Depth(s, 0) else if i <= |s| + 1 then Depth(s, i - 1) + 1 else 0
  {
    DepthOfSum("(" + s, ")", i);
    if i <= |s| { DepthOfSum("(", s, i); }
    if i == |s| + 1 { assert Depth(s, |s|) == 0; }
    assert Depth(")", 0) == 1 && Depth(")", 1) == 0;
    assert Depth("(", 0) == -1 && Depth("(", 1) == 0;
  }

  // ------------------------------------------------- pieces of printed text

  /** A text that starts and ends with something and closes all it opens. */
  predicate Tidy(s: string) {
    |s| > 0 && !IsBlank(s[0]) && !IsBlank(s[|s| - 1]) && Balanced(s)
  }

  /** Stands by itself between operators of kind `c`. */
  predicate Piece(s: string, c: char) { Tidy(s) && NoTop(s, c) }

  lemma TrimmedTidy(s: string)
    requires Tidy(s)
    ensures TrimBlanks(s) == s && TrimBlanks(s + " ") == s && TrimBlanks(" " + s) == s
  {
    assert (s + " ")[..|s|] == s && (" " + s)[1..] == s;
    assert TrimBlanksRight(s + " ") == TrimBlanksRight(s) && TrimBlanksLeft(" " + s) == TrimBlanksLeft(s);
    assert TrimBlanksLeft(s + " ") == s + " ";
  }

  lemma PlainPiece(s: string, c: char)
    requires Plain(s) && (c == '|' || c == '&')
    ensures Piece(s, c)
  {
    FlatIsBalanced(s);
  }

  lemma BracketedPiece(s: string, c: char)
    requires Balanced(s) && (c == '|' || c == '&')
    ensures Piece(Bracketed(s), c)
  {
    var t := Bracketed(s);
    forall i | 0 <= i <= |t| ensures Depth(t, i) >= 0 { DepthInBrackets(s, i); }
    DepthInBrackets(s, 0);
    forall i | 1 <= i < |t| ensures !TopAt(t, c, i) { DepthInBrackets(s, i + 1); }
  }

  lemma NegatedPiece(s: string, c: char)
    requires Piece(s, c) && (c == '|' || c == '&')
    ensures Piece("!" + s, c)
  {
    FlatIsBalanced("!");
    BalancedSum("!", s);
    forall i | 1 <= i < |"!" + s| ensures !TopAt("!" + s, c, i) {
      DepthOfSum("!", s, i + 1);
      if i >= 2 { assert !TopAt(s, c, i - 1); }
    }
  }

  /** Joining two pieces splits again at the joint. */
  lemma JointIsFound(a: string, b: string, c: char)
    requires Tidy(a) && Piece(b, c) && (c == '|' || c == '&')
    ensures var s := a + Separator(c) + b; Tidy(s) && TopSplit(s, c) == Some(|a| + 2)
    ensures var s := a + Separator(c) + b; TrimBlanks(s[..|a| + 1]) == a && TrimBlanks(s[|a| + 3..]) == b
  {
    var s := a + Separator(c) + b;
    assert s == a + (Separator(c) + b);
    FlatIsBalanced(Separator(c));
    BalancedSum(Separator(c), b);
    BalancedSum(a, Separator(c) + b);
    forall i | 0 <= i <= |s| ensures Depth(s, i) ==
      if i >= |a| + 4 then Depth(b, i - |a| - 4) else if i >= |a| then Depth(b, 0) else Depth(a, i) + Depth(b, 0)
    {
      JointDepth(a, b, c, i);
    }
    assert TopAt(s, c, |a| + 2);
    forall j | |a| + 2 < j < |s| ensures !TopAt(s, c, j) {
      if j > |a| + 4 { assert !TopAt(b, c, j - |a| - 4); }
    }
    SplitIs(s, c, |a| + 2);
    assert s[..|a| + 1] == a + " " && s[|a| + 3..] == " " + b;
    TrimmedTidy(a);
    TrimmedTidy(b);
  }

  lemma JointDepth(a: string, b: string, c: char, i: nat)
    requires (c == '|' || c == '&') && i <= |a| + 4 + |b|
    ensures Depth(a + Separator(c) + b, i) ==
      if i >= |a| + 4 then Depth(b, i - |a| - 4) else if i >= |a| then Depth(b, 0) else Depth(a, i) + Depth(b, 0)
  {
    DepthOfSum(a + Separator(c), b, i);
    if i <= |a| + 4 { DepthOfSum(a, Separator(c), i); }
    DepthOfFlat(Separator(c), 0);
    if |a| <= i <= |a| + 4 { DepthOfFlat(Separator(c), i - |a|); }
  }

  /** Joining at one operator brings no split at the other. */
  lemma JointAddsNoOther(a: string, b: string, c: char, d: char)
    requires Piece(a, d) && Piece(b, d) && {c, d} == {'|', '&'}
    ensures Piece(a + Separator(c) + b, d)
  {
    var s := a + Separator(c) + b;
    assert s == a + (Separator(c) + b);
    FlatIsBalanced(Separator(c));
    BalancedSum(Separator(c), b);
    BalancedSum(a, Separator(c) + b);
    forall j | 1 <= j < |s| ensures !TopAt(s, d, j) {
      JointDepth(a, b, c, j + 1);
      if j < |a| { assert !TopAt(a, d, j); }
      if j > |a| + 4 { assert !TopAt(b, d, j - |a| - 4); }
    }
  }
}
