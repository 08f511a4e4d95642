/**
 * The whole guard conversion, and a reader of SMV Boolean text to say what its result means:
 * `!` binds tightest, then `&`, then `|`.
 */
module SmvReader {
  import opened Text
  import opened Bool
  import opened SmvRewrite
  import opened SmvGuard
  import opened SmvGuardSteps

  // -------------------------------------------------------- the conversion

  /** Erases every occurrence of `prefix` met from `i` on. */
  function EraseFrom(s: string, prefix: string, i: nat): string
    requires |prefix| > 0
    decreases |s|
  {
    match FindFrom(s, prefix, i)
    case None => s
    case Some(p) => EraseFrom(s[..p] + s[p + |prefix|..], prefix, p)
  }

  /** Makes every doubled `c` met from `i` on a single one. */
  function CollapseFrom(s: string, c: char, i: nat): string
    decreases |s|
  {
    match FindFrom(s, [c, c], i)
    case None => s
    case Some(p) => CollapseFrom(s[..p] + [c] + s[p + 2..], c, p + 1)
  }

  function StripDomains(s: string): string {
    EraseFrom(EraseFrom(EraseFrom(s, "in.", 0), "out.", 0), "reg.", 0)
  }

  function SingleOperators(s: string): string {
    CollapseFrom(CollapseFrom(CollapseFrom(s, '&', 0), '|', 0), '=', 0)
  }

  function ToSmv(s: string): string { SingleOperators(Rewrite(StripDomains(s))) }

  lemma EraseOnce(s: string, prefix: string, i: nat)
    requires |prefix| > 0
    ensures match FindFrom(s, prefix, i)
      case None => EraseFrom(s, prefix, i) == s
      case Some(p) => EraseFrom(s, prefix, i) == EraseFrom(s[..p] + s[p + |prefix|..], prefix, p)
  {
    hide FindFrom;
  }

  method Erase(s: string, prefix: string) returns (r: string)
    requires |prefix| > 0
    ensures r == EraseFrom(s, prefix, 0)
  {
    hide EraseFrom, FindFrom;
    r := s;
    var from: nat := 0;
    while true
      invariant EraseFrom(r, prefix, from) == EraseFrom(s, prefix, 0)
      decreases |r|
    {
      EraseOnce(r, prefix, from);
      var pos := FindFrom(r, prefix, from);
      if pos.None? { return; }
      r := r[..pos.value] + r[pos.value + |prefix|..];
      from := pos.value;
    }
  }

  method Collapse(s: string, c: char) returns (r: string)
    ensures r == CollapseFrom(s, c, 0)
  {
    r := s;
    var from: nat := 0;
    while true
      invariant CollapseFrom(r, c, from) == CollapseFrom(s, c, 0)
      decreases |r|
    {
      var pos := FindFrom(r, [c, c], from);
      if pos.None? { return; }
      r := r[..pos.value] + [c] + r[pos.value + 2..];
      from := pos.value + 1;
    }
  }

  method ToSmvPredicate(expr: string) returns (s: string)
    ensures s == ToSmv(expr)
  {
    s := Erase(expr, "in.");
    s := Erase(s, "out.");
    s := Erase(s, "reg.");
    s := RewriteTemplates(s);
    s := Collapse(s, '&');
    s := Collapse(s, '|');
    s := Collapse(s, '=');
  }

  // ------------------------------------------------------------ the reader

  datatype Reading = Bad | Good(d: Decision, next: nat)

  function SkipBlanks(s: string, i: nat): (r: nat)
    requires i <= |s|
    ensures i <= r <= |s|
  {
    Span(s, i, IsBlank)
  }

  function Mark(level: nat): char { if level == 1 then '|' else '&' }

  function Combine(level: nat, l: Decision, r: Decision): Decision {
    if level == 1 then Or(l, r) else And(l, r)
  }

  /** Levels 1 (`|`), 2 (`&`) and 3 (the rest). */
  function Read(level: nat, s: string, i: nat): (r: Reading)
    requires 1 <= level <= 3 && i <= |s|
    ensures r.Good? ==> i < r.next <= |s|
    decreases |s| - i, 4 - level
  {
    if level < 3 then
      match Read(level + 1, s, i)
      case Bad => Bad
      case Good(d, q) => ReadRest(level, s, q, d)
    else
      var p := SkipBlanks(s, i);
      if p == |s| then Bad
      else if s[p] == '!' then
        match Read(3, s, p + 1)
        case Bad => Bad
        case Good(d, q) => Good(Not(d), q)
      else if s[p] == '(' then
        match Read(1, s, p + 1)
        case Bad => Bad
        case Good(d, q) =>
          var close := SkipBlanks(s, q);
          if close < |s| && s[close] == ')' then Good(d, close + 1) else Bad
      else if IsNameChar(s[p]) then
        var q := Span(s, p, IsNameChar);
        if q > p then Good(Var(s[p..q]), q) else Bad
      else Bad
  }

  function ReadRest(level: nat, s: string, i: nat, left: Decision): (r: Reading)
    requires 1 <= level <= 2 && i <= |s|
    ensures r.Good? ==> i <= r.next <= |s|
    decreases |s| - i, 4 - level
  {
    var p := SkipBlanks(s, i);
    if p < |s| && s[p] == Mark(level) then
      match Read(level + 1, s, p + 1)
      case Bad => Bad
      case Good(d, q) => ReadRest(level, s, q, Combine(level, left, d))
    else Good(left, i)
  }

  /** The Boolean function an SMV text stands for, if it is one expression throughout. */
  function ReadWhole(s: string): Option<Decision> {
    match Read(1, s, 0)
    case Bad => None
    case Good(d, q) => if SkipBlanks(s, q) == |s| then Some(d) else None
  }

  // ------------------------------------------- reading printed native guards

  function AsDecision(t: Term): Decision
    requires WellFormed(t)
    decreases t, 1
  {
    match t
    case Name(id) => Var(id)
    case Node(k, _, args) =>
      assert AllWellFormed(args);
      if k == NotKind then Not(AsDecision(args[0]))
      else FoldArgs(if k == OrKind then 1 else 2, AsDecision(args[0]), args[1..])
  }

  function FoldArgs(level: nat, left: Decision, args: seq<Term>): Decision
    requires AllWellFormed(args)
    decreases args, 0
  {
    if |args| == 0 then left else FoldArgs(level, Combine(level, left, AsDecision(args[0])), args[1..])
  }

  lemma {:induction false} DecisionAgrees(t: Term, env: Env)
    requires WellFormed(t)
    ensures Evaluate(AsDecision(t), env) == Denotes(t, env)
    decreases t, 1
  {
    if t.Node? {
      DecisionAgrees(t.args[0], env);
      if t.kind == NotKind {
        assert t.args[1..] == [];
        assert AllDenote(t.args[1..], env);
      } else {
        FoldAgrees(if t.kind == OrKind then 1 else 2, AsDecision(t.args[0]), t.args[1..], env);
      }
    }
  }

  lemma {:induction false} FoldAgrees(level: nat, left: Decision, args: seq<Term>, env: Env)
    requires AllWellFormed(args) && 1 <= level <= 2
    ensures Evaluate(FoldArgs(level, left, args), env) ==
      if level == 1 then Evaluate(left, env) || AnyDenotes(args, env) else Evaluate(left, env) && AllDenote(args, env)
    decreases args, 0
  {
    if |args| > 0 {
      DecisionAgrees(args[0], env);
      FoldAgrees(level, Combine(level, left, AsDecision(args[0])), args[1..], env);
    }
  }

  /** Where a printed operand may end: no name goes on there. */
  predicate EndsName(s: string, j: nat) { j <= |s| && (j < |s| ==> !IsNameChar(s[j])) }

  lemma ReadsName(id: string, s: string, i: nat)
    requires IsReference(id) && At(s, i, id) && EndsName(s, i + |id|)
    ensures Read(3, s, i) == Good(Var(id), i + |id|)
  {
    AtChar(s, i, id, 0);
    forall k | i <= k < i + |id| ensures IsNameChar(s[k]) { AtChar(s, i, id, k - i); }
    SpanUnique(s, i, IsNameChar, i + |id|);
    SpanUnique(s, i, IsBlank, i);
  }

  lemma ReadSkipsBlanks(level: nat, s: string, i: nat)
    requires 1 <= level <= 3 && i < |s| && IsBlank(s[i])
    ensures Read(level, s, i) == Read(level, s, i + 1)
    decreases 3 - level
  {
    if level < 3 { ReadSkipsBlanks(level + 1, s, i); }
  }

  lemma {:induction false} ReadsTerm(t: Term, sep: string, s: string, i: nat)
    requires WellFormed(t) && IsNative(t) && At(s, i, Print(t, sep)) && EndsName(s, i + |Print(t, sep)|)
    ensures Read(3, s, i) == Good(AsDecision(t), i + |Print(t, sep)|)
    decreases t, 1
  {
    match t
    case Name(id) => ReadsName(id, s, i);
    case Node(k, native, args) =>
      ArgsNative(t);
      if k == NotKind {
        NotLayout(t, sep);
        ReadsNot(args[0], sep, s, i);
      } else {
        ReadsGroup(t, sep, s, i);
      }
  }

  predicate AllNative(args: seq<Term>) {
    !HasIn(args, NotKind) && !HasIn(args, AndKind) && !HasIn(args, OrKind)
  }

  lemma ArgsNative(t: Term)
    requires IsNative(t) && t.Node?
    ensures t.native && AllNative(t.args)
  {
  }

  lemma FirstNative(args: seq<Term>)
    requires |args| > 0
    ensures AllNative(args) ==> IsNative(args[0]) && AllNative(args[1..])
  {
    assert forall k: Kind :: HasIn(args, k) <==> Has(args[0], k) || HasIn(args[1..], k);
  }

  lemma NotLayout(t: Term, sep: string)
    requires WellFormed(t) && IsNative(t) && t.Node? && t.kind == NotKind
    ensures IsNative(t.args[0]) && Print(t, sep) == "!(" + (Print(t.args[0], sep) + ")")
  {
    FirstNative(t.args);
    ArgsNative(t);
  }

  /** A bracketed expression, blank-free at both ends. */
  lemma ReadsBrackets(s: string, i: nat, d: Decision, close: nat)
    requires i < close < |s| && s[i] == '(' && s[close] == ')' && Read(1, s, i + 1) == Good(d, close)
    ensures Read(3, s, i) == Good(d, close + 1)
  {
    SpanUnique(s, i, IsBlank, i);
    SpanUnique(s, close, IsBlank, close);
  }

  lemma ReadsBang(s: string, i: nat, d: Decision, q: nat)
    requires i < |s| && s[i] == '!' && Read(3, s, i + 1) == Good(d, q)
    ensures Read(3, s, i) == Good(Not(d), q)
  {
    SpanUnique(s, i, IsBlank, i);
  }

  lemma {:induction false} ReadsNot(arg: Term, sep: string, s: string, i: nat)
    requires WellFormed(arg) && IsNative(arg)
    requires At(s, i, "!(" + (Print(arg, sep) + ")"))
    ensures Read(3, s, i) == Good(Not(AsDecision(arg)), i + |Print(arg, sep)| + 3)
    decreases arg, 2
  {
    hide Read, AsDecision, Print;
    var x, d := Print(arg, sep), AsDecision(arg);
    var close := i + 2 + |x|;
    AtSplit(s, i, "!(", x + ")");
    AtSplit(s, i + 2, x, ")");
    AtChar(s, i, "!(", 0);
    AtChar(s, i, "!(", 1);
    AtChar(s, close, ")", 0);
    ReadsTerm(arg, sep, s, i + 2);
    LevelsAgree(s, i + 2, d, close);
    ReadsBrackets(s, i + 1, d, close);
    ReadsBang(s, i, d, close + 1);
  }

  lemma LevelsAgree(s: string, i: nat, d: Decision, close: nat)
    requires i <= close <= |s| && (close < |s| ==> s[close] == ')') && Read(3, s, i) == Good(d, close)
    ensures Read(1, s, i) == Good(d, close)
  {
    SpanUnique(s, close, IsBlank, close);
    assert ReadRest(2, s, close, d) == Good(d, close);
    assert Read(2, s, i) == Good(d, close);
    assert ReadRest(1, s, close, d) == Good(d, close);
  }

  lemma {:induction false} ReadsGroup(t: Term, sep: string, s: string, i: nat)
    requires WellFormed(t) && t.Node? && t.native && t.kind != NotKind && AllNative(t.args)
    requires At(s, i, Print(t, sep))
    ensures Read(3, s, i) == Good(AsDecision(t), i + |Print(t, sep)|)
    decreases t, 0
  {
    var inner := PrintArgs(t.args, Operator(t.kind), sep);
    var close := i + 1 + |inner|;
    assert Print(t, sep) == "(" + (inner + ")");
    hide Read, AsDecision, Print, PrintArgs;
    AtSplit(s, i, "(", inner + ")");
    AtSplit(s, i + 1, inner, ")");
    AtChar(s, i, "(", 0);
    AtChar(s, close, ")", 0);
    var level := if t.kind == OrKind then 1 else 2;
    ReadsOperands(t, level, sep, s, i + 1, close);
    ClosesAt(level, s, i + 1, AsDecision(t), close);
    ReadsBrackets(s, i, AsDecision(t), close);
  }

  lemma ClosesAt(level: nat, s: string, i: nat, d: Decision, close: nat)
    requires 1 <= level <= 2 && i <= close < |s| && s[close] == ')'
    requires Read(level, s, i) == Good(d, close)
    ensures Read(1, s, i) == Good(d, close)
  {
    SpanUnique(s, close, IsBlank, close);
    assert ReadRest(1, s, close, d) == Good(d, close);
  }

  lemma {:induction false} ReadsOperands(t: Term, level: nat, sep: string, s: string, i: nat, close: nat)
    requires WellFormed(t) && t.Node? && t.kind != NotKind && level == (if t.kind == OrKind then 1 else 2)
    requires AllNative(t.args) && AllWellFormed(t.args)
    requires At(s, i, PrintArgs(t.args, Operator(t.kind), sep))
    requires close == i + |PrintArgs(t.args, Operator(t.kind), sep)| && close < |s| && s[close] == ')'
    ensures Read(level, s, i) == Good(AsDecision(t), close)
    decreases t.args, 3
  {
    OperatorMarks(t.kind);
    assert AsDecision(t) == FoldArgs(level, AsDecision(t.args[0]), t.args[1..]);
    hide Read, Operator, AsDecision, FoldArgs, AllNative, Mark, PrintArgs, At, Combine;
    ReadsOperandList(t.args, level, sep, s, i, close);
  }

  lemma {:induction false} ReadsOperandList(args: seq<Term>, level: nat, sep: string, s: string, i: nat, close: nat)
    requires 1 <= level <= 2 && |args| > 0 && AllNative(args) && AllWellFormed(args)
    requires At(s, i, PrintArgs(args, [' ', Mark(level), ' '], sep))
    requires close == i + |PrintArgs(args, [' ', Mark(level), ' '], sep)| && close < |s| && s[close] == ')'
    ensures Read(level, s, i) == Good(FoldArgs(level, AsDecision(args[0]), args[1..]), close)
    decreases args, 2, 1
  {
    var a, d := i + |Print(args[0], sep)|, AsDecision(args[0]);
    FirstNative(args);
    OperandsStand(args, level, sep, s, i, close);
    hide Read, Print, PrintArgs, At, Following, EndsName, ReadRest, AsDecision, FoldArgs, AllNative, IsNative, Mark,
         WellFormed, Combine;
    ReadsTerm(args[0], sep, s, i);
    FirstOperand(level, s, i, d, a);
    ReadsFollowing(args[1..], level, d, sep, s, a, close);
  }

  lemma OperatorMarks(k: Kind)
    requires k != NotKind
    ensures Operator(k) == [' ', Mark(if k == OrKind then 1 else 2), ' ']
  {
  }

  /** Where the first operand ends and the others follow. */
  lemma OperandsStand(args: seq<Term>, level: nat, sep: string, s: string, i: nat, close: nat)
    requires |args| > 0 && 1 <= level <= 2 && At(s, i, PrintArgs(args, [' ', Mark(level), ' '], sep))
    requires close == i + |PrintArgs(args, [' ', Mark(level), ' '], sep)| && close < |s| && s[close] == ')'
    ensures var a := i + |Print(args[0], sep)|;
      && a < |s| && At(s, i, Print(args[0], sep)) && EndsName(s, a)
      && (s[a] == ')' || (s[a] == ' ' && a + 1 < |s| && s[a + 1] == Mark(level)))
      && At(s, a, Following(args[1..], [' ', Mark(level), ' '], sep))
      && close == a + |Following(args[1..], [' ', Mark(level), ' '], sep)|
  {
    var op, x := [' ', Mark(level), ' '], Print(args[0], sep);
    var a := i + |x|;
    if |args| > 1 {
      AtSplit(s, i, x, op + PrintArgs(args[1..], op, sep));
      AtChar(s, a, op + PrintArgs(args[1..], op, sep), 0);
      AtChar(s, a, op + PrintArgs(args[1..], op, sep), 1);
    }
  }

  /** At the `|` level the operand is first read by the `&` level, which finds nothing to add. */
  lemma FirstOperand(level: nat, s: string, i: nat, d: Decision, a: nat)
    requires 1 <= level <= 2 && i <= a < |s| && Read(3, s, i) == Good(d, a)
    requires s[a] == ')' || (s[a] == ' ' && a + 1 < |s| && s[a + 1] == Mark(level))
    ensures Read(level, s, i) == ReadRest(level, s, a, d)
  {
    if level == 1 { OperandAlone(s, i, d, a); }
  }

  function Following(args: seq<Term>, op: string, sep: string): string {
    if |args| == 0 then "" else op + PrintArgs(args, op, sep)
  }

  lemma {:induction false} ReadsFollowing(args: seq<Term>, level: nat, left: Decision, sep: string, s: string, a: nat,
                                          close: nat)
    requires AllWellFormed(args) && 1 <= level <= 2 && AllNative(args)
    requires At(s, a, Following(args, [' ', Mark(level), ' '], sep))
    requires close == a + |Following(args, [' ', Mark(level), ' '], sep)| && close < |s| && s[close] == ')'
    ensures ReadRest(level, s, a, left) == Good(FoldArgs(level, left, args), close)
    decreases args, 2
  {
    hide Read, ReadRest, AsDecision, Print, PrintArgs, At, AllNative, WellFormed, IsNative, Combine;
    if |args| == 0 {
      RestEnds(level, s, a, left);
    } else {
      hide Following;
      var b := a + 3 + |Print(args[0], sep)|;
      var d := AsDecision(args[0]);
      FollowingStands(args, level, sep, s, a, b, close);
      FirstNative(args);
      ReadsTerm(args[0], sep, s, a + 3);
      NextOperand(level, s, a, left, d, b);
      ReadsFollowing(args[1..], level, Combine(level, left, d), sep, s, b, close);
    }
  }

  lemma RestEnds(level: nat, s: string, a: nat, left: Decision)
    requires 1 <= level <= 2 && a < |s| && s[a] == ')'
    ensures ReadRest(level, s, a, left) == Good(left, a)
  {
    SpanUnique(s, a, IsBlank, a);
  }

  /** Where the operator, the first operand and the rest of a printed operand list stand. */
  lemma FollowingStands(args: seq<Term>, level: nat, sep: string, s: string, a: nat, b: nat, close: nat)
    requires |args| > 0 && 1 <= level <= 2 && b == a + 3 + |Print(args[0], sep)|
    requires At(s, a, Following(args, [' ', Mark(level), ' '], sep))
    requires close == a + |Following(args, [' ', Mark(level), ' '], sep)| && close < |s| && s[close] == ')'
    ensures b < |s| && s[a] == ' ' && s[a + 1] == Mark(level) && s[a + 2] == ' '
    ensures At(s, a + 3, Print(args[0], sep)) && At(s, b, Following(args[1..], [' ', Mark(level), ' '], sep))
    ensures close == b + |Following(args[1..], [' ', Mark(level), ' '], sep)|
    ensures s[b] == ')' || (s[b] == ' ' && b + 1 < |s| && s[b + 1] == Mark(level))
  {
    var op := [' ', Mark(level), ' '];
    var x, rest := Print(args[0], sep), Following(args[1..], op, sep);
    assert PrintArgs(args, op, sep) == x + rest;
    hide Print, PrintArgs, At;
    AtSplit(s, a, op, x + rest);
    AtSplit(s, a + 3, x, rest);
    AtChar(s, a, op, 0);
    AtChar(s, a, op, 1);
    AtChar(s, a, op, 2);
    if |args| > 1 {
      AtChar(s, b, rest, 0);
      AtChar(s, b, rest, 1);
    } else {
      assert rest == "" && b == close;
    }
  }

  lemma NextOperand(level: nat, s: string, a: nat, left: Decision, d: Decision, b: nat)
    requires 1 <= level <= 2 && a + 3 <= b < |s|
    requires s[a] == ' ' && s[a + 1] == Mark(level) && s[a + 2] == ' '
    requires Read(3, s, a + 3) == Good(d, b)
    requires s[b] == ')' || (s[b] == ' ' && b + 1 < |s| && s[b + 1] == Mark(level))
    ensures ReadRest(level, s, a, left) == ReadRest(level, s, b, Combine(level, left, d))
  {
    SpanUnique(s, a, IsBlank, a + 1);
    ReadSkipsBlanks(level + 1, s, a + 2);
    if level == 1 { OperandAlone(s, a + 3, d, b); }
    RestTakesOne(level, s, a, a + 1, left, d, b);
  }

  lemma RestTakesOne(level: nat, s: string, a: nat, p: nat, left: Decision, d: Decision, b: nat)
    requires 1 <= level <= 2 && a <= p < |s| && SkipBlanks(s, a) == p && s[p] == Mark(level)
    requires Read(level + 1, s, p + 1) == Good(d, b)
    ensures b <= |s| && ReadRest(level, s, a, left) == ReadRest(level, s, b, Combine(level, left, d))
  {
    hide Read, SkipBlanks;
  }

  /** Before `|` or a closing bracket the `&` level reads one operand. */
  lemma OperandAlone(s: string, i: nat, d: Decision, b: nat)
    requires i <= b < |s| && Read(3, s, i) == Good(d, b)
    requires s[b] == ')' || (s[b] == ' ' && b + 1 < |s| && s[b + 1] == Mark(1))
    ensures Read(2, s, i) == Good(d, b)
  {
    SpanUnique(s, b, IsBlank, if s[b] == ')' then b else b + 1);
    assert ReadRest(2, s, b, d) == Good(d, b);
  }

  lemma PrintedNativeReads(t: Term, sep: string)
    requires WellFormed(t) && IsNative(t)
    ensures ReadWhole(Print(t, sep)) == Some(AsDecision(t))
  {
    var s := Print(t, sep);
    var d, n := AsDecision(t), |Print(t, sep)|;
    assert s[0..n] == s;
    ReadsTerm(t, sep, s, 0);
    SpanUnique(s, n, IsBlank, n);
    LevelsAgree(s, 0, d, n);
  }
}
