/**
 * The rewriting of guard templates `fsm::not_<..>`, `fsm::and_<.., ..>` and `fsm::or_<.., ..>`
 * into the operators of the SMV language, on plain text.
 */
module SmvRewrite {
  import opened Text

  datatype Kind = NotKind | AndKind | OrKind

  function Header(k: Kind): string {
    match k
    case NotKind => "fsm::not_<"
    case AndKind => "fsm::and_<"
    case OrKind => "fsm::or_<"
  }

  function Operator(k: Kind): string {
    match k
    case NotKind => "!"
    case AndKind => " & "
    case OrKind => " | "
  }

  // ------------------------------------------------- the parts of one step

  /** The first occurrence of `pattern` at or after `i`. */
  function FindFrom(s: string, pattern: string, i: nat): (r: Option<nat>)
    ensures r.Some? ==> i <= r.value && At(s, r.value, pattern) && forall j :: i <= j < r.value ==> !At(s, j, pattern)
    ensures r.None? ==> forall j :: i <= j ==> !At(s, j, pattern)
    decreases |s| - i
  {
    if i + |pattern| > |s| then None
    else if At(s, i, pattern) then Some(i)
    else if i == |s| then None
    else FindFrom(s, pattern, i + 1)
  }

  function Find(s: string, pattern: string): (r: Option<nat>)
    ensures r.Some? ==> At(s, r.value, pattern) && forall j :: 0 <= j < r.value ==> !At(s, j, pattern)
    ensures r.None? ==> forall j :: 0 <= j ==> !At(s, j, pattern)
  {
    FindFrom(s, pattern, 0)
  }

  /** The position behind the bracket that closes `depth` open ones. */
  function Close(s: string, i: nat, depth: nat): (r: Option<nat>)
    requires i <= |s|
    ensures r.Some? ==> i <= r.value <= |s| && (depth > 0 ==> i < r.value)
    decreases |s| - i
  {
    if depth == 0 then Some(i)
    else if i == |s| then None
    else Close(s, i + 1, if s[i] == '<' then depth + 1 else if s[i] == '>' then depth - 1 else depth)
  }

  /** Cuts a text at the commas that stand outside all brackets. */
  function Split(t: string, i: nat, start: nat, depth: int): (r: seq<string>)
    requires start <= i <= |t|
    ensures |r| > 0
    decreases |t| - i
  {
    if i == |t| then [t[start..]]
    else if t[i] == '<' || t[i] == '(' then Split(t, i + 1, start, depth + 1)
    else if t[i] == '>' || t[i] == ')' then Split(t, i + 1, start, depth - 1)
    else if t[i] == ',' && depth == 0 then [t[start..i]] + Split(t, i + 1, i + 1, depth)
    else Split(t, i + 1, start, depth)
  }

  /** The arguments, trimmed, with the operator between them. */
  function Rejoin(args: seq<string>, op: string): string {
    if |args| == 0 then ""
    else if |args| == 1 then TrimBlanks(args[0])
    else TrimBlanks(args[0]) + op + Rejoin(args[1..], op)
  }

  function Replacement(k: Kind, inner: string): string {
    if k == NotKind then "!(" + inner + ")"
    else "(" + Rejoin(Split(inner, 0, 0, 0), Operator(k)) + ")"
  }

  function StepKind(s: string, k: Kind): Option<string> {
    match Find(s, Header(k))
    case None => None
    case Some(p) =>
      var start := p + |Header(k)|;
      match Close(s, start, 1)
      case None => None
      case Some(end) => Some(s[..p] + Replacement(k, s[start..end - 1]) + s[end..])
  }

  function Step(s: string): Option<string> {
    if StepKind(s, NotKind).Some? then StepKind(s, NotKind)
    else if StepKind(s, AndKind).Some? then StepKind(s, AndKind)
    else StepKind(s, OrKind)
  }

  // ------------------------------------------------------------ termination

  function Opens(s: string): nat {
    if |s| == 0 then 0 else Opens(s[..|s| - 1]) + if s[|s| - 1] == '<' then 1 else 0
  }

  lemma {:induction false} OpensSum(a: string, b: string)
    ensures Opens(a + b) == Opens(a) + Opens(b)
  {
    if |b| == 0 {
      assert a + b == a;
    } else {
      assert (a + b)[..|a + b| - 1] == a + b[..|b| - 1];
      OpensSum(a, b[..|b| - 1]);
    }
  }

  function OpensOf(args: seq<string>): nat {
    if |args| == 0 then 0 else Opens(args[0]) + OpensOf(args[1..])
  }

  lemma {:induction false} SplitKeepsOpens(t: string, i: nat, start: nat, depth: int)
    requires start <= i <= |t|
    ensures OpensOf(Split(t, i, start, depth)) == Opens(t[start..])
    decreases |t| - i
  {
    if i == |t| {
      assert [t[start..]][1..] == [];
    } else if t[i] == '<' || t[i] == '(' {
      SplitKeepsOpens(t, i + 1, start, depth + 1);
    } else if t[i] == '>' || t[i] == ')' {
      SplitKeepsOpens(t, i + 1, start, depth - 1);
    } else if t[i] == ',' && depth == 0 {
      SplitKeepsOpens(t, i + 1, i + 1, depth);
      var rest := Split(t, i + 1, i + 1, depth);
      assert ([t[start..i]] + rest)[1..] == rest;
      assert t[start..] == t[start..i] + ("," + t[i + 1..]);
      OpensSum(t[start..i], "," + t[i + 1..]);
      OpensSum(",", t[i + 1..]);
      assert Opens(",") == 0;
    } else {
      SplitKeepsOpens(t, i + 1, start, depth);
    }
  }

  lemma {:induction false} TrimLeftKeepsOpens(s: string)
    ensures Opens(TrimBlanksLeft(s)) <= Opens(s)
  {
    if |s| > 0 && IsBlank(s[0]) {
      TrimLeftKeepsOpens(s[1..]);
      assert s == [s[0]] + s[1..];
      OpensSum([s[0]], s[1..]);
    }
  }

  lemma {:induction false} TrimRightKeepsOpens(s: string)
    ensures Opens(TrimBlanksRight(s)) <= Opens(s)
  {
    if |s| > 0 && IsBlank(s[|s| - 1]) { TrimRightKeepsOpens(s[..|s| - 1]); }
  }

  lemma OperatorOpensNothing(k: Kind)
    ensures Opens(Operator(k)) == 0
  {
    var t := Operator(k);
    assert Opens(t[..0]) == 0;
    assert Opens(t[..1]) == 0 by { assert t[..1][..0] == t[..0]; }
    if |t| == 3 {
      assert Opens(t[..2]) == 0 by { assert t[..2][..1] == t[..1]; }
      assert t[..3] == t;
    } else {
      assert t[..1] == t;
    }
  }

  lemma {:induction false} RejoinKeepsOpens(args: seq<string>, k: Kind)
    ensures Opens(Rejoin(args, Operator(k))) <= OpensOf(args)
  {
    if |args| > 0 {
      TrimLeftKeepsOpens(args[0]);
      TrimRightKeepsOpens(TrimBlanksLeft(args[0]));
      if |args| > 1 {
        RejoinKeepsOpens(args[1..], k);
        OperatorOpensNothing(k);
        OpensSum(TrimBlanks(args[0]), Operator(k));
        OpensSum(TrimBlanks(args[0]) + Operator(k), Rejoin(args[1..], Operator(k)));
      }
    }
  }

  lemma ReplacementKeepsOpens(k: Kind, inner: string)
    ensures Opens(Replacement(k, inner)) <= Opens(inner)
  {
    var body := if k == NotKind then inner else Rejoin(Split(inner, 0, 0, 0), Operator(k));
    if k != NotKind {
      RejoinKeepsOpens(Split(inner, 0, 0, 0), k);
      SplitKeepsOpens(inner, 0, 0, 0);
    }
    assert Opens("(") == 0 && Opens(")") == 0;
    assert Opens("!(") == 0 by { assert "!("[..1] == "!"; assert "!"[..0] == ""; }
    var open := if k == NotKind then "!(" else "(";
    OpensSum(open, body);
    OpensSum(open + body, ")");
  }

  lemma HeaderOpensOnce(k: Kind)
    ensures Opens(Header(k)) == 1
  {
    var h := Header(k);
    assert '<' !in h[..|h| - 1];
    NoOpens(h[..|h| - 1]);
  }

  lemma {:induction false} NoOpens(s: string)
    requires '<' !in s
    ensures Opens(s) == 0
  {
    if |s| > 0 { NoOpens(s[..|s| - 1]); }
  }

  /** Every replacement takes away one opening bracket, whatever the text. */
  lemma StepTakesOneOpen(s: string, k: Kind)
    requires StepKind(s, k).Some?
    ensures Opens(StepKind(s, k).value) < Opens(s)
  {
    hide Opens, Replacement, Header;
    var p := Find(s, Header(k)).value;
    var start := p + |Header(k)|;
    var end := Close(s, start, 1).value;
    var inner := s[start..end - 1];
    CutOpens(s, p, start, end);
    assert s[p..start] == Header(k);
    HeaderOpensOnce(k);
    ReplacementKeepsOpens(k, inner);
    OpensSum(s[..p], Replacement(k, inner));
    OpensSum(s[..p] + Replacement(k, inner), s[end..]);
  }

  lemma CutOpens(s: string, p: nat, start: nat, end: nat)
    requires p <= start < end <= |s|
    ensures Opens(s) >= Opens(s[..p]) + Opens(s[p..start]) + Opens(s[start..end - 1]) + Opens(s[end..])
  {
    hide Opens;
    assert s == s[..p] + s[p..];
    OpensSum(s[..p], s[p..]);
    assert s[p..] == s[p..start] + s[start..];
    OpensSum(s[p..start], s[start..]);
    assert s[start..] == s[start..end - 1] + s[end - 1..];
    OpensSum(s[start..end - 1], s[end - 1..]);
    assert s[end - 1..] == [s[end - 1]] + s[end..];
    OpensSum([s[end - 1]], s[end..]);
  }

  lemma StepShrinks(s: string)
    ensures Step(s).Some? ==> Opens(Step(s).value) < Opens(s)
  {
    forall k: Kind | StepKind(s, k).Some? ensures Opens(StepKind(s, k).value) < Opens(s) {
      StepTakesOneOpen(s, k);
    }
  }

  /** The whole rewriting: it ends on every text. */
  function Rewrite(s: string): string
    decreases Opens(s)
  {
    StepShrinks(s);
    match Step(s)
    case None => s
    case Some(t) => Rewrite(t)
  }

  // -------------------------------------------------------- as a running loop

  method RewriteTemplates(expr: string) returns (s: string)
    ensures s == Rewrite(expr)
  {
    hide Opens, StepKind;
    s := expr;
    var changed := true;
    while changed
      invariant Rewrite(s) == Rewrite(expr)
      invariant !changed ==> Step(s).None?
      decreases Opens(s), changed
    {
      changed := false;
      StepShrinks(s);
      var kinds := [NotKind, AndKind, OrKind];
      var j := 0;
      while j < 3
        invariant 0 <= j <= 3 && !changed
        invariant forall i :: 0 <= i < j ==> StepKind(s, kinds[i]).None?
      {
        var next := ReplaceFirst(s, kinds[j]);
        if next.Some? {
          assert j > 0 ==> StepKind(s, kinds[0]).None?;
          assert j > 1 ==> StepKind(s, kinds[1]).None?;
          assert Step(s) == next;
          s := next.value;
          changed := true;
          break;
        }
        j := j + 1;
      }
      if !changed { assert StepKind(s, kinds[0]).None? && StepKind(s, kinds[1]).None? && StepKind(s, kinds[2]).None?; }
    }
  }

  method ReplaceFirst(s: string, k: Kind) returns (r: Option<string>)
    ensures r == StepKind(s, k)
  {
    hide Find, Header, Split, Rejoin, Close, Operator;
    var p := Find(s, Header(k));
    if p.None? { return None; }
    var start := p.value + |Header(k)|;
    var end := FindClose(s, start);
    if end.None? { return None; }
    var inner := s[start..end.value - 1];
    var repl := "!(" + inner + ")";
    if k != NotKind {
      var args := SplitArguments(inner);
      repl := "(" + Rejoin(args, Operator(k)) + ")";
    }
    assert repl == Replacement(k, inner);
    hide Replacement;
    r := Some(s[..p.value] + repl + s[end.value..]);
  }

  method FindClose(s: string, start: nat) returns (r: Option<nat>)
    requires start <= |s|
    ensures r == Close(s, start, 1)
  {
    var depth, end := 1, start;
    while end < |s| && depth > 0
      invariant start <= end <= |s| && Close(s, end, depth) == Close(s, start, 1)
    {
      if s[end] == '<' { depth := depth + 1; } else if s[end] == '>' { depth := depth - 1; }
      end := end + 1;
    }
    r := if depth > 0 then None else Some(end);
  }

  method SplitArguments(inner: string) returns (args: seq<string>)
    ensures args == Split(inner, 0, 0, 0)
  {
    args := [];
    var argStart, depth := 0, 0;
    for i := 0 to |inner|
      invariant argStart <= i
      invariant args + Split(inner, i, argStart, depth) == Split(inner, 0, 0, 0)
    {
      if inner[i] == '<' || inner[i] == '(' {
        depth := depth + 1;
      } else if inner[i] == '>' || inner[i] == ')' {
        depth := depth - 1;
      } else if inner[i] == ',' && depth == 0 {
        ghost var rest := Split(inner, i + 1, i + 1, depth);
        assert args + ([inner[argStart..i]] + rest) == args + [inner[argStart..i]] + rest;
        args := args + [inner[argStart..i]];
        argStart := i + 1;
      }
    }
    args := args + [inner[argStart..]];
  }
}
