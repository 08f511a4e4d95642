/**
 * Guards on their way from template calls to SMV operators. A term marks for each operator
 * whether it is still a template; its text is what the rewriting works on.
 */
module SmvGuard {
  import opened Text
  import opened Bool
  import opened SmvRewrite

  datatype Term = Name(id: string) | Node(kind: Kind, native: bool, args: seq<Term>)

  predicate IsNameChar(c: char) { IsWordChar(c) || c == '.' }

  /** An identifier that is no Boolean constant. */
  predicate IsIdentifier(s: string) {
    && |s| > 0 && !IsDigit(s[0]) && (forall k :: 0 <= k < |s| ==> IsWordChar(s[k]))
    && s != "true" && s != "false"
  }

  /** Identifiers with dots between them, as the name of a condition. */
  predicate IsReference(s: string)
    ensures IsReference(s) ==> |s| > 0 && forall k :: 0 <= k < |s| ==> IsNameChar(s[k])
    decreases |s|
  {
    var dot := Span(s, 0, IsWordChar);
    IsIdentifier(s[..dot]) && (dot == |s| || (s[dot] == '.' && IsReference(s[dot + 1..])))
  }

  predicate WellFormed(t: Term)
    decreases t, 1
  {
    match t
    case Name(id) => IsReference(id)
    case Node(k, _, args) => |args| > 0 && (k == NotKind ==> |args| == 1) && AllWellFormed(args)
  }

  predicate AllWellFormed(args: seq<Term>)
    decreases args, 0
  {
    |args| == 0 || (WellFormed(args[0]) && AllWellFormed(args[1..]))
  }

  // ------------------------------------------------------------------ text

  /** A comma and any blanks, as it stands between template arguments. */
  predicate IsComma(sep: string) {
    |sep| > 0 && sep[0] == ',' && forall k :: 1 <= k < |sep| ==> IsBlank(sep[k])
  }

  function OpenText(k: Kind, native: bool): string {
    if !native then Header(k) else if k == NotKind then "!(" else "("
  }

  function CloseText(native: bool): string { if native then ")" else ">" }

  function Between(k: Kind, native: bool, sep: string): string {
    if native then Operator(k) else sep
  }

  function Print(t: Term, sep: string): string
    decreases t, 1
  {
    match t
    case Name(id) => id
    case Node(k, native, args) =>
      OpenText(k, native) + (PrintArgs(args, Between(k, native, sep), sep) + CloseText(native))
  }

  function PrintArgs(args: seq<Term>, between: string, sep: string): string
    decreases args, 0
  {
    if |args| == 0 then ""
    else if |args| == 1 then Print(args[0], sep)
    else Print(args[0], sep) + (between + PrintArgs(args[1..], between, sep))
  }

  // --------------------------------------------------------------- meaning

  predicate Denotes(t: Term, env: Env)
    decreases t, 1
  {
    match t
    case Name(id) => Value(env, id)
    case Node(k, _, args) =>
      if k == NotKind then !AllDenote(args, env)
      else if k == AndKind then AllDenote(args, env)
      else AnyDenotes(args, env)
  }

  predicate AllDenote(args: seq<Term>, env: Env)
    decreases args, 0
  {
    |args| == 0 || (Denotes(args[0], env) && AllDenote(args[1..], env))
  }

  predicate AnyDenotes(args: seq<Term>, env: Env)
    decreases args, 0
  {
    |args| > 0 && (Denotes(args[0], env) || AnyDenotes(args[1..], env))
  }

  // -------------------------------------------------------- one step on terms

  predicate Has(t: Term, k: Kind)
    decreases t, 1
  {
    t.Node? && ((t.kind == k && !t.native) || HasIn(t.args, k))
  }

  predicate HasIn(args: seq<Term>, k: Kind)
    decreases args, 0
  {
    |args| > 0 && (Has(args[0], k) || HasIn(args[1..], k))
  }

  /** The first template of kind `k`, in reading order, becomes an operator. */
  function Convert(t: Term, k: Kind): Term
    requires Has(t, k)
    decreases t, 1
  {
    if t.kind == k && !t.native then t.(native := true) else t.(args := ConvertIn(t.args, k))
  }

  function ConvertIn(args: seq<Term>, k: Kind): seq<Term>
    requires HasIn(args, k)
    decreases args, 0
  {
    if Has(args[0], k) then [Convert(args[0], k)] + args[1..] else [args[0]] + ConvertIn(args[1..], k)
  }

  function Native(t: Term): Term
    decreases t, 1
  {
    match t
    case Name(_) => t
    case Node(k, _, args) => Node(k, true, NativeAll(args))
  }

  function NativeAll(args: seq<Term>): seq<Term>
    decreases args, 0
  {
    if |args| == 0 then [] else [Native(args[0])] + NativeAll(args[1..])
  }

  lemma {:induction false} NativeKeepsMeaning(t: Term, env: Env)
    requires WellFormed(t)
    ensures Denotes(Native(t), env) == Denotes(t, env) && WellFormed(Native(t))
    decreases t, 1
  {
    if t.Node? { NativeAllKeepMeaning(t.args, env); }
  }

  lemma {:induction false} NativeAllKeepMeaning(args: seq<Term>, env: Env)
    requires AllWellFormed(args)
    ensures |NativeAll(args)| == |args| && AllWellFormed(NativeAll(args))
    ensures AllDenote(NativeAll(args), env) == AllDenote(args, env)
    ensures AnyDenotes(NativeAll(args), env) == AnyDenotes(args, env)
    decreases args, 0
  {
    if |args| > 0 {
      NativeKeepsMeaning(args[0], env);
      NativeAllKeepMeaning(args[1..], env);
      assert NativeAll(args)[1..] == NativeAll(args[1..]);
    }
  }

  /** One conversion keeps the guard well formed, its meaning, and where it is heading. */
  lemma {:induction false} ConvertKeeps(t: Term, k: Kind, env: Env)
    requires WellFormed(t) && Has(t, k)
    ensures WellFormed(Convert(t, k)) && Native(Convert(t, k)) == Native(t)
    ensures Denotes(Convert(t, k), env) == Denotes(t, env)
    decreases t, 1
  {
    if !(t.kind == k && !t.native) { ConvertInKeeps(t.args, k, env); }
  }

  lemma {:induction false} ConvertInKeeps(args: seq<Term>, k: Kind, env: Env)
    requires AllWellFormed(args) && HasIn(args, k)
    ensures |ConvertIn(args, k)| == |args| && AllWellFormed(ConvertIn(args, k))
    ensures NativeAll(ConvertIn(args, k)) == NativeAll(args)
    ensures AllDenote(ConvertIn(args, k), env) == AllDenote(args, env)
    ensures AnyDenotes(ConvertIn(args, k), env) == AnyDenotes(args, env)
    decreases args, 0
  {
    var result := ConvertIn(args, k);
    if Has(args[0], k) {
      ConvertKeeps(args[0], k, env);
      assert result[1..] == args[1..];
    } else {
      ConvertInKeeps(args[1..], k, env);
      assert result[1..] == ConvertIn(args[1..], k);
    }
  }

  // ---------------------------------------- where the first template stands

  predicate EndsIn(s: string, j: nat, h: string)
    requires j < |s|
  {
    |h| <= j + 1 && s[j + 1 - |h|..j + 1] == h
  }

  /** Every opening angle bracket belongs to a header of another kind than `k`. */
  predicate Free(s: string, k: Kind) {
    forall j :: 0 <= j < |s| && s[j] == '<' ==> exists other :: other != k && EndsIn(s, j, Header(other))
  }

  lemma FreeSum(a: string, b: string, k: Kind)
    requires Free(a, k) && Free(b, k)
    ensures Free(a + b, k)
  {
    hide Header, EndsIn;
    var s := a + b;
    forall j | 0 <= j < |s| && s[j] == '<'
      ensures exists other :: other != k && EndsIn(s, j, Header(other))
    {
      if j < |a| {
        var other :| other != k && EndsIn(a, j, Header(other));
        EndsInLonger("", a, b, j, Header(other));
        assert "" + a + b == s;
      } else {
        var other :| other != k && EndsIn(b, j - |a|, Header(other));
        EndsInLonger(a, b, "", j - |a|, Header(other));
        assert a + b + "" == s;
      }
    }
  }

  lemma EndsInLonger(before: string, s: string, behind: string, j: nat, h: string)
    requires j < |s| && EndsIn(s, j, h)
    ensures EndsIn(before + s + behind, |before| + j, h)
  {
    var from, to := j + 1 - |h|, j + 1;
    assert (before + s + behind)[|before| + from..|before| + to] == s[from..to];
  }

  lemma FreeWithout(s: string, k: Kind)
    requires '<' !in s
    ensures Free(s, k)
  {
  }

  lemma HeaderFree(other: Kind, k: Kind)
    requires other != k
    ensures Free(Header(other), k)
  {
    var h := Header(other);
    forall j | 0 <= j < |h| && h[j] == '<' ensures EndsIn(h, j, Header(other)) {
      assert j == |h| - 1;
    }
  }

  lemma HeadersDiffer(k: Kind, other: Kind, s: string, j: nat)
    requires j < |s| && EndsIn(s, j, Header(k)) && EndsIn(s, j, Header(other))
    ensures k == other
  {
    var a, b := Header(k), Header(other);
    assert s[j - 2] == a[|a| - 3] == b[|b| - 3] by {
      assert s[j + 1 - |a|..j + 1][|a| - 3] == s[j - 2];
      assert s[j + 1 - |b|..j + 1][|b| - 3] == s[j - 2];
    }
  }

  lemma FreeExcludes(s: string, k: Kind, j: nat)
    requires Free(s, k) && j < |s| && s[j] == '<'
    ensures !EndsIn(s, j, Header(k))
  {
    hide Header;
    var other :| other != k && EndsIn(s, j, Header(other));
    if EndsIn(s, j, Header(k)) { HeadersDiffer(k, other, s, j); }
  }

  lemma HeaderShape(k: Kind)
    ensures |Header(k)| >= 9 && Header(k)[|Header(k)| - 1] == '<'
    ensures forall i :: 0 <= i < |Header(k)| - 1 ==> Header(k)[i] != '<'
  {
  }

  lemma OccurrenceEnds(s: string, p: nat, k: Kind)
    requires At(s, p, Header(k))
    ensures |Header(k)| >= 1 && EndsIn(s, p + |Header(k)| - 1, Header(k)) && s[p + |Header(k)| - 1] == '<'
  {
    HeaderShape(k);
    AtChar(s, p, Header(k), |Header(k)| - 1);
  }

  /** In free text there is no header of kind `k`; behind free text the first one is found. */
  lemma NoneInFree(s: string, k: Kind)
    requires Free(s, k)
    ensures Find(s, Header(k)) == None
  {
    hide Header, Free;
    var p := Find(s, Header(k));
    if p.Some? {
      OccurrenceEnds(s, p.value, k);
      FreeExcludes(s, k, p.value + |Header(k)| - 1);
    }
  }

  lemma FirstBehindFree(pre: string, k: Kind, rest: string)
    requires Free(pre, k)
    ensures Find(pre + (Header(k) + rest), Header(k)) == Some(|pre|)
  {
    hide Header, Free;
    var h := Header(k);
    var s := pre + (h + rest);
    assert At(s, |pre|, h);
    var p := Find(s, h);
    assert p.Some?;
    if p.value < |pre| {
      var j := p.value + |h| - 1;
      OccurrenceEnds(s, p.value, k);
      if j < |pre| {
        assert pre[p.value..j + 1] == s[p.value..j + 1];
        FreeExcludes(pre, k, j);
      } else {
        HeaderShape(k);
      }
    }
  }

  // ----------------------------------------------------------- bracket runs

  predicate Up(c: char, both: bool) { c == '<' || (both && c == '(') }

  predicate Down(c: char, both: bool) { c == '>' || (both && c == ')') }

  /**
   * Bracket depth behind `x`, begun at depth `d`; None once it would fall below the floor.
   * With `both` set, parentheses count too and a comma at the floor is not allowed.
   */
  function Run(x: string, d: nat, both: bool): Option<nat> {
    if |x| == 0 then Some(d)
    else if Up(x[0], both) then Run(x[1..], d + 1, both)
    else if Down(x[0], both) then if d == 0 then None else Run(x[1..], d - 1, both)
    else if both && x[0] == ',' && d == 0 then None
    else Run(x[1..], d, both)
  }

  lemma {:induction false} RunSum(a: string, b: string, d: nat, both: bool)
    requires Run(a, d, both).Some?
    ensures Run(a + b, d, both) == Run(b, Run(a, d, both).value, both)
    decreases |a|
  {
    if |a| == 0 {
      assert a + b == b;
    } else {
      assert (a + b)[1..] == a[1..] + b;
      if Up(a[0], both) {
        RunSum(a[1..], b, d + 1, both);
      } else if Down(a[0], both) {
        RunSum(a[1..], b, d - 1, both);
      } else {
        RunSum(a[1..], b, d, both);
      }
    }
  }

  lemma {:induction false} RunLift(x: string, d: nat, lift: nat, both: bool)
    requires Run(x, d, both).Some?
    ensures Run(x, d + lift, both) == Some(Run(x, d, both).value + lift)
    decreases |x|
  {
    if |x| > 0 {
      if Up(x[0], both) {
        RunLift(x[1..], d + 1, lift, both);
      } else if Down(x[0], both) {
        RunLift(x[1..], d - 1, lift, both);
      } else {
        RunLift(x[1..], d, lift, both);
      }
    }
  }

  lemma {:induction false} RunPlain(x: string, d: nat, both: bool)
    requires forall k :: 0 <= k < |x| ==> !Up(x[k], both) && !Down(x[k], both)
    requires both && d == 0 ==> ',' !in x
    ensures Run(x, d, both) == Some(d)
    decreases |x|
  {
    if |x| > 0 { RunPlain(x[1..], d, both); }
  }

  lemma {:induction false} CloseOver(s: string, i: nat, x: string, d: nat, floor: nat)
    requires At(s, i, x) && Run(x, d, false).Some? && floor >= 1
    ensures Close(s, i, floor + d) == Close(s, i + |x|, floor + Run(x, d, false).value)
    decreases |x|
  {
    if |x| > 0 {
      AtChar(s, i, x, 0);
      assert At(s, i + 1, x[1..]) by { assert x == x[..1] + x[1..]; AtSplit(s, i, x[..1], x[1..]); }
      if x[0] == '<' {
        CloseOver(s, i + 1, x[1..], d + 1, floor);
      } else if x[0] == '>' {
        CloseOver(s, i + 1, x[1..], d - 1, floor);
      } else {
        CloseOver(s, i + 1, x[1..], d, floor);
      }
    }
  }

  lemma {:induction false} SplitOver(s: string, i: nat, x: string, start: nat, d: nat)
    requires At(s, i, x) && start <= i && Run(x, d, true).Some?
    ensures Split(s, i, start, d) == Split(s, i + |x|, start, Run(x, d, true).value)
    decreases |x|
  {
    if |x| > 0 {
      AtChar(s, i, x, 0);
      assert At(s, i + 1, x[1..]) by { assert x == x[..1] + x[1..]; AtSplit(s, i, x[..1], x[1..]); }
      if Up(x[0], true) {
        SplitOver(s, i + 1, x[1..], start, d + 1);
      } else if Down(x[0], true) {
        SplitOver(s, i + 1, x[1..], start, d - 1);
      } else {
        SplitOver(s, i + 1, x[1..], start, d);
      }
    }
  }

  lemma HeaderRuns(k: Kind, d: nat, both: bool)
    ensures Run(Header(k), d, both) == Some(d + 1)
  {
    var h := Header(k);
    assert h == h[..|h| - 1] + "<";
    RunPlain(h[..|h| - 1], d, both) by {
      assert ',' !in h[..|h| - 1];
    }
    RunSum(h[..|h| - 1], "<", d, both);
    assert Run("<", d, both) == Some(d + 1) by { assert "<"[1..] == ""; }
  }

  lemma MarkRuns(c: char, d: nat, both: bool)
    ensures Run([c], d, both) ==
      if Up(c, both) then Some(d + 1)
      else if Down(c, both) then if d == 0 then None else Some(d - 1)
      else if both && c == ',' && d == 0 then None else Some(d)
  {
    assert [c][1..] == [];
  }

  lemma OpenRuns(k: Kind, native: bool, both: bool)
    ensures Run(OpenText(k, native), 0, both) == Some(if native && !both then 0 else 1)
  {
    if native {
      MarkRuns('!', 0, both);
      MarkRuns('(', 0, both);
      assert "!(" == ['!'] + ['('];
      RunSum(['!'], ['('], 0, both);
    } else {
      HeaderRuns(k, 0, both);
    }
  }

  /** A printed guard opens and closes evenly, and shows no comma outside its brackets. */
  lemma {:induction false} PrintRuns(t: Term, sep: string, both: bool)
    requires WellFormed(t) && IsComma(sep)
    ensures Run(Print(t, sep), 0, both) == Some(0)
    decreases t, 1
  {
    match t
    case Name(id) => RunPlain(id, 0, both);
    case Node(k, native, args) =>
      var d := if native && !both then 0 else 1;
      var between := Between(k, native, sep);
      var inner := PrintArgs(args, between, sep);
      OpenRuns(k, native, both);
      PrintArgsRuns(args, k, native, sep, both, d);
      MarkRuns(CloseText(native)[0], d, both);
      assert CloseText(native) == [CloseText(native)[0]];
      RunSum(inner, CloseText(native), d, both);
      RunSum(OpenText(k, native), inner + CloseText(native), 0, both);
  }

  lemma BetweenRuns(k: Kind, native: bool, sep: string, both: bool, d: nat)
    requires IsComma(sep) && (both ==> d >= 1)
    ensures Run(Between(k, native, sep), d, both) == Some(d)
  {
    RunPlain(Between(k, native, sep), d, both);
  }

  lemma {:induction false} PrintArgsRuns(args: seq<Term>, k: Kind, native: bool, sep: string, both: bool, d: nat)
    requires AllWellFormed(args) && IsComma(sep) && (both ==> d >= 1)
    ensures Run(PrintArgs(args, Between(k, native, sep), sep), d, both) == Some(d)
    decreases args, 0
  {
    var between := Between(k, native, sep);
    if |args| > 0 {
      PrintRuns(args[0], sep, both);
      RunLift(Print(args[0], sep), 0, d, both);
      if |args| > 1 {
        var rest := PrintArgs(args[1..], between, sep);
        BetweenRuns(k, native, sep, both, d);
        PrintArgsRuns(args[1..], k, native, sep, both, d);
        RunSum(between, rest, d, both);
        RunSum(Print(args[0], sep), between + rest, d, both);
      }
    }
  }
}
