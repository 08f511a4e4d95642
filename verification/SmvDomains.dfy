/** Which references keep their names when the conversion erases the domain prefixes. */
module SmvDomains {
  import opened Text
  import opened Bool
  import opened SmvRewrite
  import opened SmvGuard
  import opened SmvReader

  // ---------------------------------------------------------- erasing from one text

  predicate Holds(s: string, prefix: string) { exists j :: 0 <= j <= |s| && At(s, j, prefix) }

  /** None of the domain prefixes occurs. */
  predicate Clean(s: string) { !Holds(s, "in.") && !Holds(s, "out.") && !Holds(s, "reg.") }

  lemma {:induction false} EraseShortens(s: string, prefix: string, i: nat)
    requires |prefix| > 0
    ensures |EraseFrom(s, prefix, i)| <= |s|
    ensures FindFrom(s, prefix, i).Some? ==> |EraseFrom(s, prefix, i)| <= |s| - |prefix|
    decreases |s|
  {
    hide FindFrom;
    var p := FindFrom(s, prefix, i);
    if p.Some? { EraseShortens(s[..p.value] + s[p.value + |prefix|..], prefix, p.value); }
  }

  lemma EraseNothingExactly(s: string, prefix: string)
    requires |prefix| > 0
    ensures EraseFrom(s, prefix, 0) == s <==> !Holds(s, prefix)
    ensures Holds(s, prefix) ==> |EraseFrom(s, prefix, 0)| <= |s| - |prefix|
  {
    EraseShortens(s, prefix, 0);
    var p := FindFrom(s, prefix, 0);
    if p.Some? { assert At(s, p.value, prefix); }
  }

  /** The conversion leaves a text alone exactly when no domain prefix occurs in it. */
  lemma StripsNothingExactly(s: string)
    ensures StripDomains(s) == s <==> Clean(s)
  {
    hide EraseFrom, Holds;
    EraseNothingExactly(s, "in.");
    var a := EraseFrom(s, "in.", 0);
    EraseNothingExactly(a, "out.");
    var b := EraseFrom(a, "out.", 0);
    EraseNothingExactly(b, "reg.");
    EraseShortens(s, "in.", 0);
    EraseShortens(a, "out.", 0);
    EraseShortens(b, "reg.", 0);
  }

  predicate IsDomain(p: string) { p == "in." || p == "out." || p == "reg." }

  /** A prefix before a text is erased; the search then goes on in the text. */
  lemma EraseLeading(prefix: string, x: string)
    requires |prefix| > 0
    ensures EraseFrom(prefix + x, prefix, 0) == EraseFrom(x, prefix, 0)
  {
    var s := prefix + x;
    assert At(s, 0, prefix) by { assert s[0..|prefix|] == prefix; }
    assert FindFrom(s, prefix, 0) == Some(0);
    assert s[..0] + s[0 + |prefix|..] == x;
  }

  lemma {:induction false} EraseShift(a: string, b: string, prefix: string, j: nat)
    requires |prefix| > 0
    ensures EraseFrom(a + b, prefix, |a| + j) == a + EraseFrom(b, prefix, j)
    decreases |b|
  {
    hide FindFrom, EraseFrom;
    FindShift(a, b, prefix, j);
    EraseOnce(b, prefix, j);
    EraseOnce(a + b, prefix, |a| + j);
    var p := FindFrom(b, prefix, j);
    if p.Some? {
      var rest := b[..p.value] + b[p.value + |prefix|..];
      assert (a + b)[..|a| + p.value] + (a + b)[|a| + p.value + |prefix|..] == a + rest;
      EraseShift(a, rest, prefix, p.value);
    }
  }

  lemma AtShift(a: string, b: string, prefix: string, j: nat)
    ensures At(a + b, |a| + j, prefix) <==> At(b, j, prefix)
  {
    if j + |prefix| <= |b| { assert (a + b)[|a| + j..|a| + j + |prefix|] == b[j..j + |prefix|]; }
  }

  lemma FindShift(a: string, b: string, prefix: string, j: nat)
    ensures FindFrom(a + b, prefix, |a| + j) ==
      if FindFrom(b, prefix, j).None? then None else Some(|a| + FindFrom(b, prefix, j).value)
  {
    hide At;
    var here, there := FindFrom(b, prefix, j), FindFrom(a + b, prefix, |a| + j);
    if here.Some? { AtShift(a, b, prefix, here.value); }
    if there.Some? { AtShift(a, b, prefix, there.value - |a|); }
  }

  /** A prefix none of whose occurrences begins in the first part is erased from the second alone. */
  lemma EraseBehind(a: string, b: string, prefix: string)
    requires |prefix| > 0 && forall j :: 0 <= j < |a| ==> !At(a + b, j, prefix)
    ensures EraseFrom(a + b, prefix, 0) == a + EraseFrom(b, prefix, 0)
  {
    hide FindFrom, EraseFrom, At;
    EraseShift(a, b, prefix, 0);
    FindSkips(a + b, prefix, |a|);
    EraseOnce(a + b, prefix, 0);
    EraseOnce(a + b, prefix, |a|);
  }

  lemma FindSkips(s: string, pattern: string, i: nat)
    requires forall j :: 0 <= j < i ==> !At(s, j, pattern)
    ensures FindFrom(s, pattern, 0) == FindFrom(s, pattern, i)
  {
    hide FindFrom, At;
    var p, q := FindFrom(s, pattern, 0), FindFrom(s, pattern, i);
    assert p.Some? ==> p.value >= i;
  }

  /** No domain prefix begins inside another one. */
  lemma NoneBeginsInside(p: string, x: string, prefix: string, j: nat)
    requires IsDomain(p) && IsDomain(prefix) && p != prefix && j < |p|
    ensures !At(p + x, j, prefix)
  {
    if At(p + x, j, prefix) {
      AtChar(p + x, j, prefix, 0);
      assert p[j] == prefix[0];
      AtChar(p + x, j, prefix, 1);
    }
  }

  lemma EraseKeepsDomain(p: string, x: string, prefix: string)
    requires IsDomain(p) && IsDomain(prefix)
    ensures EraseFrom(p + x, prefix, 0) == if p == prefix then EraseFrom(x, prefix, 0) else p + EraseFrom(x, prefix, 0)
  {
    if p == prefix {
      EraseLeading(p, x);
    } else {
      forall j: nat | 0 <= j < |p| ensures !At(p + x, j, prefix) { NoneBeginsInside(p, x, prefix, j); }
      EraseBehind(p, x, prefix);
    }
  }

  /**
   * A leading domain is always dropped; the reference loses nothing else exactly when none of the
   * three prefixes occurs in the rest.
   */
  lemma StripsOneDomainExactly(p: string, x: string)
    requires IsDomain(p)
    ensures StripDomains(p + x) == StripDomains(x)
    ensures StripDomains(p + x) == x <==> Clean(x)
  {
    hide EraseFrom;
    var a := EraseFrom(x, "in.", 0);
    EraseKeepsDomain(p, x, "in.");
    if p != "in." {
      var b := EraseFrom(a, "out.", 0);
      EraseKeepsDomain(p, a, "out.");
      if p != "out." { EraseKeepsDomain(p, b, "reg."); }
    }
    StripsNothingExactly(x);
  }

  // -------------------------------------------------------- erasing from a guard

  /** No occurrence of a prefix can lie across the seam between the two texts. */
  predicate Apart(a: string, b: string) {
    |a| == 0 || |b| == 0 || !IsNameChar(a[|a| - 1]) || !IsNameChar(b[0])
  }

  lemma SeamIsFree(a: string, b: string, prefix: string, j: nat)
    requires Apart(a, b) && IsDomain(prefix) && At(a + b, j, prefix) && j < |a|
    ensures j + |prefix| <= |a| && At(a, j, prefix)
  {
    if j + |prefix| > |a| {
      AtChar(a + b, j, prefix, |a| - 1 - j);
      AtChar(a + b, j, prefix, |a| - j);
    }
    assert (a + b)[j..j + |prefix|] == a[j..j + |prefix|];
  }

  /** Texts that stand apart are searched one after the other. */
  lemma {:induction false} EraseSum(a: string, b: string, prefix: string, i: nat)
    requires Apart(a, b) && IsDomain(prefix) && i <= |a|
    ensures EraseFrom(a + b, prefix, i) == EraseFrom(a, prefix, i) + EraseFrom(b, prefix, 0)
    decreases |a|
  {
    hide FindFrom, EraseFrom;
    EraseOnce(a, prefix, i);
    EraseOnce(a + b, prefix, i);
    FindSum(a, b, prefix, i);
    var p := FindFrom(a, prefix, i);
    if p.Some? {
      var n := p.value + |prefix|;
      AtChar(a, p.value, prefix, |prefix| - 1);
      assert (a + b)[..p.value] + (a + b)[n..] == (a[..p.value] + a[n..]) + b;
      EraseSum(a[..p.value] + a[n..], b, prefix, p.value);
    } else {
      EraseShift(a, b, prefix, 0);
      EraseOnce(a + b, prefix, |a|);
    }
  }

  lemma FindSum(a: string, b: string, prefix: string, i: nat)
    requires Apart(a, b) && IsDomain(prefix) && i <= |a|
    ensures FindFrom(a + b, prefix, i) ==
      if FindFrom(a, prefix, i).Some? then FindFrom(a, prefix, i) else FindFrom(a + b, prefix, |a|)
  {
    hide Apart, IsDomain;
    var p, q, here := FindFrom(a, prefix, i), FindFrom(a + b, prefix, i), FindFrom(a + b, prefix, |a|);
    if q.Some? && q.value < |a| { SeamIsFree(a, b, prefix, q.value); }
    if p.Some? {
      assert At(a + b, p.value, prefix) by {
        assert (a + b)[p.value..p.value + |prefix|] == a[p.value..p.value + |prefix|];
      }
    }
    hide At;
    assert p.Some? ==> q == p;
    assert p.None? ==> q == here;
  }

  lemma EraseDotless(s: string, prefix: string)
    requires IsDomain(prefix) && '.' !in s
    ensures EraseFrom(s, prefix, 0) == s
  {
    var p := FindFrom(s, prefix, 0);
    if p.Some? { AtChar(s, p.value, prefix, |prefix| - 1); }
  }

  function Erased(t: Term, prefix: string): Term
    requires |prefix| > 0
    decreases t, 1
  {
    match t
    case Name(id) => Name(EraseFrom(id, prefix, 0))
    case Node(k, native, args) => Node(k, native, ErasedAll(args, prefix))
  }

  function ErasedAll(args: seq<Term>, prefix: string): (r: seq<Term>)
    requires |prefix| > 0
    ensures |r| == |args|
    decreases args, 0
  {
    if |args| == 0 then [] else [Erased(args[0], prefix)] + ErasedAll(args[1..], prefix)
  }

  lemma BracketsAreApart(k: Kind, native: bool, sep: string, text: string)
    requires IsComma(sep)
    ensures Apart(OpenText(k, native), text) && Apart(text, CloseText(native))
    ensures Apart(Between(k, native, sep), text) && Apart(text, Between(k, native, sep))
    ensures '.' !in OpenText(k, native) && '.' !in CloseText(native) && '.' !in Between(k, native, sep)
  {
  }

  lemma {:induction false} ErasePrinted(t: Term, sep: string, prefix: string)
    requires IsDomain(prefix) && IsComma(sep)
    ensures EraseFrom(Print(t, sep), prefix, 0) == Print(Erased(t, prefix), sep)
    decreases t, 1
  {
    hide EraseFrom, Apart, IsDomain, OpenText, CloseText, Between;
    match t
    case Name(id) =>
    case Node(k, native, args) =>
      var open, close, between := OpenText(k, native), CloseText(native), Between(k, native, sep);
      var inner := PrintArgs(args, between, sep);
      BracketsAreApart(k, native, sep, inner + close);
      BracketsAreApart(k, native, sep, inner);
      ErasePrintedArgs(args, k, native, sep, prefix);
      EraseDotless(open, prefix);
      EraseDotless(close, prefix);
      EraseSum(inner, close, prefix, 0);
      EraseSum(open, inner + close, prefix, 0);
  }

  lemma {:induction false} ErasePrintedArgs(args: seq<Term>, k: Kind, native: bool, sep: string, prefix: string)
    requires IsDomain(prefix) && IsComma(sep)
    ensures var between := Between(k, native, sep);
      EraseFrom(PrintArgs(args, between, sep), prefix, 0) == PrintArgs(ErasedAll(args, prefix), between, sep)
    decreases args, 0
  {
    hide EraseFrom, Apart, Between, Print;
    var between := Between(k, native, sep);
    if |args| == 0 {
      EraseDotless("", prefix);
    } else {
      ErasePrinted(args[0], sep, prefix);
      assert ErasedAll(args, prefix)[1..] == ErasedAll(args[1..], prefix);
      if |args| > 1 {
        var first, rest := Print(args[0], sep), PrintArgs(args[1..], between, sep);
        ErasePrintedArgs(args[1..], k, native, sep, prefix);
        BracketsAreApart(k, native, sep, rest);
        BetweenKeepsApart(first, k, native, sep, rest);
        EraseDotless(between, prefix);
        EraseSum(between, rest, prefix, 0);
        EraseSum(first, between + rest, prefix, 0);
      }
    }
  }

  lemma BetweenKeepsApart(first: string, k: Kind, native: bool, sep: string, rest: string)
    requires IsComma(sep)
    ensures Apart(first, Between(k, native, sep) + rest)
  {
  }

  /** The guard with its domain prefixes erased, name by name. */
  function Stripped(t: Term): Term { Erased(Erased(Erased(t, "in."), "out."), "reg.") }

  /** Erasing in the text is erasing in the names, in every guard. */
  lemma StrippedPrints(t: Term, sep: string)
    requires IsComma(sep)
    ensures StripDomains(Print(t, sep)) == Print(Stripped(t), sep)
  {
    hide Print, Erased, EraseFrom;
    ErasePrinted(t, sep, "in.");
    ErasePrinted(Erased(t, "in."), sep, "out.");
    ErasePrinted(Erased(Erased(t, "in."), "out."), sep, "reg.");
  }

  // ---------------------------------------------- references with one domain

  /** The reference without its leading domain. */
  function Bare(id: string): string {
    if "in." <= id then id[3..]
    else if "out." <= id || "reg." <= id then id[4..]
    else id
  }

  /** A reference that keeps its name: at most one domain, in front, and none of the three behind it. */
  predicate Keeps(id: string) { IsReference(Bare(id)) && Clean(Bare(id)) }

  lemma StripsToBare(id: string)
    requires Clean(Bare(id))
    ensures StripDomains(id) == Bare(id)
  {
    hide StripDomains, Clean;
    var x := Bare(id);
    if "in." <= id {
      assert id == "in." + x;
      StripsOneDomainExactly("in.", x);
    } else if "out." <= id {
      assert id == "out." + x;
      StripsOneDomainExactly("out.", x);
    } else if "reg." <= id {
      assert id == "reg." + x;
      StripsOneDomainExactly("reg.", x);
    } else {
      StripsNothingExactly(x);
    }
  }

  predicate KeepsNames(t: Term)
    decreases t, 1
  {
    match t
    case Name(id) => Keeps(id)
    case Node(k, _, args) => |args| > 0 && (k == NotKind ==> |args| == 1) && KeepAllNames(args)
  }

  predicate KeepAllNames(args: seq<Term>)
    decreases args, 0
  {
    |args| == 0 || (KeepsNames(args[0]) && KeepAllNames(args[1..]))
  }

  /** The environment of the ports and variables, seen through their domains. */
  predicate SeenThrough(env: Env, outer: Env, t: Term)
    decreases t, 1
  {
    match t
    case Name(id) => Value(outer, id) == Value(env, Bare(id))
    case Node(_, _, args) => AllSeenThrough(env, outer, args)
  }

  predicate AllSeenThrough(env: Env, outer: Env, args: seq<Term>)
    decreases args, 0
  {
    |args| == 0 || (SeenThrough(env, outer, args[0]) && AllSeenThrough(env, outer, args[1..]))
  }

  lemma {:induction false} StrippedMeansTheSame(t: Term, env: Env, outer: Env)
    requires KeepsNames(t) && SeenThrough(env, outer, t)
    ensures WellFormed(Stripped(t)) && Denotes(Stripped(t), env) == Denotes(t, outer)
    decreases t, 1
  {
    match t
    case Name(id) => StripsToBare(id);
    case Node(k, native, args) =>
      StrippedAllMeanTheSame(args, env, outer);
  }

  function StrippedAll(args: seq<Term>): (r: seq<Term>)
    ensures |r| == |args|
  {
    ErasedAll(ErasedAll(ErasedAll(args, "in."), "out."), "reg.")
  }

  lemma StrippedTail(args: seq<Term>)
    requires |args| > 0
    ensures StrippedAll(args)[0] == Stripped(args[0]) && StrippedAll(args)[1..] == StrippedAll(args[1..])
  {
    var a := ErasedAll(args, "in.");
    var b := ErasedAll(a, "out.");
    assert a[1..] == ErasedAll(args[1..], "in.");
    assert b[1..] == ErasedAll(a[1..], "out.");
  }

  lemma {:induction false} StrippedAllMeanTheSame(args: seq<Term>, env: Env, outer: Env)
    requires KeepAllNames(args) && AllSeenThrough(env, outer, args)
    ensures AllWellFormed(StrippedAll(args))
    ensures AllDenote(StrippedAll(args), env) == AllDenote(args, outer)
    ensures AnyDenotes(StrippedAll(args), env) == AnyDenotes(args, outer)
    decreases args, 0
  {
    if |args| > 0 {
      StrippedTail(args);
      StrippedMeansTheSame(args[0], env, outer);
      StrippedAllMeanTheSame(args[1..], env, outer);
    }
  }
}
