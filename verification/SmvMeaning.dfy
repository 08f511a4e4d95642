/** The converted guard text holds no template any more and means what the guard meant. */
module SmvMeaning {
  import opened Text
  import opened Bool
  import opened SmvRewrite
  import opened SmvGuard
  import opened SmvGuardSteps
  import opened SmvReader
  import opened SmvDomains

  // ---------------------------------------- what printed guards never contain

  /** An angle bracket stands in no printed native guard. */
  lemma {:induction false} PrintLacksBrackets(t: Term, sep: string)
    requires WellFormed(t) && IsComma(sep) && IsNative(t)
    ensures '<' !in Print(t, sep)
    decreases t, 1
  {
    match t
    case Name(id) =>
    case Node(k, native, args) =>
      ArgsNative(t);
      PrintArgsLackBrackets(args, k, sep);
      assert '<' !in OpenText(k, native) && '<' !in CloseText(native);
  }

  lemma {:induction false} PrintArgsLackBrackets(args: seq<Term>, k: Kind, sep: string)
    requires AllWellFormed(args) && IsComma(sep) && AllNative(args)
    ensures '<' !in PrintArgs(args, Between(k, true, sep), sep)
    decreases args, 0
  {
    if |args| > 0 {
      FirstNative(args);
      PrintLacksBrackets(args[0], sep);
      PrintArgsLackBrackets(args[1..], k, sep);
      assert '<' !in Between(k, true, sep);
    }
  }

  /** Every `c` is followed by a blank, so it is never doubled. */
  predicate Lone(s: string, c: char) {
    forall i :: 0 <= i < |s| && s[i] == c ==> i + 1 < |s| && s[i + 1] == ' '
  }

  lemma LoneSum(a: string, b: string, c: char)
    requires Lone(a, c) && Lone(b, c)
    ensures Lone(a + b, c)
  {
  }

  lemma BracketsAreLone(k: Kind, native: bool, sep: string, c: char)
    requires IsComma(sep) && (c == '&' || c == '|' || c == '=')
    ensures Lone(OpenText(k, native), c) && Lone(CloseText(native), c) && Lone(Between(k, native, sep), c)
  {
  }

  lemma {:induction false} PrintIsLone(t: Term, sep: string, c: char)
    requires WellFormed(t) && IsComma(sep) && (c == '&' || c == '|' || c == '=')
    ensures Lone(Print(t, sep), c)
    decreases t, 1
  {
    match t
    case Name(id) => assert forall k :: 0 <= k < |id| ==> IsNameChar(id[k]);
    case Node(k, native, args) =>
      PrintArgsLone(args, k, native, sep, c);
      var inner := PrintArgs(args, Between(k, native, sep), sep);
      BracketsAreLone(k, native, sep, c);
      hide Lone, OpenText, CloseText, Between, IsReference, PrintArgs;
      LoneSum(inner, CloseText(native), c);
      LoneSum(OpenText(k, native), inner + CloseText(native), c);
  }

  lemma {:induction false} PrintArgsLone(args: seq<Term>, k: Kind, native: bool, sep: string, c: char)
    requires AllWellFormed(args) && IsComma(sep) && (c == '&' || c == '|' || c == '=')
    ensures Lone(PrintArgs(args, Between(k, native, sep), sep), c)
    decreases args, 0
  {
    var between := Between(k, native, sep);
    if |args| > 0 {
      PrintIsLone(args[0], sep, c);
      if |args| > 1 {
        PrintArgsLone(args[1..], k, native, sep, c);
        BracketsAreLone(k, native, sep, c);
        hide Lone, Between, Print;
        LoneSum(between, PrintArgs(args[1..], between, sep), c);
        LoneSum(Print(args[0], sep), between + PrintArgs(args[1..], between, sep), c);
      }
    }
  }

  // ------------------------------------------------ the other passes do nothing

  lemma NothingCollapsed(s: string, c: char)
    requires Lone(s, c) && c != ' '
    ensures CollapseFrom(s, c, 0) == s
  {
    var p := FindFrom(s, [c, c], 0);
    if p.Some? {
      AtChar(s, p.value, [c, c], 0);
      AtChar(s, p.value, [c, c], 1);
    }
  }

  /**
   * A guard whose references keep their names, with templates nested in any way and any blanks
   * behind the commas, is converted to a text without templates that SMV reads as the same
   * function of the ports and variables.
   */
  lemma ConvertedGuardMeansTheSame(t: Term, sep: string)
    requires KeepsNames(t) && IsComma(sep)
    ensures '<' !in ToSmv(Print(t, sep))
    ensures ReadWhole(ToSmv(Print(t, sep))).Some?
    ensures forall env, outer :: SeenThrough(env, outer, t) ==>
      Evaluate(ReadWhole(ToSmv(Print(t, sep))).value, env) == Denotes(t, outer)
  {
    hide ToSmv, ReadWhole, Denotes, Evaluate, Print, SeenThrough;
    NamesAreKept(t);
    ConvertedTextReads(t, sep);
    forall env, outer | SeenThrough(env, outer, t)
      ensures Evaluate(ReadWhole(ToSmv(Print(t, sep))).value, env) == Denotes(t, outer)
    {
      StrippedMeansTheSame(t, env, outer);
    }
  }

  lemma {:induction false} NamesAreKept(t: Term)
    requires KeepsNames(t)
    ensures WellFormed(Stripped(t))
    decreases t, 1
  {
    match t
    case Name(id) => StripsToBare(id);
    case Node(_, _, args) => AllNamesAreKept(args);
  }

  lemma {:induction false} AllNamesAreKept(args: seq<Term>)
    requires KeepAllNames(args)
    ensures AllWellFormed(StrippedAll(args))
    decreases args, 0
  {
    if |args| > 0 {
      NamesAreKept(args[0]);
      AllNamesAreKept(args[1..]);
      StrippedTail(args);
    }
  }

  /** Whatever the names, the converted text is the guard with the prefixes erased in each name. */
  lemma ConvertedTextReads(t: Term, sep: string)
    requires WellFormed(Stripped(t)) && IsComma(sep)
    ensures '<' !in ToSmv(Print(t, sep))
    ensures ReadWhole(ToSmv(Print(t, sep))).Some?
    ensures forall env :: Evaluate(ReadWhole(ToSmv(Print(t, sep))).value, env) == Denotes(Stripped(t), env)
  {
    hide Rewrite, Print, Read, EraseFrom, CollapseFrom, Erased, WellFormed, StripDomains;
    var n := Native(Stripped(t));
    StrippedPrints(t, sep);
    NativeKeepsMeaning(Stripped(t), map[]);
    NativeIsNative(Stripped(t));
    RewriteDelivers(Stripped(t), sep);
    var r := Print(n, sep);
    PrintIsLone(n, sep, '&');
    PrintIsLone(n, sep, '|');
    PrintIsLone(n, sep, '=');
    NothingCollapsed(r, '&');
    NothingCollapsed(r, '|');
    NothingCollapsed(r, '=');
    PrintLacksBrackets(n, sep);
    PrintedNativeReads(n, sep);
    forall env ensures Evaluate(AsDecision(n), env) == Denotes(Stripped(t), env) {
      DecisionAgrees(n, env);
      NativeKeepsMeaning(Stripped(t), env);
    }
  }

  lemma {:induction false} NativeIsNative(t: Term)
    ensures IsNative(Native(t))
    decreases t, 1
  {
    if t.Node? { NativeAllAreNative(t.args); }
  }

  lemma {:induction false} NativeAllAreNative(args: seq<Term>)
    ensures AllNative(NativeAll(args))
    decreases args, 0
  {
    if |args| > 0 {
      NativeIsNative(args[0]);
      NativeAllAreNative(args[1..]);
      assert NativeAll(args)[1..] == NativeAll(args[1..]);
    }
  }

  /** A name that merely contains `in.` loses those letters. */
  lemma PrefixInsideANameIsErased()
    ensures StripDomains("main.x") != "main.x" && StripDomains("in.main.x") != "main.x"
    ensures StripDomains("main.x") == "max"
  {
    hide EraseFrom, Clean;
    assert "in." + "main.x" == "in.main.x";
    StripsOneDomainExactly("in.", "main.x");
    MainLosesIn();
    EraseDotless("max", "out.");
    EraseDotless("max", "reg.");
  }

  lemma MainLosesIn()
    ensures EraseFrom("main.x", "in.", 0) == "max"
  {
    hide EraseFrom;
    assert "main.x" == "ma" + "in.x" && "in.x" == "in." + "x" && "ma" + "x" == "max";
    NoneIn("ma", "in.x");
    EraseBehind("ma", "in.x", "in.");
    EraseLeading("in.", "x");
    EraseDotless("x", "in.");
  }

  lemma NoneIn(a: string, b: string)
    requires 'i' !in a
    ensures forall j :: 0 <= j < |a| ==> !At(a + b, j, "in.")
  {
    forall j | 0 <= j < |a| ensures !At(a + b, j, "in.") {
      if At(a + b, j, "in.") { AtChar(a + b, j, "in.", 0); }
    }
  }
}
