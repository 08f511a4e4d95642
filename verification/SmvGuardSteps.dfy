/** Each replacement converts exactly one template of a printed guard, so the meaning is kept. */
module SmvGuardSteps {
  import opened Text
  import opened Bool
  import opened SmvRewrite
  import opened SmvGuard

  // ------------------------------------------------- locating the template

  lemma {:induction false} NothingToFind(t: Term, sep: string, k: Kind)
    requires WellFormed(t) && IsComma(sep) && !Has(t, k)
    ensures Free(Print(t, sep), k)
    decreases t, 1
  {
    match t
    case Name(id) => FreeWithout(id, k);
    case Node(kind, native, args) =>
      NothingToFindIn(args, kind, native, sep, k);
      OpenFree(kind, native, k);
      FreeWithout(CloseText(native), k);
      FreeSum(PrintArgs(args, Between(kind, native, sep), sep), CloseText(native), k);
      FreeSum(OpenText(kind, native), PrintArgs(args, Between(kind, native, sep), sep) + CloseText(native), k);
  }

  lemma OpenFree(kind: Kind, native: bool, k: Kind)
    requires native || kind != k
    ensures Free(OpenText(kind, native), k)
  {
    if native { FreeWithout(OpenText(kind, native), k); } else { HeaderFree(kind, k); }
  }

  lemma BetweenFree(kind: Kind, native: bool, sep: string, k: Kind)
    requires IsComma(sep)
    ensures Free(Between(kind, native, sep), k)
  {
    FreeWithout(Between(kind, native, sep), k);
  }

  lemma {:induction false} NothingToFindIn(args: seq<Term>, kind: Kind, native: bool, sep: string, k: Kind)
    requires AllWellFormed(args) && IsComma(sep) && !HasIn(args, k)
    ensures Free(PrintArgs(args, Between(kind, native, sep), sep), k)
    decreases args, 0
  {
    var between := Between(kind, native, sep);
    if |args| > 0 {
      NothingToFind(args[0], sep, k);
      if |args| > 1 {
        NothingToFindIn(args[1..], kind, native, sep, k);
        BetweenFree(kind, native, sep, k);
        FreeSum(between, PrintArgs(args[1..], between, sep), k);
        FreeSum(Print(args[0], sep), between + PrintArgs(args[1..], between, sep), k);
      }
    }
  }

  /** `text` shows the template `Node(k, false, args)` behind `pre`; `next` is the text with it converted. */
  predicate Located(text: string, next: string, k: Kind, args: seq<Term>, pre: string, post: string, sep: string) {
    && WellFormed(Node(k, false, args))
    && Free(pre, k)
    && text == pre + (Print(Node(k, false, args), sep) + post)
    && next == pre + (Print(Node(k, true, args), sep) + post)
  }

  lemma Surround(text: string, next: string, k: Kind, args: seq<Term>, pre: string, post: string, sep: string,
                 before: string, behind: string)
    requires Located(text, next, k, args, pre, post, sep) && Free(before, k)
    ensures Located(before + (text + behind), before + (next + behind), k, args, before + pre, post + behind, sep)
  {
    FreeSum(before, pre, k);
    var p, q := Print(Node(k, false, args), sep), Print(Node(k, true, args), sep);
    assert before + (pre + (p + post) + behind) == before + pre + (p + (post + behind));
    assert before + (pre + (q + post) + behind) == before + pre + (q + (post + behind));
  }

  lemma {:induction false} Locate(t: Term, sep: string, k: Kind)
    returns (args: seq<Term>, pre: string, post: string)
    requires WellFormed(t) && IsComma(sep) && Has(t, k)
    ensures Located(Print(t, sep), Print(Convert(t, k), sep), k, args, pre, post, sep)
    decreases t, 1
  {
    if t.kind == k && !t.native {
      args, pre, post := t.args, "", "";
      FreeWithout("", k);
    } else {
      args, pre, post := LocateIn(t.args, t.kind, t.native, sep, k);
      OpenFree(t.kind, t.native, k);
      var between := Between(t.kind, t.native, sep);
      Surround(PrintArgs(t.args, between, sep), PrintArgs(ConvertIn(t.args, k), between, sep), k, args, pre, post, sep,
               OpenText(t.kind, t.native), CloseText(t.native));
      pre, post := OpenText(t.kind, t.native) + pre, post + CloseText(t.native);
    }
  }

  lemma {:induction false} LocateIn(list: seq<Term>, kind: Kind, native: bool, sep: string, k: Kind)
    returns (args: seq<Term>, pre: string, post: string)
    requires AllWellFormed(list) && IsComma(sep) && HasIn(list, k)
    ensures Located(PrintArgs(list, Between(kind, native, sep), sep),
                    PrintArgs(ConvertIn(list, k), Between(kind, native, sep), sep), k, args, pre, post, sep)
    decreases list, 0
  {
    hide Located, Print, Between, Has, WellFormed, IsComma;
    var between := Between(kind, native, sep);
    var first := Print(list[0], sep);
    var result := ConvertIn(list, k);
    if Has(list[0], k) {
      args, pre, post := Locate(list[0], sep, k);
      assert result[1..] == list[1..];
      if |list| > 1 {
        var behind := between + PrintArgs(list[1..], between, sep);
        Surround(first, Print(result[0], sep), k, args, pre, post, sep, "", behind);
        FreeWithout("", k);
        assert "" + (first + behind) == first + behind;
        assert "" + (Print(result[0], sep) + behind) == Print(result[0], sep) + behind;
        pre, post := "" + pre, post + behind;
      }
    } else {
      NothingToFind(list[0], sep, k);
      BetweenFree(kind, native, sep, k);
      FreeSum(first, between, k);
      args, pre, post := LocateIn(list[1..], kind, native, sep, k);
      ConvertInLength(list[1..], k);
      assert result[1..] == ConvertIn(list[1..], k);
      var rest, next := PrintArgs(list[1..], between, sep), PrintArgs(result[1..], between, sep);
      Surround(rest, next, k, args, pre, post, sep, first + between, "");
      assert first + (between + rest) == first + between + (rest + "");
      assert first + (between + next) == first + between + (next + "");
      pre, post := first + between + pre, post + "";
    }
  }

  lemma {:induction false} ConvertInLength(list: seq<Term>, k: Kind)
    requires HasIn(list, k)
    ensures |ConvertIn(list, k)| == |list|
  {
    if !Has(list[0], k) { ConvertInLength(list[1..], k); }
  }

  // --------------------------------------------------- the replacement text

  lemma {:induction false} TrimPadded(gap: string, x: string)
    requires forall k :: 0 <= k < |gap| ==> IsBlank(gap[k])
    requires |x| > 0 && !IsBlank(x[0]) && !IsBlank(x[|x| - 1])
    ensures TrimBlanks(gap + x) == x
    decreases |gap|
  {
    if |gap| > 0 {
      assert (gap + x)[1..] == gap[1..] + x;
      TrimPadded(gap[1..], x);
    } else {
      assert gap + x == x;
    }
  }

  lemma PrintIsSolid(t: Term, sep: string)
    requires WellFormed(t)
    ensures var x := Print(t, sep); |x| > 0 && !IsBlank(x[0]) && !IsBlank(x[|x| - 1])
  {
    if t.Node? {
      assert |CloseText(t.native)| == 1;
    }
  }

  lemma SplitOverPrinted(s: string, i: nat, start: nat, t: Term, sep: string)
    requires WellFormed(t) && IsComma(sep) && start <= i && At(s, i, Print(t, sep))
    ensures Split(s, i, start, 0) == Split(s, i + |Print(t, sep)|, start, 0)
  {
    PrintRuns(t, sep, true);
    SplitOver(s, i, Print(t, sep), start, 0);
  }

  lemma RejoinCons(x: string, tail: seq<string>, op: string)
    ensures Rejoin([x] + tail, op) == if |tail| == 0 then TrimBlanks(x) else TrimBlanks(x) + (op + Rejoin(tail, op))
  {
    assert ([x] + tail)[1..] == tail;
  }

  /** The first argument, with the blanks before it, is cut off at the comma behind it. */
  lemma FirstArgument(s: string, start: nat, i: nat, t: Term, sep: string)
    requires WellFormed(t) && IsComma(sep) && start <= i && At(s, i, Print(t, sep))
    requires forall k :: start <= k < i ==> IsBlank(s[k])
    ensures var a := i + |Print(t, sep)|;
      && a <= |s| && TrimBlanks(s[start..a]) == Print(t, sep)
      && (a == |s| ==> Split(s, i, start, 0) == [s[start..a]])
      && (a < |s| && s[a] == ',' ==> Split(s, i, start, 0) == [s[start..a]] + Split(s, a + 1, a + 1, 0))
  {
    hide WellFormed, TrimBlanks, Print, IsComma;
    var x := Print(t, sep);
    var a := i + |x|;
    PrintIsSolid(t, sep);
    SplitOverPrinted(s, i, start, t, sep);
    assert s[start..a] == s[start..i] + x by { assert s[i..a] == x; }
    TrimPadded(s[start..i], x);
    if a == |s| { assert s[start..] == s[start..a]; }
  }

  /** Splitting printed arguments and joining them with an operator prints them as operands. */
  lemma {:induction false} ArgumentsRejoin(s: string, start: nat, i: nat, args: seq<Term>, sep: string, op: string)
    requires |args| > 0 && AllWellFormed(args) && IsComma(sep)
    requires start <= i && At(s, i, PrintArgs(args, sep, sep)) && i + |PrintArgs(args, sep, sep)| == |s|
    requires forall k :: start <= k < i ==> IsBlank(s[k])
    ensures Rejoin(Split(s, i, start, 0), op) == PrintArgs(args, op, sep)
    decreases |args|
  {
    hide Split, Rejoin, TrimBlanks, Print, WellFormed;
    var x := Print(args[0], sep);
    var a := i + |x|;
    if |args| == 1 {
      FirstArgument(s, start, i, args[0], sep);
      RejoinCons(s[start..a], [], op);
      assert [s[start..a]] + [] == [s[start..a]];
    } else {
      var rest := PrintArgs(args[1..], sep, sep);
      AtSplit(s, i, x, sep + rest);
      AtSplit(s, a, sep, rest);
      AtChar(s, a, sep, 0);
      FirstArgument(s, start, i, args[0], sep);
      GapIsSkipped(s, a, sep);
      ArgumentsRejoin(s, a + 1, a + |sep|, args[1..], sep, op);
      RejoinCons(s[start..a], Split(s, a + 1, a + 1, 0), op);
    }
  }

  lemma GapIsSkipped(s: string, a: nat, sep: string)
    requires IsComma(sep) && At(s, a, sep)
    ensures Split(s, a + 1, a + 1, 0) == Split(s, a + |sep|, a + 1, 0)
    ensures forall k :: a + 1 <= k < a + |sep| ==> IsBlank(s[k])
  {
    var gap := sep[1..];
    assert sep == sep[..1] + gap;
    AtSplit(s, a, sep[..1], gap);
    RunPlain(gap, 0, true);
    SplitOver(s, a + 1, gap, a + 1, 0);
    forall k | a + 1 <= k < a + |sep| ensures IsBlank(s[k]) { AtChar(s, a, sep, k - a); }
  }

  lemma ReplacementConverts(k: Kind, args: seq<Term>, sep: string)
    requires WellFormed(Node(k, false, args)) && IsComma(sep)
    ensures Replacement(k, PrintArgs(args, sep, sep)) == Print(Node(k, true, args), sep)
  {
    var inner := PrintArgs(args, sep, sep);
    if k == NotKind {
      assert inner == PrintArgs(args, Operator(k), sep);
      assert "!(" + inner + ")" == "!(" + (inner + ")");
    } else {
      assert inner[0..|inner|] == inner;
      ArgumentsRejoin(inner, 0, 0, args, sep, Operator(k));
      var body := PrintArgs(args, Operator(k), sep);
      assert "(" + body + ")" == "(" + (body + ")");
    }
  }

  // --------------------------------------------------------------- the step

  lemma TemplateCloses(pre: string, k: Kind, args: seq<Term>, post: string, sep: string)
    requires WellFormed(Node(k, false, args)) && IsComma(sep)
    ensures var inner := PrintArgs(args, sep, sep);
      var s := pre + (Header(k) + (inner + (">" + post)));
      var start := |pre| + |Header(k)|;
      && start + |inner| + 1 <= |s| && Close(s, start, 1) == Some(start + |inner| + 1)
      && s[start..start + |inner|] == inner && s[start + |inner| + 1..] == post
  {
    hide Header, PrintArgs, WellFormed;
    var inner := PrintArgs(args, sep, sep);
    var s := pre + (Header(k) + (inner + (">" + post)));
    var start := |pre| + |Header(k)|;
    assert s[start..start + |inner|] == inner;
    InnerRuns(k, args, sep);
    CloseOver(s, start, inner, 0, 1);
    assert s[start + |inner|] == '>';
  }

  lemma InnerRuns(k: Kind, args: seq<Term>, sep: string)
    requires WellFormed(Node(k, false, args)) && IsComma(sep)
    ensures Run(PrintArgs(args, sep, sep), 0, false) == Some(0)
  {
    PrintArgsRuns(args, k, false, sep, false, 0);
  }

  lemma LocatedStep(text: string, next: string, k: Kind, args: seq<Term>, pre: string, post: string, sep: string)
    requires IsComma(sep) && Located(text, next, k, args, pre, post, sep)
    ensures StepKind(text, k) == Some(next)
  {
    hide Free, Header, Replacement, PrintArgs, WellFormed;
    var inner := PrintArgs(args, sep, sep);
    assert text == pre + (Header(k) + (inner + (">" + post)));
    TemplateCloses(pre, k, args, post, sep);
    FirstBehindFree(pre, k, inner + (">" + post));
    ReplacementConverts(k, args, sep);
    var converted := Print(Node(k, true, args), sep);
    assert text[..|pre|] == pre;
    assert pre + converted + post == pre + (converted + post);
  }

  lemma StepConverts(t: Term, sep: string, k: Kind)
    requires WellFormed(t) && IsComma(sep)
    ensures Has(t, k) ==> StepKind(Print(t, sep), k) == Some(Print(Convert(t, k), sep))
    ensures !Has(t, k) ==> StepKind(Print(t, sep), k) == None
  {
    hide Free, StepKind, Print;
    if Has(t, k) {
      var args, pre, post := Locate(t, sep, k);
      LocatedStep(Print(t, sep), Print(Convert(t, k), sep), k, args, pre, post, sep);
    } else {
      NothingToFind(t, sep, k);
      NoneInFree(Print(t, sep), k);
      StepKindNeedsHeader(Print(t, sep), k);
    }
  }

  lemma StepKindNeedsHeader(s: string, k: Kind)
    requires Find(s, Header(k)) == None
    ensures StepKind(s, k) == None
  {
  }

  predicate IsNative(t: Term) { !Has(t, NotKind) && !Has(t, AndKind) && !Has(t, OrKind) }

  lemma {:induction false} NativeStays(t: Term)
    requires IsNative(t)
    ensures Native(t) == t
    decreases t, 1
  {
    if t.Node? { NativeAllStay(t.args); }
  }

  lemma {:induction false} NativeAllStay(args: seq<Term>)
    requires forall k: Kind :: !HasIn(args, k)
    ensures NativeAll(args) == args
    decreases args, 0
  {
    if |args| > 0 {
      assert !HasIn(args, NotKind) && !HasIn(args, AndKind) && !HasIn(args, OrKind);
      forall k: Kind ensures !HasIn(args[1..], k) { assert !HasIn(args, k); }
      NativeStays(args[0]);
      NativeAllStay(args[1..]);
    }
  }

  /** One pass of the loop on a printed guard: nothing left, or one template fewer and the meaning kept. */
  lemma StepKeepsMeaning(t: Term, sep: string)
    returns (next: Term)
    requires WellFormed(t) && IsComma(sep)
    ensures IsNative(t) ==> Step(Print(t, sep)) == None
    ensures !IsNative(t) ==> Step(Print(t, sep)) == Some(Print(next, sep))
    ensures !IsNative(t) ==> WellFormed(next) && Native(next) == Native(t)
    ensures !IsNative(t) ==> forall env :: Denotes(next, env) == Denotes(t, env)
  {
    StepConverts(t, sep, NotKind);
    StepConverts(t, sep, AndKind);
    StepConverts(t, sep, OrKind);
    next := t;
    if !IsNative(t) {
      var k := if Has(t, NotKind) then NotKind else if Has(t, AndKind) then AndKind else OrKind;
      next := Convert(t, k);
      forall env ensures WellFormed(next) && Native(next) == Native(t) && Denotes(next, env) == Denotes(t, env) {
        ConvertKeeps(t, k, env);
      }
      ConvertKeeps(t, k, map[]);
    }
  }

  lemma {:induction false} RewriteDelivers(t: Term, sep: string)
    requires WellFormed(t) && IsComma(sep)
    ensures Rewrite(Print(t, sep)) == Print(Native(t), sep)
    decreases Opens(Print(t, sep))
  {
    StepShrinks(Print(t, sep));
    var next := StepKeepsMeaning(t, sep);
    if IsNative(t) { NativeStays(t); } else { RewriteDelivers(next, sep); }
  }
}
