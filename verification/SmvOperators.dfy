/**
 * Guards written with C++ operators: what the conversion makes of `&&`, `||` and `!`, and that the
 * result is one SMV expression with the meaning of the guard.
 */
module SmvOperators {
  import opened Text
  import opened Bool
  import opened Guard
  import opened SmvRewrite
  import opened SmvReader
  import opened SmvDomains
  import G = SmvGuard

  // ------------------------------------------------------ doubled characters

  function Repeated(c: char, n: nat): string {
    if n == 0 then "" else [c] + Repeated(c, n - 1)
  }

  lemma {:induction false} CollapseShift(a: string, b: string, c: char, j: nat)
    ensures CollapseFrom(a + b, c, |a| + j) == a + CollapseFrom(b, c, j)
    decreases |b|
  {
    hide FindFrom;
    FindShift(a, b, [c, c], j);
    var p := FindFrom(b, [c, c], j);
    if p.Some? {
      var rest := b[..p.value] + [c] + b[p.value + 2..];
      assert (a + b)[..|a| + p.value] + [c] + (a + b)[|a| + p.value + 2..] == a + rest;
      CollapseShift(a, rest, c, p.value + 1);
    }
  }

  /** No pair lies across the seam. */
  predicate NoPairAcross(a: string, b: string, c: char) {
    |a| == 0 || |b| == 0 || a[|a| - 1] != c || b[0] != c
  }

  lemma PairFound(a: string, b: string, c: char, i: nat)
    requires NoPairAcross(a, b, c) && i <= |a|
    ensures FindFrom(a + b, [c, c], i) ==
      if FindFrom(a, [c, c], i).Some? then FindFrom(a, [c, c], i) else FindFrom(a + b, [c, c], |a|)
  {
    var cc := [c, c];
    var p, q, here := FindFrom(a, cc, i), FindFrom(a + b, cc, i), FindFrom(a + b, cc, |a|);
    if q.Some? && q.value < |a| { PairInFront(a, b, c, q.value); }
    if p.Some? {
      assert At(a + b, p.value, cc) by { assert (a + b)[p.value..p.value + 2] == a[p.value..p.value + 2]; }
    }
    hide At;
    assert p.Some? ==> q == p;
    assert p.None? ==> q == here;
  }

  lemma PairInFront(a: string, b: string, c: char, j: nat)
    requires NoPairAcross(a, b, c) && j < |a| && At(a + b, j, [c, c])
    ensures At(a, j, [c, c])
  {
    AtChar(a + b, j, [c, c], 0);
    AtChar(a + b, j, [c, c], 1);
    assert a[j..j + 2] == (a + b)[j..j + 2];
  }

  lemma {:induction false} CollapseSum(a: string, b: string, c: char, i: nat)
    requires NoPairAcross(a, b, c) && i <= |a|
    ensures CollapseFrom(a + b, c, i) == CollapseFrom(a, c, i) + CollapseFrom(b, c, 0)
    decreases |a|
  {
    hide FindFrom;
    PairFound(a, b, c, i);
    var p := FindFrom(a, [c, c], i);
    if p.Some? {
      var n := p.value;
      AtChar(a, n, [c, c], 1);
      var rest := a[..n] + [c] + a[n + 2..];
      assert (a + b)[..n] + [c] + (a + b)[n + 2..] == rest + b;
      assert rest[|rest| - 1] == a[|a| - 1];
      CollapseSum(rest, b, c, n + 1);
    } else {
      CollapseShift(a, b, c, 0);
      assert CollapseFrom(a, c, i) == a;
      SameFind(a + b, c, i, |a|);
    }
  }

  lemma SameFind(s: string, c: char, i: nat, j: nat)
    requires FindFrom(s, [c, c], i) == FindFrom(s, [c, c], j)
    ensures CollapseFrom(s, c, i) == CollapseFrom(s, c, j)
  {
    hide FindFrom;
  }

  lemma CollapseWithout(s: string, c: char)
    requires c !in s
    ensures CollapseFrom(s, c, 0) == s
  {
    var p := FindFrom(s, [c, c], 0);
    if p.Some? { AtChar(s, p.value, [c, c], 0); }
  }

  lemma PairInLead(c: char, rest: string)
    ensures CollapseFrom([c, c] + rest, c, 0) == [c] + CollapseFrom(rest, c, 0)
  {
    var s := [c, c] + rest;
    assert At(s, 0, [c, c]);
    assert FindFrom(s, [c, c], 0) == Some(0);
    assert s[..0] + [c] + s[2..] == [c] + rest;
    CollapseShift([c], rest, c, 0);
  }

  lemma TooShort(s: string, c: char)
    requires |s| < 2
    ensures CollapseFrom(s, c, 0) == s
  {
    assert FindFrom(s, [c, c], 0) == None;
  }

  /** A run of `n` characters is left with every second one, rounded up. */
  lemma {:induction false} RunHalves(c: char, n: nat)
    ensures CollapseFrom(Repeated(c, n), c, 0) == Repeated(c, (n + 1) / 2)
    decreases n
  {
    hide CollapseFrom;
    var s := Repeated(c, n);
    if n >= 2 {
      assert s == [c, c] + Repeated(c, n - 2);
      PairInLead(c, Repeated(c, n - 2));
      RunHalves(c, n - 2);
    } else {
      assert Repeated(c, 0) == "" && |s| == n;
      TooShort(s, c);
    }
  }

  /** Runs are collapsed one by one, and the text between them stays. */
  lemma CollapseExactly(before: string, c: char, n: nat, behind: string)
    requires c !in before && (behind == "" || behind[0] != c)
    ensures CollapseFrom(before + (Repeated(c, n) + behind), c, 0)
         == before + (Repeated(c, (n + 1) / 2) + CollapseFrom(behind, c, 0))
  {
    CollapseWithout(before, c);
    CollapseSum(before, Repeated(c, n) + behind, c, 0);
    CollapseSum(Repeated(c, n), behind, c, 0);
    RunHalves(c, n);
  }

  // ------------------------------------------------------- the text of a guard

  /** The text of a guard with the two operators spelled as given. */
  function Layout(g: Guard, conj: string, disj: string): string
    decreases g, 1
  {
    match g.op
    case Atomic => g.expression
    case Negation =>
      if |g.children| == 0 then "!" + g.expression
      else if g.children[0].op == Atomic then "!" + Layout(g.children[0], conj, disj)
      else "!(" + (Layout(g.children[0], conj, disj) + ")")
    case _ => LayoutChain(g.op, g.children, conj, disj)
  }

  function LayoutChain(op: GuardOp, cs: seq<Guard>, conj: string, disj: string): string
    decreases cs, 0
  {
    if |cs| == 0 then ""
    else if |cs| == 1 then LayoutPart(op, cs[0], conj, disj)
    else
      var mark := if op == Conjunction then conj else disj;
      LayoutChain(op, cs[..|cs| - 1], conj, disj) + (mark + LayoutPart(op, cs[|cs| - 1], conj, disj))
  }

  /** An alternative within a conjunction stands in brackets. */
  function LayoutPart(op: GuardOp, g: Guard, conj: string, disj: string): string
    decreases g, 2
  {
    if op == Conjunction && g.op == Disjunction then "(" + (Layout(g, conj, disj) + ")") else Layout(g, conj, disj)
  }

  lemma {:induction false} LayoutIsCpp(g: Guard)
    ensures Layout(g, " && ", " || ") == ToCpp(g)
    decreases g, 1
  {
    match g.op
    case Atomic =>
    case Negation =>
      if |g.children| > 0 { LayoutIsCpp(g.children[0]); }
    case _ => LayoutIsChain(g.op, g.children);
  }

  lemma {:induction false} LayoutIsChain(op: GuardOp, cs: seq<Guard>)
    requires op == Conjunction || op == Disjunction
    ensures LayoutChain(op, cs, " && ", " || ") == Chain(op, cs)
    decreases cs, 0
  {
    if |cs| > 0 {
      LayoutIsCpp(cs[|cs| - 1]);
      if |cs| > 1 { LayoutIsChain(op, cs[..|cs| - 1]); }
      assert Separator('&') == " && " && Separator('|') == " || ";
    }
  }

  /** The guard with each name freed of its domain. */
  function Bared(g: Guard): Guard
    decreases g, 1
  {
    Guard(g.op, Bare(g.expression), BaredAll(g.children))
  }

  function BaredAll(cs: seq<Guard>): (r: seq<Guard>)
    ensures |r| == |cs|
    decreases cs, 0
  {
    if |cs| == 0 then [] else BaredAll(cs[..|cs| - 1]) + [Bared(cs[|cs| - 1])]
  }

  /** Names keep theirs, and no conjunction or disjunction is empty. */
  predicate KeepsGuard(g: Guard)
    decreases g, 1
  {
    match g.op
    case Atomic => Keeps(g.expression)
    case Negation => if |g.children| == 0 then Keeps(g.expression) else KeepsGuard(g.children[0])
    case _ => |g.children| > 0 && KeepsChain(g.children)
  }

  predicate KeepsChain(cs: seq<Guard>)
    decreases cs, 0
  {
    |cs| == 0 || (KeepsChain(cs[..|cs| - 1]) && KeepsGuard(cs[|cs| - 1]))
  }

  // ----------------------------------------------- the prefixes leave its names

  predicate EndsApart(d: string) { |d| > 0 && !G.IsNameChar(d[|d| - 1]) }

  predicate StartsApart(d: string) { |d| > 0 && !G.IsNameChar(d[0]) }

  lemma StripBehind(d: string, x: string)
    requires EndsApart(d) && '.' !in d
    ensures StripDomains(d + x) == d + StripDomains(x)
  {
    hide EraseFrom;
    var a := EraseFrom(x, "in.", 0);
    var b := EraseFrom(a, "out.", 0);
    EraseDotless(d, "in.");
    EraseDotless(d, "out.");
    EraseDotless(d, "reg.");
    EraseSum(d, x, "in.", 0);
    EraseSum(d, a, "out.", 0);
    EraseSum(d, b, "reg.", 0);
  }

  lemma StripBefore(x: string, d: string)
    requires StartsApart(d) && '.' !in d
    ensures StripDomains(x + d) == StripDomains(x) + d
  {
    hide EraseFrom;
    var a := EraseFrom(x, "in.", 0);
    var b := EraseFrom(a, "out.", 0);
    EraseDotless(d, "in.");
    EraseDotless(d, "out.");
    EraseDotless(d, "reg.");
    EraseSum(x, d, "in.", 0);
    EraseSum(a, d, "out.", 0);
    EraseSum(b, d, "reg.", 0);
  }

  lemma StripAround(x: string, d: string, y: string)
    requires StartsApart(d) && EndsApart(d) && '.' !in d
    ensures StripDomains(x + (d + y)) == StripDomains(x) + (d + StripDomains(y))
  {
    hide EraseFrom;
    assert StripDomains(d + y) == d + StripDomains(y) by { StripBehind(d, y); }
    var a, c := EraseFrom(x, "in.", 0), EraseFrom(d + y, "in.", 0);
    DelimiterStays(d, y, "in.");
    DelimiterStays(d, EraseFrom(y, "in.", 0), "out.");
    EraseSum(x, d + y, "in.", 0);
    EraseSum(a, c, "out.", 0);
    EraseSum(EraseFrom(a, "out.", 0), EraseFrom(c, "out.", 0), "reg.", 0);
  }

  lemma DelimiterStays(d: string, y: string, prefix: string)
    requires EndsApart(d) && '.' !in d && IsDomain(prefix)
    ensures EraseFrom(d + y, prefix, 0) == d + EraseFrom(y, prefix, 0)
  {
    EraseDotless(d, prefix);
    EraseSum(d, y, prefix, 0);
  }

  predicate IsMark(d: string) { |d| >= 2 && d[0] == ' ' && d[|d| - 1] == ' ' && '.' !in d }

  lemma StripBrackets(x: string)
    ensures StripDomains("(" + (x + ")")) == "(" + (StripDomains(x) + ")")
  {
    hide StripDomains;
    StripBefore(x, ")");
    StripBehind("(", x + ")");
  }

  lemma {:induction false} StripLayout(g: Guard, conj: string, disj: string)
    requires KeepsGuard(g) && IsMark(conj) && IsMark(disj)
    ensures StripDomains(Layout(g, conj, disj)) == Layout(Bared(g), conj, disj)
    decreases g, 1
  {
    hide StripDomains, Keeps, Bare;
    match g.op
    case Atomic => NameStrips(g.expression);
    case Negation =>
      if |g.children| == 0 {
        NameStrips(g.expression);
        StripBehind("!", g.expression);
      } else {
        var c := g.children[0];
        var x := Layout(c, conj, disj);
        StripLayout(c, conj, disj);
        FirstBared(g.children);
        StripBehind("!", x);
        StripBrackets(x);
        StripBehind("!", "(" + (x + ")"));
        assert "!(" + (x + ")") == "!" + ("(" + (x + ")"));
        var y := StripDomains(x);
        assert "!(" + (y + ")") == "!" + ("(" + (y + ")"));
      }
    case _ => StripChain(g.op, g.children, conj, disj);
  }

  lemma NameStrips(id: string)
    requires Keeps(id)
    ensures StripDomains(id) == Bare(id)
  {
    StripsToBare(id);
  }

  lemma {:induction false} FirstBared(cs: seq<Guard>)
    requires |cs| > 0
    ensures BaredAll(cs)[0] == Bared(cs[0])
  {
    if |cs| > 1 { FirstBared(cs[..|cs| - 1]); }
  }

  lemma BaredSplits(cs: seq<Guard>)
    requires |cs| > 0
    ensures BaredAll(cs)[|cs| - 1] == Bared(cs[|cs| - 1]) && BaredAll(cs)[..|cs| - 1] == BaredAll(cs[..|cs| - 1])
  {
  }

  lemma MarkIsApart(d: string)
    requires IsMark(d)
    ensures StartsApart(d) && EndsApart(d) && '.' !in d
  {
  }

  lemma {:induction false} StripPart(op: GuardOp, g: Guard, conj: string, disj: string)
    requires KeepsGuard(g) && IsMark(conj) && IsMark(disj)
    ensures StripDomains(LayoutPart(op, g, conj, disj)) == LayoutPart(op, Bared(g), conj, disj)
    decreases g, 2
  {
    hide StripDomains, Layout;
    StripLayout(g, conj, disj);
    StripBrackets(Layout(g, conj, disj));
  }

  lemma {:induction false} StripChain(op: GuardOp, cs: seq<Guard>, conj: string, disj: string)
    requires KeepsChain(cs) && |cs| > 0 && IsMark(conj) && IsMark(disj)
    ensures StripDomains(LayoutChain(op, cs, conj, disj)) == LayoutChain(op, BaredAll(cs), conj, disj)
    decreases cs, 0
  {
    hide StripDomains, LayoutPart, Bared, BaredAll, IsMark;
    StripPart(op, cs[|cs| - 1], conj, disj);
    BaredSplits(cs);
    if |cs| > 1 {
      var init, last := cs[..|cs| - 1], cs[|cs| - 1];
      StripChain(op, init, conj, disj);
      StripAround(LayoutChain(op, init, conj, disj), if op == Conjunction then conj else disj,
                  LayoutPart(op, last, conj, disj)) by { MarkIsApart(conj); MarkIsApart(disj); }
    }
  }

  // ---------------------------------------------------- the operators are halved

  /** All names are references, and no conjunction or disjunction is empty. */
  predicate Refers(g: Guard)
    decreases g, 1
  {
    match g.op
    case Atomic => G.IsReference(g.expression)
    case Negation => if |g.children| == 0 then G.IsReference(g.expression) else Refers(g.children[0])
    case _ => |g.children| > 0 && AllRefer(g.children)
  }

  predicate AllRefer(cs: seq<Guard>)
    decreases cs, 0
  {
    |cs| == 0 || (AllRefer(cs[..|cs| - 1]) && Refers(cs[|cs| - 1]))
  }

  lemma {:induction false} BaredRefers(g: Guard)
    requires KeepsGuard(g)
    ensures Refers(Bared(g))
    decreases g, 1
  {
    hide Bare;
    match g.op
    case Atomic =>
    case Negation =>
      if |g.children| > 0 {
        FirstBared(g.children);
        BaredRefers(g.children[0]);
      }
    case _ => AllBaredRefer(g.children);
  }

  lemma {:induction false} AllBaredRefer(cs: seq<Guard>)
    requires KeepsChain(cs)
    ensures AllRefer(BaredAll(cs))
    decreases cs, 0
  {
    if |cs| > 0 {
      AllBaredRefer(cs[..|cs| - 1]);
      BaredRefers(cs[|cs| - 1]);
      assert BaredAll(cs)[..|cs| - 1] == BaredAll(cs[..|cs| - 1]);
    }
  }

  predicate IsSign(c: char) { c == '&' || c == '|' || c == '=' }

  lemma SignBehind(d: string, x: string, c: char)
    requires d == "!" || d == "("
    requires IsSign(c)
    ensures CollapseFrom(d + x, c, 0) == d + CollapseFrom(x, c, 0)
  {
    CollapseWithout(d, c);
    CollapseSum(d, x, c, 0);
  }

  lemma SignBrackets(x: string, c: char)
    requires IsSign(c)
    ensures CollapseFrom("(" + (x + ")"), c, 0) == "(" + (CollapseFrom(x, c, 0) + ")")
  {
    hide CollapseFrom;
    SignBehind("(", x + ")", c);
    CollapseWithout(")", c);
    CollapseSum(x, ")", c, 0);
  }

  lemma SignAround(x: string, d: string, y: string, c: char)
    requires IsSign(c) && IsMark(d)
    ensures CollapseFrom(x + (d + y), c, 0) == CollapseFrom(x, c, 0) + (CollapseFrom(d, c, 0) + CollapseFrom(y, c, 0))
  {
    hide CollapseFrom;
    CollapseSum(d, y, c, 0);
    CollapseSum(x, d + y, c, 0);
  }

  lemma NameHasNoSign(id: string, c: char)
    requires G.IsReference(id) && IsSign(c)
    ensures c !in id && CollapseFrom(id, c, 0) == id
  {
    assert forall k :: 0 <= k < |id| ==> G.IsNameChar(id[k]);
    CollapseWithout(id, c);
  }

  /** Collapsing a sign in the text of a guard is collapsing it in the two operators. */
  lemma {:induction false} CollapseLayout(g: Guard, c: char, conj: string, disj: string)
    requires Refers(g) && IsSign(c) && IsMark(conj) && IsMark(disj)
    ensures CollapseFrom(Layout(g, conj, disj), c, 0)
         == Layout(g, CollapseFrom(conj, c, 0), CollapseFrom(disj, c, 0))
    decreases g, 1
  {
    hide CollapseFrom;
    match g.op
    case Atomic => NameHasNoSign(g.expression, c);
    case Negation =>
      if |g.children| == 0 {
        NameHasNoSign(g.expression, c);
        SignBehind("!", g.expression, c);
      } else {
        var x := Layout(g.children[0], conj, disj);
        CollapseLayout(g.children[0], c, conj, disj);
        SignBehind("!", x, c);
        SignBrackets(x, c);
        SignBehind("!", "(" + (x + ")"), c);
        assert "!(" + (x + ")") == "!" + ("(" + (x + ")"));
        var y := CollapseFrom(x, c, 0);
        assert "!(" + (y + ")") == "!" + ("(" + (y + ")"));
      }
    case _ => CollapseChain(g.op, g.children, c, conj, disj);
  }

  lemma {:induction false} CollapsePart(op: GuardOp, g: Guard, c: char, conj: string, disj: string)
    requires Refers(g) && IsSign(c) && IsMark(conj) && IsMark(disj)
    ensures CollapseFrom(LayoutPart(op, g, conj, disj), c, 0)
         == LayoutPart(op, g, CollapseFrom(conj, c, 0), CollapseFrom(disj, c, 0))
    decreases g, 2
  {
    hide CollapseFrom, Layout;
    CollapseLayout(g, c, conj, disj);
    SignBrackets(Layout(g, conj, disj), c);
  }

  lemma {:induction false} CollapseChain(op: GuardOp, cs: seq<Guard>, c: char, conj: string, disj: string)
    requires AllRefer(cs) && |cs| > 0 && IsSign(c) && IsMark(conj) && IsMark(disj)
    ensures CollapseFrom(LayoutChain(op, cs, conj, disj), c, 0)
         == LayoutChain(op, cs, CollapseFrom(conj, c, 0), CollapseFrom(disj, c, 0))
    decreases cs, 0
  {
    hide CollapseFrom, LayoutPart;
    CollapsePart(op, cs[|cs| - 1], c, conj, disj);
    if |cs| > 1 {
      CollapseChain(op, cs[..|cs| - 1], c, conj, disj);
      SignAround(LayoutChain(op, cs[..|cs| - 1], conj, disj), if op == Conjunction then conj else disj,
                 LayoutPart(op, cs[|cs| - 1], conj, disj), c);
    }
  }

  // -------------------------------------------------------- the whole conversion

  lemma OperatorsHalve()
    ensures CollapseFrom(" && ", '&', 0) == " & " && CollapseFrom(" || ", '&', 0) == " || "
    ensures CollapseFrom(" & ", '|', 0) == " & " && CollapseFrom(" || ", '|', 0) == " | "
    ensures CollapseFrom(" & ", '=', 0) == " & " && CollapseFrom(" | ", '=', 0) == " | "
  {
    hide CollapseFrom;
    assert Repeated('&', 0) == Repeated('|', 0) == "";
    assert Repeated('&', 2) == "&&" && Repeated('|', 2) == "||" && Repeated('&', 1) == "&" && Repeated('|', 1) == "|";
    assert " && " == " " + ("&&" + " ") && " || " == " " + ("||" + " ");
    assert " & " == " " + ("&" + " ") && " | " == " " + ("|" + " ");
    CollapseExactly(" ", '&', 2, " ");
    CollapseExactly(" ", '|', 2, " ");
    CollapseWithout(" ", '&');
    CollapseWithout(" ", '|');
    CollapseWithout(" || ", '&');
    CollapseWithout(" & ", '|');
    CollapseWithout(" & ", '=');
    CollapseWithout(" | ", '=');
  }

  lemma NoTemplates(s: string)
    requires '<' !in s
    ensures Rewrite(s) == s
  {
    G.FreeWithout(s, NotKind);
    G.FreeWithout(s, AndKind);
    G.FreeWithout(s, OrKind);
    G.NoneInFree(s, NotKind);
    G.NoneInFree(s, AndKind);
    G.NoneInFree(s, OrKind);
    hide Find, Header;
    assert Step(s) == None;
  }

  /** The conversion singles the operators and frees the names of their domains, and that is all. */
  lemma GuardTextConverts(g: Guard)
    requires KeepsGuard(g)
    ensures ToSmv(ToCpp(g)) == Layout(Bared(g), " & ", " | ")
  {
    hide StripDomains, CollapseFrom, Rewrite;
    LayoutIsCpp(g);
    StripLayout(g, " && ", " || ");
    BaredRefers(g);
    var b := Bared(g);
    LayoutLacks(b, " && ", " || ", '<');
    NoTemplates(Layout(b, " && ", " || "));
    OperatorsHalve();
    CollapseLayout(b, '&', " && ", " || ");
    CollapseLayout(b, '|', " & ", " || ");
    CollapseLayout(b, '=', " & ", " | ");
  }

  lemma {:induction false} LayoutLacks(g: Guard, conj: string, disj: string, c: char)
    requires Refers(g) && c !in conj && c !in disj && !G.IsNameChar(c) && c != '!' && c != '(' && c != ')'
    ensures c !in Layout(g, conj, disj)
    decreases g, 1
  {
    match g.op
    case Atomic =>
    case Negation => if |g.children| > 0 { LayoutLacks(g.children[0], conj, disj, c); }
    case _ => ChainLacks(g.op, g.children, conj, disj, c);
  }

  lemma {:induction false} ChainLacks(op: GuardOp, cs: seq<Guard>, conj: string, disj: string, c: char)
    requires AllRefer(cs) && c !in conj && c !in disj && !G.IsNameChar(c) && c != '!' && c != '(' && c != ')'
    ensures c !in LayoutChain(op, cs, conj, disj)
    decreases cs, 0
  {
    if |cs| > 0 {
      LayoutLacks(cs[|cs| - 1], conj, disj, c);
      ChainLacks(op, cs[..|cs| - 1], conj, disj, c);
    }
  }

  /** Names and numerals, with at most one domain in front. */
  predicate IsOperand(t: string) { Clean(Bare(t)) && forall k :: 0 <= k < |t| ==> G.IsNameChar(t[k]) }

  /** An equality loses the domains and one of its two signs. */
  lemma ComparisonConverts(x: string, y: string)
    requires IsOperand(x) && IsOperand(y)
    ensures ToSmv(x + (" == " + y)) == Bare(x) + (" = " + Bare(y))
  {
    hide StripDomains, CollapseFrom, Rewrite, Clean, Bare;
    StripsToBare(x);
    StripsToBare(y);
    StripAround(x, " == ", y);
    BareIsShorter(x);
    BareIsShorter(y);
    var a, b := Bare(x), Bare(y);
    var s, r := a + (" == " + b), a + (" = " + b);
    NoTemplates(s);
    CollapseWithout(s, '&');
    CollapseWithout(s, '|');
    CollapseWithout(b, '=');
    assert s == (a + " ") + ("==" + (" " + b)) && r == (a + " ") + ("=" + (" " + b));
    assert Repeated('=', 2) == "==" && Repeated('=', 1) == "=" by { assert Repeated('=', 0) == ""; }
    CollapseWithout(" " + b, '=');
    CollapseExactly(a + " ", '=', 2, " " + b);
  }

  lemma BareIsShorter(t: string)
    requires forall k :: 0 <= k < |t| ==> G.IsNameChar(t[k])
    ensures forall k :: 0 <= k < |Bare(t)| ==> G.IsNameChar(Bare(t)[k])
  {
  }

  /** A third sign in a row survives: the conversion halves, it does not single. */
  lemma ThreeSignsLeaveTwo(c: char)
    ensures CollapseFrom([c, c, c], c, 0) == [c, c]
  {
    hide CollapseFrom;
    PairInLead(c, [c]);
    TooShort([c], c);
    assert [c, c] + [c] == [c, c, c];
  }
}
