/** The JSON text written for a manifest, and what reading it back gives. */
module ManifestJson {
  import opened Text
  import opened ManifestText
  import opened Manifest
  import opened ManifestLines
  import opened ManifestRoundTrip
  import opened ManifestScan
  import opened ManifestDocument

  // --------------------------------------------------------------- the lines

  function Comma(more: bool): string { if more then "," else "" }

  function Member(p: Pair): string { Quoted(p.0) + ": " + p.1 }

  /** Members one below the other, with commas between them. */
  function Members(pairs: seq<Pair>, indent: nat): seq<Line> {
    if |pairs| == 0 then []
    else [Line(indent, Member(pairs[0]) + Comma(|pairs| > 1))] + Members(pairs[1..], indent)
  }

  function Object(pairs: seq<Pair>, indent: nat, more: bool): seq<Line> {
    [Line(indent, "{")] + (Members(pairs, indent + 2) + [Line(indent, "}" + Comma(more))])
  }

  function Objects<R>(rs: seq<R>, pairs: R -> seq<Pair>, indent: nat): seq<Line> {
    if |rs| == 0 then [] else Object(pairs(rs[0]), indent, |rs| > 1) + Objects(rs[1..], pairs, indent)
  }

  function SignalHeadLines(s: Signal): seq<Line> {
    [Line(2, "{"), Line(4, Member(("name", Quoted(s.name))) + ","), Line(4, Quoted("attributes") + ": [")]
  }

  function SignalTailLines(more: bool): seq<Line> { [Line(4, "]"), Line(2, "}" + Comma(more))] }

  function SignalObject(s: Signal, more: bool): seq<Line> {
    SignalHeadLines(s) + (Objects(s.attributes, AttributePairs, 6) + SignalTailLines(more))
  }

  function SignalObjects(list: seq<Signal>): seq<Line> {
    if |list| == 0 then []
    else SignalObject(list[0], |list| > 1) + SignalObjects(list[1..])
  }

  function InvariantPairs(m: map<string, string>, order: seq<string>): seq<Pair>
    requires forall k :: k in order ==> k in m
  {
    if |order| == 0 then [] else [(order[0], Quoted(m[order[0]]))] + InvariantPairs(m, order[1..])
  }

  function RequirementItems(rs: seq<string>): seq<Line> {
    if |rs| == 0 then [] else [Line(2, Quoted(rs[0]) + Comma(|rs| > 1))] + RequirementItems(rs[1..])
  }

  function NamePairs(m: Contract): seq<Pair> {
    [("package", Quoted(m.package)), ("name", Quoted(m.name)), ("initial", Quoted(m.initial))]
  }

  /** A part of the document: its key, its body two columns deeper, and the closing bracket. */
  function Part(title: string, open: string, body: seq<Line>, close: string): seq<Line> {
    [Line(0, Quoted(title) + ": " + open)] + (body + [Line(0, close)])
  }

  /** The parts, all two columns deeper in the text. */
  function Parts(m: Contract, order: seq<string>): seq<Line>
    requires forall k :: k in order ==> k in m.invariants
  {
    Part("fsm", "{", Members(NamePairs(m), 2), "},")
    + (Part("ports", "[", Objects(m.ports, PortPairs, 2), "],")
    + (Part("variables", "[", Objects(m.variables, VariablePairs, 2), "],")
    + (Part("signals", "[", SignalObjects(m.signals), "],") + LaterParts(m, order))))
  }

  function LaterParts(m: Contract, order: seq<string>): seq<Line>
    requires forall k :: k in order ==> k in m.invariants
  {
    Part("invariants", "{", Members(InvariantPairs(m.invariants, order), 2), "},")
    + (Part("properties", "[", Objects(m.properties, PropertyPairs, 2), "],")
    + (Part("actions", "[", Objects(m.actions, ActionPairs, 2), "],")
    + Part("requirements", "[", RequirementItems(m.requirements), "]")))
  }

  function Deeper(ls: seq<Line>, columns: nat): (r: seq<Line>)
    ensures |r| == |ls|
  {
    if |ls| == 0 then [] else [ls[0].(indent := ls[0].indent + columns)] + Deeper(ls[1..], columns)
  }

  /** A manifest in braces, as JSON has it. */
  function InBraces(ls: seq<Line>, columns: nat, close: string): seq<Line> {
    [Line(0, "{")] + (Deeper(ls, columns) + [Line(0, close)])
  }

  function JsonText(m: Contract, order: seq<string>): string
    requires forall k :: k in order ==> k in m.invariants
  {
    Joined(Raws(InBraces(Parts(m, order), 2, "}")))
  }

  // --------------------------------------------------------- wrapped in braces

  lemma {:induction false} DeeperAt(ls: seq<Line>, columns: nat, k: nat)
    requires k < |ls|
    ensures Deeper(ls, columns)[k] == ls[k].(indent := ls[k].indent + columns)
  {
    if k > 0 { DeeperAt(ls[1..], columns, k - 1); }
  }

  lemma {:induction false} LeastIsReached(ls: seq<Line>)
    ensures forall k :: 0 <= k < |ls| ==> LeastIndent(ls) <= ls[k].indent
    ensures LeastIndent(ls) == 1000 || exists k :: 0 <= k < |ls| && ls[k].indent == LeastIndent(ls)
    ensures LeastIndent(ls) <= 1000
  {
    if |ls| > 0 {
      var init := ls[..|ls| - 1];
      LeastIsReached(init);
      assert forall k :: 0 <= k < |init| ==> init[k] == ls[k];
    }
  }

  /** Wrapping a manifest in braces and moving it to the right leaves its lines as they were. */
  lemma WrappingLeaves(ls: seq<Line>, columns: nat, close: string)
    requires (exists k :: 0 <= k < |ls| && ls[k].indent == 0) && columns <= 1000 && (close == "}" || close == "};")
    ensures Unwrapped(InBraces(ls, columns, close)) == ls
  {
    var all := InBraces(ls, columns, close);
    var inner := Deeper(ls, columns);
    BracesAround(inner, close);
    LeastOfDeeper(ls, columns);
    forall k | 0 <= k < |ls| ensures Shift(inner[k], columns) == ls[k] { DeeperAt(ls, columns, k); }
    hide Deeper, LeastIndent, Shift;
    assert Unwrapped(all) == seq(|inner|, k requires 0 <= k < |inner| => Shift(inner[k], columns));
  }

  lemma BracesAround(inner: seq<Line>, close: string)
    requires close == "}" || close == "};"
    ensures var all := [Line(0, "{")] + (inner + [Line(0, close)]);
      Wrapped(all) && all[1..|all| - 1] == inner
  {
  }

  lemma LeastOfDeeper(ls: seq<Line>, columns: nat)
    requires (exists k :: 0 <= k < |ls| && ls[k].indent == 0) && columns <= 1000
    ensures LeastIndent(Deeper(ls, columns)) == columns
  {
    var inner := Deeper(ls, columns);
    forall k | 0 <= k < |ls| ensures inner[k].indent == ls[k].indent + columns { DeeperAt(ls, columns, k); }
    LeastIsReached(inner);
    var k :| 0 <= k < |ls| && ls[k].indent == 0;
    assert inner[k].indent == columns;
  }

  /** So a manifest means the same in braces, whatever its indentation. */
  lemma BracesKeepMeaning(ls: seq<Line>, columns: nat, converts: string -> bool)
    requires AllKept(ls) && !Wrapped(ls) && columns <= 1000 && exists k :: 0 <= k < |ls| && ls[k].indent == 0
    ensures Meaning(Joined(Raws(InBraces(ls, columns, "}"))), converts) == Meaning(Joined(Raws(ls)), converts)
  {
    hide Kept, Read, RawLines, CleanLines, Joined, Wrapped, Deeper;
    var all := InBraces(ls, columns, "}");
    BracesKept(ls, columns);
    RawsClean(ls);
    RawsClean(all);
    JoinedSplits(Raws(ls));
    JoinedSplits(Raws(all));
    WrappingLeaves(ls, columns, "}");
  }

  lemma BracesKept(ls: seq<Line>, columns: nat)
    requires AllKept(ls)
    ensures AllKept(InBraces(ls, columns, "}"))
  {
    forall k | 0 <= k < |ls| ensures Kept(Deeper(ls, columns)[k].text) { DeeperAt(ls, columns, k); }
    BracketKept("{");
    BracketKept("}");
  }

  lemma BracketKept(t: string)
    requires t in ["{", "}", "},", "[", "]", "],"]
    ensures Kept(t)
  {
    assert Calm(t);
    CalmPasses(t, 0, |t|);
  }

  // ------------------------------------------------------- every line is kept

  lemma {:induction false} CommentSnoc(v: string, c: char, i: nat, single: bool, double: bool)
    requires c != '#' && i <= |v| && CommentAt(v, i, single, double) == |v|
    ensures CommentAt(v + [c], i, single, double) == |v| + 1
    decreases |v| - i
  {
    if i < |v| {
      CommentSnoc(v, c, i + 1, if v[i] == '\'' && !double then !single else single,
                  if v[i] == '"' && !single then !double else double);
    } else {
      assert CommentAt(v + [c], i + 1, if c == '\'' && !double then !single else single,
                       if c == '"' && !single then !double else double) == i + 1;
    }
  }

  /** A string in double quotes hides whatever stands in it; the scan goes on behind it. */
  lemma QuotedPrefix(s: string, rest: string)
    requires Quotable(s)
    ensures CommentAt(Quoted(s) + rest, 0, false, false) == |s| + 2 + CommentAt(rest, 0, false, false)
  {
    var text := Quoted(s) + rest;
    assert text[0] == '"' && text[|s| + 1] == '"';
    assert forall k :: 1 <= k < |s| + 1 ==> text[k] == s[k - 1];
    InsideQuotes(text, 1, |s| + 1);
    CommentShift(Quoted(s), rest, 0, false, false);
  }

  lemma WithComma(v: string, more: bool)
    requires Passes(v)
    ensures Passes(v + Comma(more))
  {
    if more { CommentSnoc(v, ',', 0, false, false); } else { assert v + "" == v; }
  }

  lemma MemberKept(p: Pair, more: bool)
    requires Quotable(p.0) && Passes(p.1)
    ensures Kept(Member(p) + Comma(more))
  {
    hide CommentAt;
    var value := p.1 + Comma(more);
    WithComma(p.1, more);
    CalmPrefix(": ", value);
    QuotedPrefix(p.0, ": " + value);
    assert Member(p) + Comma(more) == Quoted(p.0) + (": " + value);
  }

  predicate Writing(pairs: seq<Pair>) { forall k :: 0 <= k < |pairs| ==> Quotable(pairs[k].0) && Passes(pairs[k].1) }

  lemma {:induction false} MembersKept(pairs: seq<Pair>, indent: nat)
    requires Writing(pairs) && indent > 0
    ensures IsBody(Members(pairs, indent))
  {
    hide Kept, Member, Passes, Quotable;
    if |pairs| > 0 {
      MemberKept(pairs[0], |pairs| > 1);
      MembersKept(pairs[1..], indent);
    }
  }

  lemma KeysAreQuotable(pairs: seq<Pair>)
    requires Passing(pairs)
    ensures Writing(pairs)
  {
    forall k | 0 <= k < |pairs| ensures Quotable(pairs[k].0) {
      forall i | 0 <= i < |pairs[k].0| ensures pairs[k].0[i] != '"' && pairs[k].0[i] != '\n' {
        assert IsAlpha(pairs[k].0[i]);
      }
    }
  }

  lemma ObjectKept(pairs: seq<Pair>, indent: nat, more: bool)
    requires Passing(pairs) && indent > 0
    ensures IsBody(Object(pairs, indent, more))
  {
    KeysAreQuotable(pairs);
    MembersKept(pairs, indent + 2);
    BracketKept("{");
    BracketKept("}");
    BracketKept("},");
    assert "}" + Comma(more) == if more then "}," else "}";
    hide Kept, Members;
  }

  lemma {:induction false} ObjectsKept<R(!new)>(rs: seq<R>, pairs: R -> seq<Pair>, indent: nat)
    requires indent > 0 && forall r :: r in rs ==> Passing(pairs(r))
    ensures IsBody(Objects(rs, pairs, indent))
  {
    hide Kept, Object, Passing;
    if |rs| > 0 {
      assert rs[0] in rs;
      ObjectKept(pairs(rs[0]), indent, |rs| > 1);
      ObjectsKept(rs[1..], pairs, indent);
    }
  }

  lemma HeadKept(title: string, open: string)
    requires IsKey(title) && (open == "{" || open == "[")
    ensures Kept(Quoted(title) + ": " + open)
  {
    assert Passes(open) by { BracketKept(open); }
    KeysAreQuotable([(title, open)]) by { assert Passing([(title, open)]); }
    assert Quotable([(title, open)][0].0);
    MemberKept((title, open), false);
    assert Member((title, open)) + Comma(false) == Quoted(title) + ": " + open;
  }

  lemma {:induction false} SignalObjectsKept(list: seq<Signal>)
    requires forall s :: s in list ==> WritableSignal(s)
    ensures IsBody(SignalObjects(list))
  {
    if |list| > 0 {
      var s := list[0];
      assert s in list;
      SignalObjectKept(s, |list| > 1);
      hide Kept, WritableSignal, SignalObject;
      SignalObjectsKept(list[1..]);
    }
  }

  lemma SignalObjectKept(s: Signal, more: bool)
    requires WritableSignal(s)
    ensures IsBody(SignalObject(s, more))
  {
    forall a | a in s.attributes ensures Passing(AttributePairs(a)) { AttributePasses(a); }
    hide Kept, Passing, Objects, SignalHeadLines, SignalTailLines, WritableSignal;
    ObjectsKept(s.attributes, AttributePairs, 6);
    SignalHeadKept(s);
    SignalTailKept(more);
  }

  lemma SignalTailKept(more: bool)
    ensures IsBody(SignalTailLines(more))
  {
    BracketKept("]");
    BracketKept("}");
    BracketKept("},");
    assert "}" + Comma(more) == if more then "}," else "}";
    hide Kept;
  }

  lemma SignalHeadKept(s: Signal)
    requires WritableSignal(s)
    ensures IsBody(SignalHeadLines(s))
  {
    hide Kept, Passes, Member;
    QuotedIsPassing(s.name);
    MemberKept(("name", Quoted(s.name)), true);
    BracketKept("{");
    HeadKept("attributes", "[");
    assert Quoted("attributes") + ": " + "[" == Quoted("attributes") + ": [";
    assert IsKey("attributes");
  }

  lemma {:induction false} RequirementItemsKept(rs: seq<string>)
    requires forall r :: r in rs ==> Quotable(r)
    ensures IsBody(RequirementItems(rs))
  {
    if |rs| > 0 {
      assert rs[0] in rs;
      QuotedIsPassing(rs[0]);
      WithComma(Quoted(rs[0]), |rs| > 1);
      hide Quotable, CommentAt;
      RequirementItemsKept(rs[1..]);
    }
  }

  // ------------------------------------------------------- records read back

  /** A comma behind the value makes no difference to the setter. */
  ghost predicate CommaBlind<R(!new)>(assign: Setter<R>) {
    forall r, k, v :: Solid(v) ==> assign(r, k, v + ",") == assign(r, k, v)
  }

  lemma UnquoteComma(v: string)
    requires Solid(v)
    ensures Unquote(v + ",") == Unquote(v)
  {
    var t := v + ",";
    TrimmedStays(t);
    assert t[..|t| - 1] == v;
  }

  lemma SettersAreCommaBlind(converts: string -> bool)
    ensures CommaBlind(SetPort(converts)) && CommaBlind(SetVariable(converts))
    ensures CommaBlind(SetProperty()) && CommaBlind(SetAction())
  {
    forall v | Solid(v) ensures Unquote(v + ",") == Unquote(v) { UnquoteComma(v); }
    hide Unquote;
    forall r: Port, k, v | Solid(v) ensures SetPort(converts)(r, k, v + ",") == SetPort(converts)(r, k, v) {
      assert Bound(v + ",", r.min, converts) == Bound(v, r.min, converts);
      assert Bound(v + ",", r.max, converts) == Bound(v, r.max, converts);
    }
    forall r: Variable, k, v | Solid(v) ensures SetVariable(converts)(r, k, v + ",") == SetVariable(converts)(r, k, v) {
      assert Bound(v + ",", r.min, converts) == Bound(v, r.min, converts);
      assert Bound(v + ",", r.max, converts) == Bound(v, r.max, converts);
    }
  }

  lemma MemberReads(p: Pair, more: bool)
    requires ':' !in p.0 && Solid(p.1)
    ensures Unquote(KeyOf(Member(p) + Comma(more))) == p.0 && ValueOf(Member(p) + Comma(more)) == p.1 + Comma(more)
    ensures !IsDash(Member(p) + Comma(more)) && Undashed(Member(p) + Comma(more)) == Member(p) + Comma(more)
    ensures Member(p) + Comma(more) !in ["{", "}", "},", "]", "],"]
  {
    hide KeyOf, ValueOf, Unquote, Trim;
    var key, value := Quoted(p.0), p.1 + Comma(more);
    QuotesComeOff(p.0);
    assert Trimmed(value);
    EntrySplits(key, value);
    assert Member(p) + Comma(more) == key + ": " + value;
    assert (key + ": " + value)[0] == '"';
  }

  lemma MemberStep<R(!new)>(f: Filling<R>, p: Pair, more: bool, blank: R, assign: Setter<R>)
    requires ':' !in p.0 && Solid(p.1) && CommaBlind(assign)
    ensures RecordStep(f, Member(p) + Comma(more), blank, assign) == f.(current := assign(f.current, p.0, p.1))
  {
    hide KeyOf, ValueOf, Unquote;
    MemberReads(p, more);
    assert p.1 + "" == p.1;
  }

  lemma KeysHaveNoColon(pairs: seq<Pair>)
    requires Regular(pairs)
    ensures forall k :: 0 <= k < |pairs| ==> ':' !in pairs[k].0
  {
    forall k | 0 <= k < |pairs| ensures ':' !in pairs[k].0 { WordStays(pairs[k].0); }
  }

  lemma {:induction false} MembersRead<R(!new)>(pairs: seq<Pair>, indent: nat, f: Filling<R>, blank: R,
                                                assign: Setter<R>)
    requires Regular(pairs) && CommaBlind(assign)
    ensures Run(Records(blank, assign), Members(pairs, indent), f) == f.(current := Apply(assign, pairs, f.current))
  {
    if |pairs| > 0 {
      KeysHaveNoColon(pairs);
      MemberStep(f, pairs[0], |pairs| > 1, blank, assign);
      hide Member, CommaBlind;
      assert Members(pairs, indent)[1..] == Members(pairs[1..], indent);
      MembersRead(pairs[1..], indent, f.(current := assign(f.current, pairs[0].0, pairs[0].1)), blank, assign);
    }
  }

  lemma BracesStep<R>(f: Filling<R>, blank: R, assign: Setter<R>, more: bool)
    ensures RecordStep(f, "{", blank, assign) == f.Begin(blank)
    ensures RecordStep(f, "}" + Comma(more), blank, assign) == f.End(blank)
  {
    var close := "}" + Comma(more);
    assert close == if more then "}," else "}";
    assert close[0] == '}' && Undashed(close) == close;
    assert close in ["}", "},", "]", "],"];
  }

  lemma ObjectRead<R(!new)>(pairs: seq<Pair>, indent: nat, more: bool, done: seq<R>, blank: R, assign: Setter<R>)
    requires Regular(pairs) && CommaBlind(assign)
    ensures Run(Records(blank, assign), Object(pairs, indent, more), Filling(done, blank, false))
         == Filling(done + [Apply(assign, pairs, blank)], blank, false)
  {
    hide Members, Apply, Run, CommaBlind;
    var step, open, close := Records(blank, assign), Line(indent, "{"), Line(indent, "}" + Comma(more));
    var f, g := Filling(done, blank, true), Filling(done, Apply(assign, pairs, blank), true);
    RunOne(step, open, Filling(done, blank, false));
    MembersRead(pairs, indent + 2, f, blank, assign);
    BracesStep(Filling(done, blank, false), blank, assign, more);
    BracesStep(g, blank, assign, more);
    RunOne(step, close, g);
    RunConcat(step, Members(pairs, indent + 2), [close], f);
    RunConcat(step, [open], Members(pairs, indent + 2) + [close], Filling(done, blank, false));
  }

  lemma {:induction false} ObjectsRead<R(!new)>(rs: seq<R>, pairs: R -> seq<Pair>, indent: nat, done: seq<R>, blank: R,
                                                assign: Setter<R>)
    requires Restored(rs, pairs, blank, assign) && CommaBlind(assign)
    ensures Run(Records(blank, assign), Objects(rs, pairs, indent), Filling(done, blank, false))
         == Filling(done + rs, blank, false)
  {
    hide Records, Object, Apply, Regular, CommaBlind;
    if |rs| == 0 {
      assert done + rs == done;
    } else {
      assert rs[0] in rs;
      ObjectRead(pairs(rs[0]), indent, |rs| > 1, done, blank, assign);
      RunConcat(Records(blank, assign), Object(pairs(rs[0]), indent, |rs| > 1), Objects(rs[1..], pairs, indent),
                Filling(done, blank, false));
      ObjectsRead(rs[1..], pairs, indent, done + [rs[0]], blank, assign);
      assert done + [rs[0]] + rs[1..] == done + rs;
    }
  }

  // ------------------------------------------------------- signals read back

  function Idle(done: seq<Signal>): Signals { Signals(Filling(done, NO_SIGNAL, false), false, NO_ATTRIBUTE, false) }

  function Within(done: seq<Signal>, s: Signal): Signals { Signals(Filling(done, s, true), true, NO_ATTRIBUTE, false) }

  lemma AttributeMember(s: Signals, p: Pair, more: bool)
    requires ':' !in p.0 && Solid(p.1) && s.inside && p.0 != "attributes" && p.0 != "attrs"
    ensures SignalStep(s, Line(8, Member(p) + Comma(more))) == s.(attribute := SetAttribute(s.attribute, p.0, p.1))
  {
    hide KeyOf, ValueOf, Unquote, Undashed;
    MemberReads(p, more);
    UnquoteComma(p.1);
    assert p.1 + "" == p.1;
  }

  lemma {:induction false} AttributeMembers(pairs: seq<Pair>, s: Signals)
    requires Regular(pairs) && s.inside && forall p :: p in pairs ==> p.0 != "attributes" && p.0 != "attrs"
    ensures Run(SignalLines(), Members(pairs, 8), s) == s.(attribute := Apply(SetAttribute, pairs, s.attribute))
  {
    hide SignalStep, SetAttribute, Member;
    if |pairs| > 0 {
      KeysHaveNoColon(pairs);
      assert pairs[0] in pairs;
      AttributeMember(s, pairs[0], |pairs| > 1);
      assert Members(pairs, 8)[1..] == Members(pairs[1..], 8);
      AttributeMembers(pairs[1..], s.(attribute := SetAttribute(s.attribute, pairs[0].0, pairs[0].1)));
    }
  }

  lemma AttributeRestored(a: Attribute)
    ensures Regular(AttributePairs(a)) && Apply(SetAttribute, AttributePairs(a), NO_ATTRIBUTE) == a
    ensures forall p :: p in AttributePairs(a) ==> p.0 != "attributes" && p.0 != "attrs"
  {
    hide Apply, Unquote, Quoted;
    QuotedIsSolid(a.name);
    QuotedIsSolid(a.typeName);
    QuotedIsSolid(a.default);
    var named, q := [("name", Quoted(a.name)), ("type", Quoted(a.typeName))], Attribute(a.name, a.typeName, "");
    ApplyConcat(SetAttribute, named, Optional("default", a.default), NO_ATTRIBUTE);
    ApplyTwo(SetAttribute, named[0], named[1], NO_ATTRIBUTE);
    OptionalApplies(SetAttribute, "default", a.default, q);
  }

  lemma OpensAttribute(s: Signals)
    requires s.inside && !s.started
    ensures SignalStep(s, Line(6, "{")) == s.(started := true)
  {
    assert KeyOf("{") == "{" && Unquote("{") == "{" by { BraceIsItsKey("{"); }
  }

  lemma BraceIsItsKey(t: string)
    requires t in ["{", "}", "[", "]"]
    ensures KeyOf(t) == t && Unquote(t) == t
  {
    SpanUnique(t, 0, NotColon, 1);
    assert t[..1] == t;
    TrimmedStays(t);
  }

  lemma AttributeObject(a: Attribute, more: bool, done: seq<Signal>, s: Signal)
    ensures Run(SignalLines(), Object(AttributePairs(a), 6, more), Within(done, s))
         == Within(done, s.(attributes := s.attributes + [a]))
  {
    hide Members, Apply, Run, AttributePairs, SignalStep, SetAttribute;
    var step, open, close := SignalLines(), Line(6, "{"), Line(6, "}" + Comma(more));
    var s0 := Within(done, s);
    var s1 := s0.(started := true);
    var s2 := s1.(attribute := a);
    OpensAttribute(s0);
    RunOne(step, open, s0);
    AttributeRestored(a);
    AttributeMembers(AttributePairs(a), s1);
    ClosesAttribute(s2, more);
    RunOne(step, close, s2);
    RunConcat(step, Members(AttributePairs(a), 8), [close], s1);
    RunConcat(step, [open], Members(AttributePairs(a), 8) + [close], s0);
  }

  lemma ClosesAttribute(s: Signals, more: bool)
    requires s.started
    ensures SignalStep(s, Line(6, "}" + Comma(more))) == s.Settle()
  {
    assert "}" + Comma(more) == if more then "}," else "}";
  }

  lemma {:induction false} AttributeObjects(list: seq<Attribute>, done: seq<Signal>, s: Signal)
    ensures Run(SignalLines(), Objects(list, AttributePairs, 6), Within(done, s))
         == Within(done, s.(attributes := s.attributes + list))
  {
    hide SignalLines, AttributePairs, Object, Within;
    if |list| == 0 {
      RunNothing(SignalLines(), Within(done, s));
      assert s.attributes + list == s.attributes;
    } else {
      AttributeObject(list[0], |list| > 1, done, s);
      RunConcat(SignalLines(), Object(AttributePairs(list[0]), 6, |list| > 1), Objects(list[1..], AttributePairs, 6),
                Within(done, s));
      AttributeObjects(list[1..], done, s.(attributes := s.attributes + [list[0]]));
      assert s.attributes + [list[0]] + list[1..] == s.attributes + list;
    }
  }

  lemma SignalNamed(s: Signals, name: string)
    requires s.list.begun && !s.inside && !s.started
    ensures SignalStep(s, Line(4, Member(("name", Quoted(name))) + ","))
         == s.(list := s.list.(current := s.list.current.(name := name)))
  {
    hide KeyOf, ValueOf, Unquote, Undashed;
    QuotedIsSolid(name);
    MemberReads(("name", Quoted(name)), true);
    UnquoteComma(Quoted(name));
  }

  lemma AttributesOpen(s: Signals)
    requires s.list.begun && !s.inside && !s.started
    ensures SignalStep(s, Line(4, Quoted("attributes") + ": [")) == s.(inside := true)
  {
    hide KeyOf, ValueOf, Unquote, Undashed;
    assert Solid("[");
    assert IsKey("attributes");
    WordStays("attributes");
    MemberReads(("attributes", "["), false);
    assert Member(("attributes", "[")) + Comma(false) == Quoted("attributes") + ": [";
  }

  lemma SignalHeadRead(sig: Signal, done: seq<Signal>)
    ensures Run(SignalLines(), SignalHeadLines(sig), Idle(done)) == Within(done, Signal(sig.name, []))
  {
    hide SignalStep, Run, Member, Quoted;
    var step, head := SignalLines(), SignalHeadLines(sig);
    var s1 := Idle(done).(list := Filling(done, NO_SIGNAL, true));
    var s2 := s1.(list := Filling(done, Signal(sig.name, []), true));
    SignalOpens(done);
    SignalNamed(s1, sig.name);
    AttributesOpen(s2);
    RunOne(step, head[0], Idle(done));
    RunOne(step, head[1], s1);
    RunOne(step, head[2], s2);
    RunConcat(step, [head[1]], [head[2]], s1);
    RunConcat(step, [head[0]], [head[1]] + [head[2]], Idle(done));
    assert head == [head[0]] + ([head[1]] + [head[2]]);
  }

  lemma SignalOpens(done: seq<Signal>)
    ensures SignalStep(Idle(done), Line(2, "{")) == Idle(done).(list := Filling(done, NO_SIGNAL, true))
  {
  }

  lemma SignalTailRead(sig: Signal, more: bool, done: seq<Signal>)
    ensures Run(SignalLines(), SignalTailLines(more), Within(done, sig)) == Idle(done + [sig])
  {
    var step, tail := SignalLines(), SignalTailLines(more);
    var s := Within(done, sig).(inside := false);
    assert "}" + Comma(more) == if more then "}," else "}";
    assert SignalStep(Within(done, sig), tail[0]) == s;
    assert SignalStep(s, tail[1]) == Idle(done + [sig]);
    hide SignalStep;
    RunOne(step, tail[0], Within(done, sig));
    RunOne(step, tail[1], s);
    RunConcat(step, [tail[0]], [tail[1]], Within(done, sig));
    assert tail == [tail[0]] + [tail[1]];
  }

  lemma SignalObjectRead(sig: Signal, more: bool, done: seq<Signal>)
    ensures Run(SignalLines(), SignalObject(sig, more), Idle(done)) == Idle(done + [sig])
  {
    hide SignalLines, Run, SignalHeadLines, SignalTailLines, Objects, Idle, Within;
    var step, attributes, tail := SignalLines(), Objects(sig.attributes, AttributePairs, 6), SignalTailLines(more);
    SignalHeadRead(sig, done);
    AttributeObjects(sig.attributes, done, Signal(sig.name, []));
    assert [] + sig.attributes == sig.attributes;
    SignalTailRead(sig, more, done);
    RunConcat(step, attributes, tail, Within(done, Signal(sig.name, [])));
    RunConcat(step, SignalHeadLines(sig), attributes + tail, Idle(done));
  }

  lemma {:induction false} SignalObjectsRead(list: seq<Signal>, done: seq<Signal>)
    ensures Run(SignalLines(), SignalObjects(list), Idle(done)) == Idle(done + list)
  {
    hide SignalLines, SignalObject, Idle;
    if |list| == 0 {
      RunNothing(SignalLines(), Idle(done));
      assert done + list == done;
    } else {
      SignalObjectRead(list[0], |list| > 1, done);
      RunConcat(SignalLines(), SignalObject(list[0], |list| > 1), SignalObjects(list[1..]), Idle(done));
      SignalObjectsRead(list[1..], done + [list[0]]);
      assert done + [list[0]] + list[1..] == done + list;
    }
  }
}
