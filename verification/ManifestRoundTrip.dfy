/** A manifest written as YAML and read again is the same manifest. */
module ManifestRoundTrip {
  import opened Text
  import opened ManifestText
  import opened Manifest
  import opened ManifestLines

  // ---------------------------------------------------------------- entries

  predicate IsKey(s: string) { |s| > 0 && forall k :: 0 <= k < |s| ==> IsAlpha(s[k]) }

  /** A value that survives trimming. */
  predicate Solid(v: string) { |v| > 0 && Trimmed(v) }

  predicate Regular(pairs: seq<Pair>) {
    forall k :: 0 <= k < |pairs| ==> IsKey(pairs[k].0) && Solid(pairs[k].1)
  }

  lemma WordStays(k: string)
    requires IsKey(k)
    ensures Trimmed(k) && ':' !in k && Unquote(k) == k && Trim(k) == k
  {
    TrimmedStays(k);
    assert IsAlpha(k[0]) && IsAlpha(k[|k| - 1]);
  }

  lemma EntryReads(p: Pair)
    requires IsKey(p.0) && Solid(p.1)
    ensures Unquote(KeyOf(Entry(p))) == p.0 && ValueOf(Entry(p)) == p.1
    ensures !IsDash(Entry(p)) && Trimmed(Entry(p)) && |Entry(p)| > 3 && Undashed("- " + Entry(p)) == Entry(p)
  {
    hide KeyOf, ValueOf, Unquote, Trim;
    var e := Entry(p);
    WordStays(p.0);
    EntrySplits(p.0, p.1);
    assert e[0] == p.0[0] && e[|e| - 1] == p.1[|p.1| - 1] && IsAlpha(e[0]);
    assert ("- " + e)[2..] == e;
    TrimmedStays(e);
  }

  // -------------------------------------------------------------- flat records

  function Apply<R>(assign: Setter<R>, pairs: seq<Pair>, r: R): R {
    if |pairs| == 0 then r else Apply(assign, pairs[1..], assign(r, pairs[0].0, pairs[0].1))
  }

  lemma {:induction false} RunConcat<S>(step: Step<S>, a: seq<Line>, b: seq<Line>, s: S)
    ensures Run(step, a + b, s) == Run(step, b, Run(step, a, s))
  {
    if |a| == 0 {
      assert a + b == b;
    } else {
      RunConcat(step, a[1..], b, step(s, a[0]));
      assert (a + b)[1..] == a[1..] + b;
    }
  }

  lemma {:induction false} ApplyConcat<R>(assign: Setter<R>, a: seq<Pair>, b: seq<Pair>, r: R)
    ensures Apply(assign, a + b, r) == Apply(assign, b, Apply(assign, a, r))
  {
    if |a| == 0 {
      assert a + b == b;
    } else {
      ApplyConcat(assign, a[1..], b, assign(r, a[0].0, a[0].1));
      assert (a + b)[1..] == a[1..] + b;
    }
  }

  lemma ApplyOne<R>(assign: Setter<R>, a: Pair, r: R)
    ensures Apply(assign, [a], r) == assign(r, a.0, a.1)
  {
    assert [a][1..] == [];
  }

  lemma ApplyTwo<R>(assign: Setter<R>, a: Pair, b: Pair, r: R)
    ensures Apply(assign, [a, b], r) == assign(assign(r, a.0, a.1), b.0, b.1)
  {
    assert [a, b][1..] == [b];
    ApplyOne(assign, b, assign(r, a.0, a.1));
  }

  lemma OptionalApplies<R>(assign: Setter<R>, key: string, s: string, r: R)
    ensures Apply(assign, Optional(key, s), r) == if s == "" then r else assign(r, key, Quoted(s))
  {
    ApplyOne(assign, (key, Quoted(s)), r);
  }

  lemma LimitApplies<R>(assign: Setter<R>, key: string, b: Option<string>, r: R)
    ensures Apply(assign, Limit(key, b), r) == if b.None? then r else assign(r, key, b.value)
  {
    if b.Some? { ApplyOne(assign, (key, b.value), r); }
  }

  lemma EntryStep<R>(f: Filling<R>, p: Pair, blank: R, assign: Setter<R>)
    requires IsKey(p.0) && Solid(p.1)
    ensures RecordStep(f, Entry(p), blank, assign) == f.(current := assign(f.current, p.0, p.1))
    ensures var g := f.Begin(blank);
      RecordStep(f, "- " + Entry(p), blank, assign) == g.(current := assign(g.current, p.0, p.1))
  {
    EntryReads(p);
    assert ("- " + Entry(p))[..2] == "- ";
  }

  lemma {:induction false} FieldsRead<R>(pairs: seq<Pair>, indent: nat, f: Filling<R>, blank: R, assign: Setter<R>)
    requires Regular(pairs)
    ensures Run(Records(blank, assign), Fields(pairs, indent), f) == f.(current := Apply(assign, pairs, f.current))
  {
    if |pairs| > 0 {
      EntryStep(f, pairs[0], blank, assign);
      assert Fields(pairs, indent)[1..] == Fields(pairs[1..], indent);
      FieldsRead(pairs[1..], indent, f.(current := assign(f.current, pairs[0].0, pairs[0].1)), blank, assign);
    }
  }

  /** Setting the entries of a record one by one on a blank gives the record. */
  ghost predicate Restored<R(!new)>(rs: seq<R>, pairs: R -> seq<Pair>, blank: R, assign: Setter<R>) {
    forall r :: r in rs ==> |pairs(r)| > 0 && Regular(pairs(r)) && Apply(assign, pairs(r), blank) == r
  }

  lemma ItemRead<R>(pairs: seq<Pair>, indent: nat, f: Filling<R>, blank: R, assign: Setter<R>)
    requires |pairs| > 0 && Regular(pairs) && (f.begun || f.current == blank)
    ensures Run(Records(blank, assign), Item(pairs, indent), f) == Filling(f.All(), Apply(assign, pairs, blank), true)
  {
    var g := f.Begin(blank);
    EntryStep(f, pairs[0], blank, assign);
    assert Item(pairs, indent)[1..] == Fields(pairs[1..], indent + 2);
    FieldsRead(pairs[1..], indent + 2, g.(current := assign(g.current, pairs[0].0, pairs[0].1)), blank, assign);
  }

  lemma {:induction false} RecordsRead<R(!new)>(rs: seq<R>, pairs: R -> seq<Pair>, f: Filling<R>, blank: R,
                                                assign: Setter<R>)
    requires Restored(rs, pairs, blank, assign) && (f.begun || f.current == blank)
    ensures Run(Records(blank, assign), Listed(rs, pairs, 2), f).All() == f.All() + rs
  {
    hide Records, Item, Apply, Regular;
    if |rs| == 0 {
      assert f.All() + rs == f.All();
    } else {
      assert rs[0] in rs;
      ItemRead(pairs(rs[0]), 2, f, blank, assign);
      RunConcat(Records(blank, assign), Item(pairs(rs[0]), 2), Listed(rs[1..], pairs, 2), f);
      RecordsRead(rs[1..], pairs, Filling(f.All(), rs[0], true), blank, assign);
      assert f.All() + [rs[0]] + rs[1..] == f.All() + rs;
    }
  }

  // ---------------------------------------------------------- the record kinds

  predicate IsNumberChar(c: char) { IsAlnum(c) || c == '.' || c == '+' || c == '-' }

  /** A bound printed as a number that the library converter accepts. */
  predicate Numeral(b: Option<string>, converts: string -> bool) {
    b.Some? ==> |b.value| > 0 && (forall k :: 0 <= k < |b.value| ==> IsNumberChar(b.value[k])) && converts(b.value)
  }

  lemma NumeralStays(b: string, converts: string -> bool)
    requires Numeral(Some(b), converts)
    ensures Solid(b) && Unquote(b) == b
  {
    assert IsNumberChar(b[0]) && IsNumberChar(b[|b| - 1]);
    TrimmedStays(b);
  }

  lemma QuotedIsSolid(s: string)
    ensures Solid(Quoted(s)) && Unquote(Quoted(s)) == s
  {
    QuotesComeOff(s);
  }

  lemma LimitsAreKept(p: Port, v: Variable, b: string, converts: string -> bool)
    requires Numeral(Some(b), converts)
    ensures SetPort(converts)(p, "min", b) == p.(min := Some(b))
    ensures SetPort(converts)(p, "max", b) == p.(max := Some(b))
    ensures SetVariable(converts)(v, "min", b) == v.(min := Some(b))
    ensures SetVariable(converts)(v, "max", b) == v.(max := Some(b))
  {
    hide Unquote;
    NumeralStays(b, converts);
    forall before ensures Bound(b, before, converts) == Some(b) {}
    assert SetPort(converts)(p, "min", b) == p.(min := Bound(b, p.min, converts));
    assert SetPort(converts)(p, "max", b) == p.(max := Bound(b, p.max, converts));
    assert SetVariable(converts)(v, "min", b) == v.(min := Bound(b, v.min, converts));
    assert SetVariable(converts)(v, "max", b) == v.(max := Bound(b, v.max, converts));
  }

  lemma PortRegular(p: Port, converts: string -> bool)
    requires Numeral(p.min, converts) && Numeral(p.max, converts)
    ensures Regular(PortPairs(p))
  {
    hide Quoted, Unquote;
    if p.min.Some? { NumeralStays(p.min.value, converts); }
    if p.max.Some? { NumeralStays(p.max.value, converts); }
    QuotedIsSolid(p.name);
    QuotedIsSolid(p.typeName);
    QuotedIsSolid(p.direction);
    QuotedIsSolid(p.constraint);
  }

  lemma PortRestored(p: Port, converts: string -> bool)
    requires Numeral(p.min, converts) && Numeral(p.max, converts)
    ensures Apply(SetPort(converts), PortPairs(p), NO_PORT) == p
  {
    hide Apply, Unquote, Quoted, Optional, Limit;
    var assign := SetPort(converts);
    QuotedIsSolid(p.name);
    QuotedIsSolid(p.typeName);
    QuotedIsSolid(p.direction);
    QuotedIsSolid(p.constraint);
    var name, rest := ("name", Quoted(p.name)), [("type", Quoted(p.typeName)), ("direction", Quoted(p.direction))];
    var min, max, constraint := Limit("min", p.min), Limit("max", p.max), Optional("constraint", p.constraint);
    var q0 := NO_PORT.(name := p.name);
    var q := Port(p.name, p.typeName, p.direction, None, None, "");
    var q1 := q.(min := p.min);
    var q2 := q1.(max := p.max);
    assert PortPairs(p) == [name] + (rest + (min + (max + constraint)));
    ApplyConcat(assign, [name], rest + (min + (max + constraint)), NO_PORT);
    ApplyOne(assign, name, NO_PORT);
    ApplyConcat(assign, rest, min + (max + constraint), q0);
    ApplyTwo(assign, ("type", Quoted(p.typeName)), ("direction", Quoted(p.direction)), q0);
    ApplyConcat(assign, min, max + constraint, q);
    LimitApplies(assign, "min", p.min, q);
    if p.min.Some? { LimitsAreKept(q, NO_VARIABLE, p.min.value, converts); }
    assert Apply(assign, min, q) == q1;
    ApplyConcat(assign, max, constraint, q1);
    LimitApplies(assign, "max", p.max, q1);
    if p.max.Some? { LimitsAreKept(q1, NO_VARIABLE, p.max.value, converts); }
    assert Apply(assign, max, q1) == q2;
    OptionalApplies(assign, "constraint", p.constraint, q2);
  }

  lemma VariableRegular(v: Variable, converts: string -> bool)
    requires Numeral(v.min, converts) && Numeral(v.max, converts)
    ensures Regular(VariablePairs(v))
  {
    hide Quoted, Unquote;
    if v.min.Some? { NumeralStays(v.min.value, converts); }
    if v.max.Some? { NumeralStays(v.max.value, converts); }
    QuotedIsSolid(v.name);
    QuotedIsSolid(v.typeName);
    QuotedIsSolid(v.initial);
    QuotedIsSolid(v.unit);
  }

  lemma VariableRestored(v: Variable, converts: string -> bool)
    requires Numeral(v.min, converts) && Numeral(v.max, converts)
    ensures Apply(SetVariable(converts), VariablePairs(v), NO_VARIABLE) == v
  {
    hide Apply, Unquote, Quoted, Optional, Limit;
    var assign := SetVariable(converts);
    QuotedIsSolid(v.name);
    QuotedIsSolid(v.typeName);
    QuotedIsSolid(v.initial);
    QuotedIsSolid(v.unit);
    var initial, unit, min, max :=
      Optional("initial", v.initial), Optional("unit", v.unit), Limit("min", v.min), Limit("max", v.max);
    var named := [("name", Quoted(v.name)), ("type", Quoted(v.typeName))];
    var q := Variable(v.name, v.typeName, "", "", None, None);
    var q1 := q.(initial := v.initial);
    var q2 := q1.(unit := v.unit);
    var q3 := q2.(min := v.min);
    ApplyConcat(assign, named, initial + (unit + (min + max)), NO_VARIABLE);
    ApplyTwo(assign, ("name", Quoted(v.name)), ("type", Quoted(v.typeName)), NO_VARIABLE);
    ApplyConcat(assign, initial, unit + (min + max), q);
    OptionalApplies(assign, "initial", v.initial, q);
    assert Apply(assign, initial, q) == q1;
    ApplyConcat(assign, unit, min + max, q1);
    OptionalApplies(assign, "unit", v.unit, q1);
    assert Apply(assign, unit, q1) == q2;
    ApplyConcat(assign, min, max, q2);
    LimitApplies(assign, "min", v.min, q2);
    if v.min.Some? { LimitsAreKept(NO_PORT, q2, v.min.value, converts); }
    assert Apply(assign, min, q2) == q3;
    LimitApplies(assign, "max", v.max, q3);
    if v.max.Some? { LimitsAreKept(NO_PORT, q3, v.max.value, converts); }
  }

  lemma PropertyRestored(p: Property)
    ensures |PropertyPairs(p)| > 0 && Regular(PropertyPairs(p))
      && Apply(SetProperty(), PropertyPairs(p), NO_PROPERTY) == p
  {
    QuotedIsSolid(p.name);
    QuotedIsSolid(p.formula);
    ApplyTwo(SetProperty(), PropertyPairs(p)[0], PropertyPairs(p)[1], NO_PROPERTY);
  }

  lemma ActionRestored(a: Action)
    ensures |ActionPairs(a)| > 0 && Regular(ActionPairs(a)) && Apply(SetAction(), ActionPairs(a), NO_ACTION) == a
  {
    hide Apply, Unquote, Quoted;
    var assign, q := SetAction(), Action(a.name, "", "");
    QuotedIsSolid(a.name);
    QuotedIsSolid(a.signature);
    QuotedIsSolid(a.inv);
    ApplyConcat(assign, [("name", Quoted(a.name))],
                Optional("signature", a.signature) + Optional("inv", a.inv), NO_ACTION);
    ApplyOne(assign, ("name", Quoted(a.name)), NO_ACTION);
    ApplyConcat(assign, Optional("signature", a.signature), Optional("inv", a.inv), q);
    OptionalApplies(assign, "signature", a.signature, q);
    OptionalApplies(assign, "inv", a.inv, q.(signature := a.signature));
  }

  // ----------------------------------------------------------------- signals

  /** The attribute being filled is blank unless it has begun, and so is the signal. */
  predicate Settled(s: Signals) {
    (if s.started then s.list.begun else s.attribute == NO_ATTRIBUTE) && (s.list.begun || s.list.current == NO_SIGNAL)
  }

  lemma EntryStart(p: Pair)
    requires IsKey(p.0) && Solid(p.1)
    ensures Entry(p) !in ["{", "}", "},", "]", "],"]
  {
    assert Entry(p)[0] == p.0[0] && IsAlpha(p.0[0]);
  }

  lemma AttributeEntry(s: Signals, p: Pair)
    requires IsKey(p.0) && Solid(p.1) && s.inside && p.0 != "attributes" && p.0 != "attrs"
    ensures SignalStep(s, Line(8, Entry(p))) == s.(attribute := SetAttribute(s.attribute, p.0, p.1))
  {
    hide KeyOf, ValueOf, Unquote, Undashed;
    EntryReads(p);
    EntryStart(p);
  }

  lemma DashKey(p: Pair)
    requires IsKey(p.0) && Solid(p.1)
    ensures Unquote(KeyOf("- " + Entry(p))) == "- " + p.0
  {
    var k := "- " + p.0;
    WordStays(p.0);
    assert "- " + Entry(p) == k + ": " + p.1;
    assert k[|k| - 1] == p.0[|p.0| - 1] && IsAlpha(p.0[|p.0| - 1]);
    EntrySplits(k, p.1);
    TrimmedStays(k);
  }

  lemma AttributeBegins(s: Signals, p: Pair)
    requires IsKey(p.0) && Solid(p.1) && s.inside
    ensures var g := s.Settle();
      SignalStep(s, Line(6, "- " + Entry(p))) == Signals(g.list, true, SetAttribute(g.attribute, p.0, p.1), true)
  {
    hide KeyOf, ValueOf, Unquote, Undashed;
    EntryReads(p);
    DashKey(p);
    assert ("- " + Entry(p))[..2] == "- " && ("- " + p.0)[0] == '-';
  }

  /** The signal being filled, with the attribute being filled already in it. */
  function Attributes(s: Signals): seq<Attribute> { s.Settle().list.current.attributes }

  lemma {:induction false} AttributesRead(list: seq<Attribute>, s: Signals)
    requires Settled(s) && s.inside && s.list.begun
    ensures var r := Run(SignalLines(), Listed(list, AttributePairs, 6), s);
      Settled(r) && r.inside && r.list.begun
      && r.Settle().list == s.Settle().list.(current := s.list.current.(attributes := Attributes(s) + list))
  {
    hide SignalLines, AttributePairs, Item, Run;
    if |list| == 0 {
      RunNothing(SignalLines(), s);
      assert Attributes(s) + list == Attributes(s);
    } else {
      var a, step := list[0], SignalLines();
      var body := Item(AttributePairs(a), 6);
      var next := Signals(s.Settle().list, true, a, true);
      AttributeRead(a, s);
      RunConcat(step, body, Listed(list[1..], AttributePairs, 6), s);
      AttributesRead(list[1..], next);
      assert Attributes(next) == Attributes(s) + [a];
      assert Attributes(s) + [a] + list[1..] == Attributes(s) + list;
    }
  }

  lemma AttributeRead(a: Attribute, s: Signals)
    requires Settled(s) && s.inside && s.list.begun
    ensures Run(SignalLines(), Item(AttributePairs(a), 6), s) == Signals(s.Settle().list, true, a, true)
  {
    hide SignalStep, Entry, Unquote, Quoted;
    QuotedIsSolid(a.name);
    QuotedIsSolid(a.typeName);
    QuotedIsSolid(a.default);
    var name, kind, def := ("name", Quoted(a.name)), ("type", Quoted(a.typeName)), ("default", Quoted(a.default));
    var step, head, next := SignalLines(), Line(6, "- " + Entry(name)), Line(8, Entry(kind));
    var tail := if a.default == "" then [] else [Line(8, Entry(def))];
    var s1 := Signals(s.Settle().list, true, NO_ATTRIBUTE.(name := a.name), true);
    var s2 := s1.(attribute := Attribute(a.name, a.typeName, ""));
    AttributeBegins(s, name);
    AttributeEntry(s1, kind);
    AttributeEntry(s2, def);
    AttributeItem(a);
    RunConcat(step, [head], [next] + tail, s);
    RunConcat(step, [next], tail, s1);
    RunOne(step, head, s);
    RunOne(step, next, s1);
    RunOne(step, Line(8, Entry(def)), s2);
  }

  lemma RunOne<S>(step: Step<S>, l: Line, s: S)
    ensures Run(step, [l], s) == step(s, l)
  {
    assert [l][1..] == [];
  }

  lemma AttributeItem(a: Attribute)
    ensures Item(AttributePairs(a), 6) ==
      [Line(6, "- " + Entry(("name", Quoted(a.name))))] + ([Line(8, Entry(("type", Quoted(a.typeName))))]
      + if a.default == "" then [] else [Line(8, Entry(("default", Quoted(a.default))))])
  {
    hide Entry, Quoted;
    var rest := AttributePairs(a)[1..];
    assert rest == [("type", Quoted(a.typeName))] + Optional("default", a.default);
    assert rest[1..] == Optional("default", a.default);
    assert Optional("default", a.default)[|Optional("default", a.default)|..] == [];
    assert Fields(rest, 8) == [Line(8, Entry(rest[0]))] + Fields(rest[1..], 8);
    if a.default != "" { assert rest[1..][1..] == []; }
  }

  lemma SignalHeadReads(sig: Signal, s: Signals)
    requires Settled(s)
    ensures Run(SignalLines(), SignalHead(sig), s)
      == Signals(Filling(s.All(), Signal(sig.name, []), true), sig.attributes != [], NO_ATTRIBUTE, false)
  {
    hide KeyOf, ValueOf, Unquote, Undashed, Entry;
    var p := ("name", Quoted(sig.name));
    var head, deeper := Line(2, "- " + Entry(p)), Line(4, "attributes:");
    QuotedIsSolid(sig.name);
    EntryReads(p);
    assert ("- " + Entry(p))[..2] == "- ";
    var s1 := Signals(Filling(s.All(), Signal(sig.name, []), true), false, NO_ATTRIBUTE, false);
    assert SignalStep(s, head) == s1;
    TitleReads("attributes");
    assert "attributes" + ":" == "attributes:";
    assert SignalStep(s1, deeper) == s1.(inside := true);
    RunOne(SignalLines(), head, s);
    RunOne(SignalLines(), deeper, s1);
    RunConcat(SignalLines(), [head], if sig.attributes == [] then [] else [deeper], s);
  }

  lemma TitleReads(title: string)
    requires IsKey(title)
    ensures Unquote(KeyOf(title + ":")) == title && !IsDash(title + ":")
  {
    WordStays(title);
    SpanUnique(title + ":", 0, NotColon, |title|);
    assert (title + ":")[..|title|] == title;
    assert IsAlpha(title[0]);
  }

  function SignalBody(sig: Signal): seq<Line> {
    SignalHead(sig) + Listed(sig.attributes, AttributePairs, 6)
  }

  lemma SignalRead(sig: Signal, s: Signals)
    requires Settled(s)
    ensures var r := Run(SignalLines(), SignalBody(sig), s);
      Settled(r) && r.Settle().list == Filling(s.All(), sig, true)
  {
    hide SignalLines, SignalHead, Item, AttributePairs;
    var s1 := Run(SignalLines(), SignalHead(sig), s);
    SignalHeadReads(sig, s);
    RunConcat(SignalLines(), SignalHead(sig), Listed(sig.attributes, AttributePairs, 6), s);
    if sig.attributes != [] {
      AttributesRead(sig.attributes, s1);
      assert [] + sig.attributes == sig.attributes;
    }
  }

  lemma {:induction false} SignalsRead(list: seq<Signal>, s: Signals)
    requires Settled(s)
    ensures Run(SignalLines(), SignalsLines(list), s).All() == s.All() + list
  {
    hide SignalLines, SignalHead, Listed, Run;
    if |list| == 0 {
      RunNothing(SignalLines(), s);
      assert s.All() + list == s.All();
    } else {
      var sig, rest := list[0], list[1..];
      var r := Run(SignalLines(), SignalBody(sig), s);
      assert SignalsLines(list) == SignalBody(sig) + SignalsLines(rest);
      SignalRead(sig, s);
      RunConcat(SignalLines(), SignalBody(sig), SignalsLines(rest), s);
      SignalsRead(rest, r);
      assert r.All() == s.All() + [sig];
      assert s.All() + [sig] + rest == s.All() + list;
    }
  }

  lemma RunNothing<S>(step: Step<S>, s: S)
    ensures Run(step, [], s) == s
  {
  }
}
