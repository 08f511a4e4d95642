/** Reading back the YAML text of a whole manifest. */
module ManifestDocument {
  import opened Text
  import opened ManifestText
  import opened Manifest
  import opened ManifestLines
  import opened ManifestRoundTrip
  import opened ManifestScan

  predicate WritablePort(p: Port, converts: string -> bool) {
    && Quotable(p.name) && Quotable(p.typeName) && Quotable(p.direction) && Quotable(p.constraint)
    && Numeral(p.min, converts) && Numeral(p.max, converts)
  }

  predicate WritableVariable(v: Variable, converts: string -> bool) {
    && Quotable(v.name) && Quotable(v.typeName) && Quotable(v.initial) && Quotable(v.unit)
    && Numeral(v.min, converts) && Numeral(v.max, converts)
  }

  predicate WritableSignal(s: Signal) {
    && Quotable(s.name)
    && forall a :: a in s.attributes ==> Quotable(a.name) && Quotable(a.typeName) && Quotable(a.default)
  }

  /** No string holds a double quote or a newline, and bounds are numbers. */
  predicate Writable(m: Contract, converts: string -> bool) {
    && Quotable(m.package) && Quotable(m.name) && Quotable(m.initial)
    && (forall p :: p in m.ports ==> WritablePort(p, converts))
    && (forall v :: v in m.variables ==> WritableVariable(v, converts))
    && (forall s :: s in m.signals ==> WritableSignal(s))
    && (forall k :: k in m.invariants ==> Quotable(k) && Quotable(m.invariants[k]))
    && (forall p :: p in m.properties ==> Quotable(p.name) && Quotable(p.formula))
    && (forall a :: a in m.actions ==> Quotable(a.name) && Quotable(a.signature) && Quotable(a.inv))
    && (forall r :: r in m.requirements ==> Quotable(r))
  }

  /** The keys of the table, each once, in some order. */
  ghost predicate Lists(order: seq<string>, m: map<string, string>) {
    && (forall k :: k in order <==> k in m)
    && Distinct(order)
  }

  // ----------------------------------------------- every written line is kept

  predicate Passes(v: string) { Solid(v) && '\n' !in v && CommentAt(v, 0, false, false) == |v| }

  predicate Passing(pairs: seq<Pair>) { forall k :: 0 <= k < |pairs| ==> IsKey(pairs[k].0) && Passes(pairs[k].1) }

  /** Body lines: kept by the scanner and indented. */
  predicate IsBody(ls: seq<Line>) { AllKept(ls) && forall k :: 0 <= k < |ls| ==> ls[k].indent > 0 }

  lemma QuotedIsPassing(s: string)
    requires Quotable(s)
    ensures Passes(Quoted(s))
  {
    QuotedPasses(s);
  }

  lemma NumeralPasses(b: string, converts: string -> bool)
    requires Numeral(Some(b), converts)
    ensures Passes(b)
  {
    NumeralStays(b, converts);
    assert Calm(b) by { forall k | 0 <= k < |b| ensures IsCalm(b[k]) { assert IsNumberChar(b[k]); } }
    CalmPasses(b, 0, |b|);
  }

  lemma {:induction false} FieldsAreBody(pairs: seq<Pair>, indent: nat)
    requires Passing(pairs) && indent > 0
    ensures IsBody(Fields(pairs, indent))
  {
    hide Kept, Entry, CommentAt;
    if |pairs| > 0 {
      EntryKept(pairs[0].0, pairs[0].1, false);
      assert "" + Entry(pairs[0]) == Entry(pairs[0]);
      FieldsAreBody(pairs[1..], indent);
    }
  }

  lemma ItemIsBody(pairs: seq<Pair>, indent: nat)
    requires Passing(pairs) && indent > 0
    ensures IsBody(Item(pairs, indent))
  {
    if |pairs| > 0 {
      EntryKept(pairs[0].0, pairs[0].1, true);
      FieldsAreBody(pairs[1..], indent + 2);
    }
  }

  lemma {:induction false} ListedIsBody<R(!new)>(rs: seq<R>, pairs: R -> seq<Pair>, indent: nat)
    requires indent > 0 && forall r :: r in rs ==> Passing(pairs(r))
    ensures IsBody(Listed(rs, pairs, indent))
  {
    if |rs| > 0 {
      assert rs[0] in rs;
      ItemIsBody(pairs(rs[0]), indent);
      ListedIsBody(rs[1..], pairs, indent);
    }
  }

  lemma PortPasses(p: Port, converts: string -> bool)
    requires WritablePort(p, converts)
    ensures Passing(PortPairs(p))
  {
    hide Quoted, Passes, Quotable, Numeral;
    QuotedIsPassing(p.name);
    QuotedIsPassing(p.typeName);
    QuotedIsPassing(p.direction);
    QuotedIsPassing(p.constraint);
    if p.min.Some? { NumeralPasses(p.min.value, converts); }
    if p.max.Some? { NumeralPasses(p.max.value, converts); }
  }

  lemma VariablePasses(v: Variable, converts: string -> bool)
    requires WritableVariable(v, converts)
    ensures Passing(VariablePairs(v))
  {
    hide Quoted, Passes, Quotable, Numeral;
    QuotedIsPassing(v.name);
    QuotedIsPassing(v.typeName);
    QuotedIsPassing(v.initial);
    QuotedIsPassing(v.unit);
    if v.min.Some? { NumeralPasses(v.min.value, converts); }
    if v.max.Some? { NumeralPasses(v.max.value, converts); }
  }

  lemma AttributePasses(a: Attribute)
    requires Quotable(a.name) && Quotable(a.typeName) && Quotable(a.default)
    ensures Passing(AttributePairs(a))
  {
    hide Quoted, Passes, Quotable;
    QuotedIsPassing(a.name);
    QuotedIsPassing(a.typeName);
    QuotedIsPassing(a.default);
  }

  lemma {:induction false} SignalsAreBody(list: seq<Signal>)
    requires forall s :: s in list ==> WritableSignal(s)
    ensures IsBody(SignalsLines(list))
  {
    if |list| > 0 {
      hide Quoted, Passes, Quotable, Kept, Entry;
      var s := list[0];
      assert s in list;
      QuotedIsPassing(s.name);
      SignalHeadIsBody(s);
      forall a | a in s.attributes ensures Passing(AttributePairs(a)) { AttributePasses(a); }
      ListedIsBody(s.attributes, AttributePairs, 6);
      SignalsAreBody(list[1..]);
    }
  }

  lemma SignalHeadIsBody(s: Signal)
    requires Quotable(s.name)
    ensures IsBody(SignalHead(s))
  {
    QuotedIsPassing(s.name);
    EntryKept("name", Quoted(s.name), true);
    TitleKept("attributes");
    assert "attributes" + ":" == "attributes:";
  }

  lemma {:induction false} RequirementsAreBody(rs: seq<string>)
    requires forall r :: r in rs ==> Quotable(r)
    ensures IsBody(RequirementLines(rs))
  {
    if |rs| > 0 {
      assert rs[0] in rs;
      QuotedPasses(rs[0]);
      CalmPrefix("- ", Quoted(rs[0]));
      RequirementsAreBody(rs[1..]);
    }
  }

  // ------------------------------------------------------ sections read back

  predicate AtMargin(ls: seq<Line>) { ls == [] || ls[0].indent == 0 }

  lemma {:induction false} BodyIsWhole(body: seq<Line>, rest: seq<Line>)
    requires (forall k :: 0 <= k < |body| ==> body[k].indent > 0) && AtMargin(rest)
    ensures BodyLength(body + rest) == |body|
  {
    if |body| == 0 {
      assert body + rest == rest;
    } else {
      assert (body + rest)[1..] == body[1..] + rest;
      BodyIsWhole(body[1..], rest);
    }
  }

  lemma FilledNothing(m: Contract, section: Section, converts: string -> bool)
    ensures Filled(m, section, [], converts) == m
  {
    assert m.ports + [] == m.ports && m.variables + [] == m.variables && m.signals + [] == m.signals;
    assert m.properties + [] == m.properties && m.actions + [] == m.actions;
  }

  lemma SectionReads(title: string, body: seq<Line>, rest: seq<Line>, m: Contract, converts: string -> bool)
    requires IsKey(title) && SectionOf(title) != Alone && AtMargin(rest)
    requires forall k :: 0 <= k < |body| ==> body[k].indent > 0
    ensures Read([Line(0, title + ":")] + body + rest, m, converts)
         == Read(rest, Filled(m, SectionOf(title), body, converts), converts)
  {
    hide Filled, SectionOf, KeyOf, Unquote, TopEntry, IsKey, BodyLength;
    var lines := [Line(0, title + ":")] + body + rest;
    TitleReads(title);
    assert lines[1..] == body + rest;
    BodyIsWhole(body, rest);
    assert lines[1..1 + |body|] == body && lines[1 + |body|..] == rest;
  }

  lemma BlockReads(title: string, body: seq<Line>, rest: seq<Line>, m: Contract, converts: string -> bool)
    requires IsKey(title) && SectionOf(title) != Alone && IsBody(body) && AtMargin(rest)
    ensures AtMargin(Block(title, body) + rest)
    ensures Read(Block(title, body) + rest, m, converts)
         == Read(rest, Filled(m, SectionOf(title), body, converts), converts)
  {
    FilledNothing(m, SectionOf(title), converts);
    hide Filled, SectionOf, AllKept, IsKey, Read;
    if body == [] { assert Block(title, body) + rest == rest; } else { SectionReads(title, body, rest, m, converts); }
  }

  lemma RequirementReads(r: string, start: seq<string>)
    ensures RequirementStep(start, "- " + Quoted(r)) == start + [r]
  {
    hide Trim, Unquote;
    var text := "- " + Quoted(r);
    assert text[..2] == "- " && text[2..] == Quoted(r) && |text| > 3;
    QuotesComeOff(r);
  }

  lemma {:induction false} RequirementsRead(rs: seq<string>, start: seq<string>)
    ensures Run(Requirements(), RequirementLines(rs), start) == start + rs
  {
    hide RequirementStep;
    if |rs| == 0 {
      assert start + rs == start;
    } else {
      RequirementReads(rs[0], start);
      RequirementsRead(rs[1..], start + [rs[0]]);
      assert start + [rs[0]] + rs[1..] == start + rs;
    }
  }

  lemma HeaderEntryReads(m: Contract, p: Pair)
    requires IsKey(p.0) && Solid(p.1)
    ensures HeaderStep(m, Entry(p)) ==
      if p.0 == "package" then m.(package := Unquote(p.1))
      else if p.0 == "name" then m.(name := Unquote(p.1))
      else if p.0 == "initial" then m.(initial := Unquote(p.1))
      else m
  {
    hide Unquote, KeyOf, ValueOf;
    EntryReads(p);
  }

  lemma {:induction false} FieldsConcat(a: seq<Pair>, b: seq<Pair>, indent: nat)
    ensures Fields(a + b, indent) == Fields(a, indent) + Fields(b, indent)
  {
    hide Entry;
    if |a| == 0 {
      assert a + b == b;
    } else {
      var first := [Line(indent, Entry(a[0]))];
      assert (a + b)[0] == a[0] && (a + b)[1..] == a[1..] + b;
      FieldsConcat(a[1..], b, indent);
      assert first + (Fields(a[1..], indent) + Fields(b, indent)) == first + Fields(a[1..], indent) + Fields(b, indent);
    }
  }

  lemma HeaderFieldReads(m: Contract, key: string, s: string)
    requires key in ["package", "name", "initial"]
    ensures var r := Run(Header(), Fields([(key, Quoted(s))], 2), m);
      r == if key == "package" then m.(package := s) else if key == "name" then m.(name := s) else m.(initial := s)
  {
    var p := (key, Quoted(s));
    QuotedIsSolid(s);
    HeaderEntryReads(m, p);
    assert [p][1..] == [];
    assert Fields([p], 2) == [Line(2, Entry(p))];
    RunOne(Header(), Line(2, Entry(p)), m);
  }

  lemma OptionalReads(m: Contract, key: string, s: string)
    requires key == "package" || key == "initial"
    requires s == "" ==> if key == "package" then m.package == "" else m.initial == ""
    ensures Run(Header(), Fields(Optional(key, s), 2), m)
      == if key == "package" then m.(package := s) else m.(initial := s)
  {
    if s != "" { HeaderFieldReads(m, key, s); }
  }

  lemma HeaderReads(m: Contract)
    ensures Run(Header(), Fields(HeaderPairs(m), 2), NO_CONTRACT)
      == NO_CONTRACT.(package := m.package, name := m.name, initial := m.initial)
  {
    hide Fields, Run, Header;
    var package, name, initial := Optional("package", m.package), [("name", Quoted(m.name))],
      Optional("initial", m.initial);
    var m1 := NO_CONTRACT.(package := m.package);
    var m2 := m1.(name := m.name);
    FieldsConcat(package, name + initial, 2);
    FieldsConcat(name, initial, 2);
    RunConcat(Header(), Fields(package, 2), Fields(name, 2) + Fields(initial, 2), NO_CONTRACT);
    RunConcat(Header(), Fields(name, 2), Fields(initial, 2), m1);
    OptionalReads(NO_CONTRACT, "package", m.package);
    HeaderFieldReads(m1, "name", m.name);
    OptionalReads(m2, "initial", m.initial);
  }

  // --------------------------------------------------------- the whole text

  /** What the scanner finds in the invariant section, where state names stand bare. */
  function Found(m: Contract, order: seq<string>): seq<Line>
    requires forall k :: k in order ==> k in m.invariants
  {
    CleanLines(Raws(InvariantLines(m.invariants, order)))
  }

  function InvariantBlock(m: Contract, order: seq<string>): seq<Line>
    requires forall k :: k in order ==> k in m.invariants
  {
    if order == [] then [] else [Line(0, "invariants:")] + Found(m, order)
  }

  /** The sections behind the header. */
  function Tail(m: Contract, order: seq<string>): seq<Line>
    requires forall k :: k in order ==> k in m.invariants
  {
    Block("ports", Listed(m.ports, PortPairs, 2))
    + (Block("variables", Listed(m.variables, VariablePairs, 2))
    + (Block("signals", SignalsLines(m.signals))
    + (InvariantBlock(m, order)
    + (Block("properties", Listed(m.properties, PropertyPairs, 2))
    + (Block("actions", Listed(m.actions, ActionPairs, 2))
    + Block("requirements", RequirementLines(m.requirements)))))))
  }

  lemma BodiesAreBodies(m: Contract, order: seq<string>, converts: string -> bool)
    requires Writable(m, converts) && Lists(order, m.invariants)
    ensures IsBody(Listed(m.ports, PortPairs, 2)) && IsBody(Listed(m.variables, VariablePairs, 2))
    ensures IsBody(SignalsLines(m.signals))
    ensures IsBody(Listed(m.properties, PropertyPairs, 2)) && IsBody(Listed(m.actions, ActionPairs, 2))
    ensures IsBody(RequirementLines(m.requirements))
  {
    hide Quotable, Passing, IsBody, WritablePort, WritableVariable, Listed;
    forall p | p in m.ports ensures Passing(PortPairs(p)) { PortPasses(p, converts); }
    ListedIsBody(m.ports, PortPairs, 2);
    forall v | v in m.variables ensures Passing(VariablePairs(v)) { VariablePasses(v, converts); }
    ListedIsBody(m.variables, VariablePairs, 2);
    SignalsAreBody(m.signals);
    forall p | p in m.properties ensures Passing(PropertyPairs(p)) { PropertyPasses(p); }
    ListedIsBody(m.properties, PropertyPairs, 2);
    forall a | a in m.actions ensures Passing(ActionPairs(a)) { ActionPasses(a); }
    ListedIsBody(m.actions, ActionPairs, 2);
    RequirementsAreBody(m.requirements);
  }

  lemma PropertyPasses(p: Property)
    requires Quotable(p.name) && Quotable(p.formula)
    ensures Passing(PropertyPairs(p))
  {
    QuotedIsPassing(p.name);
    QuotedIsPassing(p.formula);
  }

  lemma ActionPasses(a: Action)
    requires Quotable(a.name) && Quotable(a.signature) && Quotable(a.inv)
    ensures Passing(ActionPairs(a))
  {
    hide Quoted, Passes, Quotable;
    QuotedIsPassing(a.name);
    QuotedIsPassing(a.signature);
    QuotedIsPassing(a.inv);
  }

  /** Lines of the invariant section stay indented, whatever the state names hold. */
  lemma FoundIndented(text: string)
    requires '\n' !in text
    ensures '\n' !in Raw(Line(2, text))
    ensures var found := CleanLine(Raw(Line(2, text))); found.Some? ==> found.value.indent > 0
  {
    hide Trim;
    var raw := Raw(Line(2, text));
    SpacesAre(2);
    CalmPasses(raw, 0, 2);
    var cleaned := raw[..CommentAt(raw, 0, false, false)];
    assert IsBlank(cleaned[0]) && IsBlank(cleaned[1]);
    var first := Span(cleaned, 0, IsBlank);
    assert first > 0;
    WidthGrows(cleaned[..first]);
  }

  lemma {:induction false} WidthGrows(s: string)
    ensures Width(s) >= |s|
  {
    if |s| > 0 { WidthGrows(s[..|s| - 1]); }
  }

  lemma {:induction false} FoundLines(m: Contract, order: seq<string>)
    requires forall k :: k in order ==> k in m.invariants && Quotable(k) && Quotable(m.invariants[k])
    ensures OneLine(Raws(InvariantLines(m.invariants, order)))
    ensures forall i :: 0 <= i < |Found(m, order)| ==> Found(m, order)[i].indent > 0
  {
    if |order| > 0 {
      assert order[0] in order;
      FoundFirst(m, order);
      FoundLines(m, order[1..]);
    }
  }

  lemma EntryHasNoNewline(key: string, value: string)
    requires Quotable(key) && Quotable(value)
    ensures '\n' !in Entry((key, Quoted(value)))
  {
  }

  /** The first entry's line, if the scanner keeps any of it, then the others'. */
  lemma FoundFirst(m: Contract, order: seq<string>)
    requires |order| > 0 && (forall k :: k in order ==> k in m.invariants)
    requires Quotable(order[0]) && Quotable(m.invariants[order[0]])
    ensures var raw := Raw(Line(2, Entry((order[0], Quoted(m.invariants[order[0]])))));
      && '\n' !in raw
      && Raws(InvariantLines(m.invariants, order)) == [raw] + Raws(InvariantLines(m.invariants, order[1..]))
      && Found(m, order) == (if CleanLine(raw).None? then [] else [CleanLine(raw).value]) + Found(m, order[1..])
      && (CleanLine(raw).Some? ==> CleanLine(raw).value.indent > 0)
  {
    hide CleanLine, CleanLines, Raw, Entry;
    var line := Line(2, Entry((order[0], Quoted(m.invariants[order[0]]))));
    assert InvariantLines(m.invariants, order)[1..] == InvariantLines(m.invariants, order[1..]);
    assert '\n' !in line.text by { EntryHasNoNewline(order[0], m.invariants[order[0]]); }
    FoundIndented(line.text);
    CleanOne(Raw(line));
    CleanConcat([Raw(line)], Raws(InvariantLines(m.invariants, order[1..])));
  }

  lemma InvariantsThen(m: Contract, order: seq<string>, converts: string -> bool, raws: seq<string>, lines: seq<Line>)
    requires Writable(m, converts) && Lists(order, m.invariants) && CleanLines(raws) == lines && OneLine(raws)
    ensures CleanLines(RawBlock("invariants", InvariantLines(m.invariants, order)) + raws)
         == InvariantBlock(m, order) + lines
    ensures OneLine(RawBlock("invariants", InvariantLines(m.invariants, order)) + raws)
  {
    hide WritablePort, WritableVariable, WritableSignal, CleanLines, Raws;
    FoundLines(m, order);
    var body := InvariantLines(m.invariants, order);
    var block := RawBlock("invariants", body);
    if order == [] {
      assert block + raws == raws && InvariantBlock(m, order) + lines == lines;
    } else {
      CleanTitle("invariants");
      assert "invariants" + ":" == "invariants:";
      assert block + raws == ["", "invariants:"] + (Raws(body) + raws);
      CleanConcat(Raws(body), raws);
      CleanConcat(["", "invariants:"], Raws(body) + raws);
      assert InvariantBlock(m, order) + lines == [Line(0, "invariants:")] + (Found(m, order) + lines);
    }
  }

  lemma CleanTitle(title: string)
    requires IsKey(title)
    ensures CleanLines(["", title + ":"]) == [Line(0, title + ":")] && OneLine(["", title + ":"])
  {
    hide CleanLine, CleanLines;
    TitleKept(title);
    RawCleans(Line(0, title + ":"));
    assert Raw(Line(0, title + ":")) == title + ":";
    EmptyIsSkipped();
    CleanOne("");
    CleanOne(title + ":");
    assert ["", title + ":"] == [""] + [title + ":"];
    CleanConcat([""], [title + ":"]);
  }

  lemma InvariantBlockReads(m: Contract, order: seq<string>, rest: seq<Line>, before: Contract,
                            converts: string -> bool)
    requires Writable(m, converts) && Lists(order, m.invariants) && AtMargin(rest) && before.invariants == map[]
    ensures AtMargin(InvariantBlock(m, order) + rest)
    ensures Read(InvariantBlock(m, order) + rest, before, converts)
         == Read(rest, before.(invariants := Run(Invariants(), Found(m, order), map[])), converts)
  {
    hide WritablePort, WritableVariable, WritableSignal, Read, Run;
    FoundLines(m, order);
    LaterTitles();
    if order == [] {
      NothingFound(m);
      assert InvariantBlock(m, order) + rest == rest;
    } else {
      assert "invariants" + ":" == "invariants:";
      SectionReads("invariants", Found(m, order), rest, before, converts);
    }
  }

  lemma NothingFound(m: Contract)
    ensures Run(Invariants(), Found(m, []), map[]) == map[]
  {
  }

  lemma PortsFilled(m: Contract, list: seq<Port>, converts: string -> bool)
    requires m.ports == [] && forall p :: p in list ==> WritablePort(p, converts)
    ensures Filled(m, PortSection, Listed(list, PortPairs, 2), converts) == m.(ports := list)
  {
    hide PortPairs, WritablePort, Run, Records, Apply, SetPort, Regular, Listed;
    forall p | p in list
      ensures |PortPairs(p)| > 0 && Regular(PortPairs(p)) && Apply(SetPort(converts), PortPairs(p), NO_PORT) == p
    {
      PortRebuilt(p, converts);
    }
    RecordsRead(list, PortPairs, Filling([], NO_PORT, false), NO_PORT, SetPort(converts));
    assert [] + ([] + list) == list;
  }

  lemma PortRebuilt(p: Port, converts: string -> bool)
    requires WritablePort(p, converts)
    ensures |PortPairs(p)| > 0 && Regular(PortPairs(p)) && Apply(SetPort(converts), PortPairs(p), NO_PORT) == p
  {
    PortRegular(p, converts);
    PortRestored(p, converts);
  }

  lemma VariablesFilled(m: Contract, list: seq<Variable>, converts: string -> bool)
    requires m.variables == [] && forall v :: v in list ==> WritableVariable(v, converts)
    ensures Filled(m, VariableSection, Listed(list, VariablePairs, 2), converts) == m.(variables := list)
  {
    hide VariablePairs, WritableVariable, Run, Records, Apply, SetVariable, Regular, Listed;
    forall v | v in list
      ensures |VariablePairs(v)| > 0 && Regular(VariablePairs(v))
           && Apply(SetVariable(converts), VariablePairs(v), NO_VARIABLE) == v
    {
      VariableRebuilt(v, converts);
    }
    RecordsRead(list, VariablePairs, Filling([], NO_VARIABLE, false), NO_VARIABLE, SetVariable(converts));
    assert [] + ([] + list) == list;
  }

  lemma VariableRebuilt(v: Variable, converts: string -> bool)
    requires WritableVariable(v, converts)
    ensures |VariablePairs(v)| > 0 && Regular(VariablePairs(v))
         && Apply(SetVariable(converts), VariablePairs(v), NO_VARIABLE) == v
  {
    VariableRegular(v, converts);
    VariableRestored(v, converts);
  }

  lemma PropertiesFilled(m: Contract, list: seq<Property>, converts: string -> bool)
    requires m.properties == []
    ensures Filled(m, PropertySection, Listed(list, PropertyPairs, 2), converts) == m.(properties := list)
  {
    hide PropertyPairs, Run, Records, Apply, SetProperty, Regular, Listed;
    forall p | p in list
      ensures |PropertyPairs(p)| > 0 && Regular(PropertyPairs(p))
        && Apply(SetProperty(), PropertyPairs(p), NO_PROPERTY) == p
    {
      PropertyRestored(p);
    }
    RecordsRead(list, PropertyPairs, Filling([], NO_PROPERTY, false), NO_PROPERTY, SetProperty());
    assert [] + ([] + list) == list;
  }

  lemma ActionsFilled(m: Contract, list: seq<Action>, converts: string -> bool)
    requires m.actions == []
    ensures Filled(m, ActionSection, Listed(list, ActionPairs, 2), converts) == m.(actions := list)
  {
    hide ActionPairs, Run, Records, Apply, SetAction, Regular, Listed;
    forall a | a in list
      ensures |ActionPairs(a)| > 0 && Regular(ActionPairs(a)) && Apply(SetAction(), ActionPairs(a), NO_ACTION) == a
    {
      ActionRestored(a);
    }
    RecordsRead(list, ActionPairs, Filling([], NO_ACTION, false), NO_ACTION, SetAction());
    assert [] + ([] + list) == list;
  }

  lemma OthersFilled(m: Contract, want: Contract, converts: string -> bool)
    ensures m.signals == [] ==>
      Filled(m, SignalSection, SignalsLines(want.signals), converts) == m.(signals := want.signals)
    ensures m.requirements == [] ==>
      Filled(m, RequirementSection, RequirementLines(want.requirements), converts)
        == m.(requirements := want.requirements)
  {
    hide Run, SignalsLines, RequirementLines;
    SignalsRead(want.signals, Signals(Filling([], NO_SIGNAL, false), false, NO_ATTRIBUTE, false));
    assert [] + ([] + want.signals) == want.signals;
    RequirementsRead(want.requirements, []);
    assert [] + want.requirements == want.requirements;
  }

  /** The sections behind the header fill in exactly their parts of the contract. */
  lemma TailReads(m: Contract, order: seq<string>, converts: string -> bool)
    requires Writable(m, converts) && Lists(order, m.invariants)
    ensures AtMargin(Tail(m, order))
    ensures Read(Tail(m, order), NO_CONTRACT.(package := m.package, name := m.name, initial := m.initial), converts)
         == m.(invariants := Run(Invariants(), Found(m, order), map[]))
  {
    BodiesAreBodies(m, order, converts);
    hide Filled, Listed, SignalsLines, InvariantLines, RequirementLines, IsBody, Read, Block, AtMargin, Quotable,
      WritablePort, WritableVariable, WritableSignal, Lists, InvariantBlock, Found, Run;
    SectionTitles();
    LaterTitles();
    LastTitle();
    var want := m.(invariants := Run(Invariants(), Found(m, order), map[]));
    var m1 := NO_CONTRACT.(package := m.package, name := m.name, initial := m.initial);
    var m2 := m1.(ports := m.ports);
    var m3 := m2.(variables := m.variables);
    var m4 := m3.(signals := m.signals);
    var m5 := m4.(invariants := Run(Invariants(), Found(m, order), map[]));
    var m6 := m5.(properties := m.properties);
    var m7 := m6.(actions := m.actions);
    var requirements := Block("requirements", RequirementLines(m.requirements));
    var actions := Block("actions", Listed(m.actions, ActionPairs, 2)) + requirements;
    var properties := Block("properties", Listed(m.properties, PropertyPairs, 2)) + actions;
    var invariants := InvariantBlock(m, order) + properties;
    var signals := Block("signals", SignalsLines(m.signals)) + invariants;
    var variables := Block("variables", Listed(m.variables, VariablePairs, 2)) + signals;
    assert Tail(m, order) == Block("ports", Listed(m.ports, PortPairs, 2)) + variables;
    assert requirements + [] == requirements;
    NothingLeft(want, converts);
    BlockReads("requirements", RequirementLines(m.requirements), [], m7, converts);
    OthersFilled(m7, m, converts);
    assert Read(requirements, m7, converts) == want;
    BlockReads("actions", Listed(m.actions, ActionPairs, 2), requirements, m6, converts);
    ActionsFilled(m6, m.actions, converts);
    assert Read(actions, m6, converts) == want;
    BlockReads("properties", Listed(m.properties, PropertyPairs, 2), actions, m5, converts);
    PropertiesFilled(m5, m.properties, converts);
    assert Read(properties, m5, converts) == want;
    InvariantBlockReads(m, order, properties, m4, converts);
    assert Read(invariants, m4, converts) == want;
    BlockReads("signals", SignalsLines(m.signals), invariants, m3, converts);
    OthersFilled(m3, m, converts);
    assert Read(signals, m3, converts) == want;
    BlockReads("variables", Listed(m.variables, VariablePairs, 2), signals, m2, converts);
    VariablesFilled(m2, m.variables, converts);
    assert Read(variables, m2, converts) == want;
    BlockReads("ports", Listed(m.ports, PortPairs, 2), variables, m1, converts);
    PortsFilled(m1, m.ports, converts);
  }

  lemma SectionTitles()
    ensures IsKey("ports") && SectionOf("ports") == PortSection
    ensures IsKey("variables") && SectionOf("variables") == VariableSection
    ensures IsKey("signals") && SectionOf("signals") == SignalSection
    ensures AtMargin([])
  {
  }

  lemma LaterTitles()
    ensures IsKey("invariants") && SectionOf("invariants") == InvariantSection
    ensures IsKey("properties") && SectionOf("properties") == PropertySection
    ensures IsKey("actions") && SectionOf("actions") == ActionSection
  {
  }

  lemma LastTitle()
    ensures IsKey("requirements") && SectionOf("requirements") == RequirementSection
  {
  }

  lemma NothingLeft(m: Contract, converts: string -> bool)
    ensures Read([], m, converts) == m
  {
  }

  lemma BlockThen(title: string, body: seq<Line>, raws: seq<string>, lines: seq<Line>)
    requires IsKey(title) && AllKept(body) && CleanLines(raws) == lines && OneLine(raws)
    ensures CleanLines(RawBlock(title, body) + raws) == Block(title, body) + lines
    ensures OneLine(RawBlock(title, body) + raws)
  {
    hide CleanLines, RawBlock, Block;
    BlockCleans(title, body);
    CleanConcat(RawBlock(title, body), raws);
  }

  lemma TailCleans(m: Contract, order: seq<string>, converts: string -> bool)
    requires Writable(m, converts) && Lists(order, m.invariants)
    ensures OneLine(RawTail(m, order)) && CleanLines(RawTail(m, order)) == Tail(m, order)
  {
    BodiesAreBodies(m, order, converts);
    hide CleanLines, RawBlock, Block, Listed, SignalsLines, InvariantLines, RequirementLines, Kept, Quotable,
      WritablePort, WritableVariable, WritableSignal, SectionOf, IsKey, InvariantBlock, Writable;
    SectionTitles();
    LaterTitles();
    LastTitle();
    CleanNothing();
    var raw7, b7 :=
      RawBlock("requirements", RequirementLines(m.requirements)),
        Block("requirements", RequirementLines(m.requirements));
    BlockThen("requirements", RequirementLines(m.requirements), [], []);
    assert raw7 + [] == raw7 && b7 + [] == b7;
    BlockThen("actions", Listed(m.actions, ActionPairs, 2), raw7, b7);
    var raw6, b6 := RawBlock("actions", Listed(m.actions, ActionPairs, 2)) + raw7,
                    Block("actions", Listed(m.actions, ActionPairs, 2)) + b7;
    BlockThen("properties", Listed(m.properties, PropertyPairs, 2), raw6, b6);
    var raw5, b5 := RawBlock("properties", Listed(m.properties, PropertyPairs, 2)) + raw6,
                    Block("properties", Listed(m.properties, PropertyPairs, 2)) + b6;
    InvariantsThen(m, order, converts, raw5, b5);
    var raw4, b4 := RawBlock("invariants", InvariantLines(m.invariants, order)) + raw5,
                    InvariantBlock(m, order) + b5;
    BlockThen("signals", SignalsLines(m.signals), raw4, b4);
    var raw3, b3 := RawBlock("signals", SignalsLines(m.signals)) + raw4, Block("signals", SignalsLines(m.signals)) + b4;
    BlockThen("variables", Listed(m.variables, VariablePairs, 2), raw3, b3);
    var raw2, b2 := RawBlock("variables", Listed(m.variables, VariablePairs, 2)) + raw3,
                    Block("variables", Listed(m.variables, VariablePairs, 2)) + b3;
    BlockThen("ports", Listed(m.ports, PortPairs, 2), raw2, b2);
  }

  /** Scanning the written text gives the lines that were meant. */
  lemma YamlCleans(m: Contract, order: seq<string>, converts: string -> bool)
    requires Writable(m, converts) && Lists(order, m.invariants)
    ensures OneLine(Yaml(m, order))
    ensures CleanLines(Yaml(m, order)) == [Line(0, "fsm:")] + (Fields(HeaderPairs(m), 2) + Tail(m, order))
  {
    hide CleanLines, Raws, Fields, Quotable, HeaderPairs, BANNER, Tail, RawTail, Kept, Writable, CleanLine;
    TailCleans(m, order, converts);
    HeaderIsBody(m, converts);
    var header := Fields(HeaderPairs(m), 2);
    RawsClean(header);
    CleanConcat(Raws(header), RawTail(m, order));
    StartCleans();
    CleanConcat([BANNER, "fsm:"], Raws(header) + RawTail(m, order));
  }

  lemma HeaderIsBody(m: Contract, converts: string -> bool)
    requires Writable(m, converts)
    ensures IsBody(Fields(HeaderPairs(m), 2)) && Fields(HeaderPairs(m), 2) != []
  {
    QuotedIsPassing(m.package);
    QuotedIsPassing(m.name);
    QuotedIsPassing(m.initial);
    FieldsAreBody(HeaderPairs(m), 2);
  }

  lemma BannerIsComment()
    ensures CleanLine(BANNER) == None && '\n' !in BANNER
  {
    assert BANNER[0] == "# Generated by fsmc "[0] == '#';
    assert '\n' !in "# Generated by fsmc " && '\n' !in "CompanionManifestEmitter ";
    assert '\n' !in "(target-agnostic " && '\n' !in "formal contract)";
    assert CommentAt(BANNER, 0, false, false) == 0;
  }

  lemma StartCleans()
    ensures CleanLines([BANNER, "fsm:"]) == [Line(0, "fsm:")] && OneLine([BANNER, "fsm:"])
  {
    hide BANNER, CleanLines, CleanLine;
    BannerIsComment();
    TitleKept("fsm");
    RawCleans(Line(0, "fsm" + ":"));
    assert "fsm" + ":" == "fsm:" && Raw(Line(0, "fsm" + ":")) == "fsm:";
    CleanOne(BANNER);
    CleanOne("fsm:");
    assert [BANNER, "fsm:"] == [BANNER] + ["fsm:"];
    CleanConcat([BANNER], ["fsm:"]);
  }

  lemma LinesRead(m: Contract, order: seq<string>, converts: string -> bool)
    requires Writable(m, converts) && Lists(order, m.invariants)
    ensures var lines := [Line(0, "fsm:")] + (Fields(HeaderPairs(m), 2) + Tail(m, order));
      && !Wrapped(lines)
      && Read(lines, NO_CONTRACT, converts) == m.(invariants := Run(Invariants(), Found(m, order), map[]))
  {
    hide Tail, Fields, HeaderPairs, Read, Run, Writable, Header, IsBody, SectionOf, IsKey, Filled;
    TailReads(m, order, converts);
    HeaderIsBody(m, converts);
    HeaderReads(m);
    HeaderFills(m, converts);
    var body := Fields(HeaderPairs(m), 2);
    var lines := [Line(0, "fsm:")] + (body + Tail(m, order));
    assert lines[0].text != "{";
    HeaderBlock(body);
    assert lines == Block("fsm", body) + Tail(m, order);
    BlockReads("fsm", body, Tail(m, order), NO_CONTRACT, converts);
  }

  lemma HeaderFills(m: Contract, converts: string -> bool)
    ensures Filled(NO_CONTRACT, HeaderSection, Fields(HeaderPairs(m), 2), converts)
         == Run(Header(), Fields(HeaderPairs(m), 2), NO_CONTRACT)
  {
  }

  lemma HeaderBlock(body: seq<Line>)
    ensures body != [] ==> Block("fsm", body) == [Line(0, "fsm:")] + body
    ensures SectionOf("fsm") == HeaderSection && IsKey("fsm")
  {
    assert "fsm" + ":" == "fsm:";
  }

  /**
   * Writing a manifest and reading the text gives back everything but the invariants, which
   * are what their section's lines are read as.
   */
  lemma AllButInvariantsRoundTrip(m: Contract, order: seq<string>, converts: string -> bool)
    requires Writable(m, converts) && Lists(order, m.invariants)
    ensures Meaning(Joined(Yaml(m, order)), converts) == m.(invariants := Run(Invariants(), Found(m, order), map[]))
  {
    hide Writable, Yaml, CleanLines, RawLines, Read, Tail, Wrapped, Fields, Found, Run;
    YamlCleans(m, order, converts);
    JoinedSplits(Yaml(m, order));
    LinesRead(m, order, converts);
  }
}
