/** The JSON round trip of whole manifests, exactly. */
module ManifestJsonDocument {
  import opened Text
  import opened ManifestText
  import opened Manifest
  import opened ManifestLines
  import opened ManifestRoundTrip
  import opened ManifestScan
  import opened ManifestDocument
  import opened ManifestKeys
  import opened ManifestJson

  // ------------------------------------------------------------ parts read back

  predicate Closes(t: string) { t in ["},", "],", "]"] }

  lemma ClosingKey(t: string)
    requires Closes(t)
    ensures Unquote(KeyOf(t)) == "}" || Unquote(KeyOf(t)) == "]"
  {
    hide Unquote;
    SpanUnique(t, 0, NotColon, |t|);
    assert t[..|t|] == t;
    TrimmedStays(t);
    assert KeyOf(t) == t;
    BraceIsItsKey("}");
    BraceIsItsKey("]");
    if |t| == 2 {
      assert t[..1] == "}" || t[..1] == "]";
      assert Solid(t[..1]) && t == t[..1] + ",";
      UnquoteComma(t[..1]);
    }
  }

  lemma ClosingIsSkipped(t: string, m: Contract)
    requires Closes(t)
    ensures SectionOf(Unquote(KeyOf(t))) == Alone && TopEntry(m, t) == m
  {
    hide Unquote, KeyOf, ValueOf;
    ClosingKey(t);
  }

  lemma TitleIsKey(title: string, open: string)
    requires IsKey(title) && (open == "{" || open == "[")
    ensures Unquote(KeyOf(Quoted(title) + ": " + open)) == title
  {
    WordStays(title);
    MemberReads((title, open), false);
    assert Member((title, open)) + Comma(false) == Quoted(title) + ": " + open;
  }

  lemma PartReads(title: string, open: string, body: seq<Line>, close: string, rest: seq<Line>, m: Contract,
                  converts: string -> bool)
    requires IsKey(title) && SectionOf(title) != Alone && (open == "{" || open == "[") && Closes(close)
    requires forall k :: 0 <= k < |body| ==> body[k].indent > 0
    ensures Read(Part(title, open, body, close) + rest, m, converts)
         == Read(rest, Filled(m, SectionOf(title), body, converts), converts)
  {
    hide Filled, SectionOf, KeyOf, Unquote, TopEntry, IsKey, BodyLength;
    var lines, ends := Part(title, open, body, close) + rest, [Line(0, close)] + rest;
    var filled := Filled(m, SectionOf(title), body, converts);
    TitleIsKey(title, open);
    ClosingIsSkipped(close, filled);
    assert lines[1..] == body + ends;
    BodyIsWhole(body, ends);
    assert lines[1..1 + |body|] == body && lines[1 + |body|..] == ends;
    assert ends[1..] == rest;
    assert Read(lines, m, converts) == Read(ends, filled, converts);
  }

  // ------------------------------------------------------------ bodies read back

  lemma HeaderMember(m: Contract, key: string, s: string, more: bool)
    requires key in ["package", "name", "initial"]
    ensures HeaderStep(m, Member((key, Quoted(s))) + Comma(more)) ==
      if key == "package" then m.(package := s) else if key == "name" then m.(name := s) else m.(initial := s)
  {
    hide Unquote, KeyOf, ValueOf;
    assert IsKey(key);
    WordStays(key);
    QuotedIsSolid(s);
    MemberReads((key, Quoted(s)), more);
    UnquoteComma(Quoted(s));
    assert Quoted(s) + "" == Quoted(s);
  }

  lemma NamesRead(m: Contract)
    ensures Run(Header(), Members(NamePairs(m), 2), NO_CONTRACT)
         == NO_CONTRACT.(package := m.package, name := m.name, initial := m.initial)
  {
    hide Quoted, Member;
    var pairs, body := NamePairs(m), Members(NamePairs(m), 2);
    var m1 := NO_CONTRACT.(package := m.package);
    var m2 := m1.(name := m.name);
    assert pairs[1..][1..] == [pairs[2]] && pairs[2..][1..] == [];
    var l0, l1, l2 := Line(2, Member(pairs[0]) + ","), Line(2, Member(pairs[1]) + ","), Line(2, Member(pairs[2]) + "");
    assert Members(pairs[1..][1..], 2) == [l2] by { assert [pairs[2]][1..] == []; }
    assert Members(pairs[1..], 2) == [l1] + [l2];
    assert body == [l0] + ([l1] + [l2]);
    HeaderMember(NO_CONTRACT, "package", m.package, true);
    HeaderMember(m1, "name", m.name, true);
    HeaderMember(m2, "initial", m.initial, false);
    hide HeaderStep, Run;
    RunOne(Header(), l0, NO_CONTRACT);
    RunOne(Header(), l1, m1);
    RunOne(Header(), l2, m2);
    RunConcat(Header(), [l1], [l2], m1);
    RunConcat(Header(), [l0], [l1] + [l2], NO_CONTRACT);
  }

  lemma {:induction false} RequirementItemsRead(rs: seq<string>, start: seq<string>)
    ensures Run(Requirements(), RequirementItems(rs), start) == start + rs
  {
    hide RequirementStep;
    if |rs| == 0 {
      assert start + rs == start;
    } else {
      RequirementItem(rs[0], |rs| > 1, start);
      RequirementItemsRead(rs[1..], start + [rs[0]]);
      assert start + [rs[0]] + rs[1..] == start + rs;
    }
  }

  lemma RequirementItem(r: string, more: bool, start: seq<string>)
    ensures RequirementStep(start, Quoted(r) + Comma(more)) == start + [r]
  {
    hide Trim, Unquote;
    var text := Quoted(r) + Comma(more);
    assert text[0] == '"' && |text| > 1;
    assert Undashed(text) == text;
    QuotedIsSolid(r);
    UnquoteComma(Quoted(r));
    assert Quoted(r) + "" == Quoted(r);
  }

  lemma PortsFilledJson(m: Contract, list: seq<Port>, converts: string -> bool)
    requires m.ports == [] && forall p :: p in list ==> WritablePort(p, converts)
    ensures Filled(m, PortSection, Objects(list, PortPairs, 2), converts) == m.(ports := list)
  {
    hide PortPairs, WritablePort, Run, Records, Apply, SetPort, Regular, Objects;
    forall p | p in list
      ensures |PortPairs(p)| > 0 && Regular(PortPairs(p)) && Apply(SetPort(converts), PortPairs(p), NO_PORT) == p
    {
      PortRebuilt(p, converts);
    }
    SettersAreCommaBlind(converts);
    hide CommaBlind;
    ObjectsRead(list, PortPairs, 2, [], NO_PORT, SetPort(converts));
    assert [] + ([] + list) == list;
  }

  lemma VariablesFilledJson(m: Contract, list: seq<Variable>, converts: string -> bool)
    requires m.variables == [] && forall v :: v in list ==> WritableVariable(v, converts)
    ensures Filled(m, VariableSection, Objects(list, VariablePairs, 2), converts) == m.(variables := list)
  {
    hide VariablePairs, WritableVariable, Run, Records, Apply, SetVariable, Regular, Objects;
    forall v | v in list
      ensures |VariablePairs(v)| > 0 && Regular(VariablePairs(v))
           && Apply(SetVariable(converts), VariablePairs(v), NO_VARIABLE) == v
    {
      VariableRebuilt(v, converts);
    }
    SettersAreCommaBlind(converts);
    hide CommaBlind;
    ObjectsRead(list, VariablePairs, 2, [], NO_VARIABLE, SetVariable(converts));
    assert [] + ([] + list) == list;
  }

  lemma PropertiesFilledJson(m: Contract, list: seq<Property>, converts: string -> bool)
    requires m.properties == []
    ensures Filled(m, PropertySection, Objects(list, PropertyPairs, 2), converts) == m.(properties := list)
  {
    hide PropertyPairs, Run, Records, Apply, SetProperty, Regular, Objects;
    forall p | p in list
      ensures |PropertyPairs(p)| > 0 && Regular(PropertyPairs(p))
        && Apply(SetProperty(), PropertyPairs(p), NO_PROPERTY) == p
    {
      PropertyRestored(p);
    }
    SettersAreCommaBlind(converts);
    hide CommaBlind;
    ObjectsRead(list, PropertyPairs, 2, [], NO_PROPERTY, SetProperty());
    assert [] + ([] + list) == list;
  }

  lemma ActionsFilledJson(m: Contract, list: seq<Action>, converts: string -> bool)
    requires m.actions == []
    ensures Filled(m, ActionSection, Objects(list, ActionPairs, 2), converts) == m.(actions := list)
  {
    hide ActionPairs, Run, Records, Apply, SetAction, Regular, Objects;
    forall a | a in list
      ensures |ActionPairs(a)| > 0 && Regular(ActionPairs(a)) && Apply(SetAction(), ActionPairs(a), NO_ACTION) == a
    {
      ActionRestored(a);
    }
    SettersAreCommaBlind(converts);
    hide CommaBlind;
    ObjectsRead(list, ActionPairs, 2, [], NO_ACTION, SetAction());
    assert [] + ([] + list) == list;
  }

  lemma OthersFilledJson(m: Contract, want: Contract, converts: string -> bool)
    ensures m.signals == [] ==>
      Filled(m, SignalSection, SignalObjects(want.signals), converts) == m.(signals := want.signals)
    ensures m.requirements == [] ==>
      Filled(m, RequirementSection, RequirementItems(want.requirements), converts)
        == m.(requirements := want.requirements)
  {
    hide Run, SignalObjects, RequirementItems;
    SignalObjectsRead(want.signals, []);
    assert [] + ([] + want.signals) == want.signals;
    RequirementItemsRead(want.requirements, []);
    assert [] + want.requirements == want.requirements;
  }

  // --------------------------------------------------------- the invariant table

  /** A name that is read back: not empty, and without a colon. */
  predicate NameSurvives(k: string) { k != "" && ':' !in k }

  function Table(m: map<string, string>, order: seq<string>): map<string, string>
    requires forall k :: k in order ==> k in m
  {
    Run(Invariants(), Members(InvariantPairs(m, order), 2), map[])
  }

  lemma InvariantMember(t: map<string, string>, k: string, v: string, more: bool)
    requires ':' !in k
    ensures InvariantStep(t, Member((k, Quoted(v))) + Comma(more)) == if k == "" then t else t[k := v]
  {
    hide Unquote, KeyOf, ValueOf;
    QuotedIsSolid(v);
    MemberReads((k, Quoted(v)), more);
    UnquoteComma(Quoted(v));
    assert Quoted(v) + "" == Quoted(v);
  }

  /** A name with a colon is cut, and what is left of it opens a quote. */
  lemma ColonMember(t: map<string, string>, k: string, v: string, more: bool) returns (x: string, y: string)
    requires ':' in k && Quotable(k)
    ensures |x| > 0 && x[0] == '"' && InvariantStep(t, Member((k, Quoted(v))) + Comma(more)) == t[x := y]
  {
    hide Trim, Unquote;
    var text := Member((k, Quoted(v))) + Comma(more);
    var c := Span(text, 0, NotColon);
    var at :| 0 <= at < |k| && k[at] == ':';
    assert text[at + 1] == ':';
    assert c <= at + 1 && text[0] == '"';
    forall i | 1 <= i < c ensures text[i] != '"' { assert text[i] == k[i - 1]; }
    assert OneQuote(text[..c]);
    TrimKeepsQuote(text[..c]);
    OpenQuoteStays(KeyOf(text));
    assert text[|text| - 1] == if more then ',' else '"';
    TrimLeaves(text[c + 1..]);
    x, y := Unquote(KeyOf(text)), Unquote(ValueOf(text));
    assert text[0] == '"' && text !in ["{", "}", "},"];
    assert InvariantStep(t, text) == t[x := y];
  }

  lemma TrimLeaves(s: string)
    requires |s| > 0 && !IsSpace(s[|s| - 1])
    ensures Trim(s) != ""
  {
    var rest := s[SkipWs(s, 0)..];
    assert SkipWs(s, 0) < |s|;
    assert rest[|rest| - 1] == s[|s| - 1];
  }

  lemma {:induction false} TableGrows(m: map<string, string>, order: seq<string>, start: map<string, string>)
    requires forall k :: k in order ==> k in m && Quotable(k)
    ensures var r := Run(Invariants(), Members(InvariantPairs(m, order), 2), start);
      && start.Keys <= r.Keys
      && ((exists k :: k in order && ':' in k) ==> exists x :: x in r && |x| > 0 && x[0] == '"')
      && ("" !in start && (forall k :: k in order ==> ':' !in k) ==> "" !in r)
  {
    hide InvariantStep, Member, Quotable;
    if |order| > 0 {
      var pairs := InvariantPairs(m, order);
      assert pairs[1..] == InvariantPairs(m, order[1..]);
      var k, text := order[0], Member(pairs[0]) + Comma(|pairs| > 1);
      assert k in order && pairs[0] == (k, Quoted(m[k]));
      var next := InvariantStep(start, text);
      if ':' in k {
        var x, y := ColonMember(start, k, m[k], |pairs| > 1);
        assert x in next;
      } else {
        InvariantMember(start, k, m[k], |pairs| > 1);
      }
      assert Members(pairs, 2)[1..] == Members(pairs[1..], 2);
      TableGrows(m, order[1..], next);
      assert order == [k] + order[1..];
    }
  }

  function Values(m: map<string, string>, order: seq<string>): map<string, string>
    requires forall k :: k in order ==> k in m
  {
    map k | k in order :: m[k]
  }

  lemma {:induction false} TableKeeps(m: map<string, string>, order: seq<string>, start: map<string, string>)
    requires forall k :: k in order ==> k in m && NameSurvives(k)
    ensures Run(Invariants(), Members(InvariantPairs(m, order), 2), start) == start + Values(m, order)
  {
    if |order| > 0 {
      hide InvariantStep, Member;
      var pairs := InvariantPairs(m, order);
      var k := order[0];
      assert k in order;
      assert pairs[1..] == InvariantPairs(m, order[1..]) && pairs[0] == (k, Quoted(m[k]));
      InvariantMember(start, k, m[k], |pairs| > 1);
      assert Members(pairs, 2)[1..] == Members(pairs[1..], 2);
      TableKeeps(m, order[1..], start[k := m[k]]);
      ValuesJoin(m, order, start);
    } else {
      assert start + Values(m, order) == start;
    }
  }

  lemma ValuesJoin(m: map<string, string>, order: seq<string>, start: map<string, string>)
    requires |order| > 0 && forall k :: k in order ==> k in m
    ensures start[order[0] := m[order[0]]] + Values(m, order[1..]) == start + Values(m, order)
  {
    assert order == [order[0]] + order[1..];
  }

  /** The invariants come back if and only if no state name is empty or holds a colon. */
  lemma TableSurvivesExactly(m: map<string, string>, order: seq<string>)
    requires Lists(order, m) && forall k :: k in m ==> Quotable(k)
    ensures Table(m, order) == m <==> forall k :: k in m ==> NameSurvives(k)
  {
    TableGrows(m, order, map[]);
    hide Run;
    if forall k :: k in m ==> NameSurvives(k) {
      TableKeeps(m, order, map[]);
      assert map[] + Values(m, order) == m;
    } else {
      var k :| k in m && !NameSurvives(k);
      assert k in order;
      if exists x :: x in Table(m, order) && |x| > 0 && x[0] == '"' {
        var x :| x in Table(m, order) && |x| > 0 && x[0] == '"';
        assert x[0] in x;
        assert x !in m;
      }
    }
  }

  // ------------------------------------------------------------ the whole text

  lemma {:induction false} PairsWrite(m: map<string, string>, order: seq<string>)
    requires forall k :: k in order ==> k in m && Quotable(k) && Quotable(m[k])
    ensures Writing(InvariantPairs(m, order))
  {
    if |order| > 0 {
      var k := order[0];
      assert k in order;
      QuotedIsPassing(m[k]);
      PairsWrite(m, order[1..]);
    }
  }

  lemma BodiesKept(m: Contract, order: seq<string>, converts: string -> bool)
    requires Writable(m, converts) && Lists(order, m.invariants)
    ensures IsBody(Members(NamePairs(m), 2)) && IsBody(Members(InvariantPairs(m.invariants, order), 2))
    ensures IsBody(Objects(m.ports, PortPairs, 2)) && IsBody(Objects(m.variables, VariablePairs, 2))
    ensures IsBody(SignalObjects(m.signals)) && IsBody(RequirementItems(m.requirements))
    ensures IsBody(Objects(m.properties, PropertyPairs, 2)) && IsBody(Objects(m.actions, ActionPairs, 2))
  {
    hide Passing, WritablePort, WritableVariable, WritableSignal, IsBody, Members, Objects, SignalObjects,
         RequirementItems, Quotable;
    NamesWrite(m, converts);
    MembersKept(NamePairs(m), 2);
    PairsWrite(m.invariants, order);
    MembersKept(InvariantPairs(m.invariants, order), 2);
    forall p | p in m.ports ensures Passing(PortPairs(p)) { PortPasses(p, converts); }
    forall v | v in m.variables ensures Passing(VariablePairs(v)) { VariablePasses(v, converts); }
    forall p | p in m.properties ensures Passing(PropertyPairs(p)) { PropertyPasses(p); }
    forall a | a in m.actions ensures Passing(ActionPairs(a)) { ActionPasses(a); }
    ObjectsKept(m.ports, PortPairs, 2);
    ObjectsKept(m.variables, VariablePairs, 2);
    ObjectsKept(m.properties, PropertyPairs, 2);
    ObjectsKept(m.actions, ActionPairs, 2);
    SignalObjectsKept(m.signals);
    RequirementItemsKept(m.requirements);
  }

  lemma NamesWrite(m: Contract, converts: string -> bool)
    requires Writable(m, converts)
    ensures Writing(NamePairs(m))
  {
    hide Passes;
    QuotedIsPassing(m.package);
    QuotedIsPassing(m.name);
    QuotedIsPassing(m.initial);
  }

  lemma PartKept(title: string, open: string, body: seq<Line>, close: string, rest: seq<Line>)
    requires IsKey(title) && (open == "{" || open == "[") && IsBody(body) && Closes(close) && AllKept(rest)
    ensures AllKept(Part(title, open, body, close) + rest)
  {
    HeadKept(title, open);
    BracketKept(close);
    hide Kept;
  }

  lemma LaterPartsKept(m: Contract, order: seq<string>, converts: string -> bool)
    requires Writable(m, converts) && Lists(order, m.invariants)
    ensures AllKept(LaterParts(m, order))
  {
    BodiesKept(m, order, converts);
    LaterTitles();
    LastTitle();
    NothingKept();
    assert Closes("},") && Closes("],") && Closes("]");
    hide Members, Objects, SignalObjects, RequirementItems, IsBody, AllKept, Part, Writable, IsKey, SectionOf, Closes;
    var p8 := Part("requirements", "[", RequirementItems(m.requirements), "]");
    PartKept("requirements", "[", RequirementItems(m.requirements), "]", []);
    assert p8 + [] == p8;
    var p7 := Part("actions", "[", Objects(m.actions, ActionPairs, 2), "],") + p8;
    PartKept("actions", "[", Objects(m.actions, ActionPairs, 2), "],", p8);
    var p6 := Part("properties", "[", Objects(m.properties, PropertyPairs, 2), "],") + p7;
    PartKept("properties", "[", Objects(m.properties, PropertyPairs, 2), "],", p7);
    PartKept("invariants", "{", Members(InvariantPairs(m.invariants, order), 2), "},", p6);
  }

  lemma PartsKept(m: Contract, order: seq<string>, converts: string -> bool)
    requires Writable(m, converts) && Lists(order, m.invariants)
    ensures AllKept(Parts(m, order))
  {
    BodiesKept(m, order, converts);
    LaterPartsKept(m, order, converts);
    SectionTitles();
    HeaderBlock([]);
    assert Closes("},") && Closes("],");
    hide Members, Objects, SignalObjects, IsBody, AllKept, Part, Writable, LaterParts, IsKey, SectionOf, Closes;
    var p4 := Part("signals", "[", SignalObjects(m.signals), "],") + LaterParts(m, order);
    PartKept("signals", "[", SignalObjects(m.signals), "],", LaterParts(m, order));
    var p3 := Part("variables", "[", Objects(m.variables, VariablePairs, 2), "],") + p4;
    PartKept("variables", "[", Objects(m.variables, VariablePairs, 2), "],", p4);
    var p2 := Part("ports", "[", Objects(m.ports, PortPairs, 2), "],") + p3;
    PartKept("ports", "[", Objects(m.ports, PortPairs, 2), "],", p3);
    PartKept("fsm", "{", Members(NamePairs(m), 2), "},", p2);
  }

  lemma NothingKept()
    ensures AllKept([])
  {
  }

  lemma PartsRead(m: Contract, order: seq<string>, converts: string -> bool)
    requires Writable(m, converts) && Lists(order, m.invariants)
    ensures Read(Parts(m, order), NO_CONTRACT, converts) == m.(invariants := Table(m.invariants, order))
  {
    BodiesKept(m, order, converts);
    hide Members, Objects, SignalObjects, RequirementItems, AllKept, Part, Read, Filled, Run, Kept, NamePairs,
         WritablePort, WritableVariable, WritableSignal, Quotable;
    SectionTitles();
    LaterTitles();
    LastTitle();
    HeaderBlock([]);
    hide IsKey, SectionOf;
    var want := m.(invariants := Table(m.invariants, order));
    var m1 := NO_CONTRACT.(package := m.package, name := m.name, initial := m.initial);
    var m2 := m1.(ports := m.ports);
    var m3 := m2.(variables := m.variables);
    var m4 := m3.(signals := m.signals);
    var m5 := m4.(invariants := want.invariants);
    var m6 := m5.(properties := m.properties);
    var m7 := m6.(actions := m.actions);
    var p8 := Part("requirements", "[", RequirementItems(m.requirements), "]");
    var p7 := Part("actions", "[", Objects(m.actions, ActionPairs, 2), "],") + p8;
    var p6 := Part("properties", "[", Objects(m.properties, PropertyPairs, 2), "],") + p7;
    var p5 := Part("invariants", "{", Members(InvariantPairs(m.invariants, order), 2), "},") + p6;
    var p4 := Part("signals", "[", SignalObjects(m.signals), "],") + p5;
    var p3 := Part("variables", "[", Objects(m.variables, VariablePairs, 2), "],") + p4;
    var p2 := Part("ports", "[", Objects(m.ports, PortPairs, 2), "],") + p3;
    PartReads("fsm", "{", Members(NamePairs(m), 2), "},", p2, NO_CONTRACT, converts);
    HeaderFilled(m, converts);
    PartReads("ports", "[", Objects(m.ports, PortPairs, 2), "],", p3, m1, converts);
    PortsFilledJson(m1, m.ports, converts);
    PartReads("variables", "[", Objects(m.variables, VariablePairs, 2), "],", p4, m2, converts);
    VariablesFilledJson(m2, m.variables, converts);
    PartReads("signals", "[", SignalObjects(m.signals), "],", p5, m3, converts);
    OthersFilledJson(m3, m, converts);
    PartReads("invariants", "{", Members(InvariantPairs(m.invariants, order), 2), "},", p6, m4, converts);
    TableFilled(m4, m, order, converts);
    assert Read(Parts(m, order), NO_CONTRACT, converts) == Read(p6, m5, converts);
    PartReads("properties", "[", Objects(m.properties, PropertyPairs, 2), "],", p7, m5, converts);
    PropertiesFilledJson(m5, m.properties, converts);
    PartReads("actions", "[", Objects(m.actions, ActionPairs, 2), "],", p8, m6, converts);
    ActionsFilledJson(m6, m.actions, converts);
    PartReads("requirements", "[", RequirementItems(m.requirements), "]", [], m7, converts);
    OthersFilledJson(m7, m, converts);
    assert p8 + [] == p8;
    NothingLeft(want, converts);
  }

  lemma HeaderFilled(m: Contract, converts: string -> bool)
    ensures Filled(NO_CONTRACT, HeaderSection, Members(NamePairs(m), 2), converts)
         == NO_CONTRACT.(package := m.package, name := m.name, initial := m.initial)
  {
    hide Run, Members;
    NamesRead(m);
  }

  lemma TableFilled(before: Contract, m: Contract, order: seq<string>, converts: string -> bool)
    requires before.invariants == map[] && forall k :: k in order ==> k in m.invariants
    ensures Filled(before, InvariantSection, Members(InvariantPairs(m.invariants, order), 2), converts)
         == before.(invariants := Table(m.invariants, order))
  {
    hide Run, Members;
  }

  /**
   * The JSON round trip, exactly: for a manifest whose strings hold no double quote or newline,
   * reading what was written gives the manifest back if and only if no state name with an
   * invariant is empty or holds a colon.
   */
  lemma JsonRoundTripsExactly(m: Contract, order: seq<string>, converts: string -> bool)
    requires Writable(m, converts) && Lists(order, m.invariants)
    ensures Meaning(JsonText(m, order), converts) == m <==> forall k :: k in m.invariants ==> NameSurvives(k)
    ensures Meaning(JsonText(m, order), converts) == m.(invariants := Table(m.invariants, order))
  {
    hide Writable, CleanLines, RawLines, Read, Joined, Table, Parts, Quotable, WritablePort, WritableVariable,
         WritableSignal, NameSurvives, Kept, InBraces;
    var all := InBraces(Parts(m, order), 2, "}");
    PartsKept(m, order, converts);
    BracesKept(Parts(m, order), 2);
    RawsClean(all);
    JoinedSplits(Raws(all));
    FirstAtMargin(m, order);
    WrappingLeaves(Parts(m, order), 2, "}");
    PartsRead(m, order, converts);
    InvariantsQuotable(m, converts);
    TableSurvivesExactly(m.invariants, order);
    var table := Table(m.invariants, order);
    assert m.(invariants := table) == m <==> table == m.invariants;
  }

  lemma InvariantsQuotable(m: Contract, converts: string -> bool)
    requires Writable(m, converts)
    ensures forall k :: k in m.invariants ==> Quotable(k)
  {
  }

  lemma FirstAtMargin(m: Contract, order: seq<string>)
    requires forall k :: k in order ==> k in m.invariants
    ensures |Parts(m, order)| > 0 && Parts(m, order)[0].indent == 0
  {
  }

  /** A state name with a colon loses its invariant, quotes or not. */
  lemma ColonIsLostInJson(converts: string -> bool)
    ensures var m := NO_CONTRACT.(invariants := map["a:b" := "x"]);
      Meaning(JsonText(m, ["a:b"]), converts) != m
  {
    hide Meaning, JsonText;
    var m := NO_CONTRACT.(invariants := map["a:b" := "x"]);
    assert Writable(m, converts) && Lists(["a:b"], m.invariants);
    JsonRoundTripsExactly(m, ["a:b"], converts);
    assert "a:b"[1] == ':' && "a:b" in m.invariants && !NameSurvives("a:b");
  }

  /** Both formats give the same contract back, the one in braces and the one without. */
  lemma BothFormatsAgree(m: Contract, order: seq<string>, converts: string -> bool)
    requires Writable(m, converts) && Lists(order, m.invariants)
    requires forall k :: k in m.invariants ==> NameSurvives(k) && KeySurvives(k, m.invariants[k])
    ensures Meaning(JsonText(m, order), converts) == Meaning(Joined(Yaml(m, order)), converts)
  {
    hide Meaning, JsonText, Yaml;
    JsonRoundTripsExactly(m, order, converts);
    ManifestRoundTripsExactly(m, order, converts);
  }
}
