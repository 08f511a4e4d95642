/** Writing the YAML text: sections appended line by line, optional entries only when set. */
module ManifestEmitter {
  import opened Text
  import opened ManifestText
  import opened Manifest
  import opened ManifestLines
  import opened ManifestScan
  import opened ManifestDocument

  lemma {:induction false} RawsConcat(a: seq<Line>, b: seq<Line>)
    ensures Raws(a + b) == Raws(a) + Raws(b)
  {
    hide Raw;
    if |a| == 0 {
      assert a + b == b;
    } else {
      RawsConcat(a[1..], b);
      assert (a + b)[0] == a[0] && (a + b)[1..] == a[1..] + b;
      assert [Raw(a[0])] + (Raws(a[1..]) + Raws(b)) == [Raw(a[0])] + Raws(a[1..]) + Raws(b);
    }
  }

  lemma ItemSnoc(pairs: seq<Pair>, p: Pair, indent: nat)
    requires |pairs| > 0
    ensures Item(pairs + [p], indent) == Item(pairs, indent) + [Line(indent + 2, Entry(p))]
  {
    FieldsConcat(pairs[1..], [p], indent + 2);
    assert (pairs + [p])[1..] == pairs[1..] + [p];
    assert Fields([p], indent + 2) == [Line(indent + 2, Entry(p))] by { assert [p][1..] == []; }
  }

  /** What remains of a list, one item at a time. */
  lemma ListedFrom<R>(rs: seq<R>, i: nat, pairs: R -> seq<Pair>, indent: nat)
    requires i < |rs|
    ensures Raws(Listed(rs[i..], pairs, indent)) ==
      Raws(Item(pairs(rs[i]), indent)) + Raws(Listed(rs[i + 1..], pairs, indent))
  {
    assert rs[i..][1..] == rs[i + 1..];
    RawsConcat(Item(pairs(rs[i]), indent), Listed(rs[i + 1..], pairs, indent));
  }

  class Emitter {
    var text: string
    /** The lines written so far. */
    ghost var raws: seq<string>

    constructor ()
      ensures Valid() && raws == []
    {
      text, raws := "", [];
    }

    ghost predicate Valid()
      reads this
    {
      text == Joined(raws)
    }

    method Write(raw: string)
      requires Valid()
      modifies this
      ensures Valid() && raws == old(raws) + [raw]
    {
      JoinedConcat(raws, [raw]);
      assert Joined([raw]) == raw + "\n" by { assert [raw][1..] == []; }
      text := text + raw + "\n";
      raws := raws + [raw];
    }

    /** The first entry of a list item. */
    method Begin(key: string, value: string, indent: nat)
      requires Valid()
      modifies this
      ensures Valid() && raws == old(raws) + Raws(Item([(key, value)], indent))
    {
      var line := Line(indent, "- " + Entry((key, value)));
      assert Item([(key, value)], indent) == [line];
      assert Raws([line]) == [Raw(line)];
      assert Raw(line) == Spaces(indent) + "- " + key + ": " + value;
      Write(Spaces(indent) + "- " + key + ": " + value);
    }

    /** A further entry, two columns deeper. */
    method Add(key: string, value: string, indent: nat, ghost start: seq<string>, ghost pairs: seq<Pair>)
      requires Valid() && |pairs| > 0 && raws == start + Raws(Item(pairs, indent))
      modifies this
      ensures Valid() && raws == start + Raws(Item(pairs + [(key, value)], indent))
    {
      hide Entry;
      var line := Line(indent + 2, Entry((key, value)));
      ItemSnoc(pairs, (key, value), indent);
      RawsConcat(Item(pairs, indent), [line]);
      assert Raws([line]) == [Raw(line)];
      Write(Spaces(indent + 2) + Entry((key, value)));
    }

    method AddOptional(key: string, s: string, indent: nat, ghost start: seq<string>, ghost pairs: seq<Pair>)
      requires Valid() && |pairs| > 0 && raws == start + Raws(Item(pairs, indent))
      modifies this
      ensures Valid() && raws == start + Raws(Item(pairs + Optional(key, s), indent))
    {
      if s != "" { Add(key, Quoted(s), indent, start, pairs); } else { assert pairs + [] == pairs; }
    }

    method AddLimit(key: string, b: Option<string>, indent: nat, ghost start: seq<string>, ghost pairs: seq<Pair>)
      requires Valid() && |pairs| > 0 && raws == start + Raws(Item(pairs, indent))
      modifies this
      ensures Valid() && raws == start + Raws(Item(pairs + Limit(key, b), indent))
    {
      if b.Some? { Add(key, b.value, indent, start, pairs); } else { assert pairs + [] == pairs; }
    }

    method WritePort(p: Port)
      requires Valid()
      modifies this
      ensures Valid() && raws == old(raws) + Raws(Item(PortPairs(p), 2))
    {
      hide Raws, Item, Optional, Limit, Quoted;
      ghost var start, pairs := raws, [("name", Quoted(p.name))];
      Begin("name", Quoted(p.name), 2);
      Add("type", Quoted(p.typeName), 2, start, pairs);
      pairs := pairs + [("type", Quoted(p.typeName))];
      Add("direction", Quoted(p.direction), 2, start, pairs);
      pairs := pairs + [("direction", Quoted(p.direction))];
      AddLimit("min", p.min, 2, start, pairs);
      pairs := pairs + Limit("min", p.min);
      AddLimit("max", p.max, 2, start, pairs);
      pairs := pairs + Limit("max", p.max);
      AddOptional("constraint", p.constraint, 2, start, pairs);
      assert pairs + Optional("constraint", p.constraint) == PortPairs(p);
    }

    method WriteVariable(v: Variable)
      requires Valid()
      modifies this
      ensures Valid() && raws == old(raws) + Raws(Item(VariablePairs(v), 2))
    {
      hide Raws, Item, Optional, Limit, Quoted;
      ghost var start, pairs := raws, [("name", Quoted(v.name))];
      Begin("name", Quoted(v.name), 2);
      Add("type", Quoted(v.typeName), 2, start, pairs);
      pairs := pairs + [("type", Quoted(v.typeName))];
      AddOptional("initial", v.initial, 2, start, pairs);
      pairs := pairs + Optional("initial", v.initial);
      AddOptional("unit", v.unit, 2, start, pairs);
      pairs := pairs + Optional("unit", v.unit);
      AddLimit("min", v.min, 2, start, pairs);
      pairs := pairs + Limit("min", v.min);
      AddLimit("max", v.max, 2, start, pairs);
      assert pairs + Limit("max", v.max) == VariablePairs(v);
    }

    method WriteProperty(p: Property)
      requires Valid()
      modifies this
      ensures Valid() && raws == old(raws) + Raws(Item(PropertyPairs(p), 2))
    {
      ghost var start := raws;
      Begin("name", Quoted(p.name), 2);
      Add("formula", Quoted(p.formula), 2, start, [("name", Quoted(p.name))]);
    }

    method WriteAction(a: Action)
      requires Valid()
      modifies this
      ensures Valid() && raws == old(raws) + Raws(Item(ActionPairs(a), 2))
    {
      hide Raws, Item, Optional, Quoted;
      ghost var start, pairs := raws, [("name", Quoted(a.name))];
      Begin("name", Quoted(a.name), 2);
      AddOptional("signature", a.signature, 2, start, pairs);
      pairs := pairs + Optional("signature", a.signature);
      AddOptional("inv", a.inv, 2, start, pairs);
      assert pairs + Optional("inv", a.inv) == ActionPairs(a);
    }

    method WriteAttribute(a: Attribute)
      requires Valid()
      modifies this
      ensures Valid() && raws == old(raws) + Raws(Item(AttributePairs(a), 6))
    {
      hide Raws, Item, Optional, Quoted;
      ghost var start, pairs := raws, [("name", Quoted(a.name))];
      Begin("name", Quoted(a.name), 6);
      Add("type", Quoted(a.typeName), 6, start, pairs);
      pairs := pairs + [("type", Quoted(a.typeName))];
      AddOptional("default", a.default, 6, start, pairs);
      assert pairs + Optional("default", a.default) == AttributePairs(a);
    }

    method WriteSignal(s: Signal)
      requires Valid()
      modifies this
      ensures Valid() && raws == old(raws) + (Raws(SignalHead(s)) + Raws(Listed(s.attributes, AttributePairs, 6)))
    {
      hide Item, Quoted, AttributePairs, Raws, Listed, SignalHead;
      ghost var whole := Raws(SignalHead(s)) + Raws(Listed(s.attributes, AttributePairs, 6));
      HeadText(s);
      AttributesEnd(s.attributes);
      Write("  - name: " + Quoted(s.name));
      if s.attributes != [] {
        Write("    attributes:");
        for i := 0 to |s.attributes|
          invariant Valid() && raws + Raws(Listed(s.attributes[i..], AttributePairs, 6)) == old(raws) + whole
        {
          ListedFrom(s.attributes, i, AttributePairs, 6);
          WriteAttribute(s.attributes[i]);
        }
      }
    }

    lemma AttributesEnd(list: seq<Attribute>)
      ensures Raws(Listed(list[|list|..], AttributePairs, 6)) == [] && list[0..] == list
    {
    }

    lemma HeadText(s: Signal)
      ensures Raws(SignalHead(s)) ==
        ["  - name: " + Quoted(s.name)] + if s.attributes == [] then [] else ["    attributes:"]
    {
      var head, deeper := Line(2, "- " + Entry(("name", Quoted(s.name)))), Line(4, "attributes:");
      assert Spaces(2) == "  " && Spaces(4) == Spaces(2) + "  " == "    ";
      assert Raw(head) == "  - name: " + Quoted(s.name) && Raw(deeper) == "    attributes:";
      RawsConcat([head], [deeper]);
      assert Raws([head]) == [Raw(head)] && Raws([deeper]) == [Raw(deeper)];
    }

    method EmitHeader(m: Contract)
      requires Valid()
      modifies this
      ensures Valid() && raws == old(raws) + Raws(Fields(HeaderPairs(m), 2))
    {
      hide Quoted, Fields, Raws;
      HeaderText(m);
      if m.package != "" { Write("  package: " + Quoted(m.package)); }
      Write("  name: " + Quoted(m.name));
      if m.initial != "" { Write("  initial: " + Quoted(m.initial)); }
    }

    lemma HeaderText(m: Contract)
      ensures Raws(Fields(HeaderPairs(m), 2)) ==
        (if m.package == "" then [] else ["  package: " + Quoted(m.package)])
        + (["  name: " + Quoted(m.name)] + if m.initial == "" then [] else ["  initial: " + Quoted(m.initial)])
    {
      var package, name, initial := Optional("package", m.package), [("name", Quoted(m.name))],
        Optional("initial", m.initial);
      OptionalField("package", m.package);
      OneField("name", Quoted(m.name));
      OptionalField("initial", m.initial);
      assert "  " + "package" + ": " == "  package: " && "  " + "name" + ": " == "  name: ";
      assert "  " + "initial" + ": " == "  initial: ";
      hide Quoted, Fields, Raws, Optional;
      FieldsConcat(package, name + initial, 2);
      FieldsConcat(name, initial, 2);
      RawsConcat(Fields(package, 2), Fields(name, 2) + Fields(initial, 2));
      RawsConcat(Fields(name, 2), Fields(initial, 2));
    }

    lemma OptionalField(key: string, s: string)
      ensures Raws(Fields(Optional(key, s), 2)) == if s == "" then [] else ["  " + key + ": " + Quoted(s)]
    {
      if s != "" { OneField(key, Quoted(s)); }
    }

    lemma OneField(key: string, value: string)
      ensures Raws(Fields([(key, value)], 2)) == ["  " + key + ": " + value]
    {
      assert [(key, value)][1..] == [];
      assert Spaces(2) == "  ";
      assert Raws([Line(2, Entry((key, value)))]) == [Raw(Line(2, Entry((key, value))))];
      assert "  " + Entry((key, value)) == "  " + key + ": " + value;
    }

    /** An empty line and the name of a section. */
    method Title(title: string)
      requires Valid()
      modifies this
      ensures Valid() && raws == old(raws) + ["", title + ":"]
    {
      Write("");
      Write(title + ":");
    }

    method EmitPorts(ports: seq<Port>)
      requires Valid()
      modifies this
      ensures Valid() && raws == old(raws) + RawBlock("ports", Listed(ports, PortPairs, 2))
    {
      hide Item, PortPairs, RawBlock, Raws, Listed;
      ghost var whole := RawBlock("ports", Listed(ports, PortPairs, 2));
      ListedBlock("ports", ports, PortPairs);
      if ports == [] {
        assert raws + [] == raws;
      } else {
        Title("ports");
        for i := 0 to |ports|
          invariant Valid() && raws + Raws(Listed(ports[i..], PortPairs, 2)) == old(raws) + whole
        {
          ListedFrom(ports, i, PortPairs, 2);
          WritePort(ports[i]);
        }
      }
    }

    method EmitVariables(variables: seq<Variable>)
      requires Valid()
      modifies this
      ensures Valid() && raws == old(raws) + RawBlock("variables", Listed(variables, VariablePairs, 2))
    {
      hide Item, VariablePairs, RawBlock, Raws, Listed;
      ghost var whole := RawBlock("variables", Listed(variables, VariablePairs, 2));
      ListedBlock("variables", variables, VariablePairs);
      if variables == [] {
        assert raws + [] == raws;
      } else {
        Title("variables");
        for i := 0 to |variables|
          invariant Valid() && raws + Raws(Listed(variables[i..], VariablePairs, 2)) == old(raws) + whole
        {
          ListedFrom(variables, i, VariablePairs, 2);
          WriteVariable(variables[i]);
        }
      }
    }

    method EmitProperties(properties: seq<Property>)
      requires Valid()
      modifies this
      ensures Valid() && raws == old(raws) + RawBlock("properties", Listed(properties, PropertyPairs, 2))
    {
      hide Item, PropertyPairs, RawBlock, Raws, Listed;
      ghost var whole := RawBlock("properties", Listed(properties, PropertyPairs, 2));
      ListedBlock("properties", properties, PropertyPairs);
      if properties == [] {
        assert raws + [] == raws;
      } else {
        Title("properties");
        for i := 0 to |properties|
          invariant Valid() && raws + Raws(Listed(properties[i..], PropertyPairs, 2)) == old(raws) + whole
        {
          ListedFrom(properties, i, PropertyPairs, 2);
          WriteProperty(properties[i]);
        }
      }
    }

    method EmitActions(actions: seq<Action>)
      requires Valid()
      modifies this
      ensures Valid() && raws == old(raws) + RawBlock("actions", Listed(actions, ActionPairs, 2))
    {
      hide Item, ActionPairs, RawBlock, Raws, Listed;
      ghost var whole := RawBlock("actions", Listed(actions, ActionPairs, 2));
      ListedBlock("actions", actions, ActionPairs);
      if actions == [] {
        assert raws + [] == raws;
      } else {
        Title("actions");
        for i := 0 to |actions|
          invariant Valid() && raws + Raws(Listed(actions[i..], ActionPairs, 2)) == old(raws) + whole
        {
          ListedFrom(actions, i, ActionPairs, 2);
          WriteAction(actions[i]);
        }
      }
    }

    /** A section is left out exactly when its list is empty. */
    lemma ListedBlock<R>(title: string, rs: seq<R>, pairs: R -> seq<Pair>)
      requires forall r :: r in rs ==> |pairs(r)| > 0
      ensures RawBlock(title, Listed(rs, pairs, 2)) ==
        if rs == [] then [] else ["", title + ":"] + Raws(Listed(rs[0..], pairs, 2))
      ensures Raws(Listed(rs[|rs|..], pairs, 2)) == []
    {
      assert rs[0..] == rs;
      if rs != [] {
        assert rs[0] in rs;
        assert |Item(pairs(rs[0]), 2)| > 0;
      }
    }

    method EmitSignals(signals: seq<Signal>)
      requires Valid()
      modifies this
      ensures Valid() && raws == old(raws) + RawBlock("signals", SignalsLines(signals))
    {
      hide Listed, SignalHead, Raws, SignalsLines, RawBlock;
      ghost var whole := RawBlock("signals", SignalsLines(signals));
      SignalsBlock(signals);
      if signals == [] {
        assert raws + [] == raws;
      } else {
        Title("signals");
        for i := 0 to |signals|
          invariant Valid() && raws + Raws(SignalsLines(signals[i..])) == old(raws) + whole
        {
          SignalsFrom(signals, i);
          WriteSignal(signals[i]);
        }
      }
    }

    lemma SignalsBlock(list: seq<Signal>)
      ensures RawBlock("signals", SignalsLines(list)) ==
        if list == [] then [] else ["", "signals" + ":"] + Raws(SignalsLines(list[0..]))
      ensures Raws(SignalsLines(list[|list|..])) == []
    {
      assert list[0..] == list;
    }

    lemma SignalsFrom(list: seq<Signal>, i: nat)
      requires i < |list|
      ensures SignalsLines(list[i..]) != []
      ensures Raws(SignalsLines(list[i..])) ==
        Raws(SignalHead(list[i])) + Raws(Listed(list[i].attributes, AttributePairs, 6))
          + Raws(SignalsLines(list[i + 1..]))
    {
      hide Listed;
      var inner, rest := Listed(list[i].attributes, AttributePairs, 6), SignalsLines(list[i + 1..]);
      assert list[i..][1..] == list[i + 1..];
      RawsConcat(SignalHead(list[i]), inner + rest);
      RawsConcat(inner, rest);
    }

    method EmitInvariants(m: map<string, string>, order: seq<string>)
      requires Valid() && forall k :: k in order ==> k in m
      modifies this
      ensures Valid() && raws == old(raws) + RawBlock("invariants", InvariantLines(m, order))
    {
      hide Raws, RawBlock, InvariantLines, Entry, Quoted, Joined;
      ghost var whole := RawBlock("invariants", InvariantLines(m, order));
      InvariantsBlock(m, order);
      if order == [] {
        assert raws + [] == raws;
      } else {
        Title("invariants");
        for i := 0 to |order|
          invariant Valid() && raws + Raws(InvariantLines(m, order[i..])) == old(raws) + whole
        {
          InvariantsFrom(m, order, i);
          Write("  " + order[i] + ": " + Quoted(m[order[i]]));
        }
      }
    }

    lemma InvariantsBlock(m: map<string, string>, order: seq<string>)
      requires forall k :: k in order ==> k in m
      ensures RawBlock("invariants", InvariantLines(m, order)) ==
        if order == [] then [] else ["", "invariants" + ":"] + Raws(InvariantLines(m, order[0..]))
      ensures Raws(InvariantLines(m, order[|order|..])) == []
    {
      assert order[0..] == order;
    }

    lemma InvariantsFrom(m: map<string, string>, order: seq<string>, i: nat)
      requires (forall k :: k in order ==> k in m) && i < |order|
      ensures Raws(InvariantLines(m, order[i..])) ==
        ["  " + order[i] + ": " + Quoted(m[order[i]])] + Raws(InvariantLines(m, order[i + 1..]))
    {
      hide Quoted;
      assert order[i..][1..] == order[i + 1..];
      var first := Line(2, Entry((order[i], Quoted(m[order[i]]))));
      assert Spaces(2) == "  ";
      assert Raw(first) == "  " + order[i] + ": " + Quoted(m[order[i]]);
      assert InvariantLines(m, order[i..]) == [first] + InvariantLines(m, order[i + 1..]);
    }

    method EmitRequirements(rs: seq<string>)
      requires Valid()
      modifies this
      ensures Valid() && raws == old(raws) + RawBlock("requirements", RequirementLines(rs))
    {
      hide Raws, RawBlock, RequirementLines, Quoted, Joined;
      ghost var whole := RawBlock("requirements", RequirementLines(rs));
      RequirementsBlock(rs);
      if rs == [] {
        assert raws + [] == raws;
      } else {
        Title("requirements");
        for i := 0 to |rs|
          invariant Valid() && raws + Raws(RequirementLines(rs[i..])) == old(raws) + whole
        {
          RequirementsFrom(rs, i);
          Write("  - " + Quoted(rs[i]));
        }
      }
    }

    lemma RequirementsBlock(rs: seq<string>)
      ensures RawBlock("requirements", RequirementLines(rs)) ==
        if rs == [] then [] else ["", "requirements" + ":"] + Raws(RequirementLines(rs[0..]))
      ensures Raws(RequirementLines(rs[|rs|..])) == []
    {
      assert rs[0..] == rs;
    }

    lemma RequirementsFrom(rs: seq<string>, i: nat)
      requires i < |rs|
      ensures Raws(RequirementLines(rs[i..])) == ["  - " + Quoted(rs[i])] + Raws(RequirementLines(rs[i + 1..]))
    {
      hide Quoted;
      assert rs[i..][1..] == rs[i + 1..];
      var first := Line(2, "- " + Quoted(rs[i]));
      assert Spaces(2) == "  ";
      assert Raw(first) == "  - " + Quoted(rs[i]);
      assert RequirementLines(rs[i..]) == [first] + RequirementLines(rs[i + 1..]);
    }
  }

  /** `order` is the order in which the invariant table hands out its keys. */
  method EmitYaml(m: Contract, order: seq<string>) returns (text: string)
    requires forall k :: k in order ==> k in m.invariants
    ensures text == Joined(Yaml(m, order))
  {
    hide RawBlock, Fields, Raws, Listed, SignalsLines, InvariantLines, RequirementLines, HeaderPairs, Joined, BANNER;
    ghost var actions, requirements := RawBlock("actions", Listed(m.actions, ActionPairs, 2)),
                                       RawBlock("requirements", RequirementLines(m.requirements));
    ghost var properties := RawBlock("properties", Listed(m.properties, PropertyPairs, 2));
    ghost var invariants := RawBlock("invariants", InvariantLines(m.invariants, order));
    ghost var signals := RawBlock("signals", SignalsLines(m.signals));
    ghost var variables := RawBlock("variables", Listed(m.variables, VariablePairs, 2));
    ghost var ports := RawBlock("ports", Listed(m.ports, PortPairs, 2));
    ghost var rest5 := properties + (actions + requirements);
    ghost var rest4 := invariants + rest5;
    ghost var rest3 := signals + rest4;
    ghost var rest2 := variables + rest3;
    ghost var header := Raws(Fields(HeaderPairs(m), 2));
    ghost var top := [BANNER, "fsm:"];
    RegroupHeader(top, header, ports, variables, rest3);
    RegroupTail(top + header + ports + variables, signals, invariants, properties, actions, requirements);
    var e := new Emitter();
    e.Write(BANNER);
    e.Write("fsm:");
    assert e.raws == top;
    e.EmitHeader(m);
    e.EmitPorts(m.ports);
    e.EmitVariables(m.variables);
    e.EmitSignals(m.signals);
    e.EmitInvariants(m.invariants, order);
    e.EmitProperties(m.properties);
    e.EmitActions(m.actions);
    e.EmitRequirements(m.requirements);
    assert e.raws == Yaml(m, order);
    text := e.text;
  }

  lemma RegroupHeader(a: seq<string>, b: seq<string>, c: seq<string>, d: seq<string>, e: seq<string>)
    ensures a + b + c + d + e == a + (b + (c + (d + e)))
  {
  }

  lemma RegroupTail(a: seq<string>, b: seq<string>, c: seq<string>, d: seq<string>, e: seq<string>, f: seq<string>)
    ensures a + b + c + d + e + f == a + (b + (c + (d + (e + f))))
  {
    assert a + b + c + d + e + f == a + b + c + (d + (e + f));
  }
}
