/** Writing the JSON text: members and objects appended line by line, with commas between them. */
module ManifestJsonEmitter {
  import opened Text
  import opened ManifestText
  import opened Manifest
  import opened ManifestLines
  import opened ManifestScan
  import opened ManifestJson
  import ManifestEmitter

  lemma DeeperFirst(ls: seq<Line>, columns: nat)
    requires |ls| > 0
    ensures Deeper(ls, columns) == [ls[0].(indent := ls[0].indent + columns)] + Deeper(ls[1..], columns)
  {
  }

  lemma {:induction false} DeeperConcat(a: seq<Line>, b: seq<Line>, columns: nat)
    ensures Deeper(a + b, columns) == Deeper(a, columns) + Deeper(b, columns)
  {
    if |a| == 0 {
      assert a + b == b && Deeper(a, columns) == [];
    } else {
      hide Deeper;
      DeeperFirst(a, columns);
      DeeperFirst(a + b, columns);
      assert (a + b)[1..] == a[1..] + b;
      DeeperConcat(a[1..], b, columns);
    }
  }

  class Writer {
    var text: string
    /** The lines inside the braces, as they would stand at the margin. */
    ghost var lines: seq<Line>

    ghost predicate Valid()
      reads this
    {
      text == "{\n" + Joined(Raws(Deeper(lines, 2)))
    }

    constructor ()
      ensures Valid() && lines == []
    {
      text, lines := "{\n", [];
    }

    method Put(indent: nat, s: string)
      requires Valid()
      modifies this
      ensures Valid() && lines == old(lines) + [Line(indent, s)]
    {
      hide Deeper, Raws, Joined, Spaces;
      Appended(lines, Line(indent, s));
      text := text + (Spaces(indent + 2) + s + "\n");
      lines := lines + [Line(indent, s)];
    }

    lemma Appended(before: seq<Line>, l: Line)
      ensures Joined(Raws(Deeper(before + [l], 2)))
           == Joined(Raws(Deeper(before, 2))) + (Spaces(l.indent + 2) + l.text + "\n")
    {
      var d := l.(indent := l.indent + 2);
      DeeperConcat(before, [l], 2);
      assert Deeper([l], 2) == [d] by { assert [l][1..] == []; }
      ManifestEmitter.RawsConcat(Deeper(before, 2), [d]);
      assert Raws([d]) == [Raw(d)] by { assert [d][1..] == []; }
      JoinedConcat(Raws(Deeper(before, 2)), [Raw(d)]);
      assert Joined([Raw(d)]) == Raw(d) + "\n" by { assert [Raw(d)][1..] == []; }
    }

    method PutMembers(pairs: seq<Pair>, indent: nat)
      requires Valid()
      modifies this
      ensures Valid() && lines == old(lines) + Members(pairs, indent)
    {
      hide Member;
      assert pairs[0..] == pairs;
      for i := 0 to |pairs|
        invariant Valid() && lines + Members(pairs[i..], indent) == old(lines) + Members(pairs, indent)
      {
        assert pairs[i..][1..] == pairs[i + 1..];
        Put(indent, Member(pairs[i]) + (if i + 1 < |pairs| then "," else ""));
      }
    }

    method PutObject(pairs: seq<Pair>, indent: nat, more: bool)
      requires Valid()
      modifies this
      ensures Valid() && lines == old(lines) + Object(pairs, indent, more)
    {
      hide Members;
      Put(indent, "{");
      PutMembers(pairs, indent + 2);
      Put(indent, "}" + (if more then "," else ""));
    }

    /** The objects of one list; every list of records is written by the same loop. */
    method PutObjects<R>(rs: seq<R>, pairs: R -> seq<Pair>, indent: nat)
      requires Valid()
      modifies this
      ensures Valid() && lines == old(lines) + Objects(rs, pairs, indent)
    {
      hide Object;
      assert rs[0..] == rs;
      for i := 0 to |rs|
        invariant Valid() && lines + Objects(rs[i..], pairs, indent) == old(lines) + Objects(rs, pairs, indent)
      {
        assert rs[i..][1..] == rs[i + 1..];
        PutObject(pairs(rs[i]), indent, i + 1 < |rs|);
      }
    }

    method PutSignals(list: seq<Signal>)
      requires Valid()
      modifies this
      ensures Valid() && lines == old(lines) + SignalObjects(list)
    {
      hide SignalObject;
      assert list[0..] == list;
      for i := 0 to |list|
        invariant Valid() && lines + SignalObjects(list[i..]) == old(lines) + SignalObjects(list)
      {
        assert list[i..][1..] == list[i + 1..];
        PutSignal(list[i], i + 1 < |list|);
      }
    }

    method PutSignal(s: Signal, more: bool)
      requires Valid()
      modifies this
      ensures Valid() && lines == old(lines) + SignalObject(s, more)
    {
      hide Objects, Quoted, Member, AttributePairs, Valid;
      Put(2, "{");
      Put(4, Member(("name", Quoted(s.name))) + ",");
      Put(4, Quoted("attributes") + ": [");
      assert lines == old(lines) + SignalHeadLines(s);
      hide SignalHeadLines;
      PutObjects(s.attributes, AttributePairs, 6);
      Put(4, "]");
      Put(2, "}" + (if more then "," else ""));
    }

    method PutRequirements(rs: seq<string>)
      requires Valid()
      modifies this
      ensures Valid() && lines == old(lines) + RequirementItems(rs)
    {
      hide Quoted, Valid;
      assert rs[0..] == rs;
      for i := 0 to |rs|
        invariant Valid() && lines + RequirementItems(rs[i..]) == old(lines) + RequirementItems(rs)
      {
        assert rs[i..][1..] == rs[i + 1..];
        Put(2, Quoted(rs[i]) + (if i + 1 < |rs| then "," else ""));
      }
    }

    /** A list of records under its key. */
    method PutList<R>(title: string, rs: seq<R>, pairs: R -> seq<Pair>)
      requires Valid()
      modifies this
      ensures Valid() && lines == old(lines) + Part(title, "[", Objects(rs, pairs, 2), "],")
    {
      hide Objects, Quoted;
      Put(0, Quoted(title) + ": [");
      PutObjects(rs, pairs, 2);
      Put(0, "],");
      assert Quoted(title) + ": [" == Quoted(title) + ": " + "[";
    }

    /** An object under its key. */
    method PutTable(title: string, pairs: seq<Pair>)
      requires Valid()
      modifies this
      ensures Valid() && lines == old(lines) + Part(title, "{", Members(pairs, 2), "},")
    {
      hide Members, Quoted;
      Put(0, Quoted(title) + ": {");
      PutMembers(pairs, 2);
      Put(0, "},");
      assert Quoted(title) + ": {" == Quoted(title) + ": " + "{";
    }

    method PutSignalList(list: seq<Signal>)
      requires Valid()
      modifies this
      ensures Valid() && lines == old(lines) + Part("signals", "[", SignalObjects(list), "],")
    {
      hide SignalObjects, Quoted;
      Put(0, Quoted("signals") + ": [");
      PutSignals(list);
      Put(0, "],");
      assert Quoted("signals") + ": [" == Quoted("signals") + ": " + "[";
    }

    method PutRequirementList(rs: seq<string>)
      requires Valid()
      modifies this
      ensures Valid() && lines == old(lines) + Part("requirements", "[", RequirementItems(rs), "]")
    {
      hide RequirementItems, Quoted;
      Put(0, Quoted("requirements") + ": [");
      PutRequirements(rs);
      Put(0, "]");
      assert Quoted("requirements") + ": [" == Quoted("requirements") + ": " + "[";
    }

    method PutParts(m: Contract, order: seq<string>)
      requires Valid() && lines == [] && forall k :: k in order ==> k in m.invariants
      modifies this
      ensures Valid() && lines == Parts(m, order)
    {
      hide Members, Objects, SignalObjects, RequirementItems, Part, NamePairs, InvariantPairs, Valid;
      PutTable("fsm", NamePairs(m));
      PutList("ports", m.ports, PortPairs);
      PutList("variables", m.variables, VariablePairs);
      PutSignalList(m.signals);
      PutTable("invariants", InvariantPairs(m.invariants, order));
      PutList("properties", m.properties, PropertyPairs);
      PutList("actions", m.actions, ActionPairs);
      PutRequirementList(m.requirements);
    }
  }

  /** The whole document; `order` is the order in which the invariant table hands out its keys. */
  method EmitJson(m: Contract, order: seq<string>) returns (text: string)
    requires forall k :: k in order ==> k in m.invariants
    ensures text == JsonText(m, order)
  {
    var w := new Writer();
    w.PutParts(m, order);
    text := w.text + "}\n";
    BracesText(w.lines);
  }

  lemma BracesText(ls: seq<Line>)
    ensures Joined(Raws(InBraces(ls, 2, "}"))) == "{\n" + Joined(Raws(Deeper(ls, 2))) + "}\n"
  {
    var inner := Deeper(ls, 2);
    var open, close := Line(0, "{"), Line(0, "}");
    assert Raw(open) == "{" && Raw(close) == "}";
    ManifestEmitter.RawsConcat(inner, [close]);
    ManifestEmitter.RawsConcat([open], inner + [close]);
    assert Raws([open]) == ["{"] && Raws([close]) == ["}"] by { assert [open][1..] == [close][1..] == []; }
    JoinedConcat(Raws(inner), ["}"]);
    JoinedConcat(["{"], Raws(inner) + ["}"]);
    assert Joined(["{"]) == "{\n" && Joined(["}"]) == "}\n" by { assert ["{"][1..] == ["}"][1..] == []; }
  }
}
