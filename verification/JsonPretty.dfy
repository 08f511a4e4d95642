/** The layout the model exporter gives to JSON values, and the text it has written part-way. */
module JsonPretty {
  import opened Text
  import opened Json
  import opened JsonRoundTrip

  predicate NoNumbers(v: Value) {
    match v
    case Number(_) => false
    case Arr(items) => forall k :: 0 <= k < |items| ==> NoNumbers(items[k])
    case Obj(members) => forall k :: 0 <= k < |members| ==> NoNumbers(members[k].value)
    case _ => true
  }

  predicate Plain(members: seq<Member>) { forall k :: 0 <= k < |members| ==> NoNumbers(members[k].value) }

  /** Arrays on one line, objects with one member a line, two columns in for each level. */
  function Pretty(v: Value, indent: nat): Layout
    requires NoNumbers(v)
    decreases v
  {
    match v
    case Null => LNull
    case Bool(b) => LBool(b)
    case Str(s) => LStr(Written(s))
    case Arr(items) => LArr(PrettyItems(items, true, indent))
    case Obj(members) =>
      LObj(if |members| == 0 then NoFields("\n\n" + Spaces(indent)) else PrettyFields(members, indent))
  }

  function PrettyItems(items: seq<Value>, first: bool, indent: nat): Items
    requires forall k :: 0 <= k < |items| ==> NoNumbers(items[k])
    decreases items
  {
    if |items| == 0 then LastItem
    else Item(if first then "" else " ", Pretty(items[0], indent), "", PrettyItems(items[1..], false, indent))
  }

  function PrettyFields(members: seq<Member>, indent: nat): Fields
    requires |members| > 0 && Plain(members)
    decreases members
  {
    var m := members[0];
    Field("\n" + Spaces(indent + 2), Written(m.key), "", " ", Pretty(m.value, indent + 2),
          if |members| == 1 then "\n" + Spaces(indent) else "",
          if |members| == 1 then LastField else PrettyFields(members[1..], indent))
  }

  /** The layout only adds blanks: the value is unchanged. */
  lemma {:induction false} PrettyIsProper(v: Value, indent: nat, converts: string -> bool)
    requires NoNumbers(v)
    ensures Proper(Pretty(v, indent), converts) && ValueOf(Pretty(v, indent)) == v
    decreases v
  {
    match v
    case Arr(items) => { PrettyItemsProper(items, true, indent, converts); }
    case Obj(members) => { if |members| > 0 { PrettyFieldsProper(members, indent, converts); } }
    case Str(s) => { WrittenMeans(s); }
    case _ => {}
  }

  lemma {:induction false} PrettyItemsProper(items: seq<Value>, first: bool, indent: nat, converts: string -> bool)
    requires forall k :: 0 <= k < |items| ==> NoNumbers(items[k])
    ensures ProperItems(PrettyItems(items, first, indent), converts)
    ensures ValuesOf(PrettyItems(items, first, indent)) == items
    decreases items
  {
    hide Proper, ValueOf, Pretty, NoNumbers;
    if |items| > 0 {
      PrettyIsProper(items[0], indent, converts);
      PrettyItemsProper(items[1..], false, indent, converts);
      var rest := PrettyItems(items[1..], false, indent);
      OneItemProper(if first then "" else " ", Pretty(items[0], indent), rest, converts);
      assert PrettyItems(items, first, indent) == Item(if first then "" else " ", Pretty(items[0], indent), "", rest);
      assert items == [items[0]] + items[1..];
    }
  }

  lemma OneItemProper(before: string, l: Layout, rest: Items, converts: string -> bool)
    requires (before == "" || before == " ") && Proper(l, converts) && ProperItems(rest, converts)
    ensures ProperItems(Item(before, l, "", rest), converts)
      && ValuesOf(Item(before, l, "", rest)) == [ValueOf(l)] + ValuesOf(rest)
  {
    hide Proper, ValueOf;
  }

  lemma {:induction false} PrettyFieldsProper(members: seq<Member>, indent: nat, converts: string -> bool)
    requires |members| > 0 && Plain(members)
    ensures ProperFields(PrettyFields(members, indent), converts) && MembersOf(PrettyFields(members, indent)) == members
    decreases members
  {
    PrettyIsProper(members[0].value, indent + 2, converts);
    WrittenMeans(members[0].key);
    if |members| > 1 { PrettyFieldsProper(members[1..], indent, converts); }
  }

  // ------------------------------------------------------- text half-written

  /** One member on its line. */
  function Entry(m: Member, indent: nat): string
    requires NoNumbers(m.value)
  {
    Spaces(indent + 2) + Quote(m.key) + ": " + Print(Pretty(m.value, indent + 2))
  }

  /** What stands between "{\n" and the end of the last member written so far. */
  function Lines(members: seq<Member>, indent: nat): string
    requires Plain(members)
  {
    if |members| == 0 then ""
    else
      Lines(members[..|members| - 1], indent) + (if |members| > 1 then ",\n" else "")
      + Entry(members[|members| - 1], indent)
  }

  lemma {:induction false} LinesCons(members: seq<Member>, indent: nat)
    requires |members| > 1 && Plain(members)
    ensures Lines(members, indent) == Entry(members[0], indent) + (",\n" + Lines(members[1..], indent))
  {
    hide Entry;
    var front, back := members[..|members| - 1], members[1..];
    assert back[..|back| - 1] == front[1..];
    if |members| == 2 {
      assert front[..0] == back[..0] == [];
      assert Lines(front, indent) == Entry(members[0], indent);
    } else {
      LinesCons(front, indent);
    }
  }

  /** Closing the object after its last member gives exactly the laid-out object. */
  lemma {:induction false} LinesClosed(members: seq<Member>, indent: nat)
    requires |members| > 0 && Plain(members)
    ensures PrintFields(PrettyFields(members, indent)) == "\n" + Lines(members, indent) + "\n" + Spaces(indent)
  {
    hide Quote, Print, Pretty, Lines, Spaces, Entry, PrintFields, PrettyFields;
    var back, close := members[1..], "\n" + Spaces(indent);
    LinesFirst(members, indent);
    FieldsFirst(members, indent);
    if |members| > 1 {
      LinesClosed(back, indent);
      LinesCons(members, indent);
      Glue(Entry(members[0], indent), Lines(back, indent), close);
    }
  }

  lemma Glue(entry: string, rest: string, close: string)
    ensures "\n" + entry + ("," + ("\n" + rest + close)) == "\n" + (entry + (",\n" + rest)) + close
  {
  }

  lemma LinesFirst(members: seq<Member>, indent: nat)
    requires |members| > 0 && Plain(members)
    ensures |members| == 1 ==> Lines(members, indent) == Entry(members[0], indent)
  {
    if |members| == 1 { assert members[..0] == []; }
  }

  lemma FieldsFirst(members: seq<Member>, indent: nat)
    requires |members| > 0 && Plain(members)
    ensures PrintFields(PrettyFields(members, indent)) == "\n" + Entry(members[0], indent)
      + if |members| == 1 then "\n" + Spaces(indent) else "," + PrintFields(PrettyFields(members[1..], indent))
  {
    hide Quote, Print, Pretty, Spaces;
    var m := members[0];
    WrittenMeans(m.key);
    var key, value, close := Quote(m.key), Print(Pretty(m.value, indent + 2)), "\n" + Spaces(indent);
    if |members| == 1 {
      FieldText(Spaces(indent + 2), key, value, close, "");
    } else {
      FieldText(Spaces(indent + 2), key, value, "", "," + PrintFields(PrettyFields(members[1..], indent)));
    }
  }

  lemma FieldText(lead: string, key: string, value: string, after: string, rest: string)
    ensures "\n" + lead + (key + ("" + (":" + (" " + (value + (after + rest))))))
         == "\n" + (lead + key + ": " + value) + (after + rest)
  {
    assert ":" + (" " + (value + (after + rest))) == ": " + value + (after + rest);
  }
}
