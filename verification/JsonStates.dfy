/** The state tree as the exporter writes it: nested objects, commas placed by a flag. */
module JsonStates {
  import opened Text
  import opened Ir
  import opened Json
  import opened JsonRoundTrip
  import opened JsonPretty

  function KindText(k: StateKind): string {
    match k
    case Atomic => "Atomic"
    case Composite => "Composite"
    case Parallel => "Parallel"
    case Initial => "Initial"
    case Final => "Final"
    case ShallowHistory => "ShallowHistory"
    case DeepHistory => "DeepHistory"
    case Choice => "Choice"
    case Junction => "Junction"
    case Fork => "Fork"
    case Join => "Join"
    case EntryPoint => "EntryPoint"
    case ExitPoint => "ExitPoint"
    case Terminate => "Terminate"
  }

  // ------------------------------------------------ the value that is meant

  function Strings(xs: seq<string>): (v: Value)
    ensures NoNumbers(v)
  {
    Arr(seq(|xs|, k requires 0 <= k < |xs| => Str(xs[k])))
  }

  function ActionMembers(s: State): (ms: seq<Member>)
    ensures Plain(ms)
  {
    (if s.entryActions == [] then [] else [Member("entry", Strings(s.entryActions))])
    + (if s.exitActions == [] then [] else [Member("exit", Strings(s.exitActions))])
  }

  function TypeMembers(s: State): (ms: seq<Member>)
    ensures Plain(ms)
  {
    if s.history then
      [Member("type", Str("history")), Member("history", Str(if s.deepHistory then "deep" else "shallow"))]
    else if s.composite then
      [Member("type", Str("compound"))] + if s.initialSub == "" then [] else [Member("initial", Str(s.initialSub))]
    else []
  }

  function KindMembers(s: State): (ms: seq<Member>)
    ensures Plain(ms)
  {
    (if s.kind.Atomic? then [] else [Member("kind", Str(KindText(s.kind)))])
    + (if s.activity.None? then []
       else [Member("do", Str(s.activity.value)), Member("do_activity", Str(s.activity.value))])
  }

  function ListMembers(xs: seq<string>, key: string, alias: string): (ms: seq<Member>)
    ensures Plain(ms)
  {
    if xs == [] then [] else [Member(key, Strings(xs)), Member(alias, Strings(xs))]
  }

  /** What one state says of itself: an attribute appears only when it is set. */
  function Own(s: State): (ms: seq<Member>)
    ensures Plain(ms)
  {
    hide Strings, ActionMembers, TypeMembers, KindMembers, ListMembers;
    ActionMembers(s) + TypeMembers(s) + KindMembers(s)
    + ListMembers(s.requirements, "satisfies", "traceability_reqs")
    + ListMembers(s.deferred, "defer", "deferred_events")
  }

  function Children(states: seq<State>, p: string): (kids: seq<nat>)
    ensures forall i :: 0 <= i < |kids| ==> kids[i] < |states| && states[kids[i]].parent == p
  {
    if |states| == 0 then []
    else Children(states[..|states| - 1], p) + if states[|states| - 1].parent == p then [|states| - 1] else []
  }

  ghost function StateValue(states: seq<State>, k: nat, depth: string -> nat, height: nat): (v: Value)
    requires Forest(states, depth, height) && k < |states|
    ensures NoNumbers(v)
    decreases Below(height, depth(states[k].name)), 1, 0
  {
    var s := states[k];
    var kids := Children(states, s.name);
    Obj(Own(s) + if kids == [] then [] else [Member("states", Obj(Subtrees(states, s.name, kids, depth, height)))])
  }

  /** The listed children of one state, each with all below it. */
  ghost function Subtrees(states: seq<State>, p: string, kids: seq<nat>, depth: string -> nat,
                          height: nat): (ms: seq<Member>)
    requires Forest(states, depth, height)
    requires forall i :: 0 <= i < |kids| ==> kids[i] < |states| && states[kids[i]].parent == p
    ensures Plain(ms) && |ms| == |kids|
    decreases Below(height, depth(p)), 0, |kids|
  {
    if |kids| == 0 then []
    else
      var k := kids[|kids| - 1];
      assert states[k] in states;
      Subtrees(states, p, kids[..|kids| - 1], depth, height)
      + [Member(states[k].name, StateValue(states, k, depth, height))]
  }

  lemma StateMembers(states: seq<State>, k: nat, depth: string -> nat, height: nat)
    requires Forest(states, depth, height) && k < |states|
    ensures var s, kids := states[k], Children(states, states[k].name);
      StateValue(states, k, depth, height) ==
      Obj(if kids == [] then Own(s)
          else Own(s) + [Member("states", Obj(Subtrees(states, s.name, kids, depth, height)))])
  {
    assert Own(states[k]) + [] == Own(states[k]);
  }

  // ---------------------------------------------------------- the writer

  predicate IsBare(s: string) { forall k :: 0 <= k < |s| ==> IsAlpha(s[k]) || s[k] == '_' }

  lemma {:induction false} WordIsVerbatim(s: string)
    requires IsBare(s)
    ensures Escape(s) == s
  {
    if |s| > 0 {
      var init, last := s[..|s| - 1], s[|s| - 1];
      EscapeSnoc(s);
      WordIsVerbatim(init);
      LetterIsVerbatim(last);
      hide Escape, EscapeChar;
      assert s == init + [last];
    }
  }

  lemma LetterIsVerbatim(c: char)
    requires IsAlpha(c) || c == '_'
    ensures EscapeChar(c) == [c]
  {
  }

  lemma LinesSnoc(ms: seq<Member>, m: Member, indent: nat)
    requires Plain(ms) && NoNumbers(m.value)
    ensures Plain(ms + [m])
    ensures Lines(ms + [m], indent) == Lines(ms, indent) + (if |ms| > 0 then ",\n" else "") + Entry(m, indent)
  {
    assert (ms + [m])[..|ms|] == ms;
  }

  /** The text of a list from its `i`-th string on. */
  ghost function Tail(xs: seq<string>, i: nat, indent: nat): string
    requires i <= |xs|
  {
    PrintItems(PrettyItems(Strings(xs).items[i..], true, indent))
  }

  lemma TailSpans(xs: seq<string>, indent: nat)
    ensures Print(Pretty(Strings(xs), indent)) == "[" + Tail(xs, 0, indent) + "]" && Tail(xs, |xs|, indent) == ""
  {
    assert Strings(xs).items[0..] == Strings(xs).items;
  }

  lemma TailStep(xs: seq<string>, i: nat, indent: nat)
    requires i < |xs|
    ensures Tail(xs, i, indent) == Quote(xs[i]) + (if i + 1 < |xs| then ", " else "") + Tail(xs, i + 1, indent)
  {
    var vs := Strings(xs).items[i..];
    var rest := vs[1..];
    assert vs[0] == Str(xs[i]) && rest == Strings(xs).items[i + 1..];
    ItemsStep(xs[i], rest, vs, indent);
  }

  lemma ItemsStep(x: string, rest: seq<Value>, vs: seq<Value>, indent: nat)
    requires |vs| > 0 && vs[0] == Str(x) && rest == vs[1..] && forall k :: 0 <= k < |vs| ==> NoNumbers(vs[k])
    ensures PrintItems(PrettyItems(vs, true, indent)) ==
      Quote(x) + (if |rest| > 0 then ", " else "") + PrintItems(PrettyItems(rest, true, indent))
  {
    hide Quote, NoNumbers, Print, PrintItems;
    var more := PrettyItems(rest, false, indent);
    assert PrettyItems(vs, true, indent) == Item("", LStr(Written(x)), "", more);
    StringItem(x, more);
    if |rest| > 0 {
      NextItem(rest, indent);
      hide Pretty, PrettyItems;
      assert Quote(x) + ("," + (" " + PrintItems(PrettyItems(rest, true, indent))))
        == Quote(x) + ", " + PrintItems(PrettyItems(rest, true, indent));
    } else {
      NothingPrinted(rest, indent);
    }
  }

  lemma NothingPrinted(rest: seq<Value>, indent: nat)
    requires |rest| == 0
    ensures PrettyItems(rest, false, indent).LastItem? && PrintItems(PrettyItems(rest, true, indent)) == ""
  {
  }

  lemma StringItem(x: string, more: Items)
    ensures PrintItems(Item("", LStr(Written(x)), "", more))
         == Quote(x) + if more.LastItem? then "" else "," + PrintItems(more)
  {
    WrittenMeans(x);
    assert Print(LStr(Written(x))) == Quote(x);
    hide Quote, Print, PrintItems;
    ItemText("", LStr(Written(x)), "", more);
    EmptyEnds(Quote(x), if more.LastItem? then "" else "," + PrintItems(more));
  }

  lemma ItemText(before: string, l: Layout, after: string, more: Items)
    ensures PrintItems(Item(before, l, after, more)) ==
      before + (Print(l) + (after + (if more.LastItem? then "" else "," + PrintItems(more))))
  {
    hide Print;
  }

  lemma EmptyEnds(a: string, b: string)
    ensures "" + (a + ("" + b)) == a + b
  {
  }

  lemma NextItem(rest: seq<Value>, indent: nat)
    requires |rest| > 0 && forall k :: 0 <= k < |rest| ==> NoNumbers(rest[k])
    ensures PrettyItems(rest, false, indent).Item?
    ensures PrintItems(PrettyItems(rest, false, indent)) == " " + PrintItems(PrettyItems(rest, true, indent))
  {
    hide Print, Pretty;
    var shared, more := Pretty(rest[0], indent), PrettyItems(rest[1..], false, indent);
    var text := Print(shared) + ("" + (if more.LastItem? then "" else "," + PrintItems(more)));
    assert PrintItems(Item(" ", shared, "", more)) == " " + text;
    assert PrintItems(Item("", shared, "", more)) == "" + text;
  }

  method EscapeJson(s: string) returns (r: string)
    ensures r == Escape(s)
  {
    r := "";
    for i := 0 to |s|
      invariant r == Escape(s[..i])
    {
      assert s[..i + 1][..i] == s[..i];
      r := r + EscapeChar(s[i]);
    }
    assert s[..|s|] == s;
  }

  class Writer {
    var out: string

    constructor ()
      ensures out == ""
    {
      out := "";
    }

    /** The members `ms` have been written, and nothing else, since `start`. */
    ghost predicate Holds(start: string, ms: seq<Member>, indent: nat)
      reads this
    {
      Plain(ms) && out == start + Lines(ms, indent)
    }

    method WriteText(s: string)
      modifies this
      ensures out == old(out) + Quote(s)
    {
      var e := EscapeJson(s);
      out := out + "\"" + e + "\"";
    }

    /** A list of strings on one line. */
    method WriteStrings(xs: seq<string>, ghost indent: nat)
      modifies this
      ensures out == old(out) + Print(Pretty(Strings(xs), indent))
    {
      hide Quote, Tail, Print, Pretty, Strings;
      ghost var whole := Tail(xs, 0, indent);
      TailSpans(xs, indent);
      out := out + "[";
      ghost var written := "";
      for i := 0 to |xs|
        invariant out == old(out) + "[" + written && written + Tail(xs, i, indent) == whole
      {
        TailStep(xs, i, indent);
        WriteText(xs[i]);
        if i + 1 < |xs| { out := out + ", "; }
        written := written + (Quote(xs[i]) + if i + 1 < |xs| then ", " else "");
      }
      out := out + "]";
    }

    method WriteKey(key: string, comma: bool, indent: nat)
      requires IsBare(key)
      modifies this
      ensures out == old(out) + (if comma then ",\n" else "") + (Spaces(indent + 2) + Quote(key) + ": ")
    {
      WordIsVerbatim(key);
      hide Escape;
      if comma { out := out + ",\n"; }
      out := out + Spaces(indent + 2) + "\"" + key + "\": ";
    }

    lemma TextEntry(key: string, s: string, indent: nat)
      ensures NoNumbers(Str(s))
      ensures Entry(Member(key, Str(s)), indent) == (Spaces(indent + 2) + Quote(key) + ": ") + Quote(s)
    {
      WrittenMeans(s);
      hide Quote, Spaces;
    }

    method WriteTextMember(key: string, s: string, comma: bool, indent: nat, ghost start: string, ghost ms: seq<Member>)
      requires IsBare(key) && Holds(start, ms, indent) && comma == (ms != [])
      modifies this
      ensures Holds(start, ms + [Member(key, Str(s))], indent)
    {
      TextEntry(key, s, indent);
      hide Quote, Lines, Spaces, Entry, Plain;
      LinesSnoc(ms, Member(key, Str(s)), indent);
      WriteKey(key, comma, indent);
      WriteText(s);
    }

    method WriteListMember(key: string, xs: seq<string>, comma: bool, indent: nat, ghost start: string,
                           ghost ms: seq<Member>)
      requires IsBare(key) && Holds(start, ms, indent) && comma == (ms != [])
      modifies this
      ensures Holds(start, ms + [Member(key, Strings(xs))], indent)
    {
      hide Quote, Lines, Spaces, Strings, Print, Pretty;
      LinesSnoc(ms, Member(key, Strings(xs)), indent);
      WriteKey(key, comma, indent);
      WriteStrings(xs, indent + 2);
    }

    method WriteOwn(s: State, indent: nat, ghost start: string) returns (comma: bool)
      requires out == start
      modifies this
      ensures Holds(start, Own(s), indent) && comma == (Own(s) != [])
    {
      hide Quote, Lines, Spaces, Strings, Print, Pretty, Plain, ActionMembers, TypeMembers, KindMembers, ListMembers;
      ghost var ms: seq<Member> := [];
      NothingWritten(start, indent);
      comma := WriteActions(s, indent, start);
      ms := ActionMembers(s);
      comma := WriteType(s, comma, indent, start, ms);
      ms := ms + TypeMembers(s);
      comma := WriteKind(s, comma, indent, start, ms);
      ms := ms + KindMembers(s);
      comma := WriteTwice(s.requirements, "satisfies", "traceability_reqs", comma, indent, start, ms);
      ms := ms + ListMembers(s.requirements, "satisfies", "traceability_reqs");
      comma := WriteTwice(s.deferred, "defer", "deferred_events", comma, indent, start, ms);
    }

    method WriteActions(s: State, indent: nat, ghost start: string) returns (more: bool)
      requires Holds(start, [], indent)
      modifies this
      ensures Holds(start, ActionMembers(s), indent) && more == (ActionMembers(s) != [])
    {
      hide Quote, Lines, Spaces, Strings, Print, Pretty, Plain;
      ghost var ms: seq<Member> := [];
      more := false;
      if s.entryActions != [] {
        WriteListMember("entry", s.entryActions, more, indent, start, ms);
        ms := ms + [Member("entry", Strings(s.entryActions))];
        more := true;
      }
      if s.exitActions != [] {
        WriteListMember("exit", s.exitActions, more, indent, start, ms);
        ms := ms + [Member("exit", Strings(s.exitActions))];
        more := true;
      }
      assert ms == ActionMembers(s);
    }

    method WriteKind(s: State, comma: bool, indent: nat, ghost start: string, ghost before: seq<Member>)
      returns (more: bool)
      requires Holds(start, before, indent) && comma == (before != [])
      modifies this
      ensures Holds(start, before + KindMembers(s), indent) && more == (before + KindMembers(s) != [])
    {
      hide Quote, Lines, Spaces, Strings, Print, Pretty, Plain;
      ghost var ms := before;
      more := comma;
      if !s.kind.Atomic? {
        WriteTextMember("kind", KindText(s.kind), more, indent, start, ms);
        ms := ms + [Member("kind", Str(KindText(s.kind)))];
        more := true;
      }
      if s.activity.Some? {
        WriteTextMember("do", s.activity.value, more, indent, start, ms);
        ms := ms + [Member("do", Str(s.activity.value))];
        WriteTextMember("do_activity", s.activity.value, true, indent, start, ms);
        ms := ms + [Member("do_activity", Str(s.activity.value))];
        more := true;
      }
      assert ms == before + KindMembers(s);
    }

    lemma NothingWritten(start: string, indent: nat)
      requires out == start
      ensures Holds(start, [], indent)
    {
    }

    method WriteType(s: State, comma: bool, indent: nat, ghost start: string, ghost ms: seq<Member>)
      returns (more: bool)
      requires Holds(start, ms, indent) && comma == (ms != [])
      modifies this
      ensures Holds(start, ms + TypeMembers(s), indent) && more == (ms + TypeMembers(s) != [])
    {
      hide Quote, Lines, Spaces, Strings, Print, Pretty, Plain;
      more := comma;
      if s.history {
        var mode := if s.deepHistory then "deep" else "shallow";
        WriteTextMember("type", "history", comma, indent, start, ms);
        ghost var typed := ms + [Member("type", Str("history"))];
        WriteTextMember("history", mode, true, indent, start, typed);
        assert ms + TypeMembers(s) == typed + [Member("history", Str(mode))];
        more := true;
      } else if s.composite {
        WriteTextMember("type", "compound", comma, indent, start, ms);
        ghost var typed := ms + [Member("type", Str("compound"))];
        if s.initialSub != "" {
          WriteTextMember("initial", s.initialSub, true, indent, start, typed);
          assert ms + TypeMembers(s) == typed + [Member("initial", Str(s.initialSub))];
        } else {
          assert ms + TypeMembers(s) == typed;
        }
        more := true;
      } else {
        assert ms + TypeMembers(s) == ms;
      }
    }

    /** A list under its name and under its older name. */
    method WriteTwice(xs: seq<string>, key: string, alias: string, comma: bool, indent: nat, ghost start: string,
                      ghost ms: seq<Member>) returns (more: bool)
      requires IsBare(key) && IsBare(alias) && Holds(start, ms, indent) && comma == (ms != [])
      modifies this
      ensures Holds(start, ms + ListMembers(xs, key, alias), indent) && more == (ms + ListMembers(xs, key, alias) != [])
    {
      hide Quote, Lines, Spaces, Strings, Print, Pretty, Plain, IsBare;
      more := comma;
      if xs != [] {
        WriteListMember(key, xs, comma, indent, start, ms);
        WriteListMember(alias, xs, true, indent, start, ms + [Member(key, Strings(xs))]);
        assert ms + ListMembers(xs, key, alias) == ms + [Member(key, Strings(xs))] + [Member(alias, Strings(xs))];
        more := true;
      } else {
        assert ms + ListMembers(xs, key, alias) == ms;
      }
    }

    method EmitState(states: seq<State>, k: nat, indent: nat, ghost depth: string -> nat, ghost height: nat)
      requires Forest(states, depth, height) && k < |states|
      modifies this
      ensures out == old(out) + (Spaces(indent) + Quote(states[k].name) + ": "
                                 + Print(Pretty(StateValue(states, k, depth, height), indent)))
      decreases Below(height, depth(states[k].name)), 2, 0
    {
      hide Quote, Lines, Spaces, Print, Pretty, Plain, Own, Entry, Below, NoNumbers, Forest, StateValue, Subtrees,
           Children;
      var s := states[k];
      ghost var before := out;
      StateMembers(states, k, depth, height);
      out := out + Spaces(indent);
      WriteText(s.name);
      out := out + ": {\n";
      ghost var start := out;
      var comma := WriteOwn(s, indent, start);
      ghost var ms := StateValue(states, k, depth, height).members;
      EmitBelow(states, k, comma, indent, start, depth, height);
      out := out + "\n" + Spaces(indent) + "}";
      ObjectText(ms, indent);
      BracesJoin(before, Spaces(indent), Quote(s.name), Lines(ms, indent));
    }

    /** The member holding the children, if there are any. */
    method EmitBelow(states: seq<State>, k: nat, comma: bool, indent: nat, ghost start: string,
                     ghost depth: string -> nat, ghost height: nat)
      requires Forest(states, depth, height) && k < |states|
      requires Holds(start, Own(states[k]), indent) && comma == (Own(states[k]) != [])
      modifies this
      ensures Holds(start, StateValue(states, k, depth, height).members, indent)
      decreases Below(height, depth(states[k].name)), 1, 0
    {
      hide Quote, Lines, Spaces, Print, Pretty, Plain, Own, Entry, Subtrees, StateValue, Below, NoNumbers, Forest;
      StateMembers(states, k, depth, height);
      var s := states[k];
      var kids := CollectChildren(states, s.name);
      if kids != [] {
        ghost var subtrees := Subtrees(states, s.name, kids, depth, height);
        WriteKey("states", comma, indent);
        out := out + "{\n";
        EmitChildren(states, s.name, kids, indent + 4, depth, height);
        out := out + Spaces(indent + 2) + "}";
        BelowText(Own(s), subtrees, indent);
        MemberJoins(start, Lines(Own(s), indent), if comma then ",\n" else "",
                    Spaces(indent + 2) + Quote("states") + ": ",
                    Lines(subtrees, indent + 2), Spaces(indent + 2));
        assert out == start + Lines(Own(s) + [Member("states", Obj(subtrees))], indent);
      }
    }

    method EmitChildren(states: seq<State>, p: string, kids: seq<nat>, indent: nat, ghost depth: string -> nat,
                        ghost height: nat)
      requires Forest(states, depth, height) && indent >= 2 && kids != []
      requires forall i :: 0 <= i < |kids| ==> kids[i] < |states| && states[kids[i]].parent == p
      modifies this
      ensures out == old(out) + Lines(Subtrees(states, p, kids, depth, height), indent - 2) + "\n"
      decreases Below(height, depth(p)), 0, |kids|
    {
      hide Quote, Lines, Spaces, Print, Pretty, StateValue, Plain, Entry, Subtrees, ChildLines, Below;
      ghost var start := out;
      NoChildLines(states, p, kids, indent, depth, height);
      for c := 0 to |kids|
        invariant out == start + ChildLines(states, p, kids, c, indent, depth, height)
                         + (if c == 0 then "" else if c < |kids| then ",\n" else "\n")
      {
        var k := kids[c];
        ChildIsLower(states, k, p, depth, height);
        OneMoreChild(states, p, kids, c, indent, depth, height);
        EmitState(states, k, indent, depth, height);
        if c + 1 < |kids| { out := out + ","; }
        out := out + "\n";
      }
    }
  }

  /** The lines of the first `c` children, without the line end behind them. */
  ghost function ChildLines(states: seq<State>, p: string, kids: seq<nat>, c: nat, indent: nat, depth: string -> nat,
                            height: nat): string
    requires Forest(states, depth, height) && indent >= 2 && c <= |kids|
    requires forall i :: 0 <= i < |kids| ==> kids[i] < |states| && states[kids[i]].parent == p
  {
    Lines(Subtrees(states, p, kids[..c], depth, height), indent - 2)
  }

  lemma NoChildLines(states: seq<State>, p: string, kids: seq<nat>, indent: nat, depth: string -> nat, height: nat)
    requires Forest(states, depth, height) && indent >= 2
    requires forall i :: 0 <= i < |kids| ==> kids[i] < |states| && states[kids[i]].parent == p
    ensures ChildLines(states, p, kids, 0, indent, depth, height) == ""
    ensures ChildLines(states, p, kids, |kids|, indent, depth, height)
      == Lines(Subtrees(states, p, kids, depth, height), indent - 2)
  {
    assert kids[..0] == [] && kids[..|kids|] == kids;
    NoLines(indent - 2);
  }

  lemma ChildIsLower(states: seq<State>, k: nat, p: string, depth: string -> nat, height: nat)
    requires Forest(states, depth, height) && k < |states| && states[k].parent == p
    ensures Below(height, depth(states[k].name)) < Below(height, depth(p))
  {
    assert states[k] in states;
  }

  lemma OneMoreChild(states: seq<State>, p: string, kids: seq<nat>, c: nat, indent: nat, depth: string -> nat,
                     height: nat)
    requires Forest(states, depth, height) && indent >= 2 && c < |kids|
    requires forall i :: 0 <= i < |kids| ==> kids[i] < |states| && states[kids[i]].parent == p
    ensures ChildLines(states, p, kids, c + 1, indent, depth, height) ==
      ChildLines(states, p, kids, c, indent, depth, height) + (if c > 0 then ",\n" else "")
      + (Spaces(indent) + Quote(states[kids[c]].name) + ": "
         + Print(Pretty(StateValue(states, kids[c], depth, height), indent)))
  {
    hide Quote, Lines, Spaces, Print, Pretty, Entry, StateValue, Plain;
    var k, done := kids[c], Subtrees(states, p, kids[..c], depth, height);
    var next := Member(states[k].name, StateValue(states, k, depth, height));
    SubtreesSnoc(states, p, kids, c, depth, height);
    LinesSnoc(done, next, indent - 2);
    EntryText(next, indent - 2);
  }

  lemma SubtreesSnoc(states: seq<State>, p: string, kids: seq<nat>, c: nat, depth: string -> nat, height: nat)
    requires Forest(states, depth, height) && c < |kids|
    requires forall i :: 0 <= i < |kids| ==> kids[i] < |states| && states[kids[i]].parent == p
    ensures Subtrees(states, p, kids[..c + 1], depth, height) ==
      Subtrees(states, p, kids[..c], depth, height)
      + [Member(states[kids[c]].name, StateValue(states, kids[c], depth, height))]
  {
    hide StateValue, Plain;
    assert kids[..c + 1][..c] == kids[..c];
  }

  lemma MemberJoins(start: string, own: string, comma: string, key: string, lines: string, gap: string)
    ensures start + own + comma + key + "{\n" + lines + "\n" + gap + "}"
      == start + (own + comma + key + "{\n" + (lines + "\n") + (gap + "}"))
  {
  }

  lemma BracesJoin(start: string, gap: string, name: string, lines: string)
    ensures start + gap + name + ": {\n" + lines + "\n" + gap + "}"
      == start + (gap + name + ": " + ("{\n" + lines + "\n" + gap + "}"))
  {
    assert ": {\n" == ": " + "{\n";
  }

  lemma ObjectIsPlain(ms: seq<Member>)
    requires Plain(ms)
    ensures NoNumbers(Obj(ms))
  {
  }

  lemma NoLines(indent: nat)
    ensures Lines([], indent) == ""
  {
  }

  lemma EntryText(m: Member, indent: nat)
    requires NoNumbers(m.value)
    ensures Entry(m, indent) == Spaces(indent + 2) + Quote(m.key) + ": " + Print(Pretty(m.value, indent + 2))
  {
  }

  /** Braces around the written members make the laid-out object. */
  lemma ObjectText(ms: seq<Member>, indent: nat)
    requires Plain(ms)
    ensures Print(Pretty(Obj(ms), indent)) == "{\n" + Lines(ms, indent) + "\n" + Spaces(indent) + "}"
  {
    hide Lines, Spaces, Quote, PrettyFields, Plain;
    if ms == [] {
      NoLines(indent);
      assert Print(LObj(NoFields("\n\n" + Spaces(indent)))) == "{" + ("\n\n" + Spaces(indent)) + "}";
    } else {
      LinesClosed(ms, indent);
      hide PrintFields;
    }
  }

  lemma BelowText(ms: seq<Member>, below: seq<Member>, indent: nat)
    requires Plain(ms) && Plain(below)
    ensures Plain(ms + [Member("states", Obj(below))])
    ensures Lines(ms + [Member("states", Obj(below))], indent) ==
      Lines(ms, indent) + (if |ms| > 0 then ",\n" else "") + (Spaces(indent + 2) + Quote("states") + ": ")
      + "{\n" + (Lines(below, indent + 2) + "\n") + (Spaces(indent + 2) + "}")
  {
    hide Lines, Spaces, Quote, Print, Pretty, Entry, Plain;
    ObjectIsPlain(below);
    LinesSnoc(ms, Member("states", Obj(below)), indent);
    EntryText(Member("states", Obj(below)), indent);
    ObjectText(below, indent + 2);
  }

  method CollectChildren(states: seq<State>, p: string) returns (kids: seq<nat>)
    ensures kids == Children(states, p)
  {
    kids := [];
    for i := 0 to |states|
      invariant kids == Children(states[..i], p)
    {
      assert states[..i + 1][..i] == states[..i];
      if states[i].parent == p { kids := kids + [i]; }
    }
    assert states[..|states|] == states;
  }

  /** The state section of a model: reading the written text gives back the tree of states. */
  method EmitTree(states: seq<State>, ghost depth: string -> nat, ghost height: nat) returns (text: string)
    requires Forest(states, depth, height)
    ensures forall converts :: Document(text, converts) ==
                               Ok(Obj(Subtrees(states, "", Children(states, ""), depth, height)), |text|)
  {
    hide Lines, Spaces, Quote, Print, Pretty, Document, ValueOf, Subtrees, Plain;
    var w := new Writer();
    var top := CollectChildren(states, "");
    ghost var value := Obj(Subtrees(states, "", top, depth, height));
    w.out := "{\n";
    ghost var l := LObj(NoFields("\n  "));
    ObjectIsPlain(value.members);
    if top != [] {
      w.EmitChildren(states, "", top, 4, depth, height);
      l := Pretty(value, 2);
      forall converts ensures Proper(l, converts) && ValueOf(l) == value { PrettyIsProper(value, 2, converts); }
    }
    w.out := w.out + "  }";
    text := w.out;
    TreeText(value.members);
    NoSubtrees(states, depth, height);
    assert text == Print(l);
    forall converts ensures Document(text, converts) == Ok(value, |text|) {
      DocumentReads("", l, "", converts);
      assert "" + Print(l) + "" == text;
    }
  }

  lemma NoSubtrees(states: seq<State>, depth: string -> nat, height: nat)
    requires Forest(states, depth, height)
    ensures Subtrees(states, "", [], depth, height) == []
    ensures (forall converts :: Proper(LObj(NoFields("\n  ")), converts)) && ValueOf(LObj(NoFields("\n  "))) == Obj([])
    ensures Print(LObj(NoFields("\n  "))) == "{\n" + "  }"
  {
  }

  lemma TreeText(ms: seq<Member>)
    requires Plain(ms)
    ensures Print(Pretty(Obj(ms), 2)) == "{\n" + Lines(ms, 2) + "\n" + "  }"
  {
    hide Lines, Quote, Print, Pretty;
    ObjectText(ms, 2);
    assert Spaces(2) == "  ";
  }
}
