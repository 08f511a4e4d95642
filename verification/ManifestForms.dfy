/** Other ways to write a manifest: single quotes, comments, tabs and further names for the sections. */
module ManifestForms {
  import opened Text
  import opened ManifestText
  import opened Manifest
  import opened ManifestLines
  import opened ManifestRoundTrip
  import opened ManifestScan
  import opened ManifestDocument

  function SingleQuoted(s: string): string { "'" + s + "'" }

  /** Single quotes come off as double ones do, and commas behind either. */
  lemma SingleQuotesComeOff(s: string)
    ensures Unquote(SingleQuoted(s)) == s && Unquote(SingleQuoted(s) + ",") == s && Unquote(Quoted(s) + ",") == s
  {
    TrimmedStays(SingleQuoted(s));
    assert SingleQuoted(s)[1..|s| + 1] == s;
    QuotesComeOff(s);
    CommaComesOff(SingleQuoted(s));
    CommaComesOff(Quoted(s));
  }

  lemma CommaComesOff(v: string)
    requires Solid(v)
    ensures Unquote(v + ",") == Unquote(v)
  {
    TrimmedStays(v + ",");
    assert (v + ",")[..|v|] == v;
  }

  lemma {:induction false} InsideSingle(s: string, i: nat, n: nat)
    requires i <= n <= |s| && forall k :: i <= k < n ==> s[k] != '\''
    ensures CommentAt(s, i, true, false) == CommentAt(s, n, true, false)
    decreases n - i
  {
    if i < n { InsideSingle(s, i + 1, n); }
  }

  /** No comment begins between single quotes, and the scan goes on behind them. */
  lemma SingleQuotesHide(s: string, rest: string)
    requires '\'' !in s
    ensures CommentAt(SingleQuoted(s) + rest, 0, false, false) == |s| + 2 + CommentAt(rest, 0, false, false)
  {
    var text := SingleQuoted(s) + rest;
    assert text[0] == '\'' && text[|s| + 1] == '\'';
    assert forall k :: 1 <= k < |s| + 1 ==> text[k] == s[k - 1];
    InsideSingle(text, 1, |s| + 1);
    CommentShift(SingleQuoted(s), rest, 0, false, false);
  }

  /** A comment behind a calm line is dropped with the blanks before it. */
  lemma CommentsAreDropped(l: Line, comment: string)
    requires Calm(l.text) && Solid(l.text)
    ensures CleanLine(Raw(l) + (" #" + comment)) == Some(l)
  {
    hide Trim, CommentAt, Span, Width;
    var lead, line := Raw(l), Raw(l) + " ";
    var raw := Raw(l) + (" #" + comment);
    SpacesAre(l.indent);
    assert Calm(line) by { CalmRaw(l); }
    assert raw == line + ("#" + comment);
    CalmPrefix(line, "#" + comment);
    HashBegins(comment);
    assert raw[..|line|] == line;
    assert line == Spaces(l.indent) + (l.text + " ");
    SpacesSpan(l.indent, l.text + " ", 0);
    assert line[l.indent..] == l.text + " " && line[..l.indent] == Spaces(l.indent);
    TrimTrailing(l.text);
  }

  lemma HashBegins(comment: string)
    ensures CommentAt("#" + comment, 0, false, false) == 0
  {
  }

  lemma CalmRaw(l: Line)
    requires Calm(l.text)
    ensures Calm(Raw(l) + " ")
  {
    SpacesAre(l.indent);
    var blank := Spaces(l.indent);
    forall k | 0 <= k < |Raw(l) + " "| ensures IsCalm((Raw(l) + " ")[k]) {
      if k < |blank| { assert (Raw(l) + " ")[k] == blank[k] == ' '; }
    }
  }

  lemma TrimTrailing(t: string)
    requires Solid(t)
    ensures Trim(t + " ") == t
  {
    var s := t + " ";
    SpanUnique(s, 0, IsSpace, 0);
    assert s[0..] == s && s[..|s| - 1] == t;
    assert TrimRight(t) == t;
  }

  function Tabs(n: nat): string { if n == 0 then "" else Tabs(n - 1) + "\t" }

  lemma {:induction false} TabsAre(n: nat)
    ensures |Tabs(n)| == n && (forall k :: 0 <= k < n ==> Tabs(n)[k] == '\t') && Width(Tabs(n)) == 2 * n
  {
    if n > 0 {
      TabsAre(n - 1);
      assert Tabs(n)[..n - 1] == Tabs(n - 1);
    }
  }

  /** A tab stands for two columns. */
  lemma TabsCountTwo(n: nat, text: string)
    requires Kept(text)
    ensures CleanLine(Tabs(n) + text) == Some(Line(2 * n, text))
  {
    hide Trim, CommentAt, Span, Width;
    var raw := Tabs(n) + text;
    TabsAre(n);
    CalmPrefix(Tabs(n), text);
    assert raw[..|raw|] == raw;
    SpanUnique(raw, 0, IsBlank, n);
    assert raw[n..] == text && raw[..n] == Tabs(n);
    TrimmedStays(text);
  }

  /** A further name of a section or field, and the name written by the emitter. */
  predicate SectionAlias(other: string, title: string) {
    || (title == "fsm" && (other == "machine" || other == "contract"))
    || (title == "variables" && other == "vars") || (title == "signals" && other == "events")
    || (title == "invariants" && other == "durations") || (title == "properties" && other == "specs")
    || (title == "requirements" && other == "reqs")
  }

  /** A section means the same under either name. */
  lemma AliasesAgree(other: string, title: string, body: seq<Line>, rest: seq<Line>, m: Contract,
                     converts: string -> bool)
    requires SectionAlias(other, title) && AtMargin(rest) && forall k :: 0 <= k < |body| ==> body[k].indent > 0
    ensures Read([Line(0, other + ":")] + body + rest, m, converts)
         == Read([Line(0, title + ":")] + body + rest, m, converts)
  {
    AliasesAreKeys(other, title);
    hide SectionOf, IsKey, Read, Filled;
    SectionReads(title, body, rest, m, converts);
    SectionReads(other, body, rest, m, converts);
  }

  lemma AliasesAreKeys(other: string, title: string)
    requires SectionAlias(other, title)
    ensures IsKey(other) && IsKey(title) && SectionOf(other) == SectionOf(title) != Alone
  {
    FirstNames();
    SectionNames();
    LaterNames();
    hide SectionOf, IsKey;
  }

  lemma FirstNames()
    ensures IsKey("fsm") && IsKey("machine") && IsKey("contract")
    ensures SectionOf("fsm") == SectionOf("machine") == SectionOf("contract") == HeaderSection
  {
  }

  lemma SectionNames()
    ensures IsKey("variables") && IsKey("vars") && SectionOf("variables") == SectionOf("vars") == VariableSection
    ensures IsKey("signals") && IsKey("events") && SectionOf("signals") == SectionOf("events") == SignalSection
    ensures IsKey("invariants") && IsKey("durations")
    ensures SectionOf("invariants") == SectionOf("durations") == InvariantSection
  {
    hide IsKey;
    WordKeys();
  }

  lemma WordKeys()
    ensures IsKey("variables") && IsKey("vars") && IsKey("signals") && IsKey("events")
    ensures IsKey("invariants") && IsKey("durations")
  {
  }

  lemma LaterNames()
    ensures IsKey("properties") && IsKey("specs") && SectionOf("properties") == SectionOf("specs") == PropertySection
    ensures IsKey("requirements") && IsKey("reqs") && SectionOf("requirements") == SectionOf("reqs")
    ensures SectionOf("reqs") == RequirementSection
  {
  }

  /** Fields with two names are set by either. */
  lemma FieldAliasesAgree(p: Port, v: Variable, q: Property, text: string, converts: string -> bool)
    ensures SetPort(converts)(p, "dir", text) == SetPort(converts)(p, "direction", text)
    ensures SetVariable(converts)(v, "init", text) == SetVariable(converts)(v, "initial", text)
         == SetVariable(converts)(v, "default", text)
    ensures SetProperty()(q, "ltl", text) == SetProperty()(q, "formula", text) == SetProperty()(q, "ctl", text)
  {
  }

  /** Under any other name nothing is set. */
  lemma OtherFieldsAreIgnored(p: Port, v: Variable, q: Property, a: Action, b: Attribute, key: string, text: string,
                              converts: string -> bool)
    ensures key !in {"name", "type", "direction", "dir", "constraint", "min", "max"} ==>
      SetPort(converts)(p, key, text) == p
    ensures key !in {"name", "type", "initial", "init", "default", "unit", "min", "max"} ==>
      SetVariable(converts)(v, key, text) == v
    ensures key !in {"name", "formula", "ltl", "ctl"} ==> SetProperty()(q, key, text) == q
    ensures key !in {"name", "signature", "inv"} ==> SetAction()(a, key, text) == a
    ensures key !in {"name", "type", "default"} ==> SetAttribute(b, key, text) == b
  {
  }

  /** A bound whose text the converter refuses is not set. */
  lemma RefusedBoundsStay(p: Port, v: Variable, key: string, text: string, converts: string -> bool)
    requires (key == "min" || key == "max") && !converts(text)
    ensures SetPort(converts)(p, key, Quoted(text)) == p && SetVariable(converts)(v, key, Quoted(text)) == v
  {
    hide Unquote;
    QuotesComeOff(text);
    assert Bound(Quoted(text), p.min, converts) == p.min && Bound(Quoted(text), p.max, converts) == p.max;
    assert Bound(Quoted(text), v.min, converts) == v.min && Bound(Quoted(text), v.max, converts) == v.max;
  }

  /** A closing bracket hands over the record that has begun, and nothing when none has. */
  lemma BracketsCloseRecords<R>(f: Filling<R>, close: string, blank: R, assign: Setter<R>)
    requires close in ["}", "},", "]", "],"]
    ensures f.begun ==> RecordStep(f, close, blank, assign) == Filling(f.done + [f.current], blank, false)
    ensures !f.begun ==> RecordStep(f, close, blank, assign) == f
  {
    assert close[0] != '-' && close[0] != '{';
    assert Undashed(close) == close;
  }

  /** A dash up to column 4 begins a signal, a deeper one within the attributes an attribute. */
  lemma DashesByIndent(s: Signals, p: Pair, indent: nat)
    requires Settled(s) && p.0 == "name" && Solid(p.1)
    ensures indent <= 4 ==>
      SignalStep(s, Line(indent, "- " + Entry(p)))
        == Signals(Filling(s.All(), Signal(Unquote(p.1), []), true), false, NO_ATTRIBUTE, false)
    ensures indent > 4 && s.inside ==>
      SignalStep(s, Line(indent, "- " + Entry(p)))
        == Signals(s.Settle().list, true, NO_ATTRIBUTE.(name := Unquote(p.1)), true)
  {
    hide KeyOf, ValueOf, Unquote, Undashed;
    assert IsKey("name");
    EntryReads(p);
    DashKey(p);
    assert ("- " + Entry(p))[..2] == "- " && ("- " + p.0)[0] == '-';
  }

  /** The attributes of a signal open under either name and close with or without a comma. */
  lemma AttributesOpenAndClose(s: Signals, name: string, close: string)
    requires (name == "attributes" || name == "attrs") && (close == "]" || close == "],")
    ensures SignalStep(s, Line(4, name + ":")) == s.(inside := true)
    ensures s.inside ==> SignalStep(s, Line(4, close)) == s.Settle().(inside := false)
  {
    TitleReads(name) by { assert IsKey(name); }
    assert (name + ":")[0] == 'a';
    assert name + ":" !in ["]", "],", "}", "},", "{"];
    hide Unquote, KeyOf;
  }

  /** Other fields of a signal are passed over. */
  lemma OtherSignalFields(s: Signals, p: Pair, indent: nat)
    requires IsKey(p.0) && Solid(p.1) && p.0 !in {"name", "attributes", "attrs"} && !s.inside
    ensures SignalStep(s, Line(indent, Entry(p))) == s
  {
    hide KeyOf, ValueOf, Unquote, Undashed;
    EntryReads(p);
    EntryStart(p);
  }

  /** Brackets around the requirements are none. */
  lemma BracketsAreNoRequirements(rs: seq<string>, bracket: string)
    requires bracket in ["[", "]", "],"]
    ensures RequirementStep(rs, bracket) == rs
  {
  }

  /** The name, package and initial state may also stand at the margin, outside any section. */
  lemma NamesAtTheMargin(key: string, s: string, rest: seq<Line>, m: Contract, converts: string -> bool)
    requires key == "package" || key == "name" || key == "initial"
    ensures Read([Line(0, Entry((key, Quoted(s))))] + rest, m, converts) == Read(rest, Named(m, key, s), converts)
  {
    var line := Line(0, Entry((key, Quoted(s))));
    var lines := [line] + rest;
    assert lines[1..] == rest && lines[0] == line;
    NameIsTop(key, s, m);
    hide KeyOf, Unquote, TopEntry, SectionOf, Entry, Named, BodyLength, Filled;
  }

  function Named(m: Contract, key: string, s: string): Contract {
    if key == "package" then m.(package := s) else if key == "name" then m.(name := s) else m.(initial := s)
  }

  lemma NameIsTop(key: string, s: string, m: Contract)
    requires key == "package" || key == "name" || key == "initial"
    ensures var text := Entry((key, Quoted(s)));
      SectionOf(Unquote(KeyOf(text))) == Alone && TopEntry(m, text) == Named(m, key, s)
  {
    hide KeyOf, ValueOf, Unquote, Entry, SectionOf;
    NamesHeadNoSection();
    QuotedIsSolid(s);
    hide IsKey, Quoted;
    EntryReads((key, Quoted(s)));
  }

  lemma NamesHeadNoSection()
    ensures IsKey("package") && SectionOf("package") == Alone
    ensures IsKey("name") && SectionOf("name") == Alone
    ensures IsKey("initial") && SectionOf("initial") == Alone
  {
  }
}
