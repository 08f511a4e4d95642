/** The manifest reader as it runs: scanning lines, then sections that advance an index. */
module ManifestParser {
  import opened Text
  import opened ManifestText
  import opened Manifest
  import opened ManifestScan

  method TrimText(s: string) returns (t: string)
    ensures t == Trim(s)
  {
    var start := 0;
    while start < |s| && IsSpace(s[start])
      invariant start <= |s| && SkipWs(s, start) == SkipWs(s, 0)
    {
      start := start + 1;
    }
    ghost var kept := s[start..];
    if start == |s| { return ""; }
    var end := |s| - 1;
    assert s[start..end + 1] == kept;
    while end > start && IsSpace(s[end])
      invariant start <= end < |s| && TrimRight(s[start..end + 1]) == TrimRight(kept)
    {
      assert s[start..end + 1][..end - start] == s[start..end];
      end := end - 1;
    }
    t := s[start..end + 1];
  }

  method UnquoteText(s: string) returns (r: string)
    ensures r == Unquote(s)
    decreases |s|
  {
    var t := TrimText(s);
    if |t| >= 2 && ((t[0] == '"' && t[|t| - 1] == '"') || (t[0] == '\'' && t[|t| - 1] == '\'')) {
      return t[1..|t| - 1];
    }
    if t != "" && t[|t| - 1] == ',' {
      r := UnquoteText(t[..|t| - 1]);
    } else {
      r := t;
    }
  }

  /** One raw line: comment cut off, indentation measured, the rest trimmed. */
  method ScanLine(raw: string) returns (line: Option<Line>)
    ensures line == CleanLine(raw)
  {
    hide Trim;
    var cleaned, single, double, i := "", false, false, 0;
    while i < |raw|
      invariant i <= |raw| && cleaned == raw[..i]
      invariant CommentAt(raw, i, single, double) == CommentAt(raw, 0, false, false)
    {
      var c := raw[i];
      if c == '\'' && !double { single := !single; }
      if c == '"' && !single { double := !double; }
      if c == '#' && !single && !double { break; }
      cleaned := cleaned + [c];
      i := i + 1;
    }
    var first, indent := 0, 0;
    while first < |cleaned| && IsBlank(cleaned[first])
      invariant first <= |cleaned| && Span(cleaned, first, IsBlank) == Span(cleaned, 0, IsBlank)
      invariant indent == Width(cleaned[..first])
    {
      assert cleaned[..first + 1][..first] == cleaned[..first];
      indent := indent + if cleaned[first] == '\t' then 2 else 1;
      first := first + 1;
    }
    if first == |cleaned| { return None; }
    var text := TrimText(cleaned[first..]);
    line := if text == "" then None else Some(Line(indent, text));
  }

  method PreprocessLines(content: string) returns (lines: seq<Line>)
    ensures lines == CleanLines(RawLines(content))
  {
    hide CleanLine, CleanLines, RawLines;
    lines := [];
    var pos := 0;
    assert content[0..] == content;
    while pos < |content|
      invariant pos <= |content|
      invariant lines + CleanLines(RawLines(content[pos..])) == CleanLines(RawLines(content))
    {
      var end := pos;
      while end < |content| && content[end] != '\n'
        invariant pos <= end <= |content| && forall k :: pos <= k < end ==> content[k] != '\n'
      {
        end := end + 1;
      }
      ghost var next := if end < |content| then end + 1 else end;
      FirstRawLine(content, pos, end, next);
      CleanConcat([content[pos..end]], RawLines(content[next..]));
      CleanOne(content[pos..end]);
      var line := ScanLine(content[pos..end]);
      if line.Some? { lines := lines + [line.value]; }
      pos := if end < |content| then end + 1 else end;
    }
    assert content[pos..] == "";
    NothingRaw();
  }

  lemma NothingRaw()
    ensures CleanLines(RawLines("")) == []
  {
  }

  lemma FirstRawLine(content: string, pos: nat, end: nat, next: nat)
    requires pos < |content| && pos <= end <= |content| && (forall k :: pos <= k < end ==> content[k] != '\n')
    requires end < |content| ==> content[end] == '\n'
    requires next == if end < |content| then end + 1 else end
    ensures RawLines(content[pos..]) == [content[pos..end]] + RawLines(content[next..])
  {
    var s := content[pos..];
    assert forall k :: 0 <= k < end - pos ==> s[k] == content[pos + k];
    SpanUnique(s, 0, NotNewline, end - pos);
    assert s[..end - pos] == content[pos..end];
    if end < |content| {
      assert s[end - pos + 1..] == content[next..];
    } else {
      assert content[next..] == "" && RawLines("") == [];
      assert RawLines(s) == [s[..end - pos]];
    }
  }

  method SplitKeyValue(text: string) returns (key: string, value: string)
    ensures key == KeyOf(text) && value == ValueOf(text)
  {
    hide Trim;
    var colon := 0;
    while colon < |text| && text[colon] != ':'
      invariant colon <= |text| && Span(text, colon, NotColon) == Span(text, 0, NotColon)
    {
      colon := colon + 1;
    }
    if colon == |text| {
      assert text[..colon] == text;
      key := TrimText(text);
      value := "";
    } else {
      key := TrimText(text[..colon]);
      value := TrimText(text[colon + 1..]);
    }
  }

  lemma BodyStops(lines: seq<Line>, i: nat)
    requires i <= |lines|
    ensures i < |lines| && lines[i].indent > 0 ==> BodyLength(lines[i..]) == 1 + BodyLength(lines[i + 1..])
    ensures i == |lines| || lines[i].indent == 0 ==> BodyLength(lines[i..]) == 0
  {
    if i < |lines| { assert lines[i..][1..] == lines[i + 1..]; }
  }

  lemma RunNext<S>(step: Step<S>, body: seq<Line>, s: S)
    requires |body| > 0
    ensures Run(step, body, s) == Run(step, body[1..], step(s, body[0]))
  {
  }

  /** Runs over the indented lines from `idx` on, one step a line. */
  method ParseSection<S>(lines: seq<Line>, idx: nat, start: S, step: Step<S>) returns (s: S, next: nat)
    requires idx <= |lines|
    ensures next == idx + BodyLength(lines[idx..]) <= |lines|
    ensures s == Run(step, lines[idx..next], start)
  {
    ghost var end := idx + BodyLength(lines[idx..]);
    s, next := start, idx;
    while next < |lines| && lines[next].indent > 0
      invariant idx <= next <= end <= |lines| && next + BodyLength(lines[next..]) == end
      invariant Run(step, lines[next..end], s) == Run(step, lines[idx..end], start)
    {
      BodyStops(lines, next);
      RunNext(step, lines[next..end], s);
      assert lines[next..end][1..] == lines[next + 1..end];
      s := step(s, lines[next]);
      next := next + 1;
    }
    BodyStops(lines, next);
    assert lines[next..end] == [];
  }

  method Unwrap(lines: seq<Line>) returns (r: seq<Line>)
    ensures r == Unwrapped(lines)
  {
    if |lines| == 0 || lines[0].text != "{" || lines[|lines| - 1].text !in ["}", "};"] { return lines; }
    var inner := lines[1..|lines| - 1];
    var least := 1000;
    for i := 0 to |inner|
      invariant least == LeastIndent(inner[..i])
    {
      assert inner[..i + 1][..i] == inner[..i];
      if inner[i].indent < least { least := inner[i].indent; }
    }
    assert inner[..|inner|] == inner;
    r := [];
    for i := 0 to |inner|
      invariant |r| == i && forall k :: 0 <= k < i ==> r[k] == Shift(inner[k], least)
    {
      r := r + [if inner[i].indent >= least then inner[i].(indent := inner[i].indent - least) else inner[i]];
    }
  }

  /** The lines of one section and what they add; custom types are read over. */
  method ParseBody(section: Section, lines: seq<Line>, idx: nat, m: Contract, converts: string -> bool)
    returns (r: Contract, next: nat)
    requires idx <= |lines|
    ensures next == idx + BodyLength(lines[idx..]) <= |lines|
    ensures r == Filled(m, section, lines[idx..next], converts)
  {
    match section
    case HeaderSection => { r, next := ParseSection(lines, idx, m, Header()); }
    case PortSection => {
      var f, n := ParseSection(lines, idx, Filling([], NO_PORT, false), Records(NO_PORT, SetPort(converts)));
      r, next := m.(ports := m.ports + f.All()), n;
    }
    case VariableSection => {
      var f, n := ParseSection(lines, idx, Filling([], NO_VARIABLE, false),
                               Records(NO_VARIABLE, SetVariable(converts)));
      r, next := m.(variables := m.variables + f.All()), n;
    }
    case SignalSection => {
      var f, n := ParseSection(lines, idx, Signals(Filling([], NO_SIGNAL, false), false, NO_ATTRIBUTE, false),
                               SignalLines());
      r, next := m.(signals := m.signals + f.All()), n;
    }
    case InvariantSection => {
      var f, n := ParseSection(lines, idx, m.invariants, Invariants());
      r, next := m.(invariants := f), n;
    }
    case PropertySection => {
      var f, n := ParseSection(lines, idx, Filling([], NO_PROPERTY, false), Records(NO_PROPERTY, SetProperty()));
      r, next := m.(properties := m.properties + f.All()), n;
    }
    case ActionSection => {
      var f, n := ParseSection(lines, idx, Filling([], NO_ACTION, false), Records(NO_ACTION, SetAction()));
      r, next := m.(actions := m.actions + f.All()), n;
    }
    case RequirementSection => {
      var f, n := ParseSection(lines, idx, m.requirements, Requirements());
      r, next := m.(requirements := f), n;
    }
    case _ => {
      var _, n := ParseSection(lines, idx, m, Ignored());
      r, next := m, n;
    }
  }

  function Ignored(): Step<Contract> { (m: Contract, l: Line) => m }

  lemma ReadStep(lines: seq<Line>, idx: nat, m: Contract, converts: string -> bool)
    requires idx < |lines|
    ensures var section, n := SectionOf(Unquote(KeyOf(lines[idx].text))), idx + 1 + BodyLength(lines[idx + 1..]);
      Read(lines[idx..], m, converts) ==
        if lines[idx].indent != 0 then Read(lines[idx + 1..], m, converts)
        else if section == Alone then Read(lines[idx + 1..], TopEntry(m, lines[idx].text), converts)
        else Read(lines[n..], Filled(m, section, lines[idx + 1..n], converts), converts)
  {
    hide Filled, SectionOf, Unquote, KeyOf, TopEntry;
    var rest, n := lines[idx..], idx + 1 + BodyLength(lines[idx + 1..]);
    assert rest[1..] == lines[idx + 1..];
    assert rest[n - idx..] == lines[n..] && rest[1..n - idx] == lines[idx + 1..n];
  }

  method ParseTopEntry(m: Contract, key: string, value: string, ghost text: string) returns (r: Contract)
    requires key == Unquote(KeyOf(text)) && value == ValueOf(text)
    ensures r == TopEntry(m, text)
  {
    hide Unquote, KeyOf, ValueOf;
    var v := UnquoteText(value);
    r := m;
    if key == "package" {
      r := m.(package := v);
    } else if key == "name" {
      r := m.(name := v);
    } else if key == "initial" {
      r := m.(initial := v);
    }
  }

  /** Reads a manifest text; `converts` says which bounds the library converter accepts. */
  method Parse(content: string, converts: string -> bool) returns (m: Contract)
    ensures m == Meaning(content, converts)
  {
    hide Read, Filled, Unquote, KeyOf, ValueOf, SectionOf, TopEntry, CleanLines, RawLines, Unwrapped, BodyLength;
    var scanned := PreprocessLines(content);
    var lines := Unwrap(scanned);
    m := NO_CONTRACT;
    var idx := 0;
    assert lines[0..] == lines;
    while idx < |lines|
      invariant idx <= |lines| && Read(lines[idx..], m, converts) == Meaning(content, converts)
    {
      ReadStep(lines, idx, m, converts);
      if lines[idx].indent != 0 {
        idx := idx + 1;
      } else {
        var k, value := SplitKeyValue(lines[idx].text);
        var key := UnquoteText(k);
        var section := SectionOf(key);
        if section == Alone {
          m := ParseTopEntry(m, key, value, lines[idx].text);
          idx := idx + 1;
        } else {
          m, idx := ParseBody(section, lines, idx + 1, m, converts);
        }
      }
    }
    NothingToRead(m, converts);
    assert lines[idx..] == [];
  }

  lemma NothingToRead(m: Contract, converts: string -> bool)
    ensures Read([], m, converts) == m
  {
  }
}
