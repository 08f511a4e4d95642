/** Companion manifests and what their lines mean, section by section. */
module Manifest {
  import opened Text
  import opened ManifestText

  /** Bounds are kept as the text of the number. */
  datatype Port = Port(name: string, typeName: string, direction: string, min: Option<string>, max: Option<string>,
                       constraint: string)
  datatype Variable = Variable(name: string, typeName: string, initial: string, unit: string, min: Option<string>,
                               max: Option<string>)
  datatype Attribute = Attribute(name: string, typeName: string, default: string)
  datatype Signal = Signal(name: string, attributes: seq<Attribute>)
  datatype Property = Property(name: string, formula: string)
  datatype Action = Action(name: string, signature: string, inv: string)

  datatype Contract = Contract(
    package: string, name: string, initial: string, ports: seq<Port>, variables: seq<Variable>, signals: seq<Signal>,
    invariants: map<string, string>, properties: seq<Property>, actions: seq<Action>, requirements: seq<string>)

  const NO_PORT := Port("", "uint32_t", "in", None, None, "")
  const NO_VARIABLE := Variable("", "uint32_t", "", "", None, None)
  const NO_ATTRIBUTE := Attribute("", "uint32_t", "")
  const NO_SIGNAL := Signal("", [])
  const NO_PROPERTY := Property("", "")
  const NO_ACTION := Action("", "", "")
  const NO_CONTRACT := Contract("", "", "", [], [], [], map[], [], [], [])

  predicate StartsWith(s: string, p: string) { |p| <= |s| && s[..|p|] == p }

  predicate IsDash(text: string) { StartsWith(text, "- ") }

  /** The text behind a dash. */
  function Undashed(text: string): string { if IsDash(text) then Trim(text[2..]) else text }

  // -------------------------------------------------------- fields by key

  /** What a setter does with a key and its (still quoted) value. */
  type Setter<!R> = (R, string, string) -> R

  /** A bound is set only when the library converter accepts its text. */
  function Bound(v: string, before: Option<string>, converts: string -> bool): Option<string> {
    if converts(Unquote(v)) then Some(Unquote(v)) else before
  }

  function SetPort(converts: string -> bool): Setter<Port> {
    (p: Port, k: string, v: string) =>
      if k == "name" then p.(name := Unquote(v))
      else if k == "type" then p.(typeName := Unquote(v))
      else if k == "direction" || k == "dir" then p.(direction := Unquote(v))
      else if k == "constraint" then p.(constraint := Unquote(v))
      else if k == "min" then p.(min := Bound(v, p.min, converts))
      else if k == "max" then p.(max := Bound(v, p.max, converts))
      else p
  }

  function SetVariable(converts: string -> bool): Setter<Variable> {
    (p: Variable, k: string, v: string) =>
      if k == "name" then p.(name := Unquote(v))
      else if k == "type" then p.(typeName := Unquote(v))
      else if k == "initial" || k == "init" || k == "default" then p.(initial := Unquote(v))
      else if k == "unit" then p.(unit := Unquote(v))
      else if k == "min" then p.(min := Bound(v, p.min, converts))
      else if k == "max" then p.(max := Bound(v, p.max, converts))
      else p
  }

  function SetProperty(): Setter<Property> {
    (p: Property, k: string, v: string) =>
      if k == "name" then p.(name := Unquote(v))
      else if k == "formula" || k == "ltl" || k == "ctl" then p.(formula := Unquote(v))
      else p
  }

  function SetAction(): Setter<Action> {
    (p: Action, k: string, v: string) =>
      if k == "name" then p.(name := Unquote(v))
      else if k == "signature" then p.(signature := Unquote(v))
      else if k == "inv" then p.(inv := Unquote(v))
      else p
  }

  function SetAttribute(a: Attribute, k: string, v: string): Attribute {
    if k == "name" then a.(name := Unquote(v))
    else if k == "type" then a.(typeName := Unquote(v))
    else if k == "default" then a.(default := Unquote(v))
    else a
  }

  // ------------------------------------------------------ one line at a time

  /** Finished records, the one being filled, and whether that one has begun. */
  datatype Filling<R> = Filling(done: seq<R>, current: R, begun: bool) {
    function Begin(blank: R): Filling<R> {
      if begun then Filling(done + [current], blank, true) else Filling(done, current, true)
    }

    function End(blank: R): Filling<R> {
      if begun then Filling(done + [current], blank, false) else this
    }

    function All(): seq<R> { if begun then done + [current] else done }
  }

  /** One line of a list of flat records. */
  function RecordStep<R>(f: Filling<R>, text: string, blank: R, assign: Setter<R>): Filling<R> {
    var g := if text == "{" || IsDash(text) then f.Begin(blank) else f;
    var t := Undashed(text);
    if text == "{" then g
    else if t in ["}", "},", "]", "],"] then g.End(blank)
    else g.(current := assign(g.current, Unquote(KeyOf(t)), ValueOf(t)))
  }

  /** Signals being filled, with the attribute being filled inside. */
  datatype Signals = Signals(list: Filling<Signal>, inside: bool, attribute: Attribute, started: bool) {
    /** Hands the attribute being filled to its signal. */
    function Settle(): Signals {
      if started then
        var s := list.current;
        Signals(list.(current := s.(attributes := s.attributes + [attribute])), inside, NO_ATTRIBUTE, false)
      else this
    }

    function All(): seq<Signal> { Settle().list.All() }
  }

  /** One line of the signal section; a dash up to column 4 begins a signal, a deeper one an attribute. */
  function SignalStep(s: Signals, line: Line): Signals {
    var text := line.text;
    if text in ["]", "],"] && s.inside then s.Settle().(inside := false)
    else if text in ["}", "},"] && s.started then s.Settle()
    else if text in ["}", "},"] && s.list.begun then s.(list := s.list.End(NO_SIGNAL))
    else if IsDash(text) && line.indent <= 4 then
      var settled := s.Settle();
      SignalEntry(Signals(settled.list.Begin(NO_SIGNAL), false, settled.attribute, false), Undashed(text))
    else if text == "{" && !s.inside then s.(list := s.list.Begin(NO_SIGNAL))
    else SignalEntry(s, text)
  }

  /** A line that is not a bracket and opens no signal. */
  function SignalEntry(s: Signals, text: string): Signals {
    var k, v := Unquote(KeyOf(text)), ValueOf(text);
    if k == "attributes" || k == "attrs" then s.(inside := true)
    else if s.inside then
      if text == "{" then s.Settle().(started := true)
      else if IsDash(text) then
        var t := Undashed(text);
        var g := s.Settle();
        Signals(g.list, true, SetAttribute(g.attribute, Unquote(KeyOf(t)), ValueOf(t)), true)
      else s.(attribute := SetAttribute(s.attribute, k, v))
    else if k == "name" then s.(list := s.list.(current := s.list.current.(name := Unquote(v))))
    else s
  }

  function HeaderStep(m: Contract, text: string): Contract {
    if text in ["{", "}", "},"] then m
    else
      var k, v := Unquote(KeyOf(text)), ValueOf(text);
      if k == "package" then m.(package := Unquote(v))
      else if k == "name" then m.(name := Unquote(v))
      else if k == "initial" then m.(initial := Unquote(v))
      else m
  }

  function InvariantStep(m: map<string, string>, text: string): map<string, string> {
    if text in ["{", "}", "},"] then m
    else
      var k, v := Unquote(KeyOf(text)), ValueOf(text);
      if k != "" && v != "" then m[k := Unquote(v)] else m
  }

  function RequirementStep(rs: seq<string>, text: string): seq<string> {
    if text in ["[", "]", "],"] then rs
    else
      var t := Undashed(text);
      if t != "" then rs + [Unquote(t)] else rs
  }

  // ------------------------------------------------------------ whole sections

  type Step<!S> = (S, Line) -> S

  function Run<S>(step: Step<S>, body: seq<Line>, s: S): S {
    if |body| == 0 then s else Run(step, body[1..], step(s, body[0]))
  }

  function Header(): Step<Contract> { (m: Contract, l: Line) => HeaderStep(m, l.text) }
  function Records<R>(blank: R, assign: Setter<R>): Step<Filling<R>> {
    (f: Filling<R>, l: Line) => RecordStep(f, l.text, blank, assign)
  }
  function SignalLines(): Step<Signals> { (s: Signals, l: Line) => SignalStep(s, l) }
  function Invariants(): Step<map<string, string>> {
    (m: map<string, string>, l: Line) => InvariantStep(m, l.text)
  }
  function Requirements(): Step<seq<string>> { (rs: seq<string>, l: Line) => RequirementStep(rs, l.text) }

  /** How many lines from the first on are indented: the body of a section. */
  function BodyLength(lines: seq<Line>): (n: nat)
    ensures n <= |lines|
    ensures forall k :: 0 <= k < n ==> lines[k].indent > 0
    ensures n < |lines| ==> lines[n].indent == 0
  {
    if |lines| == 0 || lines[0].indent == 0 then 0 else 1 + BodyLength(lines[1..])
  }

  datatype Section = HeaderSection | TypeSection | PortSection | VariableSection | SignalSection | InvariantSection
                   | PropertySection | ActionSection | RequirementSection | Alone

  function SectionOf(key: string): Section {
    if key in ["fsm", "machine", "contract"] then HeaderSection
    else if key in ["types", "custom_types", "structs"] then TypeSection
    else if key == "ports" then PortSection
    else if key in ["variables", "vars"] then VariableSection
    else if key in ["signals", "events"] then SignalSection
    else if key in ["invariants", "durations"] then InvariantSection
    else if key in ["properties", "specs"] then PropertySection
    else if key == "actions" then ActionSection
    else if key in ["requirements", "reqs"] then RequirementSection
    else Alone
  }

  /** What the body of a section adds; custom types are read over and not kept. */
  function Filled(m: Contract, section: Section, body: seq<Line>, converts: string -> bool): Contract {
    match section
    case HeaderSection => Run(Header(), body, m)
    case PortSection =>
      m.(ports := m.ports + Run(Records(NO_PORT, SetPort(converts)), body, Filling([], NO_PORT, false)).All())
    case VariableSection =>
      m.(variables := m.variables
                      + Run(Records(NO_VARIABLE, SetVariable(converts)), body, Filling([], NO_VARIABLE, false)).All())
    case SignalSection =>
      var start := Signals(Filling([], NO_SIGNAL, false), false, NO_ATTRIBUTE, false);
      m.(signals := m.signals + Run(SignalLines(), body, start).All())
    case InvariantSection => m.(invariants := Run(Invariants(), body, m.invariants))
    case PropertySection =>
      m.(properties := m.properties
                       + Run(Records(NO_PROPERTY, SetProperty()), body, Filling([], NO_PROPERTY, false)).All())
    case ActionSection =>
      m.(actions := m.actions + Run(Records(NO_ACTION, SetAction()), body, Filling([], NO_ACTION, false)).All())
    case RequirementSection => m.(requirements := Run(Requirements(), body, m.requirements))
    case _ => m
  }

  /** A line at the margin that heads no section. */
  function TopEntry(m: Contract, text: string): Contract {
    var key, value := Unquote(KeyOf(text)), ValueOf(text);
    if key == "package" then m.(package := Unquote(value))
    else if key == "name" then m.(name := Unquote(value))
    else if key == "initial" then m.(initial := Unquote(value))
    else m
  }

  function Read(lines: seq<Line>, m: Contract, converts: string -> bool): Contract
    decreases |lines|
  {
    if |lines| == 0 then m
    else if lines[0].indent != 0 then Read(lines[1..], m, converts)
    else
      var section := SectionOf(Unquote(KeyOf(lines[0].text)));
      if section == Alone then Read(lines[1..], TopEntry(m, lines[0].text), converts)
      else
        var n := 1 + BodyLength(lines[1..]);
        Read(lines[n..], Filled(m, section, lines[1..n], converts), converts)
  }

  // ------------------------------------------------------ wrapped in braces

  predicate Wrapped(lines: seq<Line>) {
    |lines| > 0 && lines[0].text == "{" && lines[|lines| - 1].text in ["}", "};"]
  }

  function LeastIndent(lines: seq<Line>): nat {
    if |lines| == 0 then 1000
    else
      var least := LeastIndent(lines[..|lines| - 1]);
      if lines[|lines| - 1].indent < least then lines[|lines| - 1].indent else least
  }

  function Shift(line: Line, columns: nat): Line {
    if line.indent >= columns then line.(indent := line.indent - columns) else line
  }

  /** Without the braces around a JSON manifest, and moved to the margin. */
  function Unwrapped(lines: seq<Line>): seq<Line> {
    if !Wrapped(lines) then lines
    else
      var inner := lines[1..|lines| - 1];
      seq(|inner|, k requires 0 <= k < |inner| => Shift(inner[k], LeastIndent(inner)))
  }

  /** The contract a manifest text stands for. */
  function Meaning(content: string, converts: string -> bool): Contract {
    Read(Unwrapped(CleanLines(RawLines(content))), NO_CONTRACT, converts)
  }
}
