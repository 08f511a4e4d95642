/** The lines of the YAML text written for a manifest. */
module ManifestLines {
  import opened Text
  import opened ManifestText
  import opened Manifest

  type Pair = (string, string)

  function Entry(p: Pair): string { p.0 + ": " + p.1 }

  /** An entry that is written only when its text is not empty. */
  function Optional(key: string, s: string): seq<Pair> { if s == "" then [] else [(key, Quoted(s))] }

  function Limit(key: string, bound: Option<string>): seq<Pair> {
    match bound
    case None => []
    case Some(b) => [(key, b)]
  }

  function PortPairs(p: Port): (pairs: seq<Pair>)
    ensures |pairs| > 0
  {
    [("name", Quoted(p.name)), ("type", Quoted(p.typeName)), ("direction", Quoted(p.direction))]
    + (Limit("min", p.min) + (Limit("max", p.max) + Optional("constraint", p.constraint)))
  }

  function VariablePairs(v: Variable): (pairs: seq<Pair>)
    ensures |pairs| > 0
  {
    [("name", Quoted(v.name)), ("type", Quoted(v.typeName))]
    + (Optional("initial", v.initial) + (Optional("unit", v.unit) + (Limit("min", v.min) + Limit("max", v.max))))
  }

  function PropertyPairs(p: Property): (pairs: seq<Pair>)
    ensures |pairs| > 0
  {
    [("name", Quoted(p.name)), ("formula", Quoted(p.formula))]
  }

  function ActionPairs(a: Action): (pairs: seq<Pair>)
    ensures |pairs| > 0
  {
    [("name", Quoted(a.name))] + (Optional("signature", a.signature) + Optional("inv", a.inv))
  }

  function Fields(pairs: seq<Pair>, indent: nat): seq<Line> {
    if |pairs| == 0 then [] else [Line(indent, Entry(pairs[0]))] + Fields(pairs[1..], indent)
  }

  /** A dash before the first entry, the others two columns deeper. */
  function Item(pairs: seq<Pair>, indent: nat): seq<Line> {
    if |pairs| == 0 then [] else [Line(indent, "- " + Entry(pairs[0]))] + Fields(pairs[1..], indent + 2)
  }

  function Listed<R>(rs: seq<R>, pairs: R -> seq<Pair>, indent: nat): seq<Line> {
    if |rs| == 0 then [] else Item(pairs(rs[0]), indent) + Listed(rs[1..], pairs, indent)
  }

  function AttributePairs(a: Attribute): (pairs: seq<Pair>)
    ensures |pairs| > 0
  {
    [("name", Quoted(a.name)), ("type", Quoted(a.typeName))] + Optional("default", a.default)
  }

  function SignalHead(s: Signal): seq<Line> {
    [Line(2, "- " + Entry(("name", Quoted(s.name))))] + if s.attributes == [] then [] else [Line(4, "attributes:")]
  }

  function SignalsLines(vs: seq<Signal>): seq<Line> {
    if |vs| == 0 then [] else SignalHead(vs[0]) + (Listed(vs[0].attributes, AttributePairs, 6) + SignalsLines(vs[1..]))
  }

  function HeaderPairs(m: Contract): seq<Pair> {
    Optional("package", m.package) + ([("name", Quoted(m.name))] + Optional("initial", m.initial))
  }

  /** State names are written as they are, without quotes. */
  function InvariantLines(m: map<string, string>, order: seq<string>): seq<Line>
    requires forall k :: k in order ==> k in m
  {
    if |order| == 0 then []
    else [Line(2, Entry((order[0], Quoted(m[order[0]]))))] + InvariantLines(m, order[1..])
  }

  function RequirementLines(rs: seq<string>): seq<Line> {
    if |rs| == 0 then [] else [Line(2, "- " + Quoted(rs[0]))] + RequirementLines(rs[1..])
  }

  // ------------------------------------------------------------- raw lines

  function Raw(l: Line): string { Spaces(l.indent) + l.text }

  function Raws(ls: seq<Line>): seq<string> { if |ls| == 0 then [] else [Raw(ls[0])] + Raws(ls[1..]) }

  /** A section with nothing in it is left out; others are set off by an empty line. */
  function RawBlock(title: string, body: seq<Line>): seq<string> {
    if body == [] then [] else ["", title + ":"] + Raws(body)
  }

  const BANNER := "# Generated by fsmc " + "CompanionManifestEmitter " + "(target-agnostic " + "formal contract)"

  /** The sections behind the header; `order` is the order in which the invariant table hands out its keys. */
  function RawTail(m: Contract, order: seq<string>): seq<string>
    requires forall k :: k in order ==> k in m.invariants
  {
    RawBlock("ports", Listed(m.ports, PortPairs, 2))
    + (RawBlock("variables", Listed(m.variables, VariablePairs, 2))
    + (RawBlock("signals", SignalsLines(m.signals))
    + (RawBlock("invariants", InvariantLines(m.invariants, order))
    + (RawBlock("properties", Listed(m.properties, PropertyPairs, 2))
    + (RawBlock("actions", Listed(m.actions, ActionPairs, 2))
    + RawBlock("requirements", RequirementLines(m.requirements)))))))
  }

  function Yaml(m: Contract, order: seq<string>): seq<string>
    requires forall k :: k in order ==> k in m.invariants
  {
    [BANNER, "fsm:"] + (Raws(Fields(HeaderPairs(m), 2)) + RawTail(m, order))
  }

  function Joined(raws: seq<string>): string { if |raws| == 0 then "" else raws[0] + "\n" + Joined(raws[1..]) }
}
