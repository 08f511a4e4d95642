/** Expression trees, their infix printer and the grammar the parser follows. */
module Expr {
  import opened Text

  const INT64_LIMIT: int := 0x8000_0000_0000_0000

  datatype UnOp = Negate | BitwiseNot | LogicalNot

  datatype BinOp = Multiply | Divide | Modulo | Add | Subtract | ShiftLeft | ShiftRight
    | BitwiseAnd | BitwiseXor | BitwiseOr

  /** A floating-point node keeps its lexeme: the numeric value is opaque here. */
  datatype Node =
    | IntLiteral(value: int)
    | FloatLiteral(lexeme: string)
    | BoolLiteral(truth: bool)
    | EnumLiteral(symbol: string)
    | VariableRef(symbol: string)
    | PortRef(symbol: string)
    | EventParamRef(symbol: string)
    | Unary(uop: UnOp, child: Node)
    | Binary(bop: BinOp, left: Node, right: Node)
    | Raw(symbol: string)

  // ---------------------------------------------------------------- printing

  function UnText(op: UnOp): string {
    match op
    case Negate => "-"
    case BitwiseNot => "~"
    case LogicalNot => "!"
  }

  function BinText(op: BinOp): string {
    match op
    case Multiply => "*"
    case Divide => "/"
    case Modulo => "%"
    case Add => "+"
    case Subtract => "-"
    case ShiftLeft => "<<"
    case ShiftRight => ">>"
    case BitwiseAnd => "&"
    case BitwiseXor => "^"
    case BitwiseOr => "|"
  }

  function Prec(op: BinOp): (p: nat)
    ensures 1 <= p <= 6
  {
    match op
    case Multiply => 6
    case Divide => 6
    case Modulo => 6
    case Add => 5
    case Subtract => 5
    case ShiftLeft => 4
    case ShiftRight => 4
    case BitwiseAnd => 3
    case BitwiseXor => 2
    case BitwiseOr => 1
  }

  /** Binding strength of a node: operators bind as their table says, the rest tightest. */
  function Strength(e: Node): (p: nat)
    ensures 1 <= p <= 7
  {
    if e.Binary? then Prec(e.bop) else 7
  }

  function DigitChar(d: nat): char
    requires d < 10
  {
    '0' + d as char
  }

  /** Decimal digits of a natural number. */
  function Digits(n: nat): string {
    if n < 10 then [DigitChar(n)] else Digits(n / 10) + [DigitChar(n % 10)]
  }

  function IntText(v: int): string {
    if v < 0 then "-" + Digits(-v) else Digits(v)
  }

  function Parens(s: string): string { "(" + s + ")" }

  /** The text of an operand: bracketed when it binds less tightly than its place asks. */
  function Operand(e: Node, level: nat): string
    decreases e, 1
  {
    if Strength(e) < level then Parens(ToString(e)) else ToString(e)
  }

  /** A right operand of equal precedence is bracketed, a left one is not. */
  function ToString(e: Node): string
    decreases e, 0
  {
    match e
    case IntLiteral(v) => IntText(v)
    case FloatLiteral(x) => x
    case BoolLiteral(b) => if b then "true" else "false"
    case EnumLiteral(s) => s
    case VariableRef(s) => s
    case PortRef(s) => s
    case EventParamRef(s) => s
    case Raw(s) => s
    case Unary(op, c) => UnText(op) + Operand(c, 7)
    case Binary(op, l, r) => Operand(l, Prec(op)) + (" " + (BinText(op) + (" " + Operand(r, Prec(op) + 1))))
  }

  // ----------------------------------------------------------------- grammar

  datatype Parsed = Fail | Ok(node: Node, next: nat)

  predicate IsNumberChar(c: char) { IsDigit(c) || c == '.' }

  predicate IsSuffixChar(c: char) {
    c == 'f' || c == 'F' || c == 'u' || c == 'U' || c == 'l' || c == 'L'
  }

  predicate IsIdentStart(c: char) { IsAlpha(c) || c == '_' }

  predicate IsIdentChar(c: char) { IsAlnum(c) || c == '_' || c == '.' || c == ':' }

  function DigitValue(c: char): (d: nat)
    requires IsDigit(c)
    ensures d < 10 && DigitChar(d) == c
  {
    (c - '0') as nat
  }

  function DigitsValue(t: string): nat
    requires forall k :: 0 <= k < |t| ==> IsDigit(t[k])
  {
    if |t| == 0 then 0 else 10 * DigitsValue(t[..|t| - 1]) + DigitValue(t[|t| - 1])
  }

  /** A literal whose digits exceed the signed 64-bit range is refused. */
  function Number(s: string, i: nat): (r: Parsed)
    requires i < |s| && IsDigit(s[i])
    ensures r.Ok? ==> i < r.next <= |s|
  {
    var q := Span(s, i, IsNumberChar);
    var next := Span(s, q, IsSuffixChar);
    var lexeme := s[i..q];
    if '.' in lexeme then Ok(FloatLiteral(lexeme), next)
    else
      assert forall k :: 0 <= k < |lexeme| ==> IsNumberChar(lexeme[k]);
      if DigitsValue(lexeme) < INT64_LIMIT then Ok(IntLiteral(DigitsValue(lexeme)), next) else Fail
  }

  predicate ScopeAt(id: string, k: int) {
    0 <= k < |id| - 1 && id[k] == ':' && id[k + 1] == ':'
  }

  predicate HasScope(id: string) {
    exists k :: 0 <= k < |id| - 1 && ScopeAt(id, k)
  }

  function FirstDot(id: string): (r: nat)
    ensures r <= |id|
    ensures forall k :: 0 <= k < r ==> id[k] != '.'
    ensures r < |id| ==> id[r] == '.'
  {
    Span(id, 0, c => c != '.')
  }

  function MakePortRef(port: string, field: string): Node {
    if field == "" then PortRef(port) else PortRef(port + "." + field)
  }

  function Classify(id: string): Node {
    if id == "true" then BoolLiteral(true)
    else if id == "false" then BoolLiteral(false)
    else if "in." <= id then PortRef(id[3..])
    else if "out." <= id then PortRef(id[4..])
    else if "reg." <= id then VariableRef(id[4..])
    else if HasScope(id) then EnumLiteral(id)
    else if '.' in id then
      var d := FirstDot(id);
      if d < |id| then MakePortRef(id[..d], id[d + 1..]) else VariableRef(id)
    else VariableRef(id)
  }

  /** The one level whose operators start with `c`; 0 when none does. */
  function LevelOfChar(c: char): nat {
    if c == '|' then 1
    else if c == '^' then 2
    else if c == '&' then 3
    else if c == '<' || c == '>' then 4
    else if c == '+' || c == '-' then 5
    else if c == '*' || c == '/' || c == '%' then 6
    else 0
  }

  /** The operator of precedence `level` that the loop of that level accepts at `i`, if any. */
  function OpAt(level: nat, s: string, i: nat): (r: Option<BinOp>)
    ensures r.Some? ==> Prec(r.value) == level && i + |BinText(r.value)| <= |s|
    ensures r.Some? ==> LevelOfChar(s[i]) == level
  {
    if i >= |s| then None
    else if level == 1 then
      if s[i] == '|' && (i + 1 >= |s| || s[i + 1] != '|') then Some(BitwiseOr) else None
    else if level == 2 then
      if s[i] == '^' then Some(BitwiseXor) else None
    else if level == 3 then
      if s[i] == '&' && (i + 1 >= |s| || s[i + 1] != '&') then Some(BitwiseAnd) else None
    else if level == 4 then
      if i + 1 < |s| && s[i] == '<' && s[i + 1] == '<' then Some(ShiftLeft)
      else if i + 1 < |s| && s[i] == '>' && s[i + 1] == '>' then Some(ShiftRight)
      else None
    else if level == 5 then
      if s[i] == '+' then Some(Add) else if s[i] == '-' then Some(Subtract) else None
    else if level == 6 then
      if s[i] == '*' then Some(Multiply) else if s[i] == '/' then Some(Divide)
      else if s[i] == '%' then Some(Modulo) else None
    else None
  }

  /** What stands at `i` at the given level: 1 to 6 are the binary levels, 7 the unary one. */
  function Level(level: nat, s: string, i: nat): (r: Parsed)
    requires 1 <= level <= 7 && i <= |s|
    ensures r.Ok? ==> i < r.next <= |s|
    decreases |s| - i, 9 - level
  {
    if level == 7 then UnaryAt(s, i)
    else match Level(level + 1, s, i)
      case Fail => Fail
      case Ok(left, q) => Loop(level, s, SkipWs(s, q), left)
  }

  /** The rest of a left-associative chain at one binary level. */
  function Loop(level: nat, s: string, i: nat, left: Node): (r: Parsed)
    requires 1 <= level <= 6 && i <= |s|
    ensures r.Ok? ==> i <= r.next <= |s|
    decreases |s| - i, 9 - level
  {
    match OpAt(level, s, i)
    case None => Ok(left, i)
    case Some(op) =>
      match Level(level + 1, s, i + |BinText(op)|)
      case Fail => Fail
      case Ok(right, q) => Loop(level, s, SkipWs(s, q), Binary(op, left, right))
  }

  function UnaryAt(s: string, i: nat): (r: Parsed)
    requires i <= |s|
    ensures r.Ok? ==> i < r.next <= |s|
    decreases |s| - i, 1
  {
    var p := SkipWs(s, i);
    if p >= |s| then Fail
    else if s[p] == '-' then Apply(Negate, UnaryAt(s, p + 1))
    else if s[p] == '~' then Apply(BitwiseNot, UnaryAt(s, p + 1))
    else if s[p] == '!' then Apply(LogicalNot, UnaryAt(s, p + 1))
    else if s[p] == '+' then UnaryAt(s, p + 1)
    else PrimaryAt(s, p)
  }

  function Apply(op: UnOp, r: Parsed): Parsed {
    if r.Fail? then Fail else Ok(Unary(op, r.node), r.next)
  }

  function PrimaryAt(s: string, i: nat): (r: Parsed)
    requires i <= |s|
    ensures r.Ok? ==> i < r.next <= |s|
    decreases |s| - i, 0
  {
    var p := SkipWs(s, i);
    if p >= |s| then Fail
    else if s[p] == '(' then
      match Level(1, s, p + 1)
      case Fail => Fail
      case Ok(inside, q) =>
        var close := SkipWs(s, q);
        if close < |s| && s[close] == ')' then Ok(inside, close + 1) else Fail
    else if IsDigit(s[p]) then Number(s, p)
    else if IsIdentStart(s[p]) then
      var q := Span(s, p, IsIdentChar);
      Ok(Classify(s[p..q]), q)
    else Fail
  }

  // ------------------------------------------------------------ whole texts

  function DropLineBreaks(t: string): string {
    if t == "" then ""
    else if t[0] == '\r' || t[0] == '\n' then DropLineBreaks(t[1..])
    else [t[0]] + DropLineBreaks(t[1..])
  }

  function TrimTail(t: string): string {
    if t != "" && (IsSpace(t[|t| - 1]) || t[|t| - 1] == ';') then TrimTail(t[..|t| - 1]) else t
  }

  function Trimmed(text: string): string {
    var t := TrimTail(DropLineBreaks(text));
    t[SkipWs(t, 0)..]
  }

  /** The tree the whole of a trimmed text stands for, when the grammar accepts it. */
  function Accepted(t: string): Option<Node> {
    match Level(1, t, 0)
    case Fail => None
    case Ok(e, q) => if SkipWs(t, q) == |t| then Some(e) else None
  }

  function Parse(text: string): Node {
    var t := Trimmed(text);
    if t == "" then Raw("")
    else match Accepted(t)
      case Some(e) => e
      case None => Raw(text)
  }
}
