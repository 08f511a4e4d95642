/** JSON as the model importer reads it: the grammar position by position, and how strings are escaped. */
module Json {
  import opened Text

  datatype Value =
    | Null
    | Bool(flag: bool)
    /** A number the library converter accepts, kept as its text. */
    | Number(lexeme: string)
    | Str(text: string)
    | Arr(items: seq<Value>)
    | Obj(members: seq<Member>)

  datatype Member = Member(key: string, value: Value)

  datatype Parsed<+T> = Ok(value: T, next: nat) | Err(message: string)

  // ---------------------------------------------------------------- strings

  function EscapeChar(c: char): string {
    if c == '"' then "\\\""
    else if c == '\\' then "\\\\"
    else if c == '\U{08}' then "\\b"
    else if c == '\U{0C}' then "\\f"
    else if c == '\n' then "\\n"
    else if c == '\r' then "\\r"
    else if c == '\t' then "\\t"
    else [c]
  }

  function Escape(s: string): string {
    if |s| == 0 then "" else Escape(s[..|s| - 1]) + EscapeChar(s[|s| - 1])
  }

  function Quote(s: string): string { "\"" + Escape(s) + "\"" }

  function Unescape(c: char): char {
    if c == 'b' then '\U{08}'
    else if c == 'f' then '\U{0C}'
    else if c == 'n' then '\n'
    else if c == 'r' then '\r'
    else if c == 't' then '\t'
    else c
  }

  /** The rest of a string whose first characters read as `acc`; `i` is past the opening quote. */
  function StringFrom(t: string, i: nat, acc: string): (r: Parsed<string>)
    requires i <= |t|
    ensures r.Ok? ==> i < r.next <= |t|
    decreases |t| - i
  {
    if i == |t| then Err("Unterminated string")
    else if t[i] == '"' then Ok(acc, i + 1)
    else if t[i] != '\\' then StringFrom(t, i + 1, acc + [t[i]])
    else if i + 1 == |t| then Err("Unterminated escape sequence")
    else if t[i + 1] != 'u' then StringFrom(t, i + 2, acc + [Unescape(t[i + 1])])
    else if i + 6 > |t| then Err("Incomplete unicode escape")
    else StringFrom(t, i + 6, acc + "?")
  }

  // ----------------------------------------------------------------- values

  function FractionEnd(t: string, i: nat): (r: nat)
    requires i <= |t|
    ensures i <= r <= |t|
  {
    if i < |t| && t[i] == '.' then Span(t, i + 1, IsDigit) else i
  }

  function ExponentEnd(t: string, i: nat): (r: nat)
    requires i <= |t|
    ensures i <= r <= |t|
  {
    if i < |t| && (t[i] == 'e' || t[i] == 'E') then
      Span(t, if i + 1 < |t| && (t[i + 1] == '+' || t[i + 1] == '-') then i + 2 else i + 1, IsDigit)
    else i
  }

  function NumberEnd(t: string, i: nat): (r: nat)
    requires i < |t| && (t[i] == '-' || IsDigit(t[i]))
    ensures i < r <= |t|
  {
    ExponentEnd(t, FractionEnd(t, Span(t, if t[i] == '-' then i + 1 else i, IsDigit)))
  }

  function NumberAt(t: string, i: nat, converts: string -> bool): (r: Parsed<Value>)
    requires i < |t| && (t[i] == '-' || IsDigit(t[i]))
    ensures r.Ok? ==> i < r.next <= |t|
  {
    var end := NumberEnd(t, i);
    if converts(t[i..end]) then Ok(Number(t[i..end]), end) else Err("Invalid number format: " + t[i..end])
  }

  function BoolAt(t: string, i: nat): (r: Parsed<Value>)
    ensures r.Ok? ==> i < r.next <= |t|
  {
    if At(t, i, "true") then Ok(Bool(true), i + 4)
    else if At(t, i, "false") then Ok(Bool(false), i + 5)
    else Err("Invalid boolean token")
  }

  function NullAt(t: string, i: nat): (r: Parsed<Value>)
    ensures r.Ok? ==> i < r.next <= |t|
  {
    if At(t, i, "null") then Ok(Null, i + 4) else Err("Invalid null token")
  }

  /** `converts` says which number texts the library converter accepts. */
  function ValueAt(t: string, i: nat, converts: string -> bool): (r: Parsed<Value>)
    requires i <= |t|
    ensures r.Ok? ==> i < r.next <= |t|
    decreases |t| - i, 1
  {
    var j := SkipWs(t, i);
    if j == |t| then Err("Unexpected end of input while expecting value")
    else if t[j] == '{' then MembersFrom(t, j + 1, [], converts)
    else if t[j] == '[' then ItemsFrom(t, j + 1, [], converts)
    else if t[j] == '"' then
      match StringFrom(t, j + 1, "")
      case Ok(s, n) => Ok(Str(s), n)
      case Err(m) => Err(m)
    else if t[j] == 't' || t[j] == 'f' then BoolAt(t, j)
    else if t[j] == 'n' then NullAt(t, j)
    else if t[j] == '-' || IsDigit(t[j]) then NumberAt(t, j, converts)
    else Err("Unexpected character: '" + [t[j]] + "'")
  }

  /** One member of an object, its key's quote at `j`. */
  function MemberAt(t: string, j: nat, converts: string -> bool): (r: Parsed<Member>)
    requires j < |t| && t[j] == '"'
    ensures r.Ok? ==> j < r.next <= |t|
    decreases |t| - j, 2
  {
    match StringFrom(t, j + 1, "")
    case Err(m) => Err(m)
    case Ok(key, k) =>
      var colon := SkipWs(t, k);
      if colon == |t| || t[colon] != ':' then Err("Expected ':' after key")
      else
        match ValueAt(t, colon + 1, converts)
        case Err(m) => Err(m)
        case Ok(v, n) => Ok(Member(key, v), n)
  }

  /** The rest of an object whose first members are `acc`; `i` is past the brace or a comma. */
  function MembersFrom(t: string, i: nat, acc: seq<Member>, converts: string -> bool): (r: Parsed<Value>)
    requires i <= |t|
    ensures r.Ok? ==> i < r.next <= |t|
    decreases |t| - i, 3
  {
    if i == |t| then Err("Unterminated object")
    else
      var j := SkipWs(t, i);
      if j == |t| then Err("Unterminated object: expected '}'")
      else if t[j] == '}' then Ok(Obj(acc), j + 1)
      else if t[j] != '"' then Err("Expected string key in object")
      else
        match MemberAt(t, j, converts)
        case Err(m) => Err(m)
        case Ok(member, n) =>
          var end := SkipWs(t, n);
          if end < |t| && t[end] == ',' then MembersFrom(t, end + 1, acc + [member], converts)
          else if end < |t| && t[end] == '}' then Ok(Obj(acc + [member]), end + 1)
          else Err("Expected ',' or '}' in object")
  }

  /** The rest of an array whose first items are `acc`. */
  function ItemsFrom(t: string, i: nat, acc: seq<Value>, converts: string -> bool): (r: Parsed<Value>)
    requires i <= |t|
    ensures r.Ok? ==> i < r.next <= |t|
    decreases |t| - i, 2
  {
    if i == |t| then Err("Unterminated array")
    else
      var j := SkipWs(t, i);
      if j == |t| then Err("Unterminated array: expected ']'")
      else if t[j] == ']' then Ok(Arr(acc), j + 1)
      else
        match ValueAt(t, j, converts)
        case Err(m) => Err(m)
        case Ok(v, n) =>
          var end := SkipWs(t, n);
          if end < |t| && t[end] == ',' then ItemsFrom(t, end + 1, acc + [v], converts)
          else if end < |t| && t[end] == ']' then Ok(Arr(acc + [v]), end + 1)
          else Err("Expected ',' or ']' in array")
  }

  /** A whole document; text after the first value is not looked at. */
  function Document(t: string, converts: string -> bool): Parsed<Value> {
    if SkipWs(t, 0) == |t| then Err("Empty JSON input") else ValueAt(t, SkipWs(t, 0), converts)
  }
}
