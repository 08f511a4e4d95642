/** The importer's parser as it runs: one cursor into the text, moved by every method. */
module JsonParser {
  import opened Text
  import opened Json

  datatype Outcome<+T> = Done(value: T) | Failed(message: string)

  class Parser {
    const text: string
    /** Which number texts the library converter accepts. */
    const converts: string -> bool
    var idx: nat

    constructor (text: string, converts: string -> bool)
      ensures this.text == text && this.converts == converts && idx == 0
    {
      this.text, this.converts, idx := text, converts, 0;
    }

    /** The outcome is the one wanted; after success the cursor stands behind what was read. */
    ghost predicate Delivers<T>(r: Outcome<T>, want: Parsed<T>)
      reads this
    {
      && idx <= |text|
      && match want
         case Ok(v, n) => r == Done(v) && idx == n
         case Err(m) => r == Failed(m)
    }

    method SkipBlanks()
      requires idx <= |text|
      modifies this
      ensures idx == SkipWs(text, old(idx))
    {
      while idx < |text| && IsSpace(text[idx])
        invariant idx <= |text| && SkipWs(text, idx) == SkipWs(text, old(idx))
      {
        idx := idx + 1;
      }
    }

    method ParseString() returns (r: Outcome<string>)
      requires idx < |text|
      modifies this
      ensures Delivers(r, StringFrom(text, old(idx) + 1, ""))
    {
      idx := idx + 1;
      var s := "";
      while idx < |text|
        invariant idx <= |text| && StringFrom(text, idx, s) == StringFrom(text, old(idx) + 1, "")
      {
        var c := text[idx];
        idx := idx + 1;
        if c == '"' { return Done(s); }
        if c == '\\' {
          if idx >= |text| { return Failed("Unterminated escape sequence"); }
          var esc := text[idx];
          idx := idx + 1;
          if esc == 'u' {
            if idx + 4 > |text| { return Failed("Incomplete unicode escape"); }
            idx := idx + 4;
            s := s + "?";
          } else {
            s := s + [Unescape(esc)];
          }
        } else {
          s := s + [c];
        }
      }
      r := Failed("Unterminated string");
    }

    method ParseBool() returns (r: Outcome<Value>)
      requires idx <= |text|
      modifies this
      ensures Delivers(r, BoolAt(text, old(idx)))
    {
      if idx + 4 <= |text| && text[idx..idx + 4] == "true" {
        idx := idx + 4;
        r := Done(Bool(true));
      } else if idx + 5 <= |text| && text[idx..idx + 5] == "false" {
        idx := idx + 5;
        r := Done(Bool(false));
      } else {
        r := Failed("Invalid boolean token");
      }
    }

    method ParseNull() returns (r: Outcome<Value>)
      requires idx <= |text|
      modifies this
      ensures Delivers(r, NullAt(text, old(idx)))
    {
      if idx + 4 <= |text| && text[idx..idx + 4] == "null" {
        idx := idx + 4;
        r := Done(Null);
      } else {
        r := Failed("Invalid null token");
      }
    }

    method SkipDigits()
      requires idx <= |text|
      modifies this
      ensures idx == Span(text, old(idx), IsDigit)
    {
      while idx < |text| && IsDigit(text[idx])
        invariant idx <= |text| && Span(text, idx, IsDigit) == Span(text, old(idx), IsDigit)
      {
        idx := idx + 1;
      }
    }

    method SkipExponent()
      requires idx <= |text|
      modifies this
      ensures idx == ExponentEnd(text, old(idx))
    {
      if idx < |text| && (text[idx] == 'e' || text[idx] == 'E') {
        idx := idx + 1;
        if idx < |text| && (text[idx] == '+' || text[idx] == '-') { idx := idx + 1; }
        SkipDigits();
      }
    }

    method ParseNumber() returns (r: Outcome<Value>)
      requires idx < |text| && (text[idx] == '-' || IsDigit(text[idx]))
      modifies this
      ensures Delivers(r, NumberAt(text, old(idx), converts))
    {
      hide Span;
      var start := idx;
      if text[idx] == '-' { idx := idx + 1; }
      SkipDigits();
      ghost var whole := idx;
      assert whole == Span(text, if text[start] == '-' then start + 1 else start, IsDigit);
      if idx < |text| && text[idx] == '.' {
        idx := idx + 1;
        SkipDigits();
      }
      ghost var fraction := idx;
      assert fraction == FractionEnd(text, whole);
      SkipExponent();
      assert idx == NumberEnd(text, start) by { hide FractionEnd, ExponentEnd; }
      var lexeme := text[start..idx];
      r := if converts(lexeme) then Done(Number(lexeme)) else Failed("Invalid number format: " + lexeme);
    }

    method ParseValue() returns (r: Outcome<Value>)
      requires idx <= |text|
      modifies this
      ensures Delivers(r, ValueAt(text, old(idx), converts))
      decreases |text| - idx, 1
    {
      SkipBlanks();
      if idx >= |text| { return Failed("Unexpected end of input while expecting value"); }
      var c := text[idx];
      if c == '{' {
        r := ParseObject();
      } else if c == '[' {
        r := ParseArray();
      } else if c == '"' {
        var s := ParseString();
        r := match s case Done(v) => Done(Str(v)) case Failed(m) => Failed(m);
      } else if c == 't' || c == 'f' {
        r := ParseBool();
      } else if c == 'n' {
        r := ParseNull();
      } else if c == '-' || IsDigit(c) {
        r := ParseNumber();
      } else {
        r := Failed("Unexpected character: '" + [c] + "'");
      }
    }

    /** One key, the colon and its value. */
    method ParseMember() returns (r: Outcome<Member>)
      requires idx < |text| && text[idx] == '"'
      modifies this
      ensures Delivers(r, MemberAt(text, old(idx), converts))
      decreases |text| - idx, 2
    {
      hide StringFrom, ValueAt, SkipWs;
      var key := ParseString();
      if key.Failed? { return Failed(key.message); }
      SkipBlanks();
      if idx >= |text| || text[idx] != ':' { return Failed("Expected ':' after key"); }
      idx := idx + 1;
      var value := ParseValue();
      if value.Failed? { return Failed(value.message); }
      r := Done(Member(key.value, value.value));
    }

    method ParseObject() returns (r: Outcome<Value>)
      requires idx < |text|
      modifies this
      ensures Delivers(r, MembersFrom(text, old(idx) + 1, [], converts))
      decreases |text| - idx, 0
    {
      hide StringFrom, ValueAt, SkipWs, MemberAt;
      ghost var want := MembersFrom(text, idx + 1, [], converts);
      idx := idx + 1;
      var members: seq<Member> := [];
      while idx < |text|
        invariant old(idx) < idx <= |text| && MembersFrom(text, idx, members, converts) == want
      {
        SkipBlanks();
        if idx >= |text| { return Failed("Unterminated object: expected '}'"); }
        if text[idx] == '}' {
          idx := idx + 1;
          return Done(Obj(members));
        }
        if text[idx] != '"' { return Failed("Expected string key in object"); }
        var member := ParseMember();
        if member.Failed? { return Failed(member.message); }
        members := members + [member.value];
        SkipBlanks();
        if idx < |text| && text[idx] == ',' {
          idx := idx + 1;
        } else if idx < |text| && text[idx] == '}' {
          idx := idx + 1;
          return Done(Obj(members));
        } else {
          return Failed("Expected ',' or '}' in object");
        }
      }
      r := Failed("Unterminated object");
    }

    method ParseArray() returns (r: Outcome<Value>)
      requires idx < |text|
      modifies this
      ensures Delivers(r, ItemsFrom(text, old(idx) + 1, [], converts))
      decreases |text| - idx, 0
    {
      hide ValueAt, SkipWs;
      ghost var want := ItemsFrom(text, idx + 1, [], converts);
      idx := idx + 1;
      var items: seq<Value> := [];
      while idx < |text|
        invariant old(idx) < idx <= |text| && ItemsFrom(text, idx, items, converts) == want
      {
        SkipBlanks();
        if idx >= |text| { return Failed("Unterminated array: expected ']'"); }
        if text[idx] == ']' {
          idx := idx + 1;
          return Done(Arr(items));
        }
        var item := ParseValue();
        if item.Failed? { return Failed(item.message); }
        items := items + [item.value];
        SkipBlanks();
        if idx < |text| && text[idx] == ',' {
          idx := idx + 1;
        } else if idx < |text| && text[idx] == ']' {
          idx := idx + 1;
          return Done(Arr(items));
        } else {
          return Failed("Expected ',' or ']' in array");
        }
      }
      r := Failed("Unterminated array");
    }
  }

  /** Parses a document; the cursor never leaves the text. */
  method Parse(text: string, converts: string -> bool) returns (r: Outcome<Value>)
    ensures match Document(text, converts)
      case Ok(v, _) => r == Done(v)
      case Err(m) => r == Failed(m)
  {
    var p := new Parser(text, converts);
    p.SkipBlanks();
    if p.idx >= |text| { return Failed("Empty JSON input"); }
    r := p.ParseValue();
  }
}
