/** What the importer says of texts it does not read. */
module JsonErrors {
  import opened Text
  import opened Json
  import opened JsonRoundTrip

  /** Nothing but blanks. */
  lemma EmptyInput(t: string, converts: string -> bool)
    requires AllSpace(t)
    ensures Document(t, converts) == Err("Empty JSON input")
    ensures ValueAt(t, 0, converts) == Err("Unexpected end of input while expecting value")
  {
    SpanUnique(t, 0, IsSpace, |t|);
  }

  /** Characters a value can begin with. */
  predicate BeginsValue(c: char) {
    c == '{' || c == '[' || c == '"' || c == 't' || c == 'f' || c == 'n' || c == '-' || IsDigit(c)
  }

  lemma WrongBeginning(t: string, i: nat, blank: string, converts: string -> bool)
    requires AllSpace(blank) && At(t, i, blank) && i + |blank| < |t|
    requires !IsSpace(t[i + |blank|]) && !BeginsValue(t[i + |blank|])
    ensures ValueAt(t, i, converts) == Err("Unexpected character: '" + [t[i + |blank|]] + "'")
  {
    SkipsTo(t, i, blank);
    hide SkipWs;
  }

  lemma WrongWord(t: string, j: nat, converts: string -> bool)
    requires j < |t|
    ensures (t[j] == 't' || t[j] == 'f') && !At(t, j, "true") && !At(t, j, "false") ==>
      ValueAt(t, j, converts) == Err("Invalid boolean token")
    ensures t[j] == 'n' && !At(t, j, "null") ==> ValueAt(t, j, converts) == Err("Invalid null token")
  {
    if !IsSpace(t[j]) {
      SpanUnique(t, j, IsSpace, j);
      hide SkipWs;
    }
  }

  lemma WrongNumber(t: string, j: nat, n: Number, converts: string -> bool)
    requires At(t, j, Lexeme(n)) && Ends(LNumber(n), t, j + |Lexeme(n)|) && !converts(Lexeme(n))
    ensures ValueAt(t, j, converts) == Err("Invalid number format: " + Lexeme(n))
  {
    NumberEnds(t, j, n);
    SpanUnique(t, j, IsSpace, j);
    hide SkipWs, NumberEnd, Lexeme, Ends;
    Dispatch(t, j, j, converts);
  }

  /** Behind the opening bracket, or a comma, the text ends. */
  lemma NothingInside(t: string, i: nat, blank: string, items: seq<Value>, members: seq<Member>,
                      converts: string -> bool)
    requires AllSpace(blank) && At(t, i, blank) && i + |blank| == |t|
    ensures ItemsFrom(t, i, items, converts) ==
      Err(if blank == "" then "Unterminated array" else "Unterminated array: expected ']'")
    ensures MembersFrom(t, i, members, converts) ==
      Err(if blank == "" then "Unterminated object" else "Unterminated object: expected '}'")
  {
    forall k | i <= k < |t| ensures IsSpace(t[k]) { AtChar(t, i, blank, k - i); }
    SpanUnique(t, i, IsSpace, |t|);
    hide SkipWs;
  }

  lemma WrongKey(t: string, i: nat, blank: string, acc: seq<Member>, converts: string -> bool)
    requires AllSpace(blank) && At(t, i, blank) && i + |blank| < |t|
    requires !IsSpace(t[i + |blank|]) && t[i + |blank|] != '}' && t[i + |blank|] != '"'
    ensures MembersFrom(t, i, acc, converts) == Err("Expected string key in object")
  {
    SkipsTo(t, i, blank);
    hide SkipWs;
  }

  /** Behind the blanks at `i` the text ends or goes on with another character than the two. */
  predicate GoesOnWithout(t: string, i: nat, a: char, b: char) {
    i <= |t| && var j := SkipWs(t, i);
    j < |t| ==> t[j] != a && t[j] != b
  }

  /** A value in an array is followed by neither a comma nor the end. */
  lemma ItemNotEnded(t: string, j: nat, l: Layout, acc: seq<Value>, converts: string -> bool)
    requires j < |t| && At(t, j, Print(l)) && Proper(l, converts) && Ends(l, t, j + |Print(l)|)
    requires GoesOnWithout(t, j + |Print(l)|, ',', ']')
    ensures ItemsFrom(t, j, acc, converts) == Err("Expected ',' or ']' in array")
  {
    hide Print, Proper, Ends;
    AtFirst(t, j, Print(l));
    SpanUnique(t, j, IsSpace, j);
    NothingAt(t, j);
    LayoutReads(t, j, "", l, converts);
    hide ValueAt, SkipWs;
  }

  lemma NothingAt(t: string, j: nat)
    requires j <= |t|
    ensures At(t, j, "") && AllSpace("")
  {
  }

  /** A key is not followed by a colon. */
  lemma KeyWithoutColon(t: string, j: nat, key: Spelling, acc: seq<Member>, converts: string -> bool)
    requires At(t, j, Spelled(key)) && GoesOnWithout(t, j + |Spelled(key)|, ':', ':')
    ensures MembersFrom(t, j, acc, converts) == Err("Expected ':' after key")
  {
    SpelledReads(t, j, key);
    hide Spelled, Meant, StringFrom;
    SpanUnique(t, j, IsSpace, j);
    hide SkipWs, ValueAt;
  }

  /** A member is followed by neither a comma nor the end. */
  lemma FieldNotEnded(t: string, j: nat, key: Spelling, middle: string, start: string, l: Layout, acc: seq<Member>,
                      converts: string -> bool)
    requires AllSpace(middle) && AllSpace(start) && At(t, j, Spelled(key)) && At(t, j + |Spelled(key)|, middle)
    requires var colon := j + |Spelled(key)| + |middle|;
      && At(t, colon, ":") && At(t, colon + 1, start) && At(t, colon + 1 + |start|, Print(l))
      && Proper(l, converts) && Ends(l, t, colon + 1 + |start| + |Print(l)|)
      && GoesOnWithout(t, colon + 1 + |start| + |Print(l)|, ',', '}')
    ensures MembersFrom(t, j, acc, converts) == Err("Expected ',' or '}' in object")
  {
    hide Print, Proper, Ends, Spelled, Meant, StringFrom, MembersFrom, MemberAt, ValueAt, At, SkipWs, GoesOnWithout;
    var k := j + |Spelled(key)|;
    SpelledReads(t, j, key);
    AtFirst(t, k + |middle|, ":");
    SkipsTo(t, k, middle);
    LayoutReads(t, k + |middle| + 1, start, l, converts);
    MemberIsRead(t, j, Meant(key), k, k + |middle|, converts);
    MemberNotEnded(t, j, acc, converts);
  }

  lemma MemberNotEnded(t: string, j: nat, acc: seq<Member>, converts: string -> bool)
    requires j < |t| && t[j] == '"' && MemberAt(t, j, converts).Ok?
    requires GoesOnWithout(t, MemberAt(t, j, converts).next, ',', '}')
    ensures MembersFrom(t, j, acc, converts) == Err("Expected ',' or '}' in object")
  {
    SpanUnique(t, j, IsSpace, j);
    hide SkipWs, MemberAt;
  }

  lemma MemberIsRead(t: string, j: nat, key: string, k: nat, colon: nat, converts: string -> bool)
    requires j < |t| && t[j] == '"' && StringFrom(t, j + 1, "") == Ok(key, k) && k <= |t| && SkipWs(t, k) == colon < |t|
    requires t[colon] == ':' && ValueAt(t, colon + 1, converts).Ok?
    ensures var v := ValueAt(t, colon + 1, converts); MemberAt(t, j, converts) == Ok(Member(key, v.value), v.next)
  {
    hide StringFrom, SkipWs, ValueAt;
  }
}
