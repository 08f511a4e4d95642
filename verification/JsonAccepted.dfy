/** The importer reads nothing but laid-out documents: the converse of the round trip. */
module JsonAccepted {
  import opened Text
  import opened Json
  import opened JsonRoundTrip

  // ---------------------------------------------------------------- strings

  /** What follows the pieces of a string: its end, or one of three ways to break off. */
  predicate BreaksAt(t: string, j: nat, acc: string, r: Parsed<string>) {
    if j < |t| && t[j] == '"' then r == Ok(acc, j + 1)
    else if j == |t| then r == Err("Unterminated string")
    else if j + 1 == |t| then t[j] == '\\' && r == Err("Unterminated escape sequence")
    else j < |t| && t[j] == '\\' && t[j + 1] == 'u' && |t| < j + 6 && r == Err("Incomplete unicode escape")
  }

  /** Whether reading a string ends or breaks off at `i`. */
  predicate EndsAt(t: string, i: nat)
    requires i <= |t|
  {
    i == |t| || t[i] == '"' || (t[i] == '\\' && (i + 1 == |t| || (t[i + 1] == 'u' && |t| < i + 6)))
  }

  lemma EndsHere(t: string, i: nat, acc: string)
    requires i <= |t| && EndsAt(t, i)
    ensures BreaksAt(t, i, acc, StringFrom(t, i, acc))
  {
  }

  /** Otherwise a piece stands there. */
  lemma NextPiece(t: string, i: nat) returns (p: Piece)
    requires i <= |t| && !EndsAt(t, i)
    ensures IsPiece(p) && At(t, i, PieceText(p))
  {
    if t[i] != '\\' {
      p := Letter(t[i]);
      assert t[i..i + 1] == [t[i]];
    } else if t[i + 1] != 'u' {
      p := Escaped(t[i + 1]);
      assert t[i..i + 2] == ['\\', t[i + 1]];
    } else {
      p := Unicode(t[i + 2..i + 6]);
      assert t[i..i + 6] == "\\u" + t[i + 2..i + 6];
    }
  }

  /** Every text behind a quote is pieces and then one of those. */
  lemma {:induction false} StringExactly(t: string, i: nat, acc: string) returns (ps: Spelling)
    requires i <= |t|
    ensures At(t, i, PiecesText(ps))
    ensures BreaksAt(t, i + |PiecesText(ps)|, acc + Meant(ps), StringFrom(t, i, acc))
    decreases |t| - i
  {
    hide StringFrom, At, BreaksAt, PieceText, PieceMeans, EndsAt;
    if EndsAt(t, i) {
      ps := [];
      EndsHere(t, i, acc);
      NoPieces(t, i, acc);
    } else {
      var p := NextPiece(t, i);
      PieceStep(t, i, p, acc);
      PieceFills(t, i, p);
      var rest := StringExactly(t, i + |PieceText(p)|, acc + PieceMeans(p));
      ps := [p] + rest;
      PiecesFirst(p, rest);
      AtSplit(t, i, PieceText(p), PiecesText(rest));
      assert acc + PieceMeans(p) + Meant(rest) == acc + Meant(ps);
    }
  }

  lemma NoPieces(t: string, i: nat, acc: string)
    requires i <= |t|
    ensures At(t, i, PiecesText([])) && PiecesText([]) == "" && acc + Meant([]) == acc
  {
  }

  lemma PieceFills(t: string, i: nat, p: Piece)
    requires At(t, i, PieceText(p))
    ensures |PieceText(p)| > 0 && i + |PieceText(p)| <= |t|
  {
  }

  lemma PiecesFirst(p: Piece, rest: seq<Piece>)
    ensures PiecesText([p] + rest) == PieceText(p) + PiecesText(rest)
    ensures Meant([p] + rest) == PieceMeans(p) + Meant(rest)
  {
    assert ([p] + rest)[1..] == rest;
  }

  /** A string that is read is a spelling between quotes. */
  lemma StringIsSpelled(t: string, j: nat) returns (ps: Spelling)
    requires j < |t| && t[j] == '"' && StringFrom(t, j + 1, "").Ok?
    ensures At(t, j, Spelled(ps)) && StringFrom(t, j + 1, "") == Ok(Meant(ps), j + |Spelled(ps)|)
  {
    hide StringFrom, Meant, PiecesText;
    ps := StringExactly(t, j + 1, "");
    var x := PiecesText(ps);
    assert "" + Meant(ps) == Meant(ps);
    assert At(t, j, "\"") by { assert t[j..j + 1] == "\""; }
    assert At(t, j + 1 + |x|, "\"") by { assert t[j + 1 + |x|..j + 2 + |x|] == "\""; }
    AtSplit(t, j + 1, x, "\"");
    AtSplit(t, j, "\"", x + "\"");
  }

  // ---------------------------------------------------------------- numbers

  lemma FractionSlice(t: string, i: nat) returns (x: string)
    requires i <= |t|
    ensures x == t[i..FractionEnd(t, i)] && (x == "" || (x[0] == '.' && AllDigits(x[1..])))
    ensures FractionEnd(t, i) < |t| ==>
      && (x != "" ==> !IsDigit(t[FractionEnd(t, i)]))
      && (x == "" ==> t[FractionEnd(t, i)] != '.' && FractionEnd(t, i) == i)
  {
    x := t[i..FractionEnd(t, i)];
  }

  lemma ExponentSlice(t: string, i: nat) returns (x: string)
    requires i <= |t|
    ensures x == t[i..ExponentEnd(t, i)] && IsExponent(x)
    ensures ExponentEnd(t, i) < |t| ==>
      && (x != "" ==> !IsDigit(t[ExponentEnd(t, i)]))
      && (x == "" ==> !IsMark(t[i]) && ExponentEnd(t, i) == i)
      && (|x| == 1 ==> !IsSign(t[ExponentEnd(t, i)]))
  {
    x := t[i..ExponentEnd(t, i)];
    if x != "" {
      var d := if i + 1 < |t| && IsSign(t[i + 1]) then 2 else 1;
      var e := Span(t, i + d, IsDigit);
      assert x == t[i..e] && x[d..] == t[i + d..e];
    }
  }

  lemma DigitsSlice(t: string, a: nat)
    requires a <= |t|
    ensures AllDigits(t[a..Span(t, a, IsDigit)])
    ensures a < |t| && IsDigit(t[a]) ==> Span(t, a, IsDigit) > a
  {
  }

  /** What the number scanner takes is a numeral that cannot go on. */
  lemma NumberIsNumeral(t: string, i: nat) returns (n: Number)
    requires i < |t| && (t[i] == '-' || IsDigit(t[i]))
    ensures At(t, i, Lexeme(n)) && NumberEnd(t, i) == i + |Lexeme(n)|
    ensures Ends(LNumber(n), t, NumberEnd(t, i))
  {
    var a := if t[i] == '-' then i + 1 else i;
    var b := Span(t, a, IsDigit);
    var c := FractionEnd(t, b);
    var d := ExponentEnd(t, c);
    assert NumberEnd(t, i) == d;
    n := NumberParts(t, i, a, b, c, d);
    NumberStops(t, b, c, d, n);
    LexemeIsSlice(t, i, a, b, c, d, n);
    hide NumberEnd, FractionEnd, ExponentEnd, Span, Lexeme, Ends;
  }

  lemma NumberParts(t: string, i: nat, a: nat, b: nat, c: nat, d: nat) returns (n: Number)
    requires i < |t| && a <= |t| && (t[i] == '-' || (a == i && IsDigit(t[i]))) && b == Span(t, a, IsDigit)
    requires c == FractionEnd(t, b) && d == ExponentEnd(t, c)
    ensures n.minus == (t[i] == '-') && n.whole == t[a..b] && n.fraction == t[b..c] && n.exponent == t[c..d]
  {
    DigitsSlice(t, a);
    var fraction := FractionSlice(t, b);
    var exponent := ExponentSlice(t, c);
    hide FractionEnd, ExponentEnd, Span, AllDigits, IsExponent;
    n := Numeral(t[i] == '-', t[a..b], fraction, exponent);
  }

  lemma NumberStops(t: string, b: nat, c: nat, d: nat, n: Number)
    requires b <= |t| && (b < |t| ==> !IsDigit(t[b])) && c == FractionEnd(t, b) && d == ExponentEnd(t, c)
    requires n.fraction == t[b..c] && n.exponent == t[c..d]
    ensures Ends(LNumber(n), t, d)
  {
    var fraction := FractionSlice(t, b);
    var exponent := ExponentSlice(t, c);
    hide FractionEnd, ExponentEnd, Span, AllDigits, IsExponent, IsMark, IsSign;
  }

  lemma LexemeIsSlice(t: string, i: nat, a: nat, b: nat, c: nat, d: nat, n: Numeral)
    requires i <= a <= b <= c <= d <= |t| && i < |t| && n.minus == (t[i] == '-') && a == (if n.minus then i + 1 else i)
    requires n.whole == t[a..b] && n.fraction == t[b..c] && n.exponent == t[c..d]
    ensures Lexeme(n) == t[i..d]
  {
    FourParts(t, i, a, b, c, d);
    assert t[i..a] == if n.minus then "-" else "";
  }

  lemma FourParts(t: string, i: nat, a: nat, b: nat, c: nat, d: nat)
    requires i <= a <= b <= c <= d <= |t|
    ensures t[i..d] == t[i..a] + (t[a..b] + (t[b..c] + t[c..d]))
  {
    Cut(t, b, c, d);
    Cut(t, a, b, d);
    Cut(t, i, a, d);
  }

  lemma Cut(s: string, a: nat, b: nat, c: nat)
    requires a <= b <= c <= |s|
    ensures s[a..c] == s[a..b] + s[b..c]
  {
  }

  // ----------------------------------------------------------------- values

  /** Between `i` and `next` stand blanks and a layout of `v`. */
  predicate Laid(t: string, i: nat, blank: string, l: Layout, v: Value, next: nat, converts: string -> bool) {
    && AllSpace(blank) && At(t, i, blank) && At(t, i + |blank|, Print(l)) && next == i + |blank| + |Print(l)|
    && Proper(l, converts) && ValueOf(l) == v && Ends(l, t, next)
  }

  lemma BlankAt(t: string, i: nat) returns (blank: string)
    requires i <= |t|
    ensures AllSpace(blank) && At(t, i, blank) && SkipWs(t, i) == i + |blank|
  {
    blank := t[i..SkipWs(t, i)];
  }

  /** At `j` stands a layout of what is read there. */
  predicate LaidAt(t: string, j: nat, l: Layout, r: Parsed<Value>, converts: string -> bool) {
    && At(t, j, Print(l)) && Proper(l, converts) && Ends(l, t, j + |Print(l)|)
    && r == Ok(ValueOf(l), j + |Print(l)|)
  }

  lemma WordLaid(t: string, j: nat, converts: string -> bool) returns (l: Layout)
    requires j < |t|
    ensures (t[j] == 't' || t[j] == 'f') && BoolAt(t, j).Ok? ==> LaidAt(t, j, l, BoolAt(t, j), converts)
    ensures t[j] == 'n' && NullAt(t, j).Ok? ==> LaidAt(t, j, l, NullAt(t, j), converts)
  {
    l := if t[j] == 'n' then LNull else LBool(At(t, j, "true"));
  }

  lemma {:induction false} AcceptsValue(t: string, i: nat, converts: string -> bool) returns (blank: string, l: Layout)
    requires i <= |t| && ValueAt(t, i, converts).Ok?
    ensures Laid(t, i, blank, l, ValueAt(t, i, converts).value, ValueAt(t, i, converts).next, converts)
    decreases |t| - i, 1
  {
    hide ValueAt, SkipWs, AllSpace, At, LaidAt, Dispatched, Laid;
    blank := BlankAt(t, i);
    var j, r := i + |blank|, ValueAt(t, i, converts);
    FirstIsKnown(t, i, j, converts);
    l := AcceptsAt(t, j, r, converts);
    LaidBehind(t, i, blank, l, r, converts);
  }

  lemma {:induction false} AcceptsAt(t: string, j: nat, r: Parsed<Value>, converts: string -> bool)
    returns (l: Layout)
    requires j < |t| && r.Ok? && Dispatched(t, j, r, converts)
    ensures LaidAt(t, j, l, r, converts)
    decreases |t| - j, 0
  {
    hide ItemsFrom, MembersFrom, StringFrom, FieldsLaid, ItemsLaid, BoolAt, NullAt, NumberAt, LaidAt;
    if t[j] == '{' {
      var fields := AcceptsFields(t, j + 1, [], converts);
      l := LObj(fields);
      ObjectLaid(t, j, fields, converts);
    } else if t[j] == '[' {
      var items := AcceptsItems(t, j + 1, [], converts);
      l := LArr(items);
      ArrayLaid(t, j, items, converts);
    } else if t[j] == '"' {
      l := StringLaid(t, j, converts);
    } else if t[j] == '-' || IsDigit(t[j]) {
      l := NumberLaid(t, j, converts);
    } else {
      l := WordLaid(t, j, converts);
    }
  }

  lemma LaidBehind(t: string, i: nat, blank: string, l: Layout, r: Parsed<Value>, converts: string -> bool)
    requires AllSpace(blank) && At(t, i, blank) && LaidAt(t, i + |blank|, l, r, converts)
    ensures r.Ok? && Laid(t, i, blank, l, r.value, r.next, converts)
  {
  }

  /** The first character decides which reader gives the result. */
  predicate Dispatched(t: string, j: nat, r: Parsed<Value>, converts: string -> bool)
    requires j < |t|
  {
    || (t[j] == '{' && r == MembersFrom(t, j + 1, [], converts))
    || (t[j] == '[' && r == ItemsFrom(t, j + 1, [], converts))
    || (t[j] == '"' && StringFrom(t, j + 1, "").Ok?
        && r == Ok(Str(StringFrom(t, j + 1, "").value), StringFrom(t, j + 1, "").next))
    || ((t[j] == 't' || t[j] == 'f') && r == BoolAt(t, j))
    || (t[j] == 'n' && r == NullAt(t, j))
    || ((t[j] == '-' || IsDigit(t[j])) && r == NumberAt(t, j, converts))
  }

  /** A value that is read begins with one of the characters a value can begin with. */
  lemma FirstIsKnown(t: string, i: nat, j: nat, converts: string -> bool)
    requires i <= |t| && ValueAt(t, i, converts).Ok? && SkipWs(t, i) == j
    ensures j < |t| && Dispatched(t, j, ValueAt(t, i, converts), converts)
  {
    hide SkipWs, StringFrom, MembersFrom, ItemsFrom, BoolAt, NullAt, NumberAt;
  }

  lemma ObjectLaid(t: string, j: nat, fields: Fields, converts: string -> bool)
    requires j < |t| && t[j] == '{' && FieldsLaid(t, j + 1, fields, [], converts)
    ensures LaidAt(t, j, LObj(fields), MembersFrom(t, j + 1, [], converts), converts)
  {
    hide PrintFields, MembersOf, MembersFrom, ProperFields, At;
    assert [] + MembersOf(fields) == MembersOf(fields);
    InBraces(t, j, "{", PrintFields(fields), "}");
  }

  lemma ArrayLaid(t: string, j: nat, items: Items, converts: string -> bool)
    requires j < |t| && t[j] == '[' && ItemsLaid(t, j + 1, items, [], converts)
    ensures LaidAt(t, j, LArr(items), ItemsFrom(t, j + 1, [], converts), converts)
  {
    hide PrintItems, ValuesOf, ItemsFrom, ProperItems, At;
    assert [] + ValuesOf(items) == ValuesOf(items);
    InBraces(t, j, "[", PrintItems(items), "]");
  }

  lemma StringLaid(t: string, j: nat, converts: string -> bool) returns (l: Layout)
    requires j < |t| && t[j] == '"' && StringFrom(t, j + 1, "").Ok?
    ensures LaidAt(t, j, l, Ok(Str(StringFrom(t, j + 1, "").value), StringFrom(t, j + 1, "").next), converts)
  {
    var ps := StringIsSpelled(t, j);
    l := LStr(ps);
    hide StringFrom, Spelled, Meant, At;
  }

  lemma NumberLaid(t: string, j: nat, converts: string -> bool) returns (l: Layout)
    requires j < |t| && (t[j] == '-' || IsDigit(t[j])) && NumberAt(t, j, converts).Ok?
    ensures LaidAt(t, j, l, NumberAt(t, j, converts), converts)
  {
    var n := NumberIsNumeral(t, j);
    l := LNumber(n);
    hide NumberEnd, Lexeme;
  }

  lemma InBraces(t: string, j: nat, open: string, inner: string, close: string)
    requires |open| == |close| == 1 && j < |t| && t[j] == open[0] && At(t, j + 1, inner)
    requires j + 1 + |inner| < |t| && t[j + 1 + |inner|] == close[0]
    ensures At(t, j, open + inner + close)
  {
    var n := j + 1 + |inner|;
    assert t[j..n + 1] == [t[j]] + t[j + 1..n] + [t[n]];
  }

  /** Where a layout begins with no blank, none is skipped. */
  lemma NoBlankHere(t: string, j: nat, blank: string, l: Layout, v: Value, next: nat, converts: string -> bool)
    requires Laid(t, j, blank, l, v, next, converts) && j < |t| && !IsSpace(t[j])
    ensures blank == ""
  {
    if blank != "" { AtFirst(t, j, blank); }
  }

  /** An array that is read either ends at `j` or has an item there, with a comma or the end behind it. */
  lemma ItemGoesOn(t: string, i: nat, acc: seq<Value>, converts: string -> bool)
    requires i <= |t| && ItemsFrom(t, i, acc, converts).Ok?
    ensures var j := SkipWs(t, i);
      && i < |t| && j < |t| && !IsSpace(t[j])
      && (t[j] == ']' ==> ItemsFrom(t, i, acc, converts) == Ok(Arr(acc), j + 1))
      && (t[j] != ']' ==>
            ValueAt(t, j, converts).Ok?
            && var end := SkipWs(t, ValueAt(t, j, converts).next);
            end < |t| && (t[end] == ',' || t[end] == ']')
            && (t[end] == ',' ==> ItemsFrom(t, end + 1, acc + [ValueAt(t, j, converts).value], converts).Ok?))
  {
    hide ValueAt;
  }

  lemma FourStand(t: string, i: nat, a: string, b: string, c: string, d: string)
    requires At(t, i, a) && At(t, i + |a|, b) && At(t, i + |a| + |b|, c) && At(t, i + |a| + |b| + |c|, d)
    ensures At(t, i, a + (b + (c + d))) && |a + (b + (c + d))| == |a| + |b| + |c| + |d|
  {
    hide At;
    var cd := c + d;
    var bcd := b + cd;
    AtSplit(t, i + |a| + |b|, c, d);
    AtSplit(t, i + |a|, b, cd);
    AtSplit(t, i, a, bcd);
  }

  lemma ItemStands(t: string, i: nat, before: string, l: Layout, after: string, rest: Items)
    requires At(t, i, before) && At(t, i + |before|, Print(l)) && At(t, i + |before| + |Print(l)|, after)
    requires var end := i + |before| + |Print(l)| + |after|;
      rest.LastItem? || (end < |t| && t[end] == ',' && At(t, end + 1, PrintItems(rest)))
    ensures At(t, i, PrintItems(Item(before, l, after, rest)))
    ensures |PrintItems(Item(before, l, after, rest))| ==
      |before| + |Print(l)| + |after| + if rest.LastItem? then 0 else 1 + |PrintItems(rest)|
  {
    hide Print, PrintItems, At;
    var end := i + |before| + |Print(l)| + |after|;
    var tail := if rest.LastItem? then "" else "," + PrintItems(rest);
    ItemsUnfold(Item(before, l, after, rest), tail);
    EndsInside(t, i + |before| + |Print(l)|, after);
    TailStands(t, end, rest.LastItem?, PrintItems(rest), tail);
    FourStand(t, i, before, Print(l), after, tail);
  }

  lemma EndsInside(t: string, i: nat, s: string)
    requires At(t, i, s)
    ensures i + |s| <= |t|
  {
  }

  lemma TailStands(t: string, end: nat, last: bool, rest: string, tail: string)
    requires tail == (if last then "" else "," + rest) && end <= |t|
    requires last || (end < |t| && t[end] == ',' && At(t, end + 1, rest))
    ensures At(t, end, tail)
  {
    if !last {
      assert At(t, end, ",") by { assert t[end..end + 1] == ","; }
      AtSplit(t, end, ",", rest);
    }
  }

  /** Reading an array from `i` on delivers `acc` and the items, with the bracket behind them. */
  predicate ItemsLaid(t: string, i: nat, items: Items, acc: seq<Value>, converts: string -> bool) {
    var n := i + |PrintItems(items)|;
    && At(t, i, PrintItems(items)) && n < |t| && t[n] == ']' && ProperItems(items, converts) && !items.LastItem?
    && ItemsFrom(t, i, acc, converts) == Ok(Arr(acc + ValuesOf(items)), n + 1)
  }

  lemma {:induction false} AcceptsItems(t: string, i: nat, acc: seq<Value>, converts: string -> bool)
    returns (items: Items)
    requires i <= |t| && ItemsFrom(t, i, acc, converts).Ok?
    ensures ItemsLaid(t, i, items, acc, converts)
    decreases |t| - i, 2
  {
    hide ItemsFrom, ValueAt, SkipWs, AllSpace, Laid, ItemsLaid;
    ItemGoesOn(t, i, acc, converts);
    var before := BlankAt(t, i);
    var j := i + |before|;
    if t[j] == ']' {
      items := NoItems(before);
      NoItemsLaid(t, i, before, acc, converts);
    } else {
      var v := ValueAt(t, j, converts);
      var blank, l := AcceptsValue(t, j, converts);
      NoBlankHere(t, j, blank, l, v.value, v.next, converts);
      var after := BlankAt(t, v.next);
      var end := v.next + |after|;
      var rest := LastItem;
      if t[end] == ',' { rest := AcceptsItems(t, end + 1, acc + [v.value], converts); }
      items := Item(before, l, after, rest);
      ItemsTurn(t, i, acc, before, l, after, rest, v, converts);
    }
  }

  lemma NoItemsLaid(t: string, i: nat, gap: string, acc: seq<Value>, converts: string -> bool)
    requires AllSpace(gap) && At(t, i, gap) && i + |gap| < |t| && t[i + |gap|] == ']'
    requires ItemsFrom(t, i, acc, converts) == Ok(Arr(acc), i + |gap| + 1)
    ensures ItemsLaid(t, i, NoItems(gap), acc, converts)
  {
    hide ItemsFrom;
    assert acc + ValuesOf(NoItems(gap)) == acc;
  }

  /** One item between blanks, with the end or a comma and the other items behind it. */
  lemma ItemsTurn(t: string, i: nat, acc: seq<Value>, before: string, l: Layout, after: string, rest: Items,
                  v: Parsed<Value>, converts: string -> bool)
    requires AllSpace(before) && At(t, i, before) && SkipWs(t, i) == i + |before| < |t|
    requires t[i + |before|] != ']' && v.Ok? && v.next <= |t| && ValueAt(t, i + |before|, converts) == v
    requires Laid(t, i + |before|, "", l, v.value, v.next, converts)
    requires AllSpace(after) && At(t, v.next, after) && SkipWs(t, v.next) == v.next + |after| < |t|
    requires var end := v.next + |after|;
      if t[end] == ',' then ItemsLaid(t, end + 1, rest, acc + [v.value], converts)
      else t[end] == ']' && rest.LastItem?
    ensures ItemsLaid(t, i, Item(before, l, after, rest), acc, converts)
  {
    hide ItemsFrom, ValueAt, SkipWs, AllSpace, Proper, Print, ValueOf, Ends, At, PrintItems, ValuesOf;
    ItemStep(t, i, i + |before|, v.value, v.next, v.next + |after|, acc, converts);
    ItemStands(t, i, before, l, after, rest);
    ItemsJoin(acc, v.value, before, l, after, rest);
    NothingBehind(converts);
    assert acc + [v.value] + [] == acc + [v.value];
  }

  lemma ItemsJoin(acc: seq<Value>, v: Value, before: string, l: Layout, after: string, rest: Items)
    requires v == ValueOf(l)
    ensures acc + ValuesOf(Item(before, l, after, rest)) == acc + [v] + ValuesOf(rest)
  {
    assert ValuesOf(Item(before, l, after, rest)) == [v] + ValuesOf(rest);
  }

  // ---------------------------------------------------------------- objects

  /** An object that is read either ends at `j` or has a member there, with a comma or the end behind it. */
  lemma FieldGoesOn(t: string, i: nat, acc: seq<Member>, converts: string -> bool)
    requires i <= |t| && MembersFrom(t, i, acc, converts).Ok?
    ensures var j := SkipWs(t, i);
      && i < |t| && j < |t| && (t[j] == '}' || t[j] == '"')
      && (t[j] == '}' ==> MembersFrom(t, i, acc, converts) == Ok(Obj(acc), j + 1))
      && (t[j] == '"' ==>
            MemberAt(t, j, converts).Ok?
            && var m := MemberAt(t, j, converts);
            var end := SkipWs(t, m.next);
            end < |t| && (t[end] == ',' || t[end] == '}')
            && (t[end] == ',' ==>
                  MembersFrom(t, end + 1, acc + [m.value], converts).Ok?
                  && MembersFrom(t, i, acc, converts) == MembersFrom(t, end + 1, acc + [m.value], converts))
            && (t[end] == '}' ==> MembersFrom(t, i, acc, converts) == Ok(Obj(acc + [m.value]), end + 1)))
  {
    hide MemberAt;
  }

  /** A member that is read is a key, a colon and a value between blanks. */
  lemma MemberGoesOn(t: string, j: nat, converts: string -> bool)
    requires j < |t| && t[j] == '"' && MemberAt(t, j, converts).Ok?
    ensures StringFrom(t, j + 1, "").Ok?
    ensures var key := StringFrom(t, j + 1, "");
      var colon := SkipWs(t, key.next);
      && colon < |t| && t[colon] == ':' && ValueAt(t, colon + 1, converts).Ok?
      && MemberAt(t, j, converts) ==
         Ok(Member(key.value, ValueAt(t, colon + 1, converts).value), ValueAt(t, colon + 1, converts).next)
  {
    hide ValueAt, StringFrom, SkipWs;
  }

  lemma SevenStand(t: string, i: nat, a: string, b: string, c: string, d: string, e: string, f: string, g: string)
    requires At(t, i, a) && At(t, i + |a|, b) && At(t, i + |a| + |b|, c) && At(t, i + |a| + |b| + |c|, ":")
    requires var v := i + |a| + |b| + |c| + 1;
      At(t, v, d) && At(t, v + |d|, e) && At(t, v + |d| + |e|, f) && At(t, v + |d| + |e| + |f|, g)
    ensures At(t, i, a + (b + (c + (":" + (d + (e + (f + g)))))))
    ensures |a + (b + (c + (":" + (d + (e + (f + g))))))| == |a| + |b| + |c| + 1 + |d| + |e| + |f| + |g|
  {
    hide At;
    var v := i + |a| + |b| + |c| + 1;
    var value := d + (e + (f + g));
    FourStand(t, v, d, e, f, g);
    FourStand(t, i + |a|, b, c, ":", value);
    AtSplit(t, i, a, b + (c + (":" + value)));
  }

  lemma FieldStands(t: string, i: nat, f: Fields)
    requires f.Field? && At(t, i, f.before)
    requires var k := i + |f.before| + |Spelled(f.key)|;
      && At(t, i + |f.before|, Spelled(f.key)) && At(t, k, f.middle) && At(t, k + |f.middle|, ":")
      && At(t, k + |f.middle| + 1, f.start) && At(t, k + |f.middle| + 1 + |f.start|, Print(f.value))
      && At(t, k + |f.middle| + 1 + |f.start| + |Print(f.value)|, f.after)
    requires var end := i + |f.before| + |Spelled(f.key)| + |f.middle| + 1 + |f.start| + |Print(f.value)| + |f.after|;
      f.rest.LastField? || (end < |t| && t[end] == ',' && At(t, end + 1, PrintFields(f.rest)))
    ensures At(t, i, PrintFields(f))
    ensures |PrintFields(f)| ==
      |f.before| + |Spelled(f.key)| + |f.middle| + 1 + |f.start| + |Print(f.value)| + |f.after|
      + if f.rest.LastField? then 0 else 1 + |PrintFields(f.rest)|
  {
    hide Print, PrintFields, Spelled, At;
    var v := i + |f.before| + |Spelled(f.key)| + |f.middle| + 1;
    var end := v + |f.start| + |Print(f.value)| + |f.after|;
    var tail := if f.rest.LastField? then "" else "," + PrintFields(f.rest);
    FieldsUnfold(f);
    EndsInside(t, end - |f.after|, f.after);
    TailStands(t, end, f.rest.LastField?, PrintFields(f.rest), tail);
    SevenStand(t, i, f.before, Spelled(f.key), f.middle, f.start, Print(f.value), f.after, tail);
  }

  /** Reading an object from `i` on delivers `acc` and the members, with the brace behind them. */
  predicate FieldsLaid(t: string, i: nat, fields: Fields, acc: seq<Member>, converts: string -> bool) {
    var n := i + |PrintFields(fields)|;
    && At(t, i, PrintFields(fields)) && n < |t| && t[n] == '}' && ProperFields(fields, converts) && !fields.LastField?
    && MembersFrom(t, i, acc, converts) == Ok(Obj(acc + MembersOf(fields)), n + 1)
  }

  lemma {:induction false} AcceptsFields(t: string, i: nat, acc: seq<Member>, converts: string -> bool)
    returns (fields: Fields)
    requires i <= |t| && MembersFrom(t, i, acc, converts).Ok?
    ensures FieldsLaid(t, i, fields, acc, converts)
    decreases |t| - i, 2
  {
    hide MembersFrom, MemberAt, ValueAt, StringFrom, SkipWs, AllSpace, Laid, FieldsLaid, At, Spelled, Meant;
    FieldGoesOn(t, i, acc, converts);
    var before := BlankAt(t, i);
    var j := i + |before|;
    if t[j] == '}' {
      fields := NoFields(before);
      NoFieldsLaid(t, i, before, acc, converts);
    } else {
      MemberGoesOn(t, j, converts);
      var key := StringIsSpelled(t, j);
      var k := j + |Spelled(key)|;
      var middle := BlankAt(t, k);
      var colon := k + |middle|;
      var v := ValueAt(t, colon + 1, converts);
      var start, l := AcceptsValue(t, colon + 1, converts);
      var after := BlankAt(t, v.next);
      var end := v.next + |after|;
      var m := Member(Meant(key), v.value);
      var rest := LastField;
      if t[end] == ',' { rest := AcceptsFields(t, end + 1, acc + [m], converts); }
      fields := Field(before, key, middle, start, l, after, rest);
      FieldsTurn(t, i, acc, fields, v.value, v.next, converts);
    }
  }

  lemma NoFieldsLaid(t: string, i: nat, gap: string, acc: seq<Member>, converts: string -> bool)
    requires AllSpace(gap) && At(t, i, gap) && i + |gap| < |t| && t[i + |gap|] == '}'
    requires MembersFrom(t, i, acc, converts) == Ok(Obj(acc), i + |gap| + 1)
    ensures FieldsLaid(t, i, NoFields(gap), acc, converts)
  {
    hide MembersFrom;
    assert acc + MembersOf(NoFields(gap)) == acc;
  }

  /** One member between blanks, with the end or a comma and the other members behind it. */
  lemma FieldsTurn(t: string, i: nat, acc: seq<Member>, f: Fields, v: Value, next: nat, converts: string -> bool)
    requires f.Field? && AllSpace(f.before) && AllSpace(f.middle) && AllSpace(f.after)
    requires At(t, i, f.before) && At(t, i + |f.before|, Spelled(f.key))
    requires At(t, i + |f.before| + |Spelled(f.key)|, f.middle) && At(t, next, f.after) && next + |f.after| < |t|
    requires var colon := i + |f.before| + |Spelled(f.key)| + |f.middle|;
      colon < |t| && t[colon] == ':' && Laid(t, colon + 1, f.start, f.value, v, next, converts)
    requires var end, all := next + |f.after|, acc + [Member(Meant(f.key), v)];
      if t[end] == ',' then
        FieldsLaid(t, end + 1, f.rest, all, converts)
        && MembersFrom(t, i, acc, converts) == MembersFrom(t, end + 1, all, converts)
      else t[end] == '}' && f.rest.LastField? && MembersFrom(t, i, acc, converts) == Ok(Obj(all), end + 1)
    ensures FieldsLaid(t, i, f, acc, converts)
  {
    hide MembersFrom, AllSpace, Proper, Print, ValueOf, Ends, At, PrintFields, Spelled, Meant, MembersOf;
    ColonStands(t, i + |f.before| + |Spelled(f.key)| + |f.middle|);
    FieldStands(t, i, f);
    FieldsJoin(acc, Member(Meant(f.key), v), f);
    NothingBehind(converts);
    assert acc + [Member(Meant(f.key), v)] + [] == acc + [Member(Meant(f.key), v)];
  }

  lemma NothingBehind(converts: string -> bool)
    ensures MembersOf(LastField) == [] && ProperFields(LastField, converts)
    ensures ValuesOf(LastItem) == [] && ProperItems(LastItem, converts)
  {
  }

  lemma ColonStands(t: string, colon: nat)
    requires colon < |t| && t[colon] == ':'
    ensures At(t, colon, ":")
  {
    assert t[colon..colon + 1] == ":";
  }

  lemma FieldsJoin(acc: seq<Member>, m: Member, f: Fields)
    requires f.Field? && m == Member(Meant(f.key), ValueOf(f.value))
    ensures acc + MembersOf(f) == acc + [m] + MembersOf(f.rest)
  {
    assert MembersOf(f) == [m] + MembersOf(f.rest);
  }

  // -------------------------------------------------------------- documents

  /** The text begins with a layout of `v`, and `next` stands behind it. */
  ghost predicate IsDocument(t: string, v: Value, next: nat, converts: string -> bool) {
    exists blank, l :: Laid(t, 0, blank, l, v, next, converts)
  }

  /**
   * Main result: the importer reads a text as a value if and only if the text begins with a layout
   * of it, whatever follows; trailing commas, unknown escapes and digits left out included.
   */
  lemma ReadsExactly(t: string, v: Value, next: nat, converts: string -> bool)
    ensures Document(t, converts) == Ok(v, next) <==> IsDocument(t, v, next, converts)
  {
    hide ValueAt, Print, Proper, ValueOf, Ends, AllSpace, SkipWs;
    if blank, l :| Laid(t, 0, blank, l, v, next, converts) {
      LaidIsRead(t, blank, l, v, next, converts);
    }
    if Document(t, converts) == Ok(v, next) {
      var j := SkipWs(t, 0);
      var lead := BlankAt(t, 0);
      var blank, l := AcceptsValue(t, j, converts);
      LeadJoins(t, lead, blank, l, v, next, converts);
    }
  }

  lemma LeadJoins(t: string, lead: string, blank: string, l: Layout, v: Value, next: nat, converts: string -> bool)
    requires AllSpace(lead) && At(t, 0, lead) && Laid(t, |lead|, blank, l, v, next, converts)
    ensures Laid(t, 0, lead + blank, l, v, next, converts)
  {
    hide Print, Proper, ValueOf, Ends;
    AtSplit(t, 0, lead, blank);
  }

  lemma LaidIsRead(t: string, blank: string, l: Layout, v: Value, next: nat, converts: string -> bool)
    requires Laid(t, 0, blank, l, v, next, converts)
    ensures Document(t, converts) == Ok(v, next)
  {
    hide ValueAt, Print, Proper, ValueOf, Ends;
    AtFirst(t, |blank|, Print(l));
    SkipsTo(t, 0, blank);
    assert At(t, |blank|, "") && AllSpace("");
    LayoutReads(t, |blank|, "", l, converts);
  }
}
