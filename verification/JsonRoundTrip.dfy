/** Whatever is printed as JSON is read back, whichever way it is laid out. */
module JsonRoundTrip {
  import opened Text
  import opened Json

  /** The parts of a number: the sign, the digits before the dot, those behind it, and the exponent. */
  datatype Numeral = Numeral(minus: bool, whole: string, fraction: string, exponent: string)

  type Number = n: Numeral | IsNumeral(n) witness Numeral(false, "0", "", "")

  /** A value together with the blanks put around its parts. */
  datatype Layout =
    | LNull
    | LNumber(number: Number)
    | LBool(flag: bool)
    | LStr(spelling: Spelling)
    | LArr(items: Items)
    | LObj(fields: Fields)

  /** `NoItems` stands in an empty list or behind a trailing comma, `LastItem` behind the last item. */
  datatype Items = LastItem | NoItems(gap: string) | Item(before: string, item: Layout, after: string, rest: Items)

  datatype Fields =
    | LastField
    | NoFields(gap: string)
    | Field(before: string, key: Spelling, middle: string, start: string, value: Layout, after: string, rest: Fields)

  /** Blanks only where blanks belong, and numbers the converter accepts. */
  predicate Proper(l: Layout, converts: string -> bool) {
    match l
    case LNumber(n) => converts(Lexeme(n))
    case LArr(items) => ProperItems(items, converts)
    case LObj(fields) => ProperFields(fields, converts)
    case _ => true
  }

  predicate AllDigits(s: string) { forall k :: 0 <= k < |s| ==> IsDigit(s[k]) }

  function Lexeme(n: Numeral): string {
    (if n.minus then "-" else "") + (n.whole + (n.fraction + n.exponent))
  }

  /** As section 6 of RFC 8259 has it, but digits may be missing: whether they may be is left to the converter. */
  predicate IsNumeral(n: Numeral) {
    && AllDigits(n.whole) && (n.minus || n.whole != "")
    && (n.fraction == "" || (n.fraction[0] == '.' && AllDigits(n.fraction[1..])))
    && IsExponent(n.exponent)
  }

  predicate IsMark(c: char) { c == 'e' || c == 'E' }

  predicate IsSign(c: char) { c == '+' || c == '-' }

  /** A number ends where no character can go on in it; everything else ends by itself. */
  predicate Ends(l: Layout, t: string, j: nat) {
    l.LNumber? && j < |t| ==>
      && !IsDigit(t[j])
      && (l.number.exponent == "" ==> !IsMark(t[j]) && (l.number.fraction == "" ==> t[j] != '.'))
      && (|l.number.exponent| == 1 ==> !IsSign(t[j]))
  }

  predicate ProperItems(l: Items, converts: string -> bool) {
    match l
    case LastItem => true
    case NoItems(gap) => AllSpace(gap)
    case Item(before, item, after, rest) =>
      AllSpace(before) && Proper(item, converts) && AllSpace(after) && ProperItems(rest, converts)
  }

  predicate ProperFields(l: Fields, converts: string -> bool) {
    match l
    case LastField => true
    case NoFields(gap) => AllSpace(gap)
    case Field(before, _, middle, start, value, after, rest) =>
      && AllSpace(before) && AllSpace(middle) && AllSpace(start) && Proper(value, converts) && AllSpace(after)
      && ProperFields(rest, converts)
  }

  function Print(l: Layout): (s: string)
    ensures |s| > 0 && !IsSpace(s[0]) && s[0] != ']'
  {
    match l
    case LNull => "null"
    case LNumber(n) => Lexeme(n)
    case LBool(b) => if b then "true" else "false"
    case LStr(p) => Spelled(p)
    case LArr(items) => "[" + PrintItems(items) + "]"
    case LObj(fields) => "{" + PrintFields(fields) + "}"
  }

  function PrintItems(l: Items): string {
    match l
    case LastItem => ""
    case NoItems(gap) => gap
    case Item(before, item, after, rest) =>
      before + (Print(item) + (after + (if rest.LastItem? then "" else "," + PrintItems(rest))))
  }

  function PrintFields(l: Fields): string {
    match l
    case LastField => ""
    case NoFields(gap) => gap
    case Field(before, key, middle, start, value, after, rest) =>
      before + (Spelled(key) + (middle + (":" + (start + (Print(value) + (after
      + (if rest.LastField? then "" else "," + PrintFields(rest))))))))
  }

  function ValueOf(l: Layout): Value {
    match l
    case LNull => Null
    case LNumber(n) => Number(Lexeme(n))
    case LBool(b) => Bool(b)
    case LStr(p) => Str(Meant(p))
    case LArr(items) => Arr(ValuesOf(items))
    case LObj(fields) => Obj(MembersOf(fields))
  }

  function ValuesOf(l: Items): seq<Value> {
    match l
    case LastItem => []
    case NoItems(_) => []
    case Item(_, item, _, rest) => [ValueOf(item)] + ValuesOf(rest)
  }

  function MembersOf(l: Fields): seq<Member> {
    match l
    case LastField => []
    case NoFields(_) => []
    case Field(_, key, _, _, value, _, rest) => [Member(Meant(key), ValueOf(value))] + MembersOf(rest)
  }

  // ---------------------------------------------------------------- strings

  /** What stands between quotes: a character, one behind a backslash, or `u` with four more behind a backslash. */
  datatype Piece = Letter(c: char) | Escaped(c: char) | Unicode(code: string)

  predicate IsPiece(p: Piece) {
    match p
    case Letter(c) => c != '"' && c != '\\'
    case Escaped(c) => c != 'u'
    case Unicode(x) => |x| == 4
  }

  type Spelling = ps: seq<Piece> | forall k :: 0 <= k < |ps| ==> IsPiece(ps[k])

  function PieceText(p: Piece): string {
    match p
    case Letter(c) => [c]
    case Escaped(c) => ['\\', c]
    case Unicode(x) => "\\u" + x
  }

  /** Every code comes out as a question mark; an unknown escape is the character itself. */
  function PieceMeans(p: Piece): string {
    match p
    case Letter(c) => [c]
    case Unicode(_) => "?"
    case Escaped('b') => "\U{08}"
    case Escaped('f') => "\U{0C}"
    case Escaped('n') => "\n"
    case Escaped('r') => "\r"
    case Escaped('t') => "\t"
    case Escaped(c) => [c]
  }

  function PiecesText(ps: seq<Piece>): string { if |ps| == 0 then "" else PieceText(ps[0]) + PiecesText(ps[1..]) }

  function Meant(ps: seq<Piece>): string { if |ps| == 0 then "" else PieceMeans(ps[0]) + Meant(ps[1..]) }

  function Spelled(ps: Spelling): string { "\"" + (PiecesText(ps) + "\"") }

  lemma PieceStep(t: string, i: nat, p: Piece, acc: string)
    requires IsPiece(p) && At(t, i, PieceText(p))
    ensures StringFrom(t, i, acc) == StringFrom(t, i + |PieceText(p)|, acc + PieceMeans(p))
  {
    AtChar(t, i, PieceText(p), 0);
    if |PieceText(p)| > 1 { AtChar(t, i, PieceText(p), 1); }
  }

  /** Pieces are read one by one. */
  lemma {:induction false} PiecesRead(t: string, i: nat, ps: Spelling, acc: string)
    requires At(t, i, PiecesText(ps))
    ensures StringFrom(t, i, acc) == StringFrom(t, i + |PiecesText(ps)|, acc + Meant(ps))
    decreases |ps|
  {
    hide StringFrom, At, PieceText, PieceMeans;
    if |ps| == 0 {
      assert acc + Meant(ps) == acc;
    } else {
      AtSplit(t, i, PieceText(ps[0]), PiecesText(ps[1..]));
      PieceStep(t, i, ps[0], acc);
      PiecesRead(t, i + |PieceText(ps[0])|, ps[1..], acc + PieceMeans(ps[0]));
      assert acc + PieceMeans(ps[0]) + Meant(ps[1..]) == acc + Meant(ps);
    }
  }

  lemma SpelledReads(t: string, i: nat, ps: Spelling)
    requires At(t, i, Spelled(ps))
    ensures i < |t| && t[i] == '"' && StringFrom(t, i + 1, "") == Ok(Meant(ps), i + |Spelled(ps)|)
  {
    hide PiecesText, Meant;
    AtFirst(t, i, Spelled(ps));
    AtSplit(t, i, "\"", PiecesText(ps) + "\"");
    AtSplit(t, i + 1, PiecesText(ps), "\"");
    AtFirst(t, i + 1 + |PiecesText(ps)|, "\"");
    PiecesRead(t, i + 1, ps, "");
    assert "" + Meant(ps) == Meant(ps);
  }

  // ------------------------------------------------------------ what is written

  function PieceOf(c: char): (p: Piece)
    ensures IsPiece(p)
  {
    if |EscapeChar(c)| == 2 then Escaped(EscapeChar(c)[1]) else Letter(c)
  }

  /** A string as the exporter spells it. */
  function Written(s: string): Spelling {
    seq(|s|, k requires 0 <= k < |s| => PieceOf(s[k]))
  }

  lemma PieceOfChar(c: char)
    ensures IsPiece(PieceOf(c)) && PieceText(PieceOf(c)) == EscapeChar(c) && PieceMeans(PieceOf(c)) == [c]
  {
  }

  lemma {:induction false} WrittenMeans(s: string)
    ensures PiecesText(Written(s)) == Escape(s) && Meant(Written(s)) == s && Spelled(Written(s)) == Quote(s)
  {
    hide EscapeChar, Escape, PieceOf;
    EscapeNothing();
    if s != "" {
      PieceOfChar(s[0]);
      assert Written(s)[1..] == Written(s[1..]);
      WrittenMeans(s[1..]);
      EscapeCons(s);
      assert s == [s[0]] + s[1..];
    }
    assert "\"" + (Escape(s) + "\"") == "\"" + Escape(s) + "\"";
  }

  /** No quote, no backslash alone and none of the five control characters with an escape is written as it is. */
  lemma {:induction false} EscapedIsTidy(s: string)
    ensures forall c :: c in Escape(s) ==> c != '\n' && c != '\r' && c != '\t' && c != '\U{08}' && c != '\U{0C}'
  {
    if s != "" { EscapedIsTidy(s[..|s| - 1]); }
  }

  lemma EscapeSnoc(s: string)
    requires |s| > 0
    ensures Escape(s) == Escape(s[..|s| - 1]) + EscapeChar(s[|s| - 1])
  {
  }

  lemma {:induction false} EscapeCons(s: string)
    requires |s| > 0
    ensures Escape(s) == EscapeChar(s[0]) + Escape(s[1..])
  {
    hide EscapeChar, Escape;
    var front, back, last := s[..|s| - 1], s[1..], EscapeChar(s[|s| - 1]);
    EscapeSnoc(s);
    EscapeNothing();
    if |s| == 1 {
      assert front == back == "";
    } else {
      EscapeCons(front);
      EscapeSnoc(back);
      assert front[1..] == back[..|back| - 1];
      assert (EscapeChar(s[0]) + Escape(front[1..])) + last == EscapeChar(s[0]) + (Escape(front[1..]) + last);
    }
  }

  lemma AtFirst(t: string, i: nat, s: string)
    requires At(t, i, s) && |s| > 0
    ensures i < |t| && t[i] == s[0]
  {
    AtChar(t, i, s, 0);
  }

  lemma EscapeNothing()
    ensures Escape("") == ""
  {
  }

  /** An escaped string and its closing quote read as the string, whatever follows. */
  lemma EscapedReads(t: string, i: nat, s: string, acc: string)
    requires At(t, i, Escape(s) + "\"")
    ensures StringFrom(t, i, acc) == Ok(acc + s, i + |Escape(s)| + 1)
  {
    hide Escape, Written, Meant, PiecesText, At;
    AtSplit(t, i, Escape(s), "\"");
    WrittenMeans(s);
    PiecesRead(t, i, Written(s), acc);
    AtFirst(t, i + |Escape(s)|, "\"");
  }

  /** Escaping loses nothing, and no quoted string is the beginning of another. */
  lemma QuoteTellsStrings(a: string, b: string, rest: string, more: string)
    requires Quote(a) + rest == Quote(b) + more
    ensures a == b && rest == more
  {
    hide Escape, EscapeChar, StringFrom;
    var t := Quote(a) + rest;
    assert At(t, 1, Escape(a) + "\"") by { assert t[1..] == Escape(a) + "\"" + rest; }
    assert At(t, 1, Escape(b) + "\"") by { assert t[1..] == Escape(b) + "\"" + more; }
    EscapedReads(t, 1, a, "");
    EscapedReads(t, 1, b, "");
    assert "" + a == a && "" + b == b;
    assert rest == t[|Quote(a)|..] && more == t[|Quote(b)|..];
  }

  // ----------------------------------------------------------------- values

  lemma SkipsTo(t: string, i: nat, blank: string)
    requires At(t, i, blank) && AllSpace(blank) && i + |blank| < |t| && !IsSpace(t[i + |blank|])
    ensures SkipWs(t, i) == i + |blank|
  {
    forall k | i <= k < i + |blank| ensures IsSpace(t[k]) { AtChar(t, i, blank, k - i); }
    SpanUnique(t, i, IsSpace, i + |blank|);
  }

  lemma NoBlank(t: string, i: nat)
    requires i <= |t|
    ensures AllSpace("") && At(t, i, "")
  {
  }

  lemma MemberStep(t: string, i: nat, key: string, k: nat, colon: nat, v: Value, n: nat, end: nat, acc: seq<Member>,
                   converts: string -> bool)
    requires i < |t| && SkipWs(t, i) < |t| && t[SkipWs(t, i)] == '"'
    requires StringFrom(t, SkipWs(t, i) + 1, "") == Ok(key, k)
    requires k <= |t| && SkipWs(t, k) == colon < |t| && t[colon] == ':'
    requires ValueAt(t, colon + 1, converts) == Ok(v, n) && n <= |t| && SkipWs(t, n) == end < |t|
    ensures t[end] == ',' ==>
      MembersFrom(t, i, acc, converts) == MembersFrom(t, end + 1, acc + [Member(key, v)], converts)
    ensures t[end] == '}' ==> MembersFrom(t, i, acc, converts) == Ok(Obj(acc + [Member(key, v)]), end + 1)
  {
    hide ValueAt, StringFrom, SkipWs;
  }

  lemma InBrackets(t: string, j: nat, open: string, inner: string, close: string)
    requires |open| == |close| == 1 && At(t, j, open + inner + close)
    ensures j < |t| && t[j] == open[0] && At(t, j + 1, inner) && At(t, j + 1 + |inner|, close)
    ensures |open + inner + close| == |inner| + 2
  {
    AtSplit(t, j, open + inner, close);
    AtSplit(t, j, open, inner);
    AtFirst(t, j, open);
  }

  /** The first character behind the blanks decides what is read. */
  lemma Dispatch(t: string, i: nat, j: nat, converts: string -> bool)
    requires i <= |t| && SkipWs(t, i) == j < |t|
    ensures t[j] == '{' ==> ValueAt(t, i, converts) == MembersFrom(t, j + 1, [], converts)
    ensures t[j] == '[' ==> ValueAt(t, i, converts) == ItemsFrom(t, j + 1, [], converts)
    ensures t[j] == '"' && StringFrom(t, j + 1, "").Ok? ==>
              ValueAt(t, i, converts) == Ok(Str(StringFrom(t, j + 1, "").value), StringFrom(t, j + 1, "").next)
    ensures t[j] == 't' || t[j] == 'f' ==> ValueAt(t, i, converts) == BoolAt(t, j)
    ensures t[j] == 'n' ==> ValueAt(t, i, converts) == NullAt(t, j)
    ensures t[j] == '-' || IsDigit(t[j]) ==> ValueAt(t, i, converts) == NumberAt(t, j, converts)
  {
    hide SkipWs, StringFrom, MembersFrom, ItemsFrom, BoolAt, NullAt, NumberAt;
  }

  /** The digits at `i` end where the next character is none. */
  lemma DigitsEnd(t: string, i: nat, digits: string)
    requires At(t, i, digits) && (forall k :: 0 <= k < |digits| ==> IsDigit(digits[k]))
    requires i + |digits| < |t| ==> !IsDigit(t[i + |digits|])
    ensures Span(t, i, IsDigit) == i + |digits|
  {
    forall k | i <= k < i + |digits| ensures IsDigit(t[k]) { AtChar(t, i, digits, k - i); }
    SpanUnique(t, i, IsDigit, i + |digits|);
  }

  lemma FractionReads(t: string, i: nat, fraction: string)
    requires At(t, i, fraction) && (fraction == "" || (fraction[0] == '.' && AllDigits(fraction[1..])))
    requires i + |fraction| < |t| ==> !IsDigit(t[i + |fraction|]) && (fraction == "" ==> t[i] != '.')
    ensures FractionEnd(t, i) == i + |fraction|
  {
    if fraction != "" {
      AtSplit(t, i, ".", fraction[1..]);
      assert fraction == "." + fraction[1..];
      AtFirst(t, i, fraction);
      DigitsEnd(t, i + 1, fraction[1..]);
    }
  }

  predicate IsExponent(x: string) {
    || x == "" || (IsMark(x[0]) && AllDigits(x[1..]))
    || (|x| > 1 && IsMark(x[0]) && IsSign(x[1]) && AllDigits(x[2..]))
  }

  lemma ExponentReads(t: string, i: nat, x: string)
    requires At(t, i, x) && IsExponent(x)
    requires i + |x| < |t| ==>
      && !IsDigit(t[i + |x|])
      && (x == "" ==> !IsMark(t[i])) && (|x| == 1 ==> !IsSign(t[i + 1]))
    ensures ExponentEnd(t, i) == i + |x|
  {
    if x != "" {
      AtFirst(t, i, x);
      if |x| > 1 { AtChar(t, i, x, 1); }
      var signs := if |x| > 1 && IsSign(x[1]) then 2 else 1;
      AtSplit(t, i, x[..signs], x[signs..]);
      assert x == x[..signs] + x[signs..];
      DigitsEnd(t, i + signs, x[signs..]);
    }
  }

  /** A number is read as its own text, when the converter accepts it. */
  lemma NumberReads(t: string, i: nat, n: Number, converts: string -> bool)
    requires At(t, i, Lexeme(n)) && converts(Lexeme(n)) && Ends(LNumber(n), t, i + |Lexeme(n)|)
    ensures i < |t| && (t[i] == '-' || IsDigit(t[i]))
    ensures NumberAt(t, i, converts) == Ok(Number(Lexeme(n)), i + |Lexeme(n)|)
  {
    NumberEnds(t, i, n);
    AtFirst(t, i, Lexeme(n));
    hide NumberEnd, Lexeme;
  }

  lemma NumberEnds(t: string, i: nat, n: Number)
    requires At(t, i, Lexeme(n)) && Ends(LNumber(n), t, i + |Lexeme(n)|)
    ensures i < |t| && (t[i] == '-' || IsDigit(t[i])) && NumberEnd(t, i) == i + |Lexeme(n)|
  {
    hide FractionEnd, ExponentEnd, Span, At;
    var sign := if n.minus then "-" else "";
    ThreeParts(t, i, sign, n.whole, n.fraction, n.exponent);
    var a := i + |sign|;
    var b := a + |n.whole|;
    var c := b + |n.fraction|;
    if n.whole != "" { AtFirst(t, a, n.whole); }
    if n.minus { AtFirst(t, i, sign); }
    if n.fraction != "" { AtFirst(t, b, n.fraction); }
    if n.exponent != "" { AtFirst(t, c, n.exponent); }
    DigitsEnd(t, a, n.whole);
    FractionReads(t, b, n.fraction);
    ExponentReads(t, c, n.exponent);
  }

  lemma {:induction false} LayoutReads(t: string, i: nat, blank: string, l: Layout, converts: string -> bool)
    requires AllSpace(blank) && At(t, i, blank) && At(t, i + |blank|, Print(l)) && Proper(l, converts)
    requires Ends(l, t, i + |blank| + |Print(l)|)
    ensures ValueAt(t, i, converts) == Ok(ValueOf(l), i + |blank| + |Print(l)|)
    decreases l, 0
  {
    hide PrintItems, PrintFields, ItemsFrom, MembersFrom, Spelled, Meant, Lexeme, Ends, ValuesOf, MembersOf,
      ProperItems, ProperFields, SkipWs, AllSpace, StringFrom, ValueAt;
    var j := i + |blank|;
    AtFirst(t, j, Print(l));
    SkipsTo(t, i, blank);
    Dispatch(t, i, j, converts);
    match l
    case LNull => {}
    case LNumber(n) => { NumberReads(t, j, n, converts); }
    case LBool(b) => {}
    case LStr(p) => { SpelledReads(t, j, p); }
    case LArr(items) => {
      InBrackets(t, j, "[", PrintItems(items), "]");
      ItemsRead(t, j + 1, items, [], converts);
      assert [] + ValuesOf(items) == ValuesOf(items);
    }
    case LObj(fields) => {
      InBrackets(t, j, "{", PrintFields(fields), "}");
      FieldsRead(t, j + 1, fields, [], converts);
      assert [] + MembersOf(fields) == MembersOf(fields);
    }
  }

  /** Blanks, a comma or a closing bracket end any value. */
  lemma EndsBefore(l: Layout, t: string, n: nat, after: string)
    requires AllSpace(after) && At(t, n, after) && n + |after| < |t|
    requires t[n + |after|] == ',' || t[n + |after|] == ']' || t[n + |after|] == '}'
    ensures Ends(l, t, n)
  {
    if after != "" { AtFirst(t, n, after); }
  }

  /** Where the parts of an item list stand. */
  lemma ItemParts(t: string, i: nat, l: Items)
    requires l.Item? && At(t, i, PrintItems(l))
    ensures At(t, i, l.before) && At(t, i + |l.before|, Print(l.item))
      && At(t, i + |l.before| + |Print(l.item)|, l.after)
    ensures var end := i + |l.before| + |Print(l.item)| + |l.after|;
      if l.rest.LastItem? then i + |PrintItems(l)| == end
      else i + |PrintItems(l)| == end + 1 + |PrintItems(l.rest)|
           && end < |t| && t[end] == ',' && At(t, end + 1, PrintItems(l.rest))
  {
    hide At, Print, PrintItems;
    var tail := if l.rest.LastItem? then "" else "," + PrintItems(l.rest);
    ItemsUnfold(l, tail);
    ThreeParts(t, i, l.before, Print(l.item), l.after, tail);
    if !l.rest.LastItem? { CommaThen(t, i + |l.before| + |Print(l.item)| + |l.after|, PrintItems(l.rest)); }
  }

  lemma ItemsUnfold(l: Items, tail: string)
    requires l.Item? && tail == if l.rest.LastItem? then "" else "," + PrintItems(l.rest)
    ensures PrintItems(l) == l.before + (Print(l.item) + (l.after + tail))
  {
  }

  lemma ThreeParts(t: string, i: nat, a: string, b: string, c: string, d: string)
    requires At(t, i, a + (b + (c + d)))
    ensures At(t, i, a) && At(t, i + |a|, b) && At(t, i + |a| + |b|, c) && At(t, i + |a| + |b| + |c|, d)
    ensures |a + (b + (c + d))| == |a| + |b| + |c| + |d|
  {
    hide At;
    var cd := c + d;
    AtSplit(t, i, a, b + cd);
    AtSplit(t, i + |a|, b, cd);
    AtSplit(t, i + |a| + |b|, c, d);
  }

  lemma ItemStep(t: string, i: nat, j: nat, v: Value, n: nat, end: nat, acc: seq<Value>, converts: string -> bool)
    requires i < |t| && SkipWs(t, i) == j < |t| && t[j] != ']'
    requires ValueAt(t, j, converts) == Ok(v, n) && n <= |t| && SkipWs(t, n) == end < |t|
    ensures t[end] == ',' ==> ItemsFrom(t, i, acc, converts) == ItemsFrom(t, end + 1, acc + [v], converts)
    ensures t[end] == ']' ==> ItemsFrom(t, i, acc, converts) == Ok(Arr(acc + [v]), end + 1)
  {
    hide ValueAt, SkipWs;
  }

  lemma NothingPrints()
    ensures PrintItems(LastItem) == PrintItems(NoItems("")) == "" && AllSpace("")
    ensures PrintFields(LastField) == PrintFields(NoFields("")) == ""
  {
  }

  lemma NoItemsRead(t: string, i: nat, gap: string, acc: seq<Value>, converts: string -> bool)
    requires AllSpace(gap) && At(t, i, PrintItems(NoItems(gap))) && At(t, i + |PrintItems(NoItems(gap))|, "]")
    ensures ItemsFrom(t, i, acc, converts) == Ok(Arr(acc), i + |PrintItems(NoItems(gap))| + 1)
  {
    AtFirst(t, i + |gap|, "]");
    SkipsTo(t, i, gap);
  }

  lemma {:induction false} ItemsRead(t: string, i: nat, l: Items, acc: seq<Value>, converts: string -> bool)
    requires At(t, i, PrintItems(l)) && At(t, i + |PrintItems(l)|, "]") && ProperItems(l, converts)
    ensures ItemsFrom(t, i, acc, converts) == Ok(Arr(acc + ValuesOf(l)), i + |PrintItems(l)| + 1)
    decreases l, 0
  {
    hide At, SkipWs, Print, ValueAt, ValueOf, Proper, AllSpace, ItemsFrom, PrintItems;
    AtFirst(t, i + |PrintItems(l)|, "]");
    match l
    case LastItem => {
      NothingPrints();
      NoItemsRead(t, i, "", acc, converts);
      assert acc + ValuesOf(l) == acc;
    }
    case NoItems(gap) => {
      NoItemsRead(t, i, gap, acc, converts);
      assert acc + ValuesOf(l) == acc;
    }
    case Item(before, item, after, rest) => {
      var j := i + |before|;
      var n := j + |Print(item)|;
      var end := n + |after|;
      ItemParts(t, i, l);
      AtFirst(t, j, Print(item));
      SkipsTo(t, i, before);
      NoBlank(t, j);
      EndsBefore(item, t, n, after);
      LayoutReads(t, j, "", item, converts);
      SkipsTo(t, n, after);
      ItemStep(t, i, j, ValueOf(item), n, end, acc, converts);
      if rest.LastItem? {
        assert ValuesOf(l) == [ValueOf(item)];
      } else {
        ItemsRead(t, end + 1, rest, acc + [ValueOf(item)], converts);
        assert acc + [ValueOf(item)] + ValuesOf(rest) == acc + ValuesOf(l);
      }
    }
  }

  lemma CommaThen(t: string, i: nat, s: string)
    requires At(t, i, "," + s)
    ensures i < |t| && t[i] == ',' && At(t, i + 1, s) && |"," + s| == |s| + 1
  {
    AtSplit(t, i, ",", s);
    AtFirst(t, i, ",");
  }

  lemma FieldsUnfold(l: Fields)
    requires l.Field?
    ensures PrintFields(l) == l.before + (Spelled(l.key) + (l.middle + (":" + (l.start + (Print(l.value) + (l.after
      + (if l.rest.LastField? then "" else "," + PrintFields(l.rest))))))))
  {
  }

  /** Where the parts of a field list stand. */
  lemma FieldsParts(t: string, i: nat, l: Fields)
    requires l.Field? && At(t, i, PrintFields(l))
    ensures var k := i + |l.before| + |Spelled(l.key)|;
      && At(t, i, l.before) && At(t, i + |l.before|, Spelled(l.key)) && At(t, k, l.middle) && At(t, k + |l.middle|, ":")
      && At(t, k + |l.middle| + 1, l.start) && At(t, k + |l.middle| + 1 + |l.start|, Print(l.value))
      && At(t, k + |l.middle| + 1 + |l.start| + |Print(l.value)|, l.after)
    ensures var end := i + |l.before| + |Spelled(l.key)| + |l.middle| + 1 + |l.start| + |Print(l.value)| + |l.after|;
      if l.rest.LastField? then i + |PrintFields(l)| == end
      else i + |PrintFields(l)| == end + 1 + |PrintFields(l.rest)|
           && end < |t| && t[end] == ',' && At(t, end + 1, PrintFields(l.rest))
  {
    hide At, Print, Spelled, Meant, PrintFields;
    FieldsUnfold(l);
    var tail := if l.rest.LastField? then "" else "," + PrintFields(l.rest);
    FieldParts(t, i, PrintFields(l), l.before, Spelled(l.key), l.middle, l.start, Print(l.value), l.after, tail);
    if !l.rest.LastField? {
      var end := i + |l.before| + |Spelled(l.key)| + |l.middle| + 1 + |l.start| + |Print(l.value)| + |l.after|;
      CommaThen(t, end, PrintFields(l.rest));
    }
  }

  lemma {:induction false} FieldsRead(t: string, i: nat, l: Fields, acc: seq<Member>, converts: string -> bool)
    requires At(t, i, PrintFields(l)) && At(t, i + |PrintFields(l)|, "}") && ProperFields(l, converts)
    ensures MembersFrom(t, i, acc, converts) == Ok(Obj(acc + MembersOf(l)), i + |PrintFields(l)| + 1)
    decreases l, 0
  {
    hide At, SkipWs, Print, ValueAt, ValueOf, Proper, AllSpace, StringFrom, Spelled, Meant, MembersFrom, PrintFields;
    AtFirst(t, i + |PrintFields(l)|, "}");
    match l
    case LastField => {
      NothingPrints();
      NoFieldsRead(t, i, "", acc, converts);
      assert acc + MembersOf(l) == acc;
    }
    case NoFields(gap) => {
      NoFieldsRead(t, i, gap, acc, converts);
      assert acc + MembersOf(l) == acc;
    }
    case Field(before, key, middle, start, value, after, rest) => {
      var end := i + |before| + |Spelled(key)| + |middle| + 1 + |start| + |Print(value)| + |after|;
      FieldsParts(t, i, l);
      FieldReads(t, i, before, key, middle, start, value, after, acc, converts);
      if rest.LastField? {
        assert MembersOf(l) == [Member(Meant(key), ValueOf(value))];
      } else {
        FieldsRead(t, end + 1, rest, acc + [Member(Meant(key), ValueOf(value))], converts);
        assert acc + [Member(Meant(key), ValueOf(value))] + MembersOf(rest) == acc + MembersOf(l);
      }
    }
  }

  lemma NoFieldsRead(t: string, i: nat, gap: string, acc: seq<Member>, converts: string -> bool)
    requires AllSpace(gap) && At(t, i, PrintFields(NoFields(gap))) && At(t, i + |PrintFields(NoFields(gap))|, "}")
    ensures MembersFrom(t, i, acc, converts) == Ok(Obj(acc), i + |PrintFields(NoFields(gap))| + 1)
  {
    AtFirst(t, i + |gap|, "}");
    SkipsTo(t, i, gap);
  }

  lemma {:induction false} FieldReads(t: string, i: nat, before: string, key: Spelling, middle: string, start: string,
                                      value: Layout, after: string, acc: seq<Member>, converts: string -> bool)
    requires AllSpace(before) && AllSpace(middle) && AllSpace(start) && Proper(value, converts) && AllSpace(after)
    requires var k := i + |before| + |Spelled(key)|;
      && At(t, i, before) && At(t, i + |before|, Spelled(key)) && At(t, k, middle) && At(t, k + |middle|, ":")
      && At(t, k + |middle| + 1, start) && At(t, k + |middle| + 1 + |start|, Print(value))
      && At(t, k + |middle| + 1 + |start| + |Print(value)|, after)
    requires var end := i + |before| + |Spelled(key)| + |middle| + 1 + |start| + |Print(value)| + |after|;
      end < |t| && (t[end] == ',' || t[end] == '}')
    ensures var end := i + |before| + |Spelled(key)| + |middle| + 1 + |start| + |Print(value)| + |after|;
      var all := acc + [Member(Meant(key), ValueOf(value))];
      && (t[end] == ',' ==> MembersFrom(t, i, acc, converts) == MembersFrom(t, end + 1, all, converts))
      && (t[end] == '}' ==> MembersFrom(t, i, acc, converts) == Ok(Obj(all), end + 1))
    decreases value, 1
  {
    hide At, SkipWs, Print, ValueAt, ValueOf, Proper, AllSpace, StringFrom, Spelled, Meant, MembersFrom;
    var j := i + |before|;
    var k := j + |Spelled(key)|;
    var colon := k + |middle|;
    var n := colon + 1 + |start| + |Print(value)|;
    SpelledReads(t, j, key);
    AtFirst(t, colon, ":");
    SkipsTo(t, i, before);
    SkipsTo(t, k, middle);
    EndsBefore(value, t, n, after);
    LayoutReads(t, colon + 1, start, value, converts);
    SkipsTo(t, n, after);
    MemberStep(t, i, Meant(key), k, colon, ValueOf(value), n, n + |after|, acc, converts);
  }

  lemma FieldParts(t: string, i: nat, w: string, a: string, b: string, c: string, d: string, e: string, f: string,
                   g: string)
    requires w == a + (b + (c + (":" + (d + (e + (f + g)))))) && At(t, i, w)
    ensures |w| == |a| + |b| + |c| + 1 + |d| + |e| + |f| + |g|
    ensures At(t, i, a) && At(t, i + |a|, b) && At(t, i + |a| + |b|, c) && At(t, i + |a| + |b| + |c|, ":")
    ensures var v := i + |a| + |b| + |c| + 1;
      At(t, v, d) && At(t, v + |d|, e) && At(t, v + |d| + |e|, f) && At(t, v + |d| + |e| + |f|, g)
  {
    hide At;
    var fg := f + g;
    var efg := e + fg;
    var defg := d + efg;
    var colon := ":" + defg;
    var c_ := c + colon;
    AtSplit(t, i, a, b + c_);
    AtSplit(t, i + |a|, b, c_);
    AtSplit(t, i + |a| + |b|, c, colon);
    AtSplit(t, i + |a| + |b| + |c|, ":", defg);
    var v := i + |a| + |b| + |c| + 1;
    AtSplit(t, v, d, efg);
    AtSplit(t, v + |d|, e, fg);
    AtSplit(t, v + |d| + |e|, f, g);
  }

  /** A laid-out document, however indented and whatever follows it, reads as its value. */
  lemma DocumentReads(blank: string, l: Layout, rest: string, converts: string -> bool)
    requires AllSpace(blank) && Proper(l, converts) && Ends(l, rest, 0)
    ensures Document(blank + Print(l) + rest, converts) == Ok(ValueOf(l), |blank| + |Print(l)|)
  {
    var t := blank + Print(l) + rest;
    assert At(t, 0, blank) && At(t, |blank|, Print(l)) && At(t, |blank|, "");
    AtFirst(t, |blank|, Print(l));
    SkipsTo(t, 0, blank);
    LayoutReads(t, |blank|, "", l, converts);
  }

  /** One rendering per value: two layouts printed alike have equal values. */
  lemma PrintTellsValues(a: Layout, b: Layout, rest: string, more: string)
    requires Proper(a, s => true) && Proper(b, s => true) && Print(a) + rest == Print(b) + more
    requires Ends(a, rest, 0) && Ends(b, more, 0)
    ensures ValueOf(a) == ValueOf(b) && rest == more
  {
    hide Print, Document, ValueOf, Proper;
    DocumentReads("", a, rest, s => true);
    DocumentReads("", b, more, s => true);
    assert "" + Print(a) == Print(a) && "" + Print(b) == Print(b);
    var t := Print(a) + rest;
    assert rest == t[|Print(a)|..] && more == t[|Print(b)|..];
  }
}
