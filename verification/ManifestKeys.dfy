/** State names stand bare in the invariant section: exactly which of them survive. */
module ManifestKeys {
  import opened Text
  import opened ManifestText
  import opened Manifest
  import opened ManifestLines
  import opened ManifestRoundTrip
  import opened ManifestScan
  import opened ManifestDocument

  /**
   * The name is not empty, has no colon, no blank at either end and nothing that unquoting
   * takes off, and its line has no '#' that the scanner sees outside quotes.
   */
  predicate KeySurvives(key: string, value: string) {
    && key != "" && ':' !in key && Trimmed(key) && Unquote(key) == key
    && CommentAt(Entry((key, Quoted(value))), 0, false, false) == |Entry((key, Quoted(value)))|
  }

  /** What the invariant section makes of one line. */
  function EntryOf(text: string): Option<(string, string)> {
    if text in ["{", "}", "},"] || Unquote(KeyOf(text)) == "" || ValueOf(text) == "" then None
    else Some((Unquote(KeyOf(text)), Unquote(ValueOf(text))))
  }

  /** What is read of the line written for one entry. */
  function Outcome(key: string, value: string): Option<(string, string)> {
    match CleanLine(Raw(Line(2, Entry((key, Quoted(value))))))
    case None => None
    case Some(l) => EntryOf(l.text)
  }

  lemma SurvivorReads(key: string, value: string)
    requires Quotable(key) && Quotable(value) && KeySurvives(key, value)
    ensures Outcome(key, value) == Some((key, value))
  {
    hide CommentAt, Unquote, KeyOf, ValueOf, CleanLine;
    var text := Entry((key, Quoted(value)));
    assert text[0] == key[0] && text[|text| - 1] == '"' && |text| > 3;
    RawCleans(Line(2, text));
    QuotesComeOff(value);
    EntrySplits(key, Quoted(value));
  }

  // ------------------------------------------- trimming and unquoting only delete

  lemma {:induction false} TrimRightSlice(s: string) returns (b: nat)
    ensures b <= |s| && TrimRight(s) == s[..b] && (b > 0 ==> !IsSpace(s[b - 1]))
    ensures forall q :: b <= q < |s| ==> IsSpace(s[q])
  {
    if |s| > 0 && IsSpace(s[|s| - 1]) {
      b := TrimRightSlice(s[..|s| - 1]);
      assert s[..|s| - 1][..b] == s[..b];
    } else {
      b := |s|;
      assert s[..b] == s;
    }
  }

  /** The trimmed text is the stretch from the first to the last character that is not blank. */
  lemma TrimSlice(s: string) returns (a: nat, b: nat)
    ensures a <= b <= |s| && Trim(s) == s[a..b] && Trimmed(Trim(s))
    ensures forall q :: 0 <= q < |s| && !(a <= q < b) ==> IsSpace(s[q])
  {
    a := SkipWs(s, 0);
    var t := s[a..];
    var n := TrimRightSlice(t);
    b := a + n;
    assert t[..n] == s[a..b];
    forall q | 0 <= q < |s| && !(a <= q < b) ensures IsSpace(s[q]) {
      if q >= b { assert s[q] == t[q - a]; }
    }
  }

  lemma TrimNothing(s: string)
    requires |Trim(s)| == |s|
    ensures Trim(s) == s && Trimmed(s)
  {
    var a, b := TrimSlice(s);
    assert s[0..|s|] == s;
  }

  lemma UnquoteNothing(s: string)
    requires |Unquote(s)| == |s|
    ensures Unquote(s) == s
  {
    TrimNothing(s);
  }

  /** A text that opens a double quote and never closes it. */
  predicate OneQuote(u: string) { |u| > 0 && u[0] == '"' && forall k :: 1 <= k < |u| ==> u[k] != '"' }

  lemma {:induction false} OpenQuoteStays(u: string)
    requires OneQuote(u)
    ensures |Unquote(u)| > 0 && Unquote(u)[0] == '"'
    decreases |u|
  {
    var t := Trim(u);
    TrimKeepsQuote(u);
    hide Trim;
    if |t| > 1 && t[|t| - 1] == ',' {
      var v := t[..|t| - 1];
      assert v[0] == t[0] && forall k :: 1 <= k < |v| ==> v[k] == t[k];
      OpenQuoteStays(v);
    }
  }

  lemma TrimKeepsQuote(u: string)
    requires OneQuote(u)
    ensures OneQuote(Trim(u))
  {
    var a, b := TrimSlice(u);
    assert a == 0 && b > 0;
  }

  // ----------------------------------------------------- one line, part by part

  lemma {:induction false} NoColonNoValue(text: string)
    requires ':' !in text
    ensures ValueOf(text) == ""
  {
    forall k | 0 <= k < |text| ensures NotColon(text[k]) { assert text[k] in text; }
    SpanUnique(text, 0, NotColon, |text|);
  }

  lemma TrimKeepsOut(s: string, c: char)
    requires c !in s
    ensures c !in Trim(s)
  {
    var a, b := TrimSlice(s);
  }

  lemma SliceOfSlice(s: string, c: nat, first: nat, a: nat, b: nat)
    requires first <= c <= |s| && a <= b <= c - first
    ensures s[..c][first..][a..b] == s[first + a..first + b]
  {
    var left, right := s[..c][first..][a..b], s[first + a..first + b];
    assert |left| == |right| && forall k :: 0 <= k < |left| ==> left[k] == right[k];
  }

  lemma SliceParts(s: string, x: nat, y: nat, n: nat)
    requires x <= y <= |s| && n < y - x
    ensures s[x..y][..n] == s[x..x + n] && s[x..y][n + 1..] == s[x + n + 1..y]
  {
    var left, right := s[x..y][n + 1..], s[x + n + 1..y];
    assert |left| == |right| && forall k :: 0 <= k < |left| ==> left[k] == right[k];
  }

  lemma MiddleSlice(before: string, middle: string, behind: string, i: nat, j: nat)
    requires i <= j <= |middle|
    ensures (before + middle + behind)[|before| + i..|before| + j] == middle[i..j]
  {
    var left, right := (before + middle + behind)[|before| + i..|before| + j], middle[i..j];
    assert |left| == |right| && forall k :: 0 <= k < |left| ==> left[k] == right[k];
  }

  /** Splitting `raw[..c]` at the first colon, which stands at `q`. */
  lemma LineParts(raw: string, c: nat, first: nat, q: nat) returns (x: nat, y: nat)
    requires first <= c <= |raw| && q < |raw| && raw[q] == ':' && forall k :: 0 <= k < q ==> raw[k] != ':'
    requires forall k :: 0 <= k < first ==> IsBlank(raw[k])
    ensures c <= q ==> ValueOf(Trim(raw[..c][first..])) == ""
    ensures q < c ==> var text := Trim(raw[..c][first..]);
      first <= x <= q < y <= c && KeyOf(text) == Trim(raw[x..q]) && ValueOf(text) == Trim(raw[q + 1..y])
  {
    hide Trim, SkipWs;
    var s := raw[..c][first..];
    if c <= q {
      assert ':' !in s;
      TrimKeepsOut(s, ':');
      NoColonNoValue(Trim(s));
      x, y := 0, 0;
    } else {
      var a, b := TrimSlice(s);
      assert first <= q && s[q - first] == raw[q] && !IsSpace(s[q - first]);
      x, y := first + a, first + b;
      var text := Trim(s);
      SliceOfSlice(raw, c, first, a, b);
      assert text == raw[x..y] && text[q - x] == raw[q];
      forall k | 0 <= k < q - x ensures NotColon(text[k]) { assert text[k] == raw[x + k]; }
      SpanUnique(text, 0, NotColon, q - x);
      SliceParts(raw, x, y, q - x);
    }
  }

  /** A cut-off value is never the value that was written. */
  lemma CutValueDiffers(value: string, n: nat)
    requires Quotable(value) && n < |value| + 3
    ensures var w := Trim((" " + Quoted(value))[..n]); w == "" || Unquote(w) != value
  {
    if n >= 2 {
      var u := "\"" + value[..n - 2];
      assert (" " + Quoted(value))[..n] == " " + u;
      TrimSpace(u);
      assert OneQuote(u) by { forall k | 1 <= k < |u| ensures u[k] != '"' { assert u[k] == value[k - 1]; } }
      var a, b := TrimSlice(u);
      assert a == 0 && b > 0 && OneQuote(Trim(u));
      OpenQuoteStays(Trim(u));
    } else {
      var s := (" " + Quoted(value))[..n];
      var a, b := TrimSlice(s);
      assert forall k :: 0 <= k < |s| ==> s[k] == ' ';
    }
  }

  /** A name can only lose characters on the way; if it loses none, it survives exactly when its value does. */
  lemma OutcomeShrinks(key: string, value: string)
    requires Quotable(key) && Quotable(value) && Outcome(key, value).Some?
    ensures var e := Outcome(key, value).value;
      && e.0 != "" && |e.0| <= |key|
      && (|e.0| == |key| ==> e.0 == key && (e.1 == value ==> KeySurvives(key, value)))
  {
    hide Trim, Unquote, CommentAt, Outcome, Raw, Entry, Quoted, Trimmed, Quotable;
    var e := Outcome(key, value).value;
    var x, y := OutcomeParts(key, value);
    NameKept(key, x, Span(key, 0, NotColon), e.0);
    if |e.0| == |key| && e.1 == value {
      NoColonBefore(key);
      WholeLineRead(key, value, y);
    }
  }

  lemma NoColonBefore(key: string)
    requires Span(key, 0, NotColon) == |key|
    ensures ':' !in key
  {
    assert forall k :: 0 <= k < |key| ==> NotColon(key[k]);
  }

  /** A stretch of the name, trimmed and unquoted, is as long as the name only if it is the name. */
  lemma NameKept(key: string, x: nat, p: nat, name: string)
    requires 2 <= x <= 2 + p <= 2 + |key| && name == Unquote(Trim(key[x - 2..p])) && |name| <= |Trim(key[x - 2..p])|
    ensures |name| <= |key|
    ensures |name| == |key| ==> name == key && p == |key| && Trimmed(key) && Unquote(key) == key
  {
    PartKept(key, x - 2, p, key[x - 2..p], name);
  }

  lemma PartKept(key: string, a: nat, p: nat, part: string, name: string)
    requires a <= p <= |key| && part == key[a..p] && name == Unquote(Trim(part)) && |name| <= |Trim(part)|
    ensures |name| <= |key|
    ensures |name| == |key| ==> name == key && p == |key| && Trimmed(key) && Unquote(key) == key
  {
    hide Trim, Unquote, Trimmed;
    if |name| == |key| {
      assert |part| == |key|;
      assert part == key;
      TrimNothing(key);
      UnquoteNothing(key);
    }
  }

  /** When the right value is read, the scanner has kept the whole line. */
  lemma WholeLineRead(key: string, value: string, y: nat)
    requires Quotable(value) && Span(key, 0, NotColon) == |key|
    requires var raw := Raw(Line(2, Entry((key, Quoted(value)))));
      && |raw| == |key| + |value| + 6 && 3 + |key| <= y <= CommentAt(raw, 0, false, false)
      && Trim(raw[3 + |key|..y]) != "" && Unquote(Trim(raw[3 + |key|..y])) == value
    ensures CommentAt(Entry((key, Quoted(value))), 0, false, false) == |Entry((key, Quoted(value)))|
  {
    hide Trim, Unquote, CommentAt;
    var entry := Entry((key, Quoted(value)));
    var raw := Raw(Line(2, entry));
    RawShape(key, value);
    MiddleSlice("  " + key + ":", " " + Quoted(value), "", 0, y - |key| - 3);
    assert raw == "  " + key + ":" + (" " + Quoted(value)) + "";
    assert (" " + Quoted(value))[0..y - |key| - 3] == (" " + Quoted(value))[..y - |key| - 3];
    if CommentAt(raw, 0, false, false) < |raw| { CutValueDiffers(value, y - |key| - 3); }
    CalmPrefix("  ", entry);
    assert raw == "  " + entry;
  }

  /** Name and value read are what trimming and unquoting leave of two stretches of the line. */
  lemma OutcomeParts(key: string, value: string) returns (x: nat, y: nat)
    requires Quotable(key) && Quotable(value) && Outcome(key, value).Some?
    ensures var raw, p, e := Raw(Line(2, Entry((key, Quoted(value))))), Span(key, 0, NotColon),
      Outcome(key, value).value;
      && 2 <= x <= 2 + p < y <= CommentAt(raw, 0, false, false) && |raw| == |key| + |value| + 6
      && e.0 == Unquote(Trim(key[x - 2..p])) != "" && |e.0| <= |Trim(key[x - 2..p])|
      && e.1 == Unquote(Trim(raw[3 + p..y])) && Trim(raw[3 + p..y]) != ""
  {
    hide Trim, Unquote, KeyOf, ValueOf, CommentAt, Raw, Entry;
    var raw, p := Raw(Line(2, Entry((key, Quoted(value))))), Span(key, 0, NotColon);
    var c := CommentAt(raw, 0, false, false);
    RawShape(key, value);
    CalmPasses(raw, 0, 2);
    var first := Span(raw[..c], 0, IsBlank);
    assert first >= 2 by { assert IsBlank(raw[..c][0]) && IsBlank(raw[..c][1]); }
    x, y := LineParts(raw, c, first, 2 + p);
    assert raw[x..2 + p] == key[x - 2..p] by {
      assert raw == "  " + key + (":" + (" " + Quoted(value)));
      MiddleSlice("  ", key, ":" + (" " + Quoted(value)), x - 2, p);
    }
  }

  /** The written line: two spaces, the name, a colon, the quoted value. */
  lemma RawShape(key: string, value: string)
    ensures var raw, p := Raw(Line(2, Entry((key, Quoted(value))))), Span(key, 0, NotColon);
      && raw == "  " + key + ":" + (" " + Quoted(value)) && raw[2 + p] == ':'
      && forall k :: 0 <= k < 2 + p ==> raw[k] != ':'
  {
    var raw, p := Raw(Line(2, Entry((key, Quoted(value))))), Span(key, 0, NotColon);
    assert Spaces(2) == "  ";
    assert raw == "  " + key + ":" + (" " + Quoted(value));
    forall k | 0 <= k < 2 + p ensures raw[k] != ':' {
      if k >= 2 { assert raw[k] == key[k - 2] && NotColon(key[k - 2]); }
    }
  }

  // ------------------------------------------------------------ the whole table

  /** The table read from the lines of the listed entries. */
  function Gather(m: map<string, string>, order: seq<string>, start: map<string, string>): map<string, string>
    requires forall k :: k in order ==> k in m
  {
    if |order| == 0 then start
    else
      Gather(m, order[1..],
             match Outcome(order[0], m[order[0]])
             case None => start
             case Some(e) => start[e.0 := e.1])
  }

  lemma {:induction false} FoundGathers(m: Contract, order: seq<string>, start: map<string, string>)
    requires forall k :: k in order ==> k in m.invariants && Quotable(k) && Quotable(m.invariants[k])
    ensures Run(Invariants(), Found(m, order), start) == Gather(m.invariants, order, start)
  {
    if |order| > 0 {
      hide CleanLine, Found, EntryOf;
      var k := order[0];
      assert k in order;
      FoundFirst(m, order);
      var clean := CleanLine(Raw(Line(2, Entry((k, Quoted(m.invariants[k]))))));
      if clean.None? {
        assert [] + Found(m, order[1..]) == Found(m, order[1..]);
        FoundGathers(m, order[1..], start);
      } else {
        StepIsEntry(start, clean.value.text);
        RunOne(Invariants(), clean.value, start);
        RunConcat(Invariants(), [clean.value], Found(m, order[1..]), start);
        FoundGathers(m, order[1..], InvariantStep(start, clean.value.text));
      }
    } else {
      NothingAtAll(m, start);
    }
  }

  lemma NothingAtAll(m: Contract, start: map<string, string>)
    ensures Run(Invariants(), Found(m, []), start) == start
  {
  }

  lemma StepIsEntry(m: map<string, string>, text: string)
    ensures InvariantStep(m, text) == match EntryOf(text) case None => m case Some(e) => m[e.0 := e.1]
  {
    hide Unquote, KeyOf, ValueOf;
  }

  /** The name read from each line, "" for a line that gives none. */
  function NamesRead(m: map<string, string>, order: seq<string>): (names: seq<string>)
    requires forall k :: k in order ==> k in m
    ensures |names| == |order|
  {
    if |order| == 0 then []
    else
      [match Outcome(order[0], m[order[0]]) case None => "" case Some(e) => e.0] + NamesRead(m, order[1..])
  }

  lemma {:induction false} GatherNames(m: map<string, string>, order: seq<string>, start: map<string, string>)
    requires forall k :: k in order ==> k in m && Quotable(k) && Quotable(m[k])
    ensures forall k :: k in Gather(m, order, start) ==> k in start || (k in NamesRead(m, order) && k != "")
  {
    if |order| > 0 {
      hide Outcome;
      var k := order[0];
      assert k in order;
      if Outcome(k, m[k]).Some? {
        OutcomeShrinks(k, m[k]);
        GatherNames(m, order[1..], start[Outcome(k, m[k]).value.0 := Outcome(k, m[k]).value.1]);
      } else {
        GatherNames(m, order[1..], start);
      }
    }
  }

  // ------------------------------------------ names only shrink, so none may

  function Letters(names: seq<string>): nat {
    if |names| == 0 then 0 else |names[0]| + Letters(names[1..])
  }

  lemma {:induction false} LettersWithout(s: seq<string>, j: nat)
    requires j < |s|
    ensures Letters(s) == |s[j]| + Letters(s[..j] + s[j + 1..])
  {
    if j == 0 {
      assert s[..0] + s[1..] == s[1..];
    } else {
      LettersWithout(s[1..], j - 1);
      assert (s[..j] + s[j + 1..])[1..] == s[1..][..j - 1] + s[1..][j..];
    }
  }

  /** As many distinct names as slots, each in some slot: the slots hold the same letters. */
  lemma {:induction false} CoveringKeepsLetters(names: seq<string>, slots: seq<string>)
    requires Distinct(names) && |names| == |slots| && forall n :: n in names ==> n in slots
    ensures Letters(names) == Letters(slots)
    decreases |names|
  {
    if |names| > 0 {
      var n := names[0];
      assert n in names;
      var j :| 0 <= j < |slots| && slots[j] == n;
      var rest := slots[..j] + slots[j + 1..];
      forall o | o in names[1..] ensures o in rest {
        assert o in names && o != n;
        var i :| 0 <= i < |slots| && slots[i] == o;
        assert rest[if i < j then i else i - 1] == o;
      }
      CoveringKeepsLetters(names[1..], rest);
      LettersWithout(slots, j);
    }
  }

  /** The line of this entry is read under its own name. */
  predicate ReadAsItself(key: string, value: string) {
    Outcome(key, value).Some? && Outcome(key, value).value.0 == key
  }

  lemma NameShrinks(m: map<string, string>, k: string)
    requires k in m && Quotable(k) && Quotable(m[k])
    ensures |NamesRead(m, [k])[0]| <= |k|
    ensures |NamesRead(m, [k])[0]| == |k| && k != "" ==> ReadAsItself(k, m[k])
  {
    hide Outcome, Quotable, KeySurvives;
    if Outcome(k, m[k]).Some? { OutcomeShrinks(k, m[k]); }
  }

  /** The names read hold no more letters than the names written; equally many only if each does. */
  lemma {:induction false} NamesShrink(m: map<string, string>, order: seq<string>)
    requires forall k :: k in order ==> k in m && Quotable(k) && Quotable(m[k])
    ensures Letters(NamesRead(m, order)) <= Letters(order)
    ensures Letters(NamesRead(m, order)) == Letters(order) ==>
              forall k :: k in order && k != "" ==> ReadAsItself(k, m[k])
  {
    if |order| > 0 {
      hide Outcome, Quotable, ReadAsItself;
      var k, rest := order[0], order[1..];
      assert k in order;
      NameShrinks(m, k);
      NamesShrink(m, rest);
      assert NamesRead(m, order)[0] == NamesRead(m, [k])[0] && NamesRead(m, order)[1..] == NamesRead(m, rest);
      assert order == [k] + rest;
    }
  }

  predicate AllReadAsThemselves(m: map<string, string>, order: seq<string>) {
    forall k :: k in order ==> k in m && ReadAsItself(k, m[k])
  }

  function ValuesRead(m: map<string, string>, order: seq<string>): map<string, string>
    requires AllReadAsThemselves(m, order)
  {
    map k | k in order :: Outcome(k, m[k]).value.1
  }

  /** When every name is read as itself, the table read holds the values read. */
  lemma {:induction false} GatherFaithful(m: map<string, string>, order: seq<string>, start: map<string, string>)
    requires Distinct(order) && AllReadAsThemselves(m, order)
    ensures Gather(m, order, start) == start + ValuesRead(m, order)
  {
    if |order| > 0 {
      var k, rest := order[0], order[1..];
      assert k in order && ReadAsItself(k, m[k]);
      var v := Outcome(k, m[k]).value.1;
      assert Distinct(rest) && AllReadAsThemselves(m, rest);
      GatherFaithful(m, rest, start[k := v]);
      OneValueMore(m, order, start);
      hide Outcome, ValuesRead;
    }
  }

  lemma OneValueMore(m: map<string, string>, order: seq<string>, start: map<string, string>)
    requires |order| > 0 && Distinct(order) && AllReadAsThemselves(m, order)
    ensures AllReadAsThemselves(m, order[1..])
    ensures start + ValuesRead(m, order)
         == start[order[0] := Outcome(order[0], m[order[0]]).value.1] + ValuesRead(m, order[1..])
  {
    hide Outcome;
    assert order == [order[0]] + order[1..];
  }

  /** The invariants come back if and only if every state name survives. */
  lemma TableComesBackExactly(m: map<string, string>, order: seq<string>)
    requires Lists(order, m) && forall k :: k in m ==> Quotable(k) && Quotable(m[k])
    ensures Gather(m, order, map[]) == m <==> forall k :: k in m ==> KeySurvives(k, m[k])
  {
    hide Outcome, KeySurvives, Quotable, Gather;
    var table := Gather(m, order, map[]);
    if forall k :: k in m ==> KeySurvives(k, m[k]) {
      forall k | k in order ensures Outcome(k, m[k]) == Some((k, m[k])) { SurvivorReads(k, m[k]); }
      GatherFaithful(m, order, map[]);
      assert map[] + ValuesRead(m, order) == m;
    }
    if table == m {
      GatherNames(m, order, map[]);
      CoveringKeepsLetters(order, NamesRead(m, order));
      NamesShrink(m, order);
      forall k | k in order ensures k != "" { assert k in table; }
      GatherFaithful(m, order, map[]);
      forall k | k in m ensures KeySurvives(k, m[k]) {
        assert k in order && m[k] == ValuesRead(m, order)[k];
        OutcomeShrinks(k, m[k]);
      }
    }
  }

  /**
   * The YAML round trip, exactly: for a manifest whose strings hold no double quote or newline,
   * reading what was written gives the manifest back if and only if every state name with an
   * invariant survives being written bare.
   */
  lemma ManifestRoundTripsExactly(m: Contract, order: seq<string>, converts: string -> bool)
    requires Writable(m, converts) && Lists(order, m.invariants)
    ensures Meaning(Joined(Yaml(m, order)), converts) == m
      <==> forall k :: k in m.invariants ==> KeySurvives(k, m.invariants[k])
  {
    hide Meaning, Joined, Yaml, Gather, Run, Found, KeySurvives, Quotable, WritablePort, WritableVariable,
         WritableSignal;
    AllButInvariantsRoundTrip(m, order, converts);
    FoundGathers(m, order, map[]);
    TableComesBackExactly(m.invariants, order);
    var table := Gather(m.invariants, order, map[]);
    assert m.(invariants := table) == m <==> table == m.invariants;
  }

  /** A state name with a colon, say, loses its invariant to a shorter name. */
  lemma ColonInNameIsLost(converts: string -> bool)
    ensures var m := NO_CONTRACT.(invariants := map["a:b" := "x"]);
      Meaning(Joined(Yaml(m, ["a:b"])), converts) != m
  {
    var m := NO_CONTRACT.(invariants := map["a:b" := "x"]);
    assert Writable(m, converts) && Lists(["a:b"], m.invariants);
    ManifestRoundTripsExactly(m, ["a:b"], converts);
    assert "a:b"[1] == ':' && !KeySurvives("a:b", m.invariants["a:b"]);
  }
}
