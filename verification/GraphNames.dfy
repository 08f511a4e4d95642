/** What canonicalisation declares: exactly the names that transitions and states use. */
module GraphNames {
  import opened Text
  import opened Ir
  import opened Order
  import opened Priority
  import opened GraphSpec
  import opened GraphOps
  import opened GraphProps
  import Guard

  // ------------------------------------------------------------------- words

  predicate IsRun(raw: string, i: nat, j: nat) {
    i < j <= |raw| && forall k :: i <= k < j ==> IsWordChar(raw[k])
  }

  /** `word` stands in `raw`, at `from` or later, with no word character before or behind it. */
  predicate IsWordFrom(raw: string, from: nat, word: string) {
    exists i, j :: from <= i < j <= |raw| && IsRun(raw, i, j) && raw[i..j] == word
      && (i > 0 ==> !IsWordChar(raw[i - 1])) && (j < |raw| ==> !IsWordChar(raw[j]))
  }

  predicate IsWordOf(raw: string, word: string) { IsWordFrom(raw, 0, word) }

  const RESERVED := {"true", "false", "else", "otherwise", "default", "fsm", "and_", "or_", "not_"}

  predicate IsIdentifier(s: string) {
    s != "" && !IsDigit(s[0]) && forall k :: 0 <= k < |s| ==> IsWordChar(s[k])
  }

  predicate IsDeclarable(word: string) { IsIdentifier(word) && word !in RESERVED }

  lemma DeclarableIsGuardName(word: string)
    ensures IsGuardName(word) <==> IsDeclarable(word)
  {
  }

  lemma EventNameExactly(e: string)
    ensures IsEventName(e) <==> IsIdentifier(e) && e != "anonymous_event" && e != "completion_event"
  {
  }

  /** Behind a run of word characters read so far, the tokens are the words of both together. */
  lemma {:induction false} TokensAreWords(whole: string, i: nat, start: nat, word: string)
    requires start <= i <= |whole| && (start < i ==> IsRun(whole, start, i))
    requires start > 0 ==> !IsWordChar(whole[start - 1])
    ensures word in Tokens(whole[i..], whole[start..i]) <==> IsDeclarable(word) && IsWordFrom(whole, start, word)
    decreases |whole| - i
  {
    var raw, pending := whole[i..], whole[start..i];
    DeclarableIsGuardName(pending);
    if i == |whole| {
      LastWord(whole, start, word);
    } else if IsWordChar(raw[0]) {
      assert whole[start..i + 1] == pending + [raw[0]] && raw[1..] == whole[i + 1..];
      TokensAreWords(whole, i + 1, start, word);
    } else {
      assert whole[i + 1..i + 1] == "" && raw[1..] == whole[i + 1..];
      TokensAreWords(whole, i + 1, i + 1, word);
      WordEnds(whole, start, i, word);
    }
  }

  lemma LastWord(whole: string, start: nat, word: string)
    requires start <= |whole| && (start < |whole| ==> IsRun(whole, start, |whole|))
    requires start > 0 ==> !IsWordChar(whole[start - 1])
    ensures IsWordFrom(whole, start, word) <==> start < |whole| && word == whole[start..]
  {
    assert whole[start..|whole|] == whole[start..];
  }

  lemma WordEnds(whole: string, start: nat, i: nat, word: string)
    requires start <= i < |whole| && (start < i ==> IsRun(whole, start, i)) && !IsWordChar(whole[i])
    requires start > 0 ==> !IsWordChar(whole[start - 1])
    ensures IsWordFrom(whole, start, word) <==>
      (start < i && word == whole[start..i]) || IsWordFrom(whole, i + 1, word)
  {
    if IsWordFrom(whole, start, word) {
      var a, b :| start <= a < b <= |whole| && IsRun(whole, a, b) && whole[a..b] == word
        && (a > 0 ==> !IsWordChar(whole[a - 1])) && (b < |whole| ==> !IsWordChar(whole[b]));
      if a <= i {
        assert b <= i;
        assert a == start && b == i;
      }
    }
  }

  lemma TokensExactly(raw: string, word: string)
    ensures word in Tokens(raw, "") <==> IsDeclarable(word) && IsWordOf(raw, word)
  {
    assert raw[0..] == raw && raw[0..0] == "";
    TokensAreWords(raw, 0, 0, word);
  }

  // ------------------------------------------------------------------ guards

  /** An atomic leaf of a guard tree says `text`; a negation without operand is no leaf. */
  predicate SaysLeaf(g: Guard.Guard, text: string) {
    if g.op == Guard.Atomic then g.expression == text
    else exists k :: 0 <= k < |g.children| && SaysLeaf(g.children[k], text)
  }

  predicate IsElse(text: string) { text == "" || text == "else" || text == "otherwise" || text == "default" }

  lemma {:induction false} AtomsAreLeaves(g: Guard.Guard, text: string)
    ensures text in Guard.Atoms(g) <==> SaysLeaf(g, text) && !IsElse(text)
    decreases g, 1
  {
    if g.op != Guard.Atomic { AtomsOfAreLeaves(g.children, text); }
  }

  lemma {:induction false} AtomsOfAreLeaves(cs: seq<Guard.Guard>, text: string)
    ensures text in Guard.AtomsOf(cs) <==> !IsElse(text) && exists k :: 0 <= k < |cs| && SaysLeaf(cs[k], text)
    decreases cs, 0
  {
    if |cs| > 0 {
      var init, last := cs[..|cs| - 1], cs[|cs| - 1];
      AtomsOfAreLeaves(init, text);
      AtomsAreLeaves(last, text);
      if SaysLeaf(last, text) { assert SaysLeaf(cs[|cs| - 1], text); }
      if k :| 0 <= k < |init| && SaysLeaf(init[k], text) { assert SaysLeaf(cs[k], text); }
    }
  }

  /** The guard of a transition mentions `word`: in a leaf of its tree, or in its text if it has no tree. */
  ghost predicate GuardMentions(e: Edge, word: string) {
    if e.guardAst.Some? then exists leaf :: SaysLeaf(e.guardAst.value, leaf) && !IsElse(leaf) && IsWordOf(leaf, word)
    else e.guard.Some? && IsWordOf(e.guard.value, word)
  }

  lemma {:induction false} TokensOfExactly(raws: seq<string>, word: string)
    ensures word in TokensOf(raws) <==> IsDeclarable(word) && exists k :: 0 <= k < |raws| && IsWordOf(raws[k], word)
  {
    hide IsWordOf, IsDeclarable;
    if |raws| > 0 {
      var init, last := raws[..|raws| - 1], raws[|raws| - 1];
      TokensOfExactly(init, word);
      TokensExactly(last, word);
      if IsWordOf(last, word) { assert IsWordOf(raws[|raws| - 1], word); }
      if k :| 0 <= k < |init| && IsWordOf(init[k], word) { assert IsWordOf(raws[k], word); }
    }
  }

  /** After the guard text and tree of a transition agree, its guard words are those it had before. */
  lemma EdgeGuardExactly(e: Edge, word: string)
    ensures word in TokensOf(RawGuards(AgreeGuard(e))) <==> IsDeclarable(word) && GuardMentions(e, word)
  {
    hide IsWordFrom;
    var raws := RawGuards(AgreeGuard(e));
    TokensOfExactly(raws, word);
    hide IsDeclarable;
    if e.guardAst.Some? {
      forall t ensures t in raws <==> SaysLeaf(e.guardAst.value, t) && !IsElse(t) {
        AtomsAreLeaves(e.guardAst.value, t);
      }
    } else if e.guard.Some? && e.guard.value != "" {
      var t := e.guard.value;
      forall x ensures x in raws <==> x == t && !IsElse(t) { AtomsAreLeaves(AgreeGuard(e).guardAst.value, x); }
      if IsElse(t) && IsWordOf(t, word) { ElseHasNoWord(t, word); }
    } else {
      EmptyHasNoWord(word);
    }
  }

  lemma EmptyHasNoWord(word: string)
    ensures !IsWordOf("", word)
  {
  }

  /** The only word of such a text is reserved. */
  lemma ElseHasNoWord(t: string, word: string)
    requires IsElse(t) && IsWordOf(t, word)
    ensures !IsDeclarable(word)
  {
    hide IsWordOf;
    LettersAreOneWord(t, word);
  }

  lemma LettersAreOneWord(t: string, word: string)
    requires (forall k :: 0 <= k < |t| ==> IsWordChar(t[k])) && IsWordOf(t, word)
    ensures word == t
  {
    var i, j :| 0 <= i < j <= |t| && IsRun(t, i, j) && t[i..j] == word
      && (i > 0 ==> !IsWordChar(t[i - 1])) && (j < |t| ==> !IsWordChar(t[j]));
    assert i == 0 && j == |t|;
  }

  lemma {:induction false} GuardNamesComeFrom(edges: seq<Edge>, word: string)
    ensures word in GuardNames(edges) <==> exists e :: e in edges && word in TokensOf(RawGuards(e))
  {
    hide TokensOf, RawGuards;
    if |edges| > 0 {
      var init, last := edges[..|edges| - 1], edges[|edges| - 1];
      GuardNamesComeFrom(init, word);
      assert edges == init + [last];
    }
  }

  /** The transitions of the canonical graph are those given, each with its guard agreed. */
  lemma CanonicalEdgesExactly(edges: seq<Edge>, e: Edge)
    ensures e in Canonical(AgreeGuards(edges)) <==> exists k :: 0 <= k < |edges| && e == AgreeGuard(edges[k])
  {
    hide AgreeGuard;
    var a := AgreeGuards(edges);
    SortKeeps(a, CanonicalOrder(a));
    assert e in Canonical(a) <==> e in multiset(Canonical(a));
    assert e in a <==> e in multiset(a);
    if k :| 0 <= k < |edges| && e == AgreeGuard(edges[k]) { assert a[k] == e; }
  }

  ghost predicate UsedAsGuard(g: Graph, word: string) {
    IsDeclarable(word) && exists e :: e in g.edges && GuardMentions(e, word)
  }

  lemma GuardNamesExactly(g: Graph, word: string)
    ensures word in GuardNames(Canonical(AgreeGuards(g.edges))) <==> UsedAsGuard(g, word)
  {
    hide IsDeclarable, GuardMentions, TokensOf, RawGuards, AgreeGuard, Canonical, AgreeGuards;
    var y := Canonical(AgreeGuards(g.edges));
    GuardNamesComeFrom(y, word);
    if word in GuardNames(y) {
      var e :| e in y && word in TokensOf(RawGuards(e));
      CanonicalEdgesExactly(g.edges, e);
      var k :| 0 <= k < |g.edges| && e == AgreeGuard(g.edges[k]);
      EdgeGuardExactly(g.edges[k], word);
    }
    if UsedAsGuard(g, word) {
      var e :| e in g.edges && GuardMentions(e, word);
      var k :| 0 <= k < |g.edges| && g.edges[k] == e;
      CanonicalEdgesExactly(g.edges, AgreeGuard(e));
      EdgeGuardExactly(e, word);
    }
  }

  // -------------------------------------------------------- actions and events

  /** A transition, or a state on entry or exit, performs `name`. */
  ghost predicate UsedAsAction(g: Graph, name: string) {
    name != ""
    && ((exists e :: e in g.edges && (e.conditionAction == Some(name) || e.transitionAction == Some(name)))
        || exists s :: s in g.states && (name in s.entryActions || name in s.exitActions))
  }

  ghost predicate UsedAsEvent(g: Graph, name: string) {
    IsIdentifier(name) && name != "anonymous_event" && name != "completion_event"
    && exists e :: e in g.edges && e.event == name
  }

  lemma {:induction false} NonEmptyExactly(names: seq<string>, name: string)
    ensures name in NonEmpty(names) <==> name in names && name != ""
  {
    if |names| > 0 {
      NonEmptyExactly(names[..|names| - 1], name);
      assert names == names[..|names| - 1] + [names[|names| - 1]];
    }
  }

  predicate EdgePerforms(e: Edge, name: string) { e.conditionAction == Some(name) || e.transitionAction == Some(name) }

  lemma EdgeNamesExactly(e: Edge, name: string)
    ensures name in NonEmpty(OneName(e.conditionAction) + OneName(e.transitionAction))
      <==> name != "" && EdgePerforms(e, name)
  {
    NonEmptyExactly(OneName(e.conditionAction) + OneName(e.transitionAction), name);
  }

  lemma {:induction false} EdgeActionsComeFrom(edges: seq<Edge>, name: string)
    ensures name in EdgeActions(edges) <==> name != "" && exists e :: e in edges && EdgePerforms(e, name)
  {
    if |edges| > 0 {
      var init, last := edges[..|edges| - 1], edges[|edges| - 1];
      EdgeActionsComeFrom(init, name);
      EdgeNamesExactly(last, name);
      hide NonEmpty, OneName, EdgePerforms;
      assert edges == init + [last];
    }
  }

  predicate StatePerforms(s: State, name: string) { name in s.entryActions || name in s.exitActions }

  lemma {:induction false} StateActionsComeFrom(states: seq<State>, name: string)
    ensures name in StateActions(states) <==> name != "" && exists s :: s in states && StatePerforms(s, name)
  {
    if |states| > 0 {
      var init, last := states[..|states| - 1], states[|states| - 1];
      StateActionsComeFrom(init, name);
      NonEmptyExactly(last.entryActions + last.exitActions, name);
      assert StatePerforms(last, name) <==> name in last.entryActions + last.exitActions;
      hide NonEmpty, StatePerforms;
      assert states == init + [last];
    }
  }

  lemma {:induction false} EventNamesComeFrom(edges: seq<Edge>, name: string)
    ensures name in EventNames(edges) <==> IsEventName(name) && exists e :: e in edges && e.event == name
  {
    hide IsEventName;
    if |edges| > 0 {
      var init, last := edges[..|edges| - 1], edges[|edges| - 1];
      EventNamesComeFrom(init, name);
      assert edges == init + [last];
    }
  }

  /** Agreeing guards touches nothing else of a transition. */
  lemma AgreeingKeepsTheRest(e: Edge)
    ensures AgreeGuard(e) == e.(guard := AgreeGuard(e).guard, guardAst := AgreeGuard(e).guardAst)
  {
  }

  lemma AgreeingKeepsActions(e: Edge, name: string)
    ensures EdgePerforms(AgreeGuard(e), name) <==> EdgePerforms(e, name)
  {
    AgreeingKeepsTheRest(e);
  }

  lemma EdgeActionsExactly(edges: seq<Edge>, name: string)
    ensures name in EdgeActions(Canonical(AgreeGuards(edges)))
      <==> name != "" && exists e :: e in edges && EdgePerforms(e, name)
  {
    hide AgreeGuard, Canonical, AgreeGuards, EdgePerforms;
    var y := Canonical(AgreeGuards(edges));
    EdgeActionsComeFrom(y, name);
    if e :| e in y && EdgePerforms(e, name) {
      CanonicalEdgesExactly(edges, e);
      var k :| 0 <= k < |edges| && e == AgreeGuard(edges[k]);
      AgreeingKeepsActions(edges[k], name);
      assert edges[k] in edges;
    }
    if e :| e in edges && EdgePerforms(e, name) {
      var k :| 0 <= k < |edges| && edges[k] == e;
      CanonicalEdgesExactly(edges, AgreeGuard(e));
      AgreeingKeepsActions(e, name);
    }
  }

  lemma StateActionsExactly(states: seq<State>, name: string)
    ensures name in StateActions(Sort(states, FqnOrder))
      <==> name != "" && exists s :: s in states && StatePerforms(s, name)
  {
    hide StatePerforms;
    var sorted := Sort(states, FqnOrder);
    StateActionsComeFrom(sorted, name);
    SortKeeps(states, FqnOrder);
    forall x ensures x in sorted <==> x in states { assert x in multiset(sorted) <==> x in multiset(states); }
  }

  lemma ActionNamesExactly(g: Graph, name: string)
    ensures name in EdgeActions(Canonical(AgreeGuards(g.edges))) + StateActions(Sort(g.states, FqnOrder))
      <==> UsedAsAction(g, name)
  {
    hide EdgeActions, StateActions, Canonical, AgreeGuards, Sort;
    EdgeActionsExactly(g.edges, name);
    StateActionsExactly(g.states, name);
    forall e ensures EdgePerforms(e, name) <==> e.conditionAction == Some(name) || e.transitionAction == Some(name) {}
  }

  lemma EventNamesExactly(g: Graph, name: string)
    ensures name in EventNames(Canonical(AgreeGuards(g.edges))) <==> UsedAsEvent(g, name)
  {
    hide AgreeGuard, Canonical, AgreeGuards;
    var y := Canonical(AgreeGuards(g.edges));
    EventNamesComeFrom(y, name);
    EventNameExactly(name);
    if e :| e in y && e.event == name {
      CanonicalEdgesExactly(g.edges, e);
      var k :| 0 <= k < |g.edges| && e == AgreeGuard(g.edges[k]);
      AgreeingKeepsTheRest(g.edges[k]);
      assert g.edges[k] in g.edges && g.edges[k].event == name;
    }
    if e :| e in g.edges && e.event == name {
      var k :| 0 <= k < |g.edges| && g.edges[k] == e;
      CanonicalEdgesExactly(g.edges, AgreeGuard(e));
      AgreeingKeepsTheRest(e);
    }
  }

  // ------------------------------------------------------- the declared lists

  /** `list` declares what `before` declares and, each once and without detail, the names `isNew` tells. */
  ghost predicate Declares(before: seq<Item>, list: seq<Item>, isUsed: string -> bool) {
    && multiset(before) <= multiset(list)
    && (forall x :: x in list ==> x in before || (x.detail == "" && isUsed(x.name) && !Mentioned(before, x.name)))
    && (forall n :: isUsed(n) ==> Mentioned(list, n))
    && (forall n :: !Mentioned(before, n) ==> multiset(list)[Item(n, "")] <= 1)
  }

  lemma {:induction false} AddAllDeclares(items: seq<Item>, names: seq<string>)
    ensures Declares(items, AddAll(items, names), (n: string) => n in names)
  {
    if |names| > 0 {
      var init, last := names[..|names| - 1], names[|names| - 1];
      AddAllDeclares(items, init);
      assert names == init + [last];
      AllMentioned(items, names);
      DeclaresOneMore(items, AddAll(items, init), init, last);
    }
  }

  lemma DeclaresOneMore(items: seq<Item>, before: seq<Item>, init: seq<string>, last: string)
    requires Declares(items, before, (n: string) => n in init) && before == AddAll(items, init)
    requires forall n :: n in init + [last] ==> Mentioned(AddAll(items, init + [last]), n)
    ensures Declares(items, AddAll(items, init + [last]), (n: string) => n in init + [last])
  {
    var names := init + [last];
    assert names[..|names| - 1] == init;
    var r := AddAll(items, names);
    if !Mentioned(before, last) {
      assert r == before + [Item(last, "")];
      MentionedStays(items, before, last);
      NotListed(before, last);
    }
  }

  lemma MentionedStays(items: seq<Item>, before: seq<Item>, n: string)
    requires multiset(items) <= multiset(before) && !Mentioned(before, n)
    ensures !Mentioned(items, n)
  {
    forall i | 0 <= i < |items| ensures items[i].name != n {
      assert items[i] in multiset(items);
      assert items[i] in multiset(before);
      var k :| 0 <= k < |before| && before[k] == items[i];
    }
  }

  lemma NotListed(items: seq<Item>, n: string)
    requires !Mentioned(items, n)
    ensures multiset(items)[Item(n, "")] == 0
  {
    forall i | 0 <= i < |items| ensures items[i] != Item(n, "") { assert items[i].name != n; }
    assert Item(n, "") !in items;
  }

  lemma DeclaresSorted(before: seq<Item>, list: seq<Item>, start: seq<Item>, isUsed: string -> bool)
    requires Declares(start, list, isUsed) && multiset(start) == multiset(before)
    ensures Declares(before, Sort(list, NameOrder), isUsed) && Declares(before, list, isUsed)
  {
    SortKeeps(list, NameOrder);
    SameMembers(list, Sort(list, NameOrder));
    SameMembers(start, before);
  }

  lemma SameMembers(a: seq<Item>, b: seq<Item>)
    requires multiset(a) == multiset(b)
    ensures (forall x :: x in a <==> x in b) && forall n :: Mentioned(a, n) <==> Mentioned(b, n)
  {
    forall x ensures x in a <==> x in b { assert x in multiset(a) <==> x in multiset(b); }
    forall n ensures Mentioned(a, n) <==> Mentioned(b, n) { MentionedAlike(a, b, n); }
  }

  lemma DeclaresAlike(before: seq<Item>, list: seq<Item>, one: string -> bool, other: string -> bool)
    requires Declares(before, list, one) && forall n :: one(n) <==> other(n)
    ensures Declares(before, list, other)
  {
  }

  lemma OwnGuardExactly(e: Edge, word: string)
    ensures word in TokensOf(RawGuards(e)) <==> IsDeclarable(word) && GuardMentions(e, word)
  {
    hide IsWordFrom;
    var raws := RawGuards(e);
    TokensOfExactly(raws, word);
    hide IsDeclarable;
    if e.guardAst.Some? {
      forall t ensures t in raws <==> SaysLeaf(e.guardAst.value, t) && !IsElse(t) {
        AtomsAreLeaves(e.guardAst.value, t);
      }
    } else {
      EmptyHasNoWord(word);
    }
  }

  lemma OwnNamesExactly(g: Graph, n: string)
    ensures n in GuardNames(g.edges) <==> UsedAsGuard(g, n)
    ensures n in EdgeActions(g.edges) + StateActions(g.states) <==> UsedAsAction(g, n)
    ensures n in EventNames(g.edges) <==> UsedAsEvent(g, n)
  {
    hide TokensOf, RawGuards, GuardMentions, IsDeclarable, IsIdentifier;
    GuardNamesComeFrom(g.edges, n);
    forall e ensures n in TokensOf(RawGuards(e)) <==> IsDeclarable(n) && GuardMentions(e, n) { OwnGuardExactly(e, n); }
    EdgeActionsComeFrom(g.edges, n);
    StateActionsComeFrom(g.states, n);
    EventNamesComeFrom(g.edges, n);
    EventNameExactly(n);
  }

  /** Synchronising declares exactly the names used, whether or not guard texts and trees agree. */
  lemma SyncedExactly(g: Graph)
    ensures var c := Synced(g);
      && Declares(g.guards, c.guards, (n: string) => UsedAsGuard(g, n))
      && Declares(g.actions, c.actions, (n: string) => UsedAsAction(g, n))
      && Declares(g.signals, c.signals, (n: string) => UsedAsEvent(g, n))
  {
    hide Declares, UsedAsGuard, UsedAsAction, UsedAsEvent, AddAll, GuardNames, EdgeActions, StateActions, EventNames;
    var guards, events := GuardNames(g.edges), EventNames(g.edges);
    var actions := EdgeActions(g.edges) + StateActions(g.states);
    forall n
      ensures n in guards <==> UsedAsGuard(g, n)
      ensures n in actions <==> UsedAsAction(g, n)
      ensures n in events <==> UsedAsEvent(g, n)
    {
      OwnNamesExactly(g, n);
    }
    AddAllDeclares(g.guards, guards);
    AddAllDeclares(g.actions, actions);
    AddAllDeclares(g.signals, events);
    DeclaresAlike(g.guards, AddAll(g.guards, guards), (n: string) => n in guards, (n: string) => UsedAsGuard(g, n));
    DeclaresAlike(g.actions, AddAll(g.actions, actions), (n: string) => n in actions,
                  (n: string) => UsedAsAction(g, n));
    DeclaresAlike(g.signals, AddAll(g.signals, events), (n: string) => n in events, (n: string) => UsedAsEvent(g, n));
  }

  /**
   * The canonical graph declares, besides what was declared, exactly the guard words, the actions
   * and the events that its transitions and states use, each once.
   */
  lemma DeclaredExactly(g: Graph)
    ensures var c := Canonicalized(g);
      && Declares(g.guards, c.guards, (n: string) => UsedAsGuard(g, n))
      && Declares(g.actions, c.actions, (n: string) => UsedAsAction(g, n))
      && Declares(g.signals, c.signals, (n: string) => UsedAsEvent(g, n))
  {
    hide Declares, UsedAsGuard, UsedAsAction, UsedAsEvent, AddAll, Sort, GuardNames, EdgeActions, StateActions,
         EventNames, Canonical, AgreeGuards;
    var a := Arranged(g);
    var guards, events := GuardNames(a.edges), EventNames(a.edges);
    var actions := EdgeActions(a.edges) + StateActions(a.states);
    AddAllDeclares(g.guards, guards);
    AddAllDeclares(g.actions, actions);
    AddAllDeclares(a.signals, events);
    forall n ensures n in guards <==> UsedAsGuard(g, n) { GuardNamesExactly(g, n); }
    forall n ensures n in actions <==> UsedAsAction(g, n) { ActionNamesExactly(g, n); }
    forall n ensures n in events <==> UsedAsEvent(g, n) { EventNamesExactly(g, n); }
    SortKeeps(g.signals, NameOrder);
    DeclaresAlike(g.guards, AddAll(g.guards, guards), (n: string) => n in guards, (n: string) => UsedAsGuard(g, n));
    DeclaresAlike(g.actions, AddAll(g.actions, actions), (n: string) => n in actions,
                  (n: string) => UsedAsAction(g, n));
    DeclaresAlike(a.signals, AddAll(a.signals, events), (n: string) => n in events, (n: string) => UsedAsEvent(g, n));
    DeclaresSorted(g.guards, AddAll(g.guards, guards), g.guards, (n: string) => UsedAsGuard(g, n));
    DeclaresSorted(g.actions, AddAll(g.actions, actions), g.actions, (n: string) => UsedAsAction(g, n));
    DeclaresSorted(g.signals, AddAll(a.signals, events), a.signals, (n: string) => UsedAsEvent(g, n));
  }
}
