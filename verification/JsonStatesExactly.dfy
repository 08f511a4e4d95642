/** What the exported tree says of each state, attribute by attribute. */
module JsonStatesExactly {
  import opened Text
  import opened Ir
  import opened Json
  import opened JsonStates

  /** The value under a key, when it stands there exactly once. */
  predicate Holds(ms: seq<Member>, key: string, v: Value) {
    exists i :: 0 <= i < |ms| && ms[i] == Member(key, v) && forall j :: 0 <= j < |ms| && j != i ==> ms[j].key != key
  }

  predicate Lacks(ms: seq<Member>, key: string) { forall i :: 0 <= i < |ms| ==> ms[i].key != key }

  /** The texts of the kinds. */
  predicate Named(k: StateKind, text: string) {
    || (k == Atomic && text == "Atomic") || (k == Composite && text == "Composite")
    || (k == Parallel && text == "Parallel") || (k == Initial && text == "Initial") || (k == Final && text == "Final")
    || (k == ShallowHistory && text == "ShallowHistory") || (k == DeepHistory && text == "DeepHistory")
    || (k == Choice && text == "Choice") || (k == Junction && text == "Junction") || (k == Fork && text == "Fork")
    || (k == Join && text == "Join") || (k == EntryPoint && text == "EntryPoint")
    || (k == ExitPoint && text == "ExitPoint") || (k == Terminate && text == "Terminate")
  }

  /** A list is written under its key unless it is empty. */
  predicate Lists(ms: seq<Member>, key: string, xs: seq<string>) {
    if xs == [] then Lacks(ms, key)
    else Holds(ms, key, Arr(seq(|xs|, k requires 0 <= k < |xs| => Str(xs[k]))))
  }

  predicate Says(ms: seq<Member>, key: string, said: Option<string>) {
    if said == None then Lacks(ms, key) else Holds(ms, key, Str(said.value))
  }

  lemma OneMember(m: Member)
    ensures Holds([m], m.key, m.value) && forall k :: k != m.key ==> Lacks([m], k)
  {
    assert [m][0] == Member(m.key, m.value);
  }

  lemma HoldsSum(a: seq<Member>, b: seq<Member>, key: string)
    ensures Lacks(a + b, key) <==> Lacks(a, key) && Lacks(b, key)
    ensures Lacks(b, key) ==> forall v :: Holds(a, key, v) ==> Holds(a + b, key, v)
    ensures Lacks(a, key) ==> forall v :: Holds(b, key, v) ==> Holds(a + b, key, v)
  {
    var ms := a + b;
    if Lacks(ms, key) {
      assert forall i :: 0 <= i < |a| ==> a[i] == ms[i];
      assert forall i :: 0 <= i < |b| ==> b[i] == ms[|a| + i];
    }
    forall v | Lacks(b, key) && Holds(a, key, v) ensures Holds(ms, key, v) {
      var i :| 0 <= i < |a| && a[i] == Member(key, v) && forall j :: 0 <= j < |a| && j != i ==> a[j].key != key;
      assert ms[i] == Member(key, v);
    }
    forall v | Lacks(a, key) && Holds(b, key, v) ensures Holds(ms, key, v) {
      var i :| 0 <= i < |b| && b[i] == Member(key, v) && forall j :: 0 <= j < |b| && j != i ==> b[j].key != key;
      assert ms[|a| + i] == Member(key, v);
    }
  }

  lemma ActionsSay(s: State, key: string)
    ensures Lists(ActionMembers(s), "entry", s.entryActions) && Lists(ActionMembers(s), "exit", s.exitActions)
    ensures key != "entry" && key != "exit" ==> Lacks(ActionMembers(s), key)
  {
    var entry := if s.entryActions == [] then [] else [Member("entry", Strings(s.entryActions))];
    var exit := if s.exitActions == [] then [] else [Member("exit", Strings(s.exitActions))];
    OneMember(Member("entry", Strings(s.entryActions)));
    OneMember(Member("exit", Strings(s.exitActions)));
    NoneOf("entry"); NoneOf("exit"); NoneOf(key);
    HoldsSum(entry, exit, "entry");
    HoldsSum(entry, exit, "exit");
    HoldsSum(entry, exit, key);
    assert "entry"[1] != "exit"[1];
    hide Holds, Lacks;
  }

  lemma NoneOf(key: string)
    ensures Lacks([], key)
  {
  }

  /** History hides that a state is composite. */
  function TypeSaid(s: State): Option<string> {
    if s.history then Some("history") else if s.composite then Some("compound") else None
  }

  function DepthSaid(s: State): Option<string> {
    if !s.history then None else if s.deepHistory then Some("deep") else Some("shallow")
  }

  function InitialSaid(s: State): Option<string> {
    if s.history || !s.composite || s.initialSub == "" then None else Some(s.initialSub)
  }

  lemma TwoMembers(a: Member, b: Member)
    requires a.key != b.key
    ensures Holds([a, b], a.key, a.value) && Holds([a, b], b.key, b.value)
    ensures forall k :: k != a.key && k != b.key ==> Lacks([a, b], k)
  {
    OneMember(a);
    OneMember(b);
    assert [a, b] == [a] + [b];
    HoldsSum([a], [b], a.key);
    HoldsSum([a], [b], b.key);
    forall k | k != a.key && k != b.key ensures Lacks([a, b], k) { HoldsSum([a], [b], k); }
  }

  lemma TypeSays(s: State, key: string)
    ensures Says(TypeMembers(s), "type", TypeSaid(s))
    ensures Says(TypeMembers(s), "history", DepthSaid(s)) && Says(TypeMembers(s), "initial", InitialSaid(s))
    ensures key !in {"type", "history", "initial"} ==> Lacks(TypeMembers(s), key)
  {
    var kind, initial := Member("type", Str("compound")), Member("initial", Str(s.initialSub));
    var depth := Member("history", Str(if s.deepHistory then "deep" else "shallow"));
    assert "type"[0] != "history"[0] && "type"[0] != "initial"[0] && "history"[0] != "initial"[0];
    TwoMembers(Member("type", Str("history")), depth);
    TwoMembers(kind, initial);
    OneMember(kind);
    assert [kind] + [initial] == [kind, initial] && [kind] + [] == [kind];
    NoneOf("type"); NoneOf("history"); NoneOf("initial"); NoneOf(key);
    hide Holds, Lacks;
  }

  lemma KindSays(s: State, key: string)
    ensures s.kind == Atomic ==> Lacks(KindMembers(s), "kind")
    ensures s.kind != Atomic ==> forall text :: Named(s.kind, text) ==> Says(KindMembers(s), "kind", Some(text))
    ensures Says(KindMembers(s), "do", s.activity) && Says(KindMembers(s), "do_activity", s.activity)
    ensures key !in {"kind", "do", "do_activity"} ==> Lacks(KindMembers(s), key)
  {
    var kind := if s.kind == Atomic then [] else [Member("kind", Str(KindText(s.kind)))];
    var activity := if s.activity == None then []
      else [Member("do", Str(s.activity.value)), Member("do_activity", Str(s.activity.value))];
    assert KindMembers(s) == kind + activity;
    KindIsNamed(s.kind);
    OneMember(Member("kind", Str(KindText(s.kind))));
    assert |"do"| < |"do_activity"| && "kind"[0] != "do"[0] && "kind"[0] != "do_activity"[0];
    if s.activity != None { TwoMembers(activity[0], activity[1]); }
    NoneOf("kind"); NoneOf("do"); NoneOf("do_activity"); NoneOf(key);
    hide Holds, Lacks, Named, KindText, KindMembers;
    HoldsSum(kind, activity, "kind");
    HoldsSum(kind, activity, "do");
    HoldsSum(kind, activity, "do_activity");
    HoldsSum(kind, activity, key);
  }

  lemma KindIsNamed(k: StateKind)
    ensures forall text :: Named(k, text) <==> text == KindText(k)
  {
  }

  lemma ListsSay(xs: seq<string>, key: string, alias: string, other: string)
    requires key != alias
    ensures Lists(ListMembers(xs, key, alias), key, xs) && Lists(ListMembers(xs, key, alias), alias, xs)
    ensures other != key && other != alias ==> Lacks(ListMembers(xs, key, alias), other)
  {
    TwoMembers(Member(key, Strings(xs)), Member(alias, Strings(xs)));
    NoneOf(key); NoneOf(alias); NoneOf(other);
    hide Holds, Lacks;
  }

  /** `b` says under the key what `a` says. */
  ghost predicate SaysTheSame(a: seq<Member>, b: seq<Member>, key: string) {
    (Lacks(a, key) ==> Lacks(b, key)) && forall v :: Holds(a, key, v) ==> Holds(b, key, v)
  }

  /** A group says alone what the other four lack. */
  lemma FiveGroups(a: seq<Member>, b: seq<Member>, c: seq<Member>, d: seq<Member>, e: seq<Member>, key: string)
    ensures Lacks(b, key) && Lacks(c, key) && Lacks(d, key) && Lacks(e, key) ==> SaysTheSame(a, a + b + c + d + e, key)
    ensures Lacks(a, key) && Lacks(c, key) && Lacks(d, key) && Lacks(e, key) ==> SaysTheSame(b, a + b + c + d + e, key)
    ensures Lacks(a, key) && Lacks(b, key) && Lacks(d, key) && Lacks(e, key) ==> SaysTheSame(c, a + b + c + d + e, key)
    ensures Lacks(a, key) && Lacks(b, key) && Lacks(c, key) && Lacks(e, key) ==> SaysTheSame(d, a + b + c + d + e, key)
    ensures Lacks(a, key) && Lacks(b, key) && Lacks(c, key) && Lacks(d, key) ==> SaysTheSame(e, a + b + c + d + e, key)
  {
    hide Holds, Lacks;
    HoldsSum(a, b, key);
    HoldsSum(a + b, c, key);
    HoldsSum(a + b + c, d, key);
    HoldsSum(a + b + c + d, e, key);
  }

  /** The keys of the five groups, by length and first letters, are different. */
  predicate KeyOf(group: nat, key: string) {
    match group
    case 0 => key == "entry" || key == "exit"
    case 1 => key == "type" || key == "history" || key == "initial"
    case 2 => key == "kind" || key == "do" || key == "do_activity"
    case 3 => key == "satisfies" || key == "traceability_reqs"
    case _ => key == "defer" || key == "deferred_events"
  }

  lemma KeysDiffer(key: string, g: nat, h: nat)
    requires g < 5 && h < 5 && KeyOf(g, key) && KeyOf(h, key)
    ensures g == h
  {
    assert key[0] in {'e', 't', 'h', 'i', 'k', 'd', 's'};
  }

  function Group(s: State, g: nat): seq<Member> {
    match g
    case 0 => ActionMembers(s)
    case 1 => TypeMembers(s)
    case 2 => KindMembers(s)
    case 3 => ListMembers(s.requirements, "satisfies", "traceability_reqs")
    case _ => ListMembers(s.deferred, "defer", "deferred_events")
  }

  /** A key stands in its own group only. */
  lemma OthersLack(s: State, g: nat, key: string)
    requires g < 5 && !KeyOf(g, key)
    ensures Lacks(Group(s, g), key)
  {
    hide Lacks, Lists, Says, ActionMembers, TypeMembers, KindMembers, ListMembers;
    match g
    case 0 => ActionsSay(s, key);
    case 1 => TypeSays(s, key);
    case 2 => KindSays(s, key);
    case 3 => assert |"satisfies"| != |"traceability_reqs"|;
      ListsSay(s.requirements, "satisfies", "traceability_reqs", key);
    case 4 => assert |"defer"| != |"deferred_events"|;
      ListsSay(s.deferred, "defer", "deferred_events", key);
  }

  lemma GroupSaysAlone(s: State, g: nat, key: string)
    requires g < 5 && KeyOf(g, key)
    ensures SaysTheSame(Group(s, g), Own(s), key)
  {
    hide Lacks, SaysTheSame, KeyOf, ActionMembers, TypeMembers, KindMembers, ListMembers;
    forall h: nat | h < 5 && h != g ensures Lacks(Group(s, h), key) {
      if KeyOf(h, key) { KeysDiffer(key, g, h); }
      OthersLack(s, h, key);
    }
    FiveGroups(Group(s, 0), Group(s, 1), Group(s, 2), Group(s, 3), Group(s, 4), key);
  }

  /**
   * Main result: each attribute that is set stands once under each of its keys with its value, one
   * that is not set stands nowhere, and there is nothing else.
   */
  lemma OwnExactly(s: State)
    ensures Lists(Own(s), "entry", s.entryActions) && Lists(Own(s), "exit", s.exitActions)
    ensures Says(Own(s), "type", TypeSaid(s))
    ensures Says(Own(s), "history", DepthSaid(s)) && Says(Own(s), "initial", InitialSaid(s))
    ensures s.kind == Atomic ==> Lacks(Own(s), "kind")
    ensures s.kind != Atomic ==> forall text :: Named(s.kind, text) ==> Says(Own(s), "kind", Some(text))
    ensures Says(Own(s), "do", s.activity) && Says(Own(s), "do_activity", s.activity)
    ensures Lists(Own(s), "satisfies", s.requirements) && Lists(Own(s), "traceability_reqs", s.requirements)
    ensures Lists(Own(s), "defer", s.deferred) && Lists(Own(s), "deferred_events", s.deferred)
    ensures forall m :: m in Own(s) ==> exists g: nat :: g < 5 && KeyOf(g, m.key)
  {
    hide Lacks, Holds, Own, ActionMembers, TypeMembers, KindMembers, ListMembers, Named;
    ActionsSay(s, "");
    TypeSays(s, "");
    KindSays(s, "");
    assert |"satisfies"| != |"traceability_reqs"| && |"defer"| != |"deferred_events"|;
    ListsSay(s.requirements, "satisfies", "traceability_reqs", "");
    ListsSay(s.deferred, "defer", "deferred_events", "");
    GroupSaysAlone(s, 0, "entry");
    GroupSaysAlone(s, 0, "exit");
    GroupSaysAlone(s, 1, "type");
    GroupSaysAlone(s, 1, "history");
    GroupSaysAlone(s, 1, "initial");
    GroupSaysAlone(s, 2, "kind");
    GroupSaysAlone(s, 2, "do");
    GroupSaysAlone(s, 2, "do_activity");
    GroupSaysAlone(s, 3, "satisfies");
    GroupSaysAlone(s, 3, "traceability_reqs");
    GroupSaysAlone(s, 4, "defer");
    GroupSaysAlone(s, 4, "deferred_events");
    forall m | m in Own(s) ensures exists g: nat :: g < 5 && KeyOf(g, m.key) { NothingElse(s, m); }
  }

  lemma NothingElse(s: State, m: Member)
    requires m in Own(s)
    ensures exists g: nat :: g < 5 && KeyOf(g, m.key)
  {
    hide KeyOf, ActionMembers, TypeMembers, KindMembers, ListMembers;
    assert m in Group(s, 0) || m in Group(s, 1) || m in Group(s, 2) || m in Group(s, 3) || m in Group(s, 4);
    var g: nat :| g < 5 && m in Group(s, g);
    if !KeyOf(g, m.key) { OthersLack(s, g, m.key); }
  }

  /** The children listed are all states with that parent, in order of declaration. */
  lemma {:induction false} ChildrenExactly(states: seq<State>, p: string)
    ensures forall k :: k in Children(states, p) <==> 0 <= k < |states| && states[k].parent == p
    ensures forall i, j :: 0 <= i < j < |Children(states, p)| ==> Children(states, p)[i] < Children(states, p)[j]
  {
    if |states| > 0 {
      var init := states[..|states| - 1];
      ChildrenExactly(init, p);
      forall k | k in Children(init, p) ensures k < |init| {
        var i :| 0 <= i < |Children(init, p)| && Children(init, p)[i] == k;
      }
    }
  }
}
