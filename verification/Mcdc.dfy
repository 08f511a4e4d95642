/**
 * Independence pairs for modified condition/decision coverage: for each condition two test
 * vectors that differ in that condition alone and give different outcomes.
 */
module Mcdc {
  import opened Text
  import opened Powers
  import opened Bool

  datatype TestVector = TestVector(values: Env, outcome: bool, tested: string)

  datatype Pair = Pair(name: string, whenTrue: TestVector, whenFalse: TestVector)

  /** `(mask >> i) & 1` */
  predicate Bit(mask: nat, i: nat) {
    if i == 0 then mask % 2 == 1 else Bit(mask / 2, i - 1)
  }

  /** `mask ^ (1 << i)` */
  function Flip(mask: nat, i: nat): nat
    decreases i
  {
    if i == 0 then if mask % 2 == 1 then mask - 1 else mask + 1
    else 2 * Flip(mask / 2, i - 1) + mask % 2
  }

  function EnvOf(conditions: seq<string>, mask: nat, n: nat): Env
    requires n <= |conditions|
  {
    if n == 0 then map[] else EnvOf(conditions, mask, n - 1)[conditions[n - 1] := Bit(mask, n - 1)]
  }

  function Row(d: Decision, conditions: seq<string>, mask: nat): TestVector {
    var env := EnvOf(conditions, mask, |conditions|);
    TestVector(env, Evaluate(d, env), "")
  }

  predicate Separates(d: Decision, conditions: seq<string>, i: nat, mask: nat) {
    Bit(mask, i) && Row(d, conditions, mask).outcome != Row(d, conditions, Flip(mask, i)).outcome
  }

  /** The least separating mask from `from` on. */
  function FirstMask(d: Decision, conditions: seq<string>, i: nat, from: nat): (m: Option<nat>)
    ensures m.Some? ==> from <= m.value < Power2(|conditions|) && Separates(d, conditions, i, m.value)
    ensures m.None? ==> forall k :: from <= k < Power2(|conditions|) ==> !Separates(d, conditions, i, k)
    decreases Power2(|conditions|) - from
  {
    if from >= Power2(|conditions|) then None
    else if Separates(d, conditions, i, from) then Some(from)
    else FirstMask(d, conditions, i, from + 1)
  }

  function PairFor(d: Decision, conditions: seq<string>, i: nat, mask: nat): Pair
    requires i < |conditions|
  {
    Pair(conditions[i],
         Row(d, conditions, mask).(tested := conditions[i]),
         Row(d, conditions, Flip(mask, i)).(tested := conditions[i]))
  }

  function Found(d: Decision, conditions: seq<string>, i: nat): seq<Pair>
    requires i < |conditions|
  {
    match FirstMask(d, conditions, i, 0)
    case None => []
    case Some(m) => [PairFor(d, conditions, i, m)]
  }

  function Pairs(d: Decision, conditions: seq<string>, n: nat): seq<Pair>
    requires n <= |conditions|
  {
    if n == 0 then [] else Pairs(d, conditions, n - 1) + Found(d, conditions, n - 1)
  }

  // ------------------------------------------------------------ the search

  method BuildEnv(conditions: seq<string>, mask: nat) returns (env: Env)
    ensures env == EnvOf(conditions, mask, |conditions|)
  {
    env := map[];
    for i := 0 to |conditions|
      invariant env == EnvOf(conditions, mask, i)
    {
      env := env[conditions[i] := Bit(mask, i)];
    }
  }

  /** One row for every mask. */
  predicate Tabulates(table: seq<TestVector>, d: Decision, conditions: seq<string>) {
    |table| == Power2(|conditions|) && forall m :: 0 <= m < |table| ==> table[m] == Row(d, conditions, m)
  }

  method FillTable(d: Decision, conditions: seq<string>) returns (table: seq<TestVector>)
    ensures Tabulates(table, d, conditions)
  {
    hide Evaluate, Power2, EnvOf;
    var total := Power2(|conditions|);
    table := [];
    for mask := 0 to total
      invariant |table| == mask && forall m :: 0 <= m < mask ==> table[m] == Row(d, conditions, m)
    {
      var env := BuildEnv(conditions, mask);
      table := table + [TestVector(env, Evaluate(d, env), "")];
    }
  }

  method ComputeMcdcPairs(d: Decision, conditions: seq<string>) returns (result: seq<Pair>)
    requires |conditions| < 64
    ensures result == Pairs(d, conditions, |conditions|)
  {
    hide Flip, Power2, Bit, Row;
    var n := |conditions|;
    var total := Power2(n);
    var table := FillTable(d, conditions);
    result := [];
    for i := 0 to n
      invariant result == Pairs(d, conditions, i)
    {
      var mask1 := 0;
      while mask1 < total
        invariant mask1 <= total && result == Pairs(d, conditions, i)
        invariant FirstMask(d, conditions, i, mask1) == FirstMask(d, conditions, i, 0)
      {
        if Bit(mask1, i) {
          FlipStaysInRange(mask1, i, n);
          var mask2 := Flip(mask1, i);
          if table[mask1].outcome != table[mask2].outcome {
            result := result + [Pair(conditions[i], table[mask1].(tested := conditions[i]),
                                     table[mask2].(tested := conditions[i]))];
            break;
          }
        }
        mask1 := mask1 + 1;
      }
    }
  }

  // ----------------------------------------------------- masks and valuations

  lemma {:induction false} FlipStaysInRange(mask: nat, i: nat, n: nat)
    requires mask < Power2(n) && i < n
    ensures Flip(mask, i) < Power2(n)
    decreases i
  {
    var half := Power2(n - 1);
    assert Power2(n) == 2 * half;
    if i > 0 {
      FlipStaysInRange(mask / 2, i - 1, n - 1);
      var f := Flip(mask / 2, i - 1);
      assert Flip(mask, i) == 2 * f + mask % 2;
    }
  }

  lemma {:induction false} FlipBits(mask: nat, i: nat, k: nat)
    ensures Bit(Flip(mask, i), k) == if k == i then !Bit(mask, k) else Bit(mask, k)
    decreases i
  {
    if i > 0 && k > 0 {
      FlipBits(mask / 2, i - 1, k - 1);
      assert Flip(mask, i) / 2 == Flip(mask / 2, i - 1);
    }
  }

  lemma {:induction false} EnvOfBits(conditions: seq<string>, mask: nat, n: nat)
    requires n <= |conditions| && Distinct(conditions)
    ensures EnvOf(conditions, mask, n).Keys == set k | 0 <= k < n :: conditions[k]
    ensures forall k :: 0 <= k < n ==> Value(EnvOf(conditions, mask, n), conditions[k]) == Bit(mask, k)
  {
    if n > 0 { EnvOfBits(conditions, mask, n - 1); }
  }

  function MaskOf(env: Env, conditions: seq<string>): nat {
    if |conditions| == 0 then 0
    else (if Value(env, conditions[0]) then 1 else 0) + 2 * MaskOf(env, conditions[1..])
  }

  lemma {:induction false} MaskOfBits(env: Env, conditions: seq<string>, k: nat)
    requires k < |conditions|
    ensures MaskOf(env, conditions) < Power2(|conditions|)
    ensures Bit(MaskOf(env, conditions), k) == Value(env, conditions[k])
    decreases |conditions|
  {
    var rest := MaskOf(env, conditions[1..]);
    assert MaskOf(env, conditions) / 2 == rest;
    if |conditions| > 1 { MaskOfBits(env, conditions[1..], if k == 0 then 0 else k - 1); }
    if k > 0 { MaskOfBits(env, conditions[1..], k - 1); }
  }

  predicate Covers(conditions: seq<string>, d: Decision) {
    forall x :: x in Vars(d) ==> x in conditions
  }

  /** The table row of a valuation's mask has the outcome of the valuation. */
  lemma RowOfValuation(d: Decision, conditions: seq<string>, env: Env, mask: nat)
    requires Distinct(conditions) && Covers(conditions, d)
    requires forall k :: 0 <= k < |conditions| ==> Bit(mask, k) == Value(env, conditions[k])
    ensures Row(d, conditions, mask).outcome == Evaluate(d, env)
  {
    EnvOfBits(conditions, mask, |conditions|);
    EvaluateAgrees(d, EnvOf(conditions, mask, |conditions|), env);
  }

  // --------------------------------------------------- soundness, completeness

  /** The condition alone can change the outcome, whatever the others are set to. */
  ghost predicate Matters(d: Decision, x: string) {
    exists env: Env :: Toggles(d, x, env)
  }

  predicate Toggles(d: Decision, x: string, env: Env) {
    Evaluate(d, env[x := true]) != Evaluate(d, env[x := false])
  }

  /** What an independence pair must show. */
  predicate Shows(d: Decision, conditions: seq<string>, p: Pair) {
    && p.whenTrue.values.Keys == (set k | 0 <= k < |conditions| :: conditions[k])
    && p.name in p.whenTrue.values && p.whenTrue.values[p.name]
    && p.whenFalse.values == p.whenTrue.values[p.name := false]
    && p.whenTrue.outcome == Evaluate(d, p.whenTrue.values)
    && p.whenFalse.outcome == Evaluate(d, p.whenFalse.values)
    && p.whenTrue.outcome != p.whenFalse.outcome
    && p.whenTrue.tested == p.name == p.whenFalse.tested
  }

  lemma PairShows(d: Decision, conditions: seq<string>, i: nat, mask: nat)
    requires i < |conditions| && Distinct(conditions) && Separates(d, conditions, i, mask)
    ensures Shows(d, conditions, PairFor(d, conditions, i, mask))
  {
    var n := |conditions|;
    var e, f := EnvOf(conditions, mask, n), EnvOf(conditions, Flip(mask, i), n);
    EnvOfBits(conditions, mask, n);
    EnvOfBits(conditions, Flip(mask, i), n);
    forall k | 0 <= k < n ensures Bit(Flip(mask, i), k) == if k == i then !Bit(mask, k) else Bit(mask, k) {
      FlipBits(mask, i, k);
    }
    forall x | x in f ensures f[x] == e[conditions[i] := false][x] {
      var k :| 0 <= k < n && conditions[k] == x;
      assert Value(f, conditions[k]) == f[x] && Value(e, conditions[k]) == e[x];
    }
    assert Value(e, conditions[i]);
    assert f == e[conditions[i] := false];
  }

  lemma {:induction false} EveryPairShows(d: Decision, conditions: seq<string>, n: nat, p: Pair)
    requires n <= |conditions| && Distinct(conditions) && p in Pairs(d, conditions, n)
    ensures p.name in conditions[..n] && Shows(d, conditions, p)
  {
    if p in Pairs(d, conditions, n - 1) {
      EveryPairShows(d, conditions, n - 1, p);
    } else {
      var m := FirstMask(d, conditions, n - 1, 0);
      PairShows(d, conditions, n - 1, m.value);
      assert conditions[..n][n - 1] == p.name;
    }
  }

  lemma FoundExactlyWhenItMatters(d: Decision, conditions: seq<string>, i: nat)
    requires i < |conditions| && Distinct(conditions) && Covers(conditions, d)
    ensures Found(d, conditions, i) != [] <==> Matters(d, conditions[i])
  {
    var x := conditions[i];
    var m := FirstMask(d, conditions, i, 0);
    if m.Some? {
      PairShows(d, conditions, i, m.value);
      var p := PairFor(d, conditions, i, m.value);
      assert p.whenTrue.values[x := true] == p.whenTrue.values;
      assert Toggles(d, x, p.whenTrue.values);
    } else if Matters(d, x) {
      var env :| Toggles(d, x, env);
      ValuationSeparates(d, conditions, i, env);
    }
  }

  lemma ValuationSeparates(d: Decision, conditions: seq<string>, i: nat, env: Env)
    requires i < |conditions| && Distinct(conditions) && Covers(conditions, d)
    requires Toggles(d, conditions[i], env)
    ensures exists m :: 0 <= m < Power2(|conditions|) && Separates(d, conditions, i, m)
  {
    var e, f := env[conditions[i] := true], env[conditions[i] := false];
    var m := MaskOf(e, conditions);
    forall k | 0 <= k < |conditions|
      ensures Bit(m, k) == Value(e, conditions[k]) && Bit(Flip(m, i), k) == Value(f, conditions[k])
    {
      MaskOfBits(e, conditions, k);
      FlipBits(m, i, k);
    }
    MaskOfBits(e, conditions, i);
    RowOfValuation(d, conditions, e, m);
    RowOfValuation(d, conditions, f, Flip(m, i));
    assert Separates(d, conditions, i, m);
  }

  lemma {:induction false} PairNames(d: Decision, conditions: seq<string>, n: nat, i: nat)
    requires i < n <= |conditions| && Distinct(conditions)
    ensures Found(d, conditions, i) != [] <==> exists p :: p in Pairs(d, conditions, n) && p.name == conditions[i]
  {
    var before, found := Pairs(d, conditions, n - 1), Found(d, conditions, n - 1);
    if i < n - 1 {
      PairNames(d, conditions, n - 1, i);
      assert forall p :: p in before + found <==> p in before || p in found;
    } else {
      if found != [] { assert found[0] in before + found; }
      forall p | p in before ensures p.name != conditions[i] {
        EveryPairShows(d, conditions, n - 1, p);
      }
    }
  }

  /** A condition gets a pair exactly when the outcome can depend on it; every pair shows it. */
  lemma SearchIsExact(d: Decision, conditions: seq<string>)
    requires Distinct(conditions) && Covers(conditions, d)
    ensures forall p :: p in Pairs(d, conditions, |conditions|) ==> p.name in conditions && Shows(d, conditions, p)
    ensures forall i :: 0 <= i < |conditions| ==>
      (Matters(d, conditions[i]) <==> exists p :: p in Pairs(d, conditions, |conditions|) && p.name == conditions[i])
  {
    var n := |conditions|;
    forall p | p in Pairs(d, conditions, n) ensures p.name in conditions && Shows(d, conditions, p) {
      EveryPairShows(d, conditions, n, p);
      assert conditions[..n] == conditions;
    }
    forall i | 0 <= i < n
      ensures Matters(d, conditions[i]) <==> exists p :: p in Pairs(d, conditions, n) && p.name == conditions[i]
    {
      FoundExactlyWhenItMatters(d, conditions, i);
      PairNames(d, conditions, n, i);
    }
  }

  // ------------------------------------------------------- read-once decisions

  function Occurrences(d: Decision): multiset<string> {
    match d
    case Var(x) => multiset{x}
    case Not(s) => Occurrences(s)
    case And(l, r) => Occurrences(l) + Occurrences(r)
    case Or(l, r) => Occurrences(l) + Occurrences(r)
  }

  lemma {:induction false} VarsOccur(d: Decision)
    ensures forall x :: x in Vars(d) <==> x in Occurrences(d)
  {
    match d
    case Var(_) =>
    case Not(s) => VarsOccur(s);
    case And(l, r) => VarsOccur(l); VarsOccur(r);
    case Or(l, r) => VarsOccur(l); VarsOccur(r);
  }

  ghost predicate ReadOnce(d: Decision) { forall x :: Occurrences(d)[x] <= 1 }

  lemma ReadOnceParts(d: Decision)
    requires ReadOnce(d)
    ensures d.Not? ==> ReadOnce(d.sub)
    ensures d.And? || d.Or? ==> ReadOnce(d.left) && ReadOnce(d.right) && Vars(d.left) !! Vars(d.right)
  {
    if d.Not? {
      forall x ensures Occurrences(d.sub)[x] <= 1 { assert Occurrences(d)[x] <= 1; }
    } else if !d.Var? {
      var l, r := d.left, d.right;
      VarsOccur(l);
      VarsOccur(r);
      forall x ensures Occurrences(l)[x] <= 1 && Occurrences(r)[x] <= 1 && !(x in Vars(l) && x in Vars(r)) {
        assert Occurrences(d)[x] == Occurrences(l)[x] + Occurrences(r)[x];
      }
    }
  }

  /** A valuation of the left part's conditions does not see the right part's. */
  lemma Merge(l: Decision, r: Decision, e: Env, f: Env)
    requires e.Keys <= Vars(l) && f.Keys <= Vars(r) && Vars(l) !! Vars(r)
    ensures Evaluate(l, e + f) == Evaluate(l, e) && Evaluate(r, e + f) == Evaluate(r, f)
  {
    EvaluateAgrees(l, e + f, e);
    EvaluateAgrees(r, e + f, f);
  }

  /** A read-once decision takes both outcomes. */
  lemma {:induction false} Attain(d: Decision, want: bool) returns (env: Env)
    requires ReadOnce(d)
    ensures env.Keys <= Vars(d) && Evaluate(d, env) == want
  {
    ReadOnceParts(d);
    match d
    case Var(x) => env := map[x := want];
    case Not(s) => env := Attain(s, !want);
    case And(l, r) =>
      var e := Attain(l, want);
      var f := Attain(r, want);
      Merge(l, r, e, f);
      env := e + f;
    case Or(l, r) =>
      var e := Attain(l, want);
      var f := Attain(r, want);
      Merge(l, r, e, f);
      env := e + f;
  }

  lemma {:induction false} Sensitize(d: Decision, x: string) returns (env: Env)
    requires ReadOnce(d) && x in Vars(d)
    ensures env.Keys <= Vars(d)
    ensures Toggles(d, x, env)
  {
    ReadOnceParts(d);
    match d
    case Var(_) => env := map[];
    case Not(s) => env := Sensitize(s, x);
    case And(l, r) =>
      if x in Vars(l) {
        var e := Sensitize(l, x);
        var f := Attain(r, true);
        env := SensitizePart(l, r, x, e, f);
      } else {
        var e := Sensitize(r, x);
        var f := Attain(l, true);
        env := SensitizePart(r, l, x, e, f);
      }
    case Or(l, r) =>
      if x in Vars(l) {
        var e := Sensitize(l, x);
        var f := Attain(r, false);
        env := SensitizePart(l, r, x, e, f);
      } else {
        var e := Sensitize(r, x);
        var f := Attain(l, false);
        env := SensitizePart(r, l, x, e, f);
      }
  }

  /** Holding one part still while the other part's condition is toggled. */
  lemma SensitizePart(l: Decision, r: Decision, x: string, e: Env, f: Env) returns (env: Env)
    requires Vars(l) !! Vars(r) && x in Vars(l) && e.Keys <= Vars(l) && f.Keys <= Vars(r)
    ensures env.Keys <= Vars(l) + Vars(r)
    ensures Evaluate(l, env[x := true]) == Evaluate(l, e[x := true])
    ensures Evaluate(l, env[x := false]) == Evaluate(l, e[x := false])
    ensures Evaluate(r, env[x := true]) == Evaluate(r, f) == Evaluate(r, env[x := false])
  {
    env := e + f;
    EvaluateAgrees(l, env[x := true], e[x := true]);
    EvaluateAgrees(l, env[x := false], e[x := false]);
    EvaluateAgrees(r, env[x := true], f);
    EvaluateAgrees(r, env[x := false], f);
  }

  /** When every condition occurs exactly once, each one gets its pair: coverage is full. */
  lemma ReadOnceIsFullyCovered(d: Decision, conditions: seq<string>)
    requires Distinct(conditions) && Covers(conditions, d)
    requires forall x :: x in conditions ==> Occurrences(d)[x] == 1
    ensures |Pairs(d, conditions, |conditions|)| == |conditions|
    ensures forall i :: 0 <= i < |conditions| ==> Pairs(d, conditions, |conditions|)[i].name == conditions[i]
  {
    hide Pairs, Found;
    VarsOccur(d);
    forall x ensures Occurrences(d)[x] <= 1 {
      if x !in conditions { assert x !in Occurrences(d); }
    }
    forall i | 0 <= i < |conditions| ensures Found(d, conditions, i) != [] {
      assert conditions[i] in Occurrences(d);
      var env := Sensitize(d, conditions[i]);
      assert Toggles(d, conditions[i], env);
      FoundExactlyWhenItMatters(d, conditions, i);
    }
    AllFound(d, conditions, |conditions|);
  }

  predicate EachFound(d: Decision, conditions: seq<string>, n: nat)
    requires n <= |conditions|
  {
    forall i :: 0 <= i < n ==> Found(d, conditions, i) != []
  }

  predicate NamedInOrder(pairs: seq<Pair>, names: seq<string>) {
    |pairs| <= |names| && forall i :: 0 <= i < |pairs| ==> pairs[i].name == names[i]
  }

  lemma {:induction false} AllFound(d: Decision, conditions: seq<string>, n: nat)
    requires n <= |conditions| && EachFound(d, conditions, n)
    ensures |Pairs(d, conditions, n)| == n && NamedInOrder(Pairs(d, conditions, n), conditions)
  {
    if n > 0 {
      FoundBefore(d, conditions, n);
      AllFound(d, conditions, n - 1);
      hide Pairs, Found, EachFound, NamedInOrder;
      OneMoreName(Pairs(d, conditions, n - 1), Found(d, conditions, n - 1), conditions);
    }
  }

  lemma FoundBefore(d: Decision, conditions: seq<string>, n: nat)
    requires 0 < n <= |conditions| && EachFound(d, conditions, n)
    ensures EachFound(d, conditions, n - 1)
    ensures |Found(d, conditions, n - 1)| == 1 && Found(d, conditions, n - 1)[0].name == conditions[n - 1]
    ensures Pairs(d, conditions, n) == Pairs(d, conditions, n - 1) + Found(d, conditions, n - 1)
  {
    hide FirstMask;
  }

  lemma OneMoreName(before: seq<Pair>, last: seq<Pair>, names: seq<string>)
    requires |before| < |names| && |last| == 1 && last[0].name == names[|before|] && NamedInOrder(before, names)
    ensures NamedInOrder(before + last, names)
  {
  }
}
