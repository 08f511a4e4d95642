/** Guard trees, their C++ text, and what the text means when the coverage generator reads it again. */
module Guard {
  import opened Text
  import opened Bool

  datatype GuardOp = Atomic | Negation | Conjunction | Disjunction

  datatype Guard = Guard(op: GuardOp, expression: string, children: seq<Guard>)

  // ------------------------------------------------------------- printing

  function Separator(c: char): string { [' ', c, c, ' '] }

  function OpChar(op: GuardOp): char { if op == Conjunction then '&' else '|' }

  function Bracketed(s: string): string { "(" + s + ")" }

  function ToCpp(g: Guard): string
    decreases g, 1
  {
    match g.op
    case Atomic => g.expression
    case Negation =>
      if |g.children| == 0 then "!" + g.expression
      else if g.children[0].op != Atomic then "!" + Bracketed(ToCpp(g.children[0]))
      else "!" + ToCpp(g.children[0])
    case _ => Chain(g.op, g.children)
  }

  function Chain(op: GuardOp, cs: seq<Guard>): string
    decreases cs, 0
  {
    if |cs| == 0 then ""
    else
      var last := cs[|cs| - 1];
      var part := if last.op == Disjunction && op == Conjunction then Bracketed(ToCpp(last)) else ToCpp(last);
      if |cs| == 1 then part else Chain(op, cs[..|cs| - 1]) + Separator(OpChar(op)) + part
  }

  // -------------------------------------------------------------- meaning

  predicate Holds(g: Guard, env: Env)
    decreases g, 1
  {
    match g.op
    case Atomic => Value(env, g.expression)
    case Negation => if |g.children| == 0 then !Value(env, g.expression) else !Holds(g.children[0], env)
    case Conjunction => AllHold(g.children, env)
    case Disjunction => AnyHolds(g.children, env)
  }

  predicate AllHold(cs: seq<Guard>, env: Env)
    decreases cs, 0
  {
    |cs| == 0 || (AllHold(cs[..|cs| - 1], env) && Holds(cs[|cs| - 1], env))
  }

  predicate AnyHolds(cs: seq<Guard>, env: Env)
    decreases cs, 0
  {
    |cs| > 0 && (AnyHolds(cs[..|cs| - 1], env) || Holds(cs[|cs| - 1], env))
  }

  /** A name free of the characters the generator's reader gives a meaning to. */
  predicate Plain(s: string) {
    |s| > 0 && forall k :: 0 <= k < |s| ==>
      !IsBlank(s[k]) && s[k] != '(' && s[k] != ')' && s[k] != '|' && s[k] != '&' && s[k] != '!'
  }

  /** Leaves are plain names, and no conjunction or disjunction is empty. */
  predicate WellFormed(g: Guard)
    decreases g, 1
  {
    match g.op
    case Atomic => Plain(g.expression)
    case Negation => if |g.children| == 0 then Plain(g.expression) else WellFormed(g.children[0])
    case _ => |g.children| > 0 && AllWellFormed(g.children)
  }

  predicate AllWellFormed(cs: seq<Guard>)
    decreases cs, 0
  {
    |cs| == 0 || (AllWellFormed(cs[..|cs| - 1]) && WellFormed(cs[|cs| - 1]))
  }

  /** The atomic guards of a tree in reading order, duplicates and all. */
  function Atoms(g: Guard): seq<string>
    decreases g, 1
  {
    if g.op == Atomic then
      if g.expression == "" || g.expression == "else" || g.expression == "otherwise" || g.expression == "default"
      then [] else [g.expression]
    else AtomsOf(g.children)
  }

  function AtomsOf(cs: seq<Guard>): seq<string>
    decreases cs, 0
  {
    if |cs| == 0 then [] else AtomsOf(cs[..|cs| - 1]) + Atoms(cs[|cs| - 1])
  }
}
