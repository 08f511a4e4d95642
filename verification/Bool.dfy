/** Boolean decisions over named conditions. */
module Bool {

  datatype Decision =
    | Var(name: string)
    | Not(sub: Decision)
    | And(left: Decision, right: Decision)
    | Or(left: Decision, right: Decision)

  type Env = map<string, bool>

  /** A condition without a value counts as false. */
  function Value(env: Env, name: string): bool { name in env && env[name] }

  function Evaluate(d: Decision, env: Env): bool {
    match d
    case Var(x) => Value(env, x)
    case Not(s) => !Evaluate(s, env)
    case And(l, r) => Evaluate(l, env) && Evaluate(r, env)
    case Or(l, r) => Evaluate(l, env) || Evaluate(r, env)
  }

  function Vars(d: Decision): set<string> {
    match d
    case Var(x) => {x}
    case Not(s) => Vars(s)
    case And(l, r) => Vars(l) + Vars(r)
    case Or(l, r) => Vars(l) + Vars(r)
  }

  lemma {:induction false} EvaluateAgrees(d: Decision, e: Env, f: Env)
    requires forall x :: x in Vars(d) ==> Value(e, x) == Value(f, x)
    ensures Evaluate(d, e) == Evaluate(d, f)
  {
    match d
    case Var(_) =>
    case Not(s) => EvaluateAgrees(s, e, f);
    case And(l, r) => EvaluateAgrees(l, e, f); EvaluateAgrees(r, e, f);
    case Or(l, r) => EvaluateAgrees(l, e, f); EvaluateAgrees(r, e, f);
  }
}
