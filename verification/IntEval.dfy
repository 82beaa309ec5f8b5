/** The meaning of a source expression over integers, with the operators of the target language: division
    rounds toward zero, boolean operators evaluate all operands, a conditional evaluates the chosen branch. */
module IntEval {
  import opened Results
  import opened Expressions
  import Ir

  function Join(op: AssOp, a: Option<Value>, b: Option<Value>): Option<Value> {
    if op == Add then Ir.ArithValue(Ir.Plus, a, b)
    else if op == Mul then Ir.ArithValue(Ir.Times, a, b)
    else Ir.LogicValue(op.IsAnd(), a, b)
  }

  function NeutralValue(op: AssOp): Value {
    match op
    case Add => Int(0)
    case Mul => Int(1)
    case And | AndThen => Bool(true)
    case Or | OrElse => Bool(false)
  }

  function Meaning(e: Expr, env: Env): Option<Value>
    decreases e
  {
    match e
    case Number(n) => Some(Int(n))
    case Literal(lit) => Some(LiteralValue(lit))
    case Variable(id, _) => Lookup(env, Var(id))
    case Selected(m, f, _) => ReadField(env, m, f)
    case Not(x) => Ir.NotValue(Meaning(x, env))
    case Neg(x) => Ir.NegValue(Meaning(x, env))
    case Ass(op, terms) => MeaningAll(op, terms, env)
    case Bin(op, l, r) => Ir.ArithValue(Ir.ToArith(op), Meaning(l, env), Meaning(r, env))
    case Rel(rel, l, r) => Ir.TestValue(rel, Meaning(l, env), Meaning(r, env))
    case If(c, t, rest) => Ir.ChooseValue(Meaning(c, env), Meaning(t, env), MeaningElse(rest, env))
  }

  function MeaningAll(op: AssOp, terms: seq<Expr>, env: Env): Option<Value>
    decreases terms
  {
    if terms == [] then Some(NeutralValue(op))
    else Join(op, Meaning(terms[0], env), MeaningAll(op, terms[1..], env))
  }

  function MeaningElse(rest: Else, env: Env): Option<Value>
    decreases rest
  {
    match rest
    case NoElse => None
    case ElsePart(e) => Meaning(e, env)
    case Elsif(c, t, r) => Ir.ChooseValue(Meaning(c, env), Meaning(t, env), MeaningElse(r, env))
  }
}
