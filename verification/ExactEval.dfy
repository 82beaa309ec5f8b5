/** The meaning of an expression over exact numbers.  A quotient is either not rounded, which is the meaning the
    simplifier works with (it compares constant quotients as fractions), or rounded toward zero, as in the compiled
    code.  Boolean operators evaluate all their operands; a conditional evaluates the chosen branch only.  `None` is
    an undefined expression. */
module ExactEval {
  import opened Results
  import opened Types
  import opened Expressions

  datatype Exact = Num(r: real) | Truth(b: bool) | Sym(name: string, enum: Ty)

  /** The values of variables and fields, and what happens to quotients. */
  datatype Setting = Setting(store: Env, rounded: bool)

  function Lift(v: Option<Value>): Option<Exact> {
    match v
    case None => None
    case Some(Int(i)) => Some(Num(i as real))
    case Some(Bool(b)) => Some(Truth(b))
    case Some(Enum(name, enum)) => Some(Sym(name, enum))
  }

  predicate IsTruth(v: Option<Exact>) {
    v.Some? && v.value.Truth?
  }

  predicate IsInt(r: real) {
    r.Floor as real == r
  }

  function RealPower(b: real, e: nat): real {
    if e == 0 then 1.0 else b * RealPower(b, e - 1)
  }

  function Times(x: real, y: real): real {
    x * y
  }

  function Neutral(op: AssOp): Exact {
    match op
    case Add => Num(0.0)
    case Mul => Num(1.0)
    case And | AndThen => Truth(true)
    case Or | OrElse => Truth(false)
  }

  function Combine(op: AssOp, a: Option<Exact>, b: Option<Exact>): Option<Exact> {
    match (a, b)
    case (Some(Num(x)), Some(Num(y))) =>
      if op == Add then Some(Num(x + y)) else if op == Mul then Some(Num(Times(x, y))) else None
    case (Some(Truth(x)), Some(Truth(y))) =>
      if op.IsAnd() then Some(Truth(x && y)) else if op.IsOr() then Some(Truth(x || y)) else None
    case _ => None
  }

  function ExactBin(op: BinOp, a: Option<Exact>, b: Option<Exact>, rounded: bool): Option<Exact> {
    match (a, b)
    case (Some(Num(x)), Some(Num(y))) => BinNum(op, x, y, rounded)
    case _ => None
  }

  function BinNum(op: BinOp, x: real, y: real, rounded: bool): Option<Exact> {
    match op
    case Sub => Some(Num(x - y))
    case Div =>
      if !rounded then (if y == 0.0 then None else Some(Num(x / y)))
      else if IsInt(x) && IsInt(y) && y.Floor != 0 then Some(Num(TruncDiv(x.Floor, y.Floor) as real))
      else None
    case Pow => if IsInt(y) && y >= 0.0 then Some(Num(RealPower(x, y.Floor))) else None
    case Mod =>
      if IsInt(x) && IsInt(y) && y.Floor != 0 then Some(Num(FloorMod(x.Floor, y.Floor) as real)) else None
  }

  function CompareReal(rel: RelOp, a: real, b: real): bool {
    match rel
    case Less => a < b
    case LessEqual => a <= b
    case Equal => a == b
    case GreaterEqual => a >= b
    case Greater => a > b
    case NotEqual => a != b
  }

  function ExactRel(rel: RelOp, a: Option<Exact>, b: Option<Exact>): Option<Exact> {
    match (a, b)
    case (Some(Num(x)), Some(Num(y))) => Some(Truth(CompareReal(rel, x, y)))
    case (Some(Truth(x)), Some(Truth(y))) =>
      if rel.IsOrdering() then None else Some(Truth((x == y) == (rel == Equal)))
    case (Some(Sym(x, s)), Some(Sym(y, t))) =>
      if rel.IsOrdering() || s != t then None else Some(Truth((x == y) == (rel == Equal)))
    case _ => None
  }

  function ExactNot(a: Option<Exact>): Option<Exact> {
    match a
    case Some(Truth(b)) => Some(Truth(!b))
    case _ => None
  }

  function ExactNeg(a: Option<Exact>): Option<Exact> {
    match a
    case Some(Num(x)) => Some(Num(-x))
    case _ => None
  }

  function Choose(c: Option<Exact>, a: Option<Exact>, b: Option<Exact>): Option<Exact> {
    match c
    case Some(Truth(true)) => a
    case Some(Truth(false)) => b
    case _ => None
  }

  function Eval(e: Expr, env: Setting): Option<Exact>
    decreases e
  {
    match e
    case Number(n) => Some(Num(n as real))
    case Literal(lit) => Lift(Some(LiteralValue(lit)))
    case Variable(id, _) => Lift(Lookup(env.store, Var(id)))
    case Selected(m, f, _) => Lift(ReadField(env.store, m, f))
    case Not(x) => ExactNot(Eval(x, env))
    case Neg(x) => ExactNeg(Eval(x, env))
    case Ass(op, terms) => EvalAll(op, terms, env)
    case Bin(op, l, r) => ExactBin(op, Eval(l, env), Eval(r, env), env.rounded)
    case Rel(op, l, r) => ExactRel(op, Eval(l, env), Eval(r, env))
    case If(c, t, rest) => Choose(Eval(c, env), Eval(t, env), EvalElse(rest, env))
  }

  function EvalAll(op: AssOp, terms: seq<Expr>, env: Setting): Option<Exact>
    decreases terms
  {
    if terms == [] then Some(Neutral(op))
    else Combine(op, Eval(terms[0], env), EvalAll(op, terms[1..], env))
  }

  function EvalElse(rest: Else, env: Setting): Option<Exact>
    decreases rest
  {
    match rest
    case NoElse => None
    case ElsePart(e) => Eval(e, env)
    case Elsif(c, t, r) => Choose(Eval(c, env), Eval(t, env), EvalElse(r, env))
  }

  lemma ProductLaws(x: real, y: real, z: real)
    ensures Times(x, y) == Times(y, x)
    ensures Times(Times(x, y), z) == Times(x, Times(y, z))
  {
  }

  lemma CombineLaws(op: AssOp, a: Option<Exact>, b: Option<Exact>, c: Option<Exact>)
    ensures Combine(op, a, b) == Combine(op, b, a)
    ensures Combine(op, Combine(op, a, b), c) == Combine(op, a, Combine(op, b, c))
    ensures Combine(op, a, b).Some? ==> Combine(op, a, Some(Neutral(op))) == a && Combine(op, b, Some(Neutral(op))) == b
  {
    match (a, b, c) {
      case (Some(Num(x)), Some(Num(y)), Some(Num(z))) => ProductLaws(x, y, z);
      case (Some(Num(x)), Some(Num(y)), _) => ProductLaws(x, y, 0.0);
      case _ =>
    }
  }

  /** The value of a list of terms is always of the operator's own kind. */
  lemma {:induction false} EvalAllNeutral(op: AssOp, terms: seq<Expr>, env: Setting)
    ensures Combine(op, EvalAll(op, terms, env), Some(Neutral(op))) == EvalAll(op, terms, env)
  {
    if terms != [] {
      CombineLaws(op, Eval(terms[0], env), EvalAll(op, terms[1..], env), Some(Neutral(op)));
      EvalAllNeutral(op, terms[1..], env);
    }
  }

  lemma {:induction false} EvalAllConcat(op: AssOp, a: seq<Expr>, b: seq<Expr>, env: Setting)
    ensures EvalAll(op, a + b, env) == Combine(op, EvalAll(op, a, env), EvalAll(op, b, env))
  {
    if a == [] {
      assert a + b == b;
      EvalAllNeutral(op, b, env);
      CombineLaws(op, EvalAll(op, b, env), Some(Neutral(op)), None);
    } else {
      assert (a + b)[1..] == a[1..] + b;
      EvalAllConcat(op, a[1..], b, env);
      CombineLaws(op, Eval(a[0], env), EvalAll(op, a[1..], env), EvalAll(op, b, env));
    }
  }

  /** A defined list has defined members, and a list of one term has that term's value. */
  lemma {:induction false} EvalAllMember(op: AssOp, terms: seq<Expr>, env: Setting, i: nat)
    requires i < |terms| && EvalAll(op, terms, env).Some?
    ensures Combine(op, Eval(terms[i], env), Some(Neutral(op))) == Eval(terms[i], env) != None
  {
    CombineLaws(op, Eval(terms[0], env), EvalAll(op, terms[1..], env), None);
    if i > 0 {
      EvalAllMember(op, terms[1..], env, i - 1);
    }
  }

  lemma EvalAllSingle(op: AssOp, t: Expr, env: Setting)
    requires Combine(op, Eval(t, env), Some(Neutral(op))).Some?
    ensures EvalAll(op, [t], env) == Eval(t, env)
  {
    assert [t][1..] == [];
  }

  lemma EvalAllCons(op: AssOp, t: Expr, ts: seq<Expr>, env: Setting)
    ensures EvalAll(op, [t] + ts, env) == Combine(op, Eval(t, env), EvalAll(op, ts, env))
  {
    assert ([t] + ts)[1..] == ts;
  }

  lemma EvalAllPair(op: AssOp, a: Expr, b: Expr, env: Setting)
    requires Combine(op, Eval(a, env), Eval(b, env)).Some?
    ensures EvalAll(op, [a, b], env) == Combine(op, Eval(a, env), Eval(b, env))
  {
    assert [a, b] == [a] + [b];
    EvalAllCons(op, a, [b], env);
    CombineLaws(op, Eval(a, env), Eval(b, env), None);
    EvalAllSingle(op, b, env);
  }
}
