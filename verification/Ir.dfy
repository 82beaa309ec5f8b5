/** The intermediate representation in three-address form, and a machine that runs it. */
module Ir {
  import opened Results
  import opened Types
  import opened Expressions

  datatype ArithOp = Plus | Minus | Times | Quotient | Raise | Modulus

  /** The operation for a binary operator of the source. */
  function ToArith(op: BinOp): ArithOp {
    match op
    case Sub => Minus
    case Div => Quotient
    case Pow => Raise
    case Mod => Modulus
  }

  datatype IExpr =
    | IntVar(id: string, typ: Ty)
    | BoolVar(id: string)
    | ObjVar(id: string, typ: Ty)
    | IntVal(n: int)
    | BoolVal(b: bool)
    | EnumVal(name: string, typ: Ty)
    | IntConversion(target: Ty, arg: IExpr)
    | First(typ: Ty)
    | Last(typ: Ty)
    | FieldAccess(message: string, field: string, typ: Ty)
    | FieldValid(message: string, field: string)
    | Minus1(arg: IExpr)
    | Arith(op: ArithOp, left: IExpr, right: IExpr)
    | Not1(arg: IExpr)
    | Logic(conj: bool, left: IExpr, right: IExpr)
    | Test(rel: RelOp, left: IExpr, right: IExpr)
    | IfThenElse(cond: IExpr, thn: Complex, els: Complex, typ: Ty)

  /** Statements to be run before an expression is evaluated. */
  datatype Complex = Complex(stmts: seq<Stmt>, expr: IExpr)

  datatype Stmt =
    | VarDecl(id: string, typ: Ty)
    | Assign(target: string, expr: IExpr, typ: Ty)
    | Check(goal: IExpr)

  predicate BasicInt(e: IExpr) {
    e.IntVar? || e.IntVal? || e.IntConversion?
  }

  predicate BasicBool(e: IExpr) {
    e.BoolVar? || e.BoolVal?
  }

  predicate Basic(e: IExpr) {
    BasicInt(e) || BasicBool(e) || e.ObjVar? || e.EnumVal?
  }

  function TypeOf(e: IExpr): Ty {
    match e
    case IntVar(_, t) => t
    case BoolVar(_) => BOOLEAN
    case ObjVar(_, t) => t
    case IntVal(n) => UniversalInteger(Bounds(n, n))
    case BoolVal(_) => BOOLEAN
    case EnumVal(_, t) => t
    case IntConversion(t, _) => t
    case First(_) => UniversalInteger(Bounds(0, MAX_SCALAR))
    case Last(_) => UniversalInteger(Bounds(0, MAX_SCALAR))
    case FieldAccess(_, _, t) => t
    case FieldValid(_, _) => BOOLEAN
    case Minus1(x) => TypeOf(x)
    case Arith(_, l, r) => TypeOf(l).CommonType(TypeOf(r))
    case Not1(_) => BOOLEAN
    case Logic(_, _, _) => BOOLEAN
    case Test(_, _, _) => BOOLEAN
    case IfThenElse(_, _, _, t) => t
  }

  // Evaluation over unbounded integers.  A conversion does not change the value of its argument.

  function Calc(op: ArithOp, a: int, b: int): Option<int> {
    match op
    case Plus => Some(a + b)
    case Minus => Some(a - b)
    case Times => Some(Product(a, b))
    case Quotient => if b == 0 then None else Some(TruncDiv(a, b))
    case Raise => if b < 0 then None else Some(Power(a, b))
    case Modulus => if b == 0 then None else Some(FloorMod(a, b))
  }

  function Product(a: int, b: int): int {
    a * b
  }

  function ArithValue(op: ArithOp, a: Option<Value>, b: Option<Value>): Option<Value> {
    match (a, b)
    case (Some(Int(x)), Some(Int(y))) => (var r := Calc(op, x, y); if r.Some? then Some(Int(r.value)) else None)
    case _ => None
  }

  function LogicValue(conj: bool, a: Option<Value>, b: Option<Value>): Option<Value> {
    match (a, b)
    case (Some(Bool(x)), Some(Bool(y))) => Some(Bool(if conj then x && y else x || y))
    case _ => None
  }

  function TestValue(rel: RelOp, a: Option<Value>, b: Option<Value>): Option<Value> {
    match (a, b)
    case (Some(Int(x)), Some(Int(y))) => Some(Bool(Compare(rel, x, y)))
    case (Some(Bool(x)), Some(Bool(y))) =>
      if rel.IsOrdering() then None else Some(Bool((x == y) == (rel == Equal)))
    case (Some(Enum(x, s)), Some(Enum(y, t))) =>
      if rel.IsOrdering() || s != t then None else Some(Bool((x == y) == (rel == Equal)))
    case _ => None
  }

  function NotValue(a: Option<Value>): Option<Value> {
    match a
    case Some(Bool(b)) => Some(Bool(!b))
    case _ => None
  }

  function NegValue(a: Option<Value>): Option<Value> {
    match a
    case Some(Int(i)) => Some(Int(-i))
    case _ => None
  }

  function IntOnly(a: Option<Value>): Option<Value> {
    match a
    case Some(Int(_)) => a
    case _ => None
  }

  function ChooseValue(c: Option<Value>, a: Option<Value>, b: Option<Value>): Option<Value> {
    match c
    case Some(Bool(true)) => a
    case Some(Bool(false)) => b
    case _ => None
  }

  function Bound(t: Ty, upper: bool): Option<Value> {
    if t.Integer? then Some(Int(if upper then t.bounds.upper else t.bounds.lower)) else None
  }

  function Eval(e: IExpr, env: Env): Option<Value>
    decreases e
  {
    match e
    case IntVar(id, _) => Lookup(env, Var(id))
    case BoolVar(id) => Lookup(env, Var(id))
    case ObjVar(id, _) => Lookup(env, Var(id))
    case IntVal(n) => Some(Int(n))
    case BoolVal(b) => Some(Bool(b))
    case EnumVal(name, t) => Some(Enum(name, t))
    case IntConversion(_, x) => IntOnly(Eval(x, env))
    case First(t) => Bound(t, false)
    case Last(t) => Bound(t, true)
    case FieldAccess(m, f, _) => ReadField(env, m, f)
    case FieldValid(m, f) => Lookup(env, Valid(m, f))
    case Minus1(x) => NegValue(Eval(x, env))
    case Arith(op, l, r) => ArithValue(op, Eval(l, env), Eval(r, env))
    case Not1(x) => NotValue(Eval(x, env))
    case Logic(conj, l, r) => LogicValue(conj, Eval(l, env), Eval(r, env))
    case Test(rel, l, r) => TestValue(rel, Eval(l, env), Eval(r, env))
    case IfThenElse(c, t, f, _) => ChooseValue(Eval(c, env), EvalComplex(t, env), EvalComplex(f, env))
  }

  function EvalComplex(c: Complex, env: Env): Option<Value>
    decreases c
  {
    var done := Run(c.stmts, env);
    if done.Done? then Eval(c.expr, done.env) else None
  }

  /** The end of a run: all statements were executed, a check failed, or a statement has no meaning
      (an undefined variable or field, a division by zero). */
  datatype Outcome = Done(env: Env) | Failed | Stuck

  function Step(s: Stmt, env: Env): Outcome
    decreases s
  {
    match s
    case VarDecl(_, _) => Done(env)
    case Assign(id, e, _) =>
      var v := Eval(e, env);
      if v.Some? then Done(env[Var(id) := v.value]) else Stuck
    case Check(e) =>
      var v := Eval(e, env);
      if v == Some(Bool(true)) then Done(env) else if v == Some(Bool(false)) then Failed else Stuck
  }

  function Run(stmts: seq<Stmt>, env: Env): Outcome
    decreases stmts
  {
    if stmts == [] then Done(env)
    else
      var next := Step(stmts[0], env);
      if next.Done? then Run(stmts[1..], next.env) else next
  }

  function Then(o: Outcome, stmts: seq<Stmt>): Outcome {
    if o.Done? then Run(stmts, o.env) else o
  }

  lemma {:induction false} RunConcat(a: seq<Stmt>, b: seq<Stmt>, env: Env)
    ensures Run(a + b, env) == Then(Run(a, env), b)
  {
    if a == [] {
      assert a + b == b;
    } else {
      assert (a + b)[1..] == a[1..] + b;
      var next := Step(a[0], env);
      if next.Done? {
        RunConcat(a[1..], b, next.env);
      }
    }
  }

  lemma RunSingle(s: Stmt, env: Env)
    ensures Run([s], env) == Step(s, env)
  {
    assert [s][1..] == [];
    if Step(s, env).Done? {
      assert Run([], Step(s, env).env) == Step(s, env);
    }
  }
}
