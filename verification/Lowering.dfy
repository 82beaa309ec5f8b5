/** The translation of expressions into three-address code.  A number threads the state of the generator
    of temporaries; `Error` is a failed assertion or an operator that has no counterpart in the intermediate
    representation (`and then`, `or else`, an elsif part). */
module Lowering {
  import opened Results
  import opened Types
  import opened Expressions
  import opened Identifiers
  import opened Ir

  /** The type of a source expression. */
  function ExprType(e: Expr): Ty
    decreases e
  {
    match e
    case Number(n) => UniversalInteger(Bounds(n, n))
    case Literal(EnumLit(_, t)) => t
    case Literal(_) => BOOLEAN
    case Variable(_, t) => t
    case Selected(_, _, t) => t
    case Not(_) => BOOLEAN
    case Neg(x) => ExprType(x)
    case Ass(op, terms) =>
      if op.IsBool() then BOOLEAN else Defined(CommonTypeOf(ExprTypes(terms)))
    case Bin(_, l, r) => Defined(ExprType(l).CommonType(ExprType(r)))
    case Rel(_, _, _) => BOOLEAN
    case If(_, t, rest) => ExprType(t).CommonType(ElseType(rest))
  }

  function ExprTypes(terms: seq<Expr>): seq<Ty>
    decreases terms
  {
    if terms == [] then [] else [ExprType(terms[0])] + ExprTypes(terms[1..])
  }

  function ElseType(rest: Else): Ty
    decreases rest
  {
    match rest
    case NoElse => Any
    case ElsePart(e) => ExprType(e)
    case Elsif(_, t, r) => ExprType(t).CommonType(ElseType(r))
  }

  function Defined(t: Ty): Ty {
    if t == Undefined then BASE_INTEGER else t
  }

  /** Statements, the expression to be evaluated after them, and the next number of the generator. */
  datatype Low = Low(stmts: seq<Stmt>, expr: IExpr, next: nat)

  function Temp(l: Low, id: string, v: IExpr, t: Ty, next: nat): Low {
    Low(l.stmts + [VarDecl(id, t), Assign(id, l.expr, t)], v, next)
  }

  function AssArith(op: AssOp): ArithOp {
    if op == Add then Plus else Times
  }

  function LiteralCode(lit: Lit): IExpr {
    match lit
    case FalseLit => BoolVal(false)
    case TrueLit => BoolVal(true)
    case EnumLit(name, t) => EnumVal(name, t)
  }

  function VariableCode(id: string, t: Ty): IExpr {
    if t == BOOLEAN then BoolVar(id) else if t.Integer? then IntVar(id, t) else ObjVar(id, t)
  }

  function ToIr(e: Expr, n: nat): (r: Result<Low>)
    ensures r.Ok? ==> n <= r.value.next
    decreases e, 0, 1
  {
    match e
    case Number(v) => Ok(Low([], IntVal(v), n))
    case Literal(lit) => Ok(Low([], LiteralCode(lit), n))
    case Variable(id, t) => Ok(Low([], VariableCode(id, t), n))
    case Selected(m, f, t) => if t.Integer? || t.Enumeration? then Ok(Low([], FieldAccess(m, f, t), n)) else Error
    case Not(x) =>
      var l :- ToBasicBool(x, n);
      Ok(Low(l.stmts, Not1(l.expr), l.next))
    case Neg(x) =>
      var l :- ToBasicInt(x, n);
      Ok(Low(l.stmts, Minus1(l.expr), l.next))
    case Ass(op, terms) => if op.IsBool() then BoolToIr(op, terms, n) else MathToIr(op, terms, n)
    case Bin(op, left, right) =>
      if !ExprType(e).AnyInteger() then Error
      else
        var l :- ToBasicInt(left, n);
        var q :- ToBasicInt(right, l.next);
        Ok(Low(l.stmts + q.stmts, Arith(ToArith(op), l.expr, q.expr), q.next))
    case Rel(rel, left, right) =>
      var l :- ToBasic(left, n);
      var q :- ToBasic(right, l.next);
      Ok(Low(l.stmts + q.stmts, Test(rel, l.expr, q.expr), q.next))
    case If(cond, thn, rest) => IfToIr(cond, thn, rest, n)
  }

  function IfToIr(cond: Expr, thn: Expr, rest: Else, n: nat): (r: Result<Low>)
    ensures r.Ok? ==> n <= r.value.next
    decreases If(cond, thn, rest), 0, 0
  {
    if !rest.ElsePart? then Error
    else
      var c :- ToBasicBool(cond, n);
      var t :- ToIr(thn, c.next);
      var f :- ToIr(rest.els, t.next);
      var typ := ExprType(thn).CommonType(ExprType(rest.els));
      if (ExprType(thn) == BOOLEAN && ExprType(rest.els) == BOOLEAN)
         || (ExprType(thn).AnyInteger() && ExprType(rest.els).AnyInteger()) then
        Ok(Low(c.stmts, IfThenElse(c.expr, Complex(t.stmts, t.expr), Complex(f.stmts, f.expr), typ), f.next))
      else Error
  }

  /** The operators `and` and `or`: the part to the right of the first operand is computed first. */
  function BoolToIr(op: AssOp, terms: seq<Expr>, n: nat): (r: Result<Low>)
    ensures r.Ok? ==> n <= r.value.next
    decreases terms, 1
  {
    if terms == [] then Ok(Low([], BoolVal(true), n))
    else if |terms| == 1 then ToBasicBool(terms[0], n)
    else if op != And && op != Or then Error
    else if |terms| == 2 then
      var l :- ToBasicBool(terms[0], n);
      var q :- ToBasicBool(terms[1], l.next);
      Ok(Low(l.stmts + q.stmts, Logic(op == And, l.expr, q.expr), q.next))
    else
      var l :- ToBasicBool(terms[0], n);
      var q :- BoolToIr(op, terms[1..], l.next + 1);
      var id := TempName(l.next);
      Ok(Low(Temp(q, id, BoolVar(id), BOOLEAN, q.next).stmts + l.stmts, Logic(op == And, l.expr, BoolVar(id)), q.next))
  }

  /** Sums and products: the temporary for the right part is numbered before the first operand is translated. */
  function MathToIr(op: AssOp, terms: seq<Expr>, n: nat): (r: Result<Low>)
    ensures r.Ok? ==> n <= r.value.next
    decreases terms, 1
  {
    if terms == [] then Ok(Low([], IntVal(0), n))
    else if !ExprType(Ass(op, terms)).AnyInteger() then Error
    else if |terms| == 1 then ToBasicInt(terms[0], n)
    else if |terms| == 2 then
      var l :- ToBasicInt(terms[0], n);
      var q :- ToBasicInt(terms[1], l.next);
      Ok(Low(l.stmts + q.stmts, Arith(AssArith(op), l.expr, q.expr), q.next))
    else
      var l :- ToBasicInt(terms[0], n + 1);
      var q :- MathToIr(op, terms[1..], l.next);
      var id, t := TempName(n), ToInteger(ExprType(Ass(op, terms)));
      var v := IntVar(id, ExprType(Ass(op, terms[1..])));
      Ok(Low(Temp(q, id, v, t, q.next).stmts + l.stmts, Arith(AssArith(op), l.expr, v), q.next))
  }

  function ToBasicInt(e: Expr, n: nat): (r: Result<Low>)
    ensures r.Ok? ==> n <= r.value.next
    decreases e, 1
  {
    if !ExprType(e).AnyInteger() then Error
    else
      var l :- ToIr(e, n);
      var id, t := TempName(l.next), ToInteger(ExprType(e));
      if BasicInt(l.expr) then Ok(l) else Ok(Temp(l, id, IntVar(id, t), t, l.next + 1))
  }

  function ToBasicBool(e: Expr, n: nat): (r: Result<Low>)
    ensures r.Ok? ==> n <= r.value.next
    decreases e, 1
  {
    if ExprType(e) != BOOLEAN then Error
    else
      var l :- ToIr(e, n);
      var id := TempName(l.next);
      if BasicBool(l.expr) then Ok(l) else Ok(Temp(l, id, BoolVar(id), BOOLEAN, l.next + 1))
  }

  /** Operands of relations may be of any scalar type. */
  function ToBasic(e: Expr, n: nat): (r: Result<Low>)
    ensures r.Ok? ==> n <= r.value.next
    decreases e, 1
  {
    var l :- ToIr(e, n);
    var id := TempName(l.next);
    if Basic(l.expr) then Ok(l)
    else
      var t := TypeOf(l.expr);
      if t == BOOLEAN then Ok(Temp(l, id, BoolVar(id), BOOLEAN, l.next + 1))
      else if t.AnyInteger() then
        if ExprType(e).AnyInteger() then
          var d := ToInteger(ExprType(e));
          Ok(Temp(l, id, IntVar(id, d), d, l.next + 1))
        else Error
      else if ExprType(e).Enumeration? then Ok(Temp(l, id, ObjVar(id, ExprType(e)), ExprType(e), l.next + 1))
      else Error
  }
}
