/** The translation as it is called: temporaries are drawn from one shared generator.  Each method returns the
    code that the corresponding function of `Lowering` computes from the number the generator has on entry, and
    leaves the generator at the next number. */
module LoweringGenerator {
  import opened Results
  import opened Types
  import opened Expressions
  import opened Identifiers
  import opened Ir
  import opened Lowering

  /** A translation that started at `n` returned `r` and left the generator at `next`. */
  predicate Refines(r: Result<Complex>, next: nat, spec: Result<Low>) {
    && (r.Ok? <==> spec.Ok?)
    && (r.Ok? ==> r.value == Complex(spec.value.stmts, spec.value.expr) && next == spec.value.next)
  }

  method Translate(e: Expr, ids: IdGenerator) returns (r: Result<Complex>)
    modifies ids
    ensures Refines(r, ids.i, ToIr(e, old(ids.i)))
    decreases e, 0, 1
  {
    match e
    case Number(v) => return Ok(Complex([], IntVal(v)));
    case Literal(lit) => return Ok(Complex([], LiteralCode(lit)));
    case Variable(id, t) => return Ok(Complex([], VariableCode(id, t)));
    case Selected(m, f, t) =>
      return if t.Integer? || t.Enumeration? then Ok(Complex([], FieldAccess(m, f, t))) else Error;
    case Not(x) =>
      var c :- TranslateBasicBool(x, ids);
      return Ok(Complex(c.stmts, Not1(c.expr)));
    case Neg(x) =>
      var c :- TranslateBasicInt(x, ids);
      return Ok(Complex(c.stmts, Minus1(c.expr)));
    case Ass(op, terms) =>
      if op.IsBool() {
        r := TranslateBool(op, terms, ids);
      } else {
        r := TranslateMath(op, terms, ids);
      }
    case Bin(op, left, right) =>
      if !ExprType(e).AnyInteger() {
        return Error;
      }
      var l :- TranslateBasicInt(left, ids);
      var q :- TranslateBasicInt(right, ids);
      return Ok(Complex(l.stmts + q.stmts, Arith(ToArith(op), l.expr, q.expr)));
    case Rel(rel, left, right) =>
      var l :- TranslateBasic(left, ids);
      var q :- TranslateBasic(right, ids);
      return Ok(Complex(l.stmts + q.stmts, Test(rel, l.expr, q.expr)));
    case If(cond, thn, rest) => r := TranslateIf(cond, thn, rest, ids);
  }

  method TranslateIf(cond: Expr, thn: Expr, rest: Else, ids: IdGenerator) returns (r: Result<Complex>)
    modifies ids
    ensures Refines(r, ids.i, IfToIr(cond, thn, rest, old(ids.i)))
    decreases If(cond, thn, rest), 0, 0
  {
    if !rest.ElsePart? {
      return Error;
    }
    var c :- TranslateBasicBool(cond, ids);
    var t :- Translate(thn, ids);
    var f :- Translate(rest.els, ids);
    if (ExprType(thn) == BOOLEAN && ExprType(rest.els) == BOOLEAN)
       || (ExprType(thn).AnyInteger() && ExprType(rest.els).AnyInteger()) {
      return Ok(Complex(c.stmts, IfThenElse(c.expr, t, f, ExprType(thn).CommonType(ExprType(rest.els)))));
    }
    return Error;
  }

  method TranslateBool(op: AssOp, terms: seq<Expr>, ids: IdGenerator) returns (r: Result<Complex>)
    modifies ids
    ensures Refines(r, ids.i, BoolToIr(op, terms, old(ids.i)))
    decreases terms, 1
  {
    if terms == [] {
      return Ok(Complex([], BoolVal(true)));
    }
    if |terms| == 1 {
      r := TranslateBasicBool(terms[0], ids);
      return;
    }
    if op != And && op != Or {
      return Error;
    }
    var l :- TranslateBasicBool(terms[0], ids);
    if |terms| == 2 {
      var q :- TranslateBasicBool(terms[1], ids);
      return Ok(Complex(l.stmts + q.stmts, Logic(op == And, l.expr, q.expr)));
    }
    var id := ids.Next();
    var q :- TranslateBool(op, terms[1..], ids);
    return Ok(Complex(q.stmts + [VarDecl(id, BOOLEAN), Assign(id, q.expr, BOOLEAN)] + l.stmts,
                      Logic(op == And, l.expr, BoolVar(id))));
  }

  method TranslateMath(op: AssOp, terms: seq<Expr>, ids: IdGenerator) returns (r: Result<Complex>)
    modifies ids
    ensures Refines(r, ids.i, MathToIr(op, terms, old(ids.i)))
    decreases terms, 1
  {
    if terms == [] {
      return Ok(Complex([], IntVal(0)));
    }
    if !ExprType(Ass(op, terms)).AnyInteger() {
      return Error;
    }
    if |terms| == 1 {
      r := TranslateBasicInt(terms[0], ids);
      return;
    }
    if |terms| == 2 {
      var l :- TranslateBasicInt(terms[0], ids);
      var q :- TranslateBasicInt(terms[1], ids);
      return Ok(Complex(l.stmts + q.stmts, Arith(AssArith(op), l.expr, q.expr)));
    }
    var id := ids.Next();
    var l :- TranslateBasicInt(terms[0], ids);
    var q :- TranslateMath(op, terms[1..], ids);
    var t := ToInteger(ExprType(Ass(op, terms)));
    return Ok(Complex(q.stmts + [VarDecl(id, t), Assign(id, q.expr, t)] + l.stmts,
                      Arith(AssArith(op), l.expr, IntVar(id, ExprType(Ass(op, terms[1..]))))));
  }

  method TranslateBasicInt(e: Expr, ids: IdGenerator) returns (r: Result<Complex>)
    modifies ids
    ensures Refines(r, ids.i, ToBasicInt(e, old(ids.i)))
    decreases e, 1
  {
    if !ExprType(e).AnyInteger() {
      return Error;
    }
    var c :- Translate(e, ids);
    if BasicInt(c.expr) {
      return Ok(c);
    }
    var id := ids.Next();
    var t := ToInteger(ExprType(e));
    return Ok(Complex(c.stmts + [VarDecl(id, t), Assign(id, c.expr, t)], IntVar(id, t)));
  }

  method TranslateBasicBool(e: Expr, ids: IdGenerator) returns (r: Result<Complex>)
    modifies ids
    ensures Refines(r, ids.i, ToBasicBool(e, old(ids.i)))
    decreases e, 1
  {
    if ExprType(e) != BOOLEAN {
      return Error;
    }
    var c :- Translate(e, ids);
    if BasicBool(c.expr) {
      return Ok(c);
    }
    var id := ids.Next();
    return Ok(Complex(c.stmts + [VarDecl(id, BOOLEAN), Assign(id, c.expr, BOOLEAN)], BoolVar(id)));
  }

  method TranslateBasic(e: Expr, ids: IdGenerator) returns (r: Result<Complex>)
    modifies ids
    ensures Refines(r, ids.i, ToBasic(e, old(ids.i)))
    decreases e, 1
  {
    var c :- Translate(e, ids);
    if Basic(c.expr) {
      return Ok(c);
    }
    var id := ids.Next();
    var t, d := TypeOf(c.expr), ExprType(e);
    if t == BOOLEAN {
      return Ok(Complex(c.stmts + [VarDecl(id, BOOLEAN), Assign(id, c.expr, BOOLEAN)], BoolVar(id)));
    }
    if t.AnyInteger() && d.AnyInteger() {
      var i := ToInteger(d);
      return Ok(Complex(c.stmts + [VarDecl(id, i), Assign(id, c.expr, i)], IntVar(id, i)));
    }
    if !t.AnyInteger() && d.Enumeration? {
      return Ok(Complex(c.stmts + [VarDecl(id, d), Assign(id, c.expr, d)], ObjVar(id, d)));
    }
    return Error;
  }
}
