/** Assignments of expressions that are simplified before they are compiled.  Simplification turns a difference into a
    sum: a subtracted variable becomes a negated operand, which no check guards, and a subtracted constant becomes a
    negative one, which no scalar type holds.  What completes without a subtracted variable is safe. */
module SimplifiedSafety {
  import opened Results
  import opened Types
  import opened Expressions
  import opened Identifiers
  import opened Ir
  import opened IntEval
  import opened Temporaries
  import opened Lowering
  import opened Checks
  import opened ChecksMeaning
  import opened ChecksSafety
  import opened Pipeline
  import opened CompiledSafety
  import opened Simplifier
  import opened SimplifierShape
  import E = ExactEval
  import SM = SimplifierMeaning

  // Differences.

  function Difference(x: string, y: string, t: Ty): Expr {
    Bin(Sub, Variable(x, t), Variable(y, t))
  }

  lemma DifferenceBecomesSum(x: string, y: string, t: Ty)
    ensures Simplify(Difference(x, y, t)) == Ok(Simp(Ass(Add, [Variable(x, t), Neg(Variable(y, t))]), []))
  {
    var none: seq<Rewrite> := [];
    var l, r := Variable(x, t), Variable(y, t);
    assert none + none + none == none;
    assert Simplify(l) == Ok(Simp(l, none)) && Simplify(r) == Ok(Simp(r, none)) && Negate(r) == Ok(Simp(Neg(r), none));
    assert SimplifyBin(Sub, l, r) == Ok(Simp(Ass(Add, [l, Neg(r)]), none + none + none));
  }

  /** The code of the sum: the negated operand is stored in a temporary of its type. */
  lemma SumCode(x: string, y: string, t: Ty, n: nat)
    requires t.Integer?
    ensures var id := TempName(n);
            ToIr(Ass(Add, [Variable(x, t), Neg(Variable(y, t))]), n) ==
            Ok(Low([VarDecl(id, t), Assign(id, Minus1(IntVar(y, t)), t)], Arith(Plus, IntVar(x, t), IntVar(id, t)),
                   n + 1))
  {
    var none: seq<Stmt> := [];
    var l, r := Variable(x, t), Neg(Variable(y, t));
    var terms := [l, r];
    assert terms[1..] == [r] && [r][1..] == [];
    assert ExprType(l) == t && ExprType(r) == ExprType(Variable(y, t)) == t;
    assert ExprTypes([]) == [] && ExprTypes([r]) == [t] + [] && ExprTypes(terms) == [t] + ExprTypes([r]);
    assert ExprTypes(terms) == [t, t] && [t, t][1..] == [t] && [t][1..] == [];
    assert CommonTypeFrom(t, [t]) == CommonTypeFrom(t.CommonType(t), []);
    assert ExprType(Ass(Add, terms)).AnyInteger();
    assert ToBasicInt(Variable(y, t), n) == Ok(Low(none, IntVar(y, t), n));
    var q := Low(none, Minus1(IntVar(y, t)), n);
    assert ToIr(r, n) == Ok(q);
    var stmts := [VarDecl(TempName(n), t), Assign(TempName(n), q.expr, t)];
    assert none + stmts == stmts;
    assert ToBasicInt(r, n) == Ok(Low(stmts, IntVar(TempName(n), t), n + 1));
    assert ToBasicInt(l, n) == Ok(Low(none, IntVar(x, t), n));
  }

  lemma CompiledDifference(x: string, y: string, z: string, t: Ty, n: nat)
    requires t.Integer?
    ensures var id := TempName(n);
            Compile(Difference(x, y, t), z, t, n) ==
            Ok(AddChecks([VarDecl(id, t), Assign(id, Minus1(IntVar(y, t)), t),
                          Assign(z, Arith(Plus, IntVar(x, t), IntVar(id, t)), t)], n + 1))
  {
    hide ToIr, AddChecks, Simplify;
    DifferenceBecomesSum(x, y, t);
    SumCode(x, y, t, n);
    var s := Ass(Add, [Variable(x, t), Neg(Variable(y, t))]);
    var l := ToIr(s, n).value;
    var last := Assign(z, l.expr, t);
    assert Body(l, z, t) == [l.stmts[0], l.stmts[1], last];
    assert TypeOf(l.stmts[1].expr) == TypeOf(IntVar(y, t)) == t;
    assert Convert(l.expr, t) == Ok(l.expr);
    UnchangedByConversion(l.stmts[0], l.stmts[1], last);
  }

  lemma NegatedStore(id: string, y: string, t: Ty, b: int, env: Env)
    requires Lookup(env, Var(y)) == Some(Int(b))
    ensures var s := Assign(id, Minus1(IntVar(y, t)), t);
            Step(s, env) == Done(env[Var(id) := Int(-b)]) && GuardStmt(s, env) && RegularStmt(s, env)
  {
    assert Eval(IntVar(y, t), env) == Some(Int(b));
  }

  lemma SumStore(z: string, x: string, id: string, t: Ty, a: int, b: int, env: Env)
    requires t.Integer? && Lookup(env, Var(x)) == Some(Int(a)) && Lookup(env, Var(id)) == Some(Int(b))
    requires a + b <= t.bounds.upper
    ensures var s := Assign(z, Arith(Plus, IntVar(x, t), IntVar(id, t)), t);
            Step(s, env) == Done(env[Var(z) := Int(a + b)]) && GuardStmt(s, env) && RegularStmt(s, env)
  {
  }

  /** The difference of two variables is simplified to a sum whose check cannot fail: the run completes for all values,
      and what it stores is in range exactly if the check passes that the difference itself would have. */
  lemma DifferenceLosesCheck(x: string, y: string, z: string, t: Ty, a: int, b: int, n: nat, env: Env)
    requires Scalar(t) && t.bounds.ContainsInt(a) && t.bounds.ContainsInt(b)
    requires Lookup(env, Var(x)) == Some(Int(a)) && Lookup(env, Var(y)) == Some(Int(b))
    requires TempIndex(x) < n && TempIndex(y) < n && TempIndex(z) < n
    ensures Compile(Difference(x, y, t), z, t, n).Ok?
    ensures var o := Run(Compile(Difference(x, y, t), z, t, n).value.stmts, env);
            && o.Done? && Lookup(o.env, Var(z)) == Some(Int(a - b))
            && (Fits(Lookup(o.env, Var(z)), t, Upper) <==> InRange(Minus, t.bounds.upper, a, b))
  {
    hide AddChecks, Run, AllGuarded, AllRegular, Step, GuardStmt, RegularStmt, Compile;
    TempIndexOfName(n);
    var id := TempName(n);
    var decl, first := VarDecl(id, t), Assign(id, Minus1(IntVar(y, t)), t);
    var last := Assign(z, Arith(Plus, IntVar(x, t), IntVar(id, t)), t);
    var mid := env[Var(id) := Int(-b)];
    CompiledDifference(x, y, z, t, n);
    NegatedStore(id, y, t, b, env);
    SumStore(z, x, id, t, a, -b, mid);
    ThreeSteps(decl, first, last, env, mid, mid[Var(z) := Int(a - b)]);
    ThreeBelow(decl, first, last, n + 1);
    AgreeRefl(env, n + 1);
    InstrumentedRunIsExact([decl, first, last], n + 1, n + 1, env, env);
    var out := Run(AddChecks([decl, first, last], n + 1).stmts, env);
    assert Lookup(out.env, Var(z)) == Some(Int(a - b));
  }

  /** Without simplification the run completes exactly if the difference is in range. */
  lemma DifferenceIsChecked(x: string, y: string, z: string, t: Ty, a: int, b: int, n: nat, env: Env)
    requires Scalar(t)
    requires Lookup(env, Var(x)) == Some(Int(a)) && Lookup(env, Var(y)) == Some(Int(b))
    requires TempIndex(x) < n && TempIndex(y) < n && TempIndex(z) < n
    ensures AssignCode(Difference(x, y, t), z, t, n).Ok?
    ensures Run(AssignCode(Difference(x, y, t), z, t, n).value.stmts, env).Done? <==>
            InRange(Minus, t.bounds.upper, a, b)
  {
    var l, r := IntVar(x, t), IntVar(y, t);
    var s := Assign(z, Arith(Minus, l, r), t);
    DifferenceCode(x, y, t, n);
    assert Body(Low([], Arith(Minus, l, r), n), z, t) == [s];
    SingleStatement(s, n);
    var c := OperationCond(Minus, l, r, t.bounds.upper, TempName(n));
    assert Preconditions(l, None, n).conds == [] && Preconditions(r, None, n).conds == [];
    assert [] + [] + [c] == [c];
    assert StmtPreconditions(s, n) == Conds([c], n);
    hide StmtPreconditions, CheckCode, AddRequiredChecks, ToIr;
    OperationCheckExact(Minus, l, r, t.bounds.upper, n, n, env, a, b);
    RunConcat(CheckCode([c]), [s], env);
    var checked := Run(CheckCode([c]), env);
    if checked.Done? {
      AgreeRefl(env, n);
      ChecksAgree(s, n, env, env, n);
      EvalFrame(s.expr, env, checked.env, n, n);
      RunSingle(s, checked.env);
    }
  }

  lemma DifferenceCode(x: string, y: string, t: Ty, n: nat)
    requires t.Integer?
    ensures ToIr(Difference(x, y, t), n) == Ok(Low([], Arith(Minus, IntVar(x, t), IntVar(y, t)), n))
  {
    var none: seq<Stmt> := [];
    assert none + none == none;
    assert ToBasicInt(Variable(x, t), n) == Ok(Low(none, IntVar(x, t), n));
    assert ToBasicInt(Variable(y, t), n) == Ok(Low(none, IntVar(y, t), n));
  }

  /** With `type T is range 0 .. 10`, the difference of 3 and 5 is stored as -2. */
  lemma NegativeDifferenceIsStored(x: string, y: string, z: string, n: nat, env: Env)
    requires Lookup(env, Var(x)) == Some(Int(3)) && Lookup(env, Var(y)) == Some(Int(5))
    requires TempIndex(x) < n && TempIndex(y) < n && TempIndex(z) < n
    ensures var t := Integer(Declared("T"), Bounds(0, 10));
            Compile(Difference(x, y, t), z, t, n).Ok? &&
            var o := Run(Compile(Difference(x, y, t), z, t, n).value.stmts, env);
            o.Done? && Lookup(o.env, Var(z)) == Some(Int(-2)) && !Fits(Some(Int(-2)), t, Upper)
  {
    DifferenceLosesCheck(x, y, z, Integer(Declared("T"), Bounds(0, 10)), 3, 5, n, env);
  }

  // Differences with a constant.

  /** An operation on a variable and a number: the number is converted unless it is in the type. */
  lemma OperationWithNumber(op: ArithOp, x: string, z: string, t: Ty, a: int, m: int, n: nat, env: Env)
    requires op == Plus || op == Minus
    requires t.Integer? && Lookup(env, Var(x)) == Some(Int(a)) && TempIndex(x) < n && TempIndex(z) < n
    ensures var s := Assign(z, Arith(op, IntVar(x, t), IntVal(m)), t);
            AddRequiredChecks([s], n).Ok? &&
            var o := Run(AddRequiredChecks([s], n).value.stmts, env);
            if t.bounds.ContainsInt(m) && InRange(op, t.bounds.upper, a, m)
            then o.Done? && Lookup(o.env, Var(z)) == Calculated(op, a, m)
            else o == Failed
  {
    var s := Assign(z, Arith(op, IntVar(x, t), IntVal(m)), t);
    var r := ConvertOperand(IntVal(m), t);
    var c := Assign(z, Arith(op, IntVar(x, t), r), t);
    assert r == if t.bounds.ContainsInt(m) then IntVal(m) else IntConversion(t, IntVal(m));
    assert Eval(IntVal(m), env) == Some(Int(m)) && Eval(r, env) == Some(Int(m));
    assert ConvertStmt(s) == Ok(c) && ConvertStmt(c) == Ok(c);
    SameChecks(s, c, n);
    assert Guard(r, None, env) == t.bounds.ContainsInt(m) && Regular(r, None, env);
    assert Eval(IntVar(x, t), env) == Some(Int(a));
    assert Eval(c.expr, env) == ArithValue(op, Some(Int(a)), Some(Int(m))) == Calculated(op, a, m);
    assert Step(c, env) == Done(env[Var(z) := Calculated(op, a, m).value]);
    assert Below(IntVar(x, t), n) && Below(IntVal(m), n) && Below(r, n) && Below(c.expr, n);
    assert Guard(IntVar(x, t), None, env) && Regular(IntVar(x, t), None, env);
    assert Regular(c.expr, Some(t), env);
    assert GuardStmt(c, env) == (t.bounds.ContainsInt(m) && InRange(op, t.bounds.upper, a, m));
    hide AddRequiredChecks, Step, Run;
    StatementIsExact(c, n, env);
  }

  function Calculated(op: ArithOp, a: int, m: int): (v: Option<Value>)
    requires op == Plus || op == Minus
    ensures v.Some?
  {
    Some(Int(Calc(op, a, m).value))
  }

  lemma SameChecks(s: Stmt, c: Stmt, n: nat)
    requires ConvertStmt(s) == Ok(c) && ConvertStmt(c) == Ok(c)
    ensures AddRequiredChecks([s], n) == AddRequiredChecks([c], n)
  {
    assert [s][1..] == [] && [c][1..] == [] && AddConversions([]) == Ok([]);
    assert AddConversions([s]) == AddConversions([c]);
  }

  lemma SubtractedNumber(x: string, t: Ty, c: int)
    ensures Simplify(Bin(Sub, Variable(x, t), Number(c))) == Ok(Simp(Ass(Add, [Variable(x, t), Number(-c)]), []))
  {
    var none: seq<Rewrite> := [];
    var l, r := Variable(x, t), Number(c);
    assert none + none + none == none;
    assert Simplify(l) == Ok(Simp(l, none)) && Simplify(r) == Ok(Simp(r, none));
    assert Negate(r) == Ok(Simp(Number(-c), none));
    assert SimplifyBin(Sub, l, r) == Ok(Simp(Ass(Add, [l, Number(-c)]), none + none + none));
  }

  lemma SumWithNumberCode(x: string, t: Ty, m: int, n: nat)
    requires t.Integer?
    ensures ToIr(Ass(Add, [Variable(x, t), Number(m)]), n) == Ok(Low([], Arith(Plus, IntVar(x, t), IntVal(m)), n))
    ensures ToIr(Bin(Sub, Variable(x, t), Number(m)), n) == Ok(Low([], Arith(Minus, IntVar(x, t), IntVal(m)), n))
  {
    var none: seq<Stmt> := [];
    var l, r := Variable(x, t), Number(m);
    var terms := [l, r];
    var u := UniversalInteger(Bounds(m, m));
    assert none + none == none && terms[1..] == [r] && [r][1..] == [];
    assert ExprType(l) == t && ExprType(r) == u;
    assert ExprTypes([]) == [] && ExprTypes([r]) == [u] + [] && ExprTypes(terms) == [t] + ExprTypes([r]);
    assert ExprTypes(terms) == [t, u] && [t, u][1..] == [u] && [u][1..] == [];
    assert CommonTypeFrom(t, [u]) == CommonTypeFrom(t.CommonType(u), []);
    assert ExprType(Ass(Add, terms)).AnyInteger();
    assert ToBasicInt(l, n) == Ok(Low(none, IntVar(x, t), n)) && ToBasicInt(r, n) == Ok(Low(none, IntVal(m), n));
  }

  /** A subtracted constant becomes a negative one, which is converted to the type of the target: the run of the
      simplified difference completes exactly if the type holds the negated constant. */
  lemma SubtractedConstantIsNegated(x: string, z: string, t: Ty, a: int, c: int, n: nat, env: Env)
    requires t.Integer? && Lookup(env, Var(x)) == Some(Int(a)) && TempIndex(x) < n && TempIndex(z) < n
    ensures var e := Bin(Sub, Variable(x, t), Number(c));
            Compile(e, z, t, n).Ok? &&
            var o := Run(Compile(e, z, t, n).value.stmts, env);
            if t.bounds.ContainsInt(-c) && a - c <= t.bounds.upper
            then o.Done? && Lookup(o.env, Var(z)) == Some(Int(a - c))
            else o == Failed
  {
    hide Simplify, ToIr, AddRequiredChecks, Run;
    SubtractedNumber(x, t, c);
    SumWithNumberCode(x, t, -c, n);
    var s := Assign(z, Arith(Plus, IntVar(x, t), IntVal(-c)), t);
    assert Body(Low([], s.expr, n), z, t) == [s];
    OperationWithNumber(Plus, x, z, t, a, -c, n, env);
  }

  /** Without simplification the run completes exactly if the type holds the constant and the difference is not
      negative. */
  lemma SubtractedConstantIsChecked(x: string, z: string, t: Ty, a: int, c: int, n: nat, env: Env)
    requires t.Integer? && Lookup(env, Var(x)) == Some(Int(a)) && TempIndex(x) < n && TempIndex(z) < n
    ensures var e := Bin(Sub, Variable(x, t), Number(c));
            AssignCode(e, z, t, n).Ok? &&
            var o := Run(AssignCode(e, z, t, n).value.stmts, env);
            if t.bounds.ContainsInt(c) && a >= c then o.Done? && Lookup(o.env, Var(z)) == Some(Int(a - c))
            else o == Failed
  {
    hide ToIr, AddRequiredChecks, Run;
    SumWithNumberCode(x, t, c, n);
    var s := Assign(z, Arith(Minus, IntVar(x, t), IntVal(c)), t);
    assert Body(Low([], s.expr, n), z, t) == [s];
    OperationWithNumber(Minus, x, z, t, a, c, n, env);
  }

  /** With `type T is range 0 .. 10` and X = 5, the assignment of X - 1 stores 4, but it fails if X - 1 is simplified
      first. */
  lemma ValidDifferenceIsLost(x: string, z: string, n: nat, env: Env)
    requires Lookup(env, Var(x)) == Some(Int(5)) && TempIndex(x) < n && TempIndex(z) < n
    ensures var t := Integer(Declared("T"), Bounds(0, 10)); var e := Bin(Sub, Variable(x, t), Number(1));
            && AssignCode(e, z, t, n).Ok? && Compile(e, z, t, n).Ok?
            && Run(AssignCode(e, z, t, n).value.stmts, env).Done?
            && Lookup(Run(AssignCode(e, z, t, n).value.stmts, env).env, Var(z)) == Some(Int(4))
            && Run(Compile(e, z, t, n).value.stmts, env) == Failed
  {
    hide AssignCode, Compile, Run;
    SubtractedConstantIsChecked(x, z, Integer(Declared("T"), Bounds(0, 10)), 5, 1, n, env);
    SubtractedConstantIsNegated(x, z, Integer(Declared("T"), Bounds(0, 10)), 5, 1, n, env);
  }

  // Expressions whose differences do not survive.

  predicate Constant(e: Expr)
    decreases e
  {
    match e
    case Number(_) => true
    case Neg(x) => Constant(x)
    case Ass(op, terms) => !op.IsBool() && AllConstant(terms)
    case Bin(op, l, r) => op != Div && Constant(l) && Constant(r)
    case _ => false
  }

  predicate AllConstant(terms: seq<Expr>)
    decreases terms
  {
    terms == [] || (Constant(terms[0]) && AllConstant(terms[1..]))
  }

  /** Arithmetic on variables and fields of scalar types, in which only constants are subtracted or negated. */
  predicate Positive(e: Expr, types: Context)
    decreases e
  {
    match e
    case Number(_) => true
    case Variable(id, t) => Scalar(t) && Var(id) in types && types[Var(id)] == t
    case Selected(m, f, t) => Scalar(t) && Field(m, f) in types && types[Field(m, f)] == t
    case Neg(x) => Constant(x)
    case Ass(op, terms) => !op.IsBool() && AllPositive(terms, types)
    case Bin(op, l, r) => Positive(l, types) && (if op == Sub then Constant(r) else Positive(r, types))
    case _ => false
  }

  predicate AllPositive(terms: seq<Expr>, types: Context)
    decreases terms
  {
    terms == [] || (Positive(terms[0], types) && AllPositive(terms[1..], types))
  }

  /** What remains of them: nothing is subtracted or negated. */
  predicate Folded(e: Expr, types: Context)
    decreases e
  {
    match e
    case Number(_) => true
    case Variable(_, _) => Positive(e, types)
    case Selected(_, _, _) => Positive(e, types)
    case Ass(op, terms) => !op.IsBool() && AllFolded(terms, types) && (terms == [] ==> op == Add)
    case Bin(op, l, r) => op != Sub && Folded(l, types) && Folded(r, types)
    case _ => false
  }

  predicate AllFolded(terms: seq<Expr>, types: Context)
    decreases terms
  {
    terms == [] || (Folded(terms[0], types) && AllFolded(terms[1..], types))
  }

  lemma {:induction false} FoldedIsPositive(e: Expr, types: Context)
    requires Folded(e, types)
    ensures Positive(e, types)
    decreases e
  {
    match e
    case Ass(_, terms) => AllFoldedIsPositive(terms, types);
    case Bin(_, l, r) =>
      FoldedIsPositive(l, types);
      FoldedIsPositive(r, types);
    case _ =>
  }

  lemma {:induction false} AllFoldedIsPositive(terms: seq<Expr>, types: Context)
    requires AllFolded(terms, types)
    ensures AllPositive(terms, types)
    decreases terms
  {
    if terms != [] {
      FoldedIsPositive(terms[0], types);
      AllFoldedIsPositive(terms[1..], types);
    }
  }

  lemma {:induction false} AllPositiveConcat(a: seq<Expr>, b: seq<Expr>, types: Context)
    ensures AllPositive(a + b, types) == (AllPositive(a, types) && AllPositive(b, types))
  {
    if a == [] {
      assert a + b == b;
    } else {
      assert (a + b)[1..] == a[1..] + b;
      AllPositiveConcat(a[1..], b, types);
    }
  }

  lemma {:induction false} AllFoldedConcat(a: seq<Expr>, b: seq<Expr>, types: Context)
    ensures AllFolded(a + b, types) == (AllFolded(a, types) && AllFolded(b, types))
  {
    if a == [] {
      assert a + b == b;
    } else {
      assert (a + b)[1..] == a[1..] + b;
      AllFoldedConcat(a[1..], b, types);
    }
  }

  lemma AllFoldedSnoc(a: seq<Expr>, t: Expr, types: Context)
    ensures AllFolded(a + [t], types) == (AllFolded(a, types) && Folded(t, types))
  {
    AllFoldedConcat(a, [t], types);
    assert [t][1..] == [];
  }

  lemma AllFoldedRemove(a: seq<Expr>, i: nat, types: Context)
    requires i < |a| && AllFolded(a, types)
    ensures AllFolded(a[..i] + a[i + 1..], types)
  {
    var back := a[i..];
    assert a == a[..i] + back && back[0] == a[i] && back[1..] == a[i + 1..];
    AllFoldedConcat(a[..i], back, types);
    AllFoldedConcat(a[..i], a[i + 1..], types);
  }

  // Following the simplification.

  /** A constant is simplified to a number. */
  lemma {:induction false} ConstantFolds(e: Expr)
    requires Constant(e) && Simplify(e).Ok?
    ensures Simplify(e).value.e.Number?
    decreases Weight(e), 1
  {
    match e
    case Number(_) =>
    case Neg(x) => ConstantFolds(x);
    case Ass(op, terms) => ConstantsCollect(op, terms, NeutralElement(op));
    case Bin(op, l, r) =>
      ConstantFolds(l);
      ConstantFolds(r);
  }

  lemma {:induction false} ConstantsCollect(op: AssOp, pending: seq<Expr>, total: int)
    requires AllConstant(pending) && Collect(op, pending, total, []).Ok?
    ensures Collect(op, pending, total, []).value.terms == []
    decreases WeightAll(pending) + 1, 0
  {
    if pending != [] {
      ConstantFolds(pending[0]);
      ConstantsCollect(op, pending[1..], Operation(op, total, ConstantOf(Simplify(pending[0]).value.e)));
    }
  }

  /** No difference survives simplification. */
  lemma {:induction false} PositiveFolds(e: Expr, types: Context)
    requires Positive(e, types) && Simplify(e).Ok?
    ensures Folded(Simplify(e).value.e, types)
    decreases Weight(e), 1
  {
    match e
    case Number(_) =>
    case Variable(_, _) =>
    case Selected(_, _, _) =>
    case Neg(x) => ConstantFolds(x);
    case Ass(op, terms) => AssFolds(op, terms, types);
    case Bin(op, l, r) =>
      PositiveFolds(l, types);
      if op == Sub {
        ConstantFolds(r);
        DifferenceFolds(l, r, types);
      } else {
        PositiveFolds(r, types);
      }
  }

  lemma DifferenceFolds(l: Expr, r: Expr, types: Context)
    requires SimplifyBin(Sub, l, r).Ok? && Folded(Simplify(l).value.e, types) && Simplify(r).value.e.Number?
    ensures Folded(SimplifyBin(Sub, l, r).value.e, types)
  {
    hide Simplify;
    var a, n := Simplify(l).value.e, Number(-Simplify(r).value.e.n);
    assert AllFolded([a], types) by { assert [a][1..] == []; }
    AllFoldedSnoc([a], n, types);
    assert [a] + [n] == [a, n];
  }

  lemma {:induction false} AssFolds(op: AssOp, terms: seq<Expr>, types: Context)
    requires !op.IsBool() && AllPositive(terms, types) && SimplifyAss(op, terms).Ok?
    ensures Folded(SimplifyAss(op, terms).value.e, types)
    decreases 2 + WeightAll(terms), 0
  {
    var c := Collect(op, terms, NeutralElement(op), []).value;
    CollectFolds(op, terms, NeutralElement(op), [], types);
    if c.terms != [] {
      AllFoldedSnoc(c.terms, Number(c.total), types);
      FinishFolds(op, AllTerms(op, c), types);
    }
  }

  lemma {:induction false} CollectFolds(op: AssOp, pending: seq<Expr>, total: int, terms: seq<Expr>, types: Context)
    requires !op.IsBool() && AllPositive(pending, types) && AllFolded(terms, types)
    requires Collect(op, pending, total, terms).Ok?
    ensures AllFolded(Collect(op, pending, total, terms).value.terms, types)
    decreases WeightAll(pending) + 1, 0
  {
    if pending != [] {
      var t := Simplify(pending[0]).value.e;
      PositiveFolds(pending[0], types);
      if IsConstant(t) {
        CollectFolds(op, pending[1..], Operation(op, total, ConstantOf(t)), terms, types);
      } else if t.Ass? && op.HasInstance(t.ass) {
        WeightConcat(pending[1..], t.terms);
        AllFoldedIsPositive(t.terms, types);
        AllPositiveConcat(pending[1..], t.terms, types);
        CollectFolds(op, pending[1..] + t.terms, total, terms, types);
      } else {
        AllFoldedSnoc(terms, t, types);
        CollectFolds(op, pending[1..], total, terms + [t], types);
      }
    }
  }

  lemma FinishFolds(op: AssOp, terms: seq<Expr>, types: Context)
    requires !op.IsBool() && terms != [] && AllFolded(terms, types) && FinishAss(op, terms).Ok?
    ensures Folded(FinishAss(op, terms).value.e, types)
  {
    hide Cancel, MergeIfs, Folded;
    FirstIsNoIf(terms, types);
    NothingToMerge(op, terms);
    if |terms| > 1 && op == Add {
      CancelFolds(terms, types);
      MakeAssFolds(Add, Cancel(terms).value.terms, types);
    } else if |terms| == 1 && op == Add && terms[0].Ass? && terms[0].ass == Add {
      ListIsFolded(terms[0], types);
      CancelFolds(terms[0].terms, types);
      MakeAssFolds(Add, Cancel(terms[0].terms).value.terms, types);
    } else {
      MakeAssFolds(op, terms, types);
    }
  }

  lemma FirstIsNoIf(terms: seq<Expr>, types: Context)
    requires terms != [] && AllFolded(terms, types)
    ensures !terms[0].If?
  {
  }

  lemma ListIsFolded(e: Expr, types: Context)
    requires Folded(e, types) && e.Ass?
    ensures AllFolded(e.terms, types)
  {
  }

  lemma MakeAssFolds(op: AssOp, terms: seq<Expr>, types: Context)
    requires !op.IsBool() && AllFolded(terms, types) && (terms == [] ==> op == Add)
    ensures Folded(MakeAss(op, terms), types)
  {
  }

  lemma {:induction false} CancelFolds(terms: seq<Expr>, types: Context)
    requires AllFolded(terms, types) && Cancel(terms).Ok?
    ensures AllFolded(Cancel(terms).value.terms, types)
    decreases |terms|
  {
    if terms != [] {
      hide Negate, Folded;
      CancelFolds(terms[1..], types);
      var kept := Cancel(terms[1..]).value.terms;
      if kept == [] {
        assert [terms[0]][1..] == [];
      } else {
        var negation := Negate(terms[0]).value.e;
        if negation in kept {
          AllFoldedRemove(kept, IndexOf(negation, kept), types);
        } else {
          assert ([terms[0]] + kept)[1..] == kept;
        }
      }
    }
  }

  // What the simplified expression is compiled to.

  /** The type of an expression is scalar, unless it is no type of a variable. */
  predicate ScalarType(t: Ty) {
    t.Integer? ==> Scalar(t)
  }

  lemma {:induction false} CommonTypeScalar(start: Ty, types: seq<Ty>)
    requires ScalarType(start) && forall i :: 0 <= i < |types| ==> ScalarType(types[i])
    ensures ScalarType(CommonTypeFrom(start, types))
    decreases |types|
  {
    if types != [] {
      CommonTypeScalar(start.CommonType(types[0]), types[1..]);
    }
  }

  lemma {:induction false} FoldedType(e: Expr, types: Context)
    requires Folded(e, types)
    ensures ScalarType(ExprType(e))
    decreases e
  {
    match e
    case Ass(_, terms) =>
      FoldedTypes(terms, types);
      CommonTypeScalar(Any, ExprTypes(terms));
    case Bin(_, l, r) =>
      FoldedType(l, types);
      FoldedType(r, types);
    case _ =>
  }

  lemma {:induction false} FoldedTypes(terms: seq<Expr>, types: Context)
    requires AllFolded(terms, types)
    ensures forall i :: 0 <= i < |ExprTypes(terms)| ==> ScalarType(ExprTypes(terms)[i])
    decreases terms
  {
    if terms != [] {
      FoldedType(terms[0], types);
      FoldedTypes(terms[1..], types);
    }
  }

  lemma {:induction false} FoldedIsArithmetic(e: Expr, types: Context)
    requires Folded(e, types)
    ensures Arithmetic(e, types, Loose) && Operand(e, types, Loose)
    decreases e
  {
    FoldedType(e, types);
    match e
    case Ass(op, terms) => OperandsAreArithmetic(op, terms, types);
    case Bin(_, l, r) =>
      FoldedIsArithmetic(l, types);
      FoldedIsArithmetic(r, types);
    case _ =>
  }

  lemma {:induction false} OperandsAreArithmetic(op: AssOp, terms: seq<Expr>, types: Context)
    requires !op.IsBool() && AllFolded(terms, types)
    ensures AllOperands(op, terms, types, Loose)
    decreases terms
  {
    if terms != [] {
      FoldedType(Ass(Add, terms), types);
      FoldedIsArithmetic(terms[0], types);
      OperandsAreArithmetic(op, terms[1..], types);
    }
  }

  const ARITHMETIC := Fragment(true, false, false, true, None)

  lemma {:induction false} PositiveIsPlain(e: Expr, types: Context)
    requires Positive(e, types)
    ensures Plain(e, ARITHMETIC)
    decreases e
  {
    match e
    case Neg(x) => ConstantIsPlain(x);
    case Ass(_, terms) => AllPositiveIsPlain(terms, types);
    case Bin(op, l, r) =>
      PositiveIsPlain(l, types);
      if op == Sub {
        ConstantIsPlain(r);
      } else {
        PositiveIsPlain(r, types);
      }
    case _ =>
  }

  lemma {:induction false} AllPositiveIsPlain(terms: seq<Expr>, types: Context)
    requires AllPositive(terms, types)
    ensures AllPlain(terms, ARITHMETIC)
    decreases terms
  {
    if terms != [] {
      PositiveIsPlain(terms[0], types);
      AllPositiveIsPlain(terms[1..], types);
    }
  }

  lemma {:induction false} ConstantIsPlain(e: Expr)
    requires Constant(e)
    ensures Plain(e, ARITHMETIC)
    decreases e
  {
    match e
    case Neg(x) => ConstantIsPlain(x);
    case Ass(_, terms) => AllConstantIsPlain(terms);
    case Bin(_, l, r) =>
      ConstantIsPlain(l);
      ConstantIsPlain(r);
    case _ =>
  }

  lemma {:induction false} AllConstantIsPlain(terms: seq<Expr>)
    requires AllConstant(terms)
    ensures AllPlain(terms, ARITHMETIC)
    decreases terms
  {
    if terms != [] {
      ConstantIsPlain(terms[0]);
      AllConstantIsPlain(terms[1..]);
    }
  }

  /** Safety with simplification in front, under a condition on the source expression: the run of the compiled
      assignment is safe, and if it completes the target is in range. */
  lemma CompiledRunIsSafe(e: Expr, x: string, t: Ty, n: nat, types: Context, env: Env)
    requires Positive(e, types) && Scalar(t) && Compile(e, x, t, n).Ok? && TempIndex(x) < n
    requires ContextBelow(types, n) && TypedEnv(env, types, Loose)
    ensures var l := ToIr(Simplify(e).value.e, n).value;
            SafeRun(AddConversions(Body(l, x, t)).value, types, l.next, env, Loose)
    ensures var o := Run(Compile(e, x, t, n).value.stmts, env); o.Done? ==> Fits(Lookup(o.env, Var(x)), t, Loose)
  {
    hide Simplify, Positive, Folded, Arithmetic, SafeRun;
    PositiveFolds(e, types);
    FoldedIsArithmetic(Simplify(e).value.e, types);
    AssignedRunIsSafe(Simplify(e).value.e, x, t, n, types, env, Loose);
  }

  /** The run is exact as well: it stops at a failing check exactly if an operation or conversion of the lowered code is
      out of order. */
  lemma CompiledRunIsExact(e: Expr, x: string, t: Ty, n: nat, types: Context, env: Env)
    requires Positive(e, types) && Scalar(t) && Compile(e, x, t, n).Ok? && TempIndex(x) < n
    requires ContextBelow(types, n) && TypedEnv(env, types, Loose)
    requires var body := Body(ToIr(Simplify(e).value.e, n).value, x, t);
             AllSmooth(body, AddConversions(body).value, env)
    ensures var l := ToIr(Simplify(e).value.e, n).value;
            Exact(AddConversions(Body(l, x, t)).value, Compile(e, x, t, n).value, l.next, env, env)
  {
    hide Simplify, Positive, Folded, Arithmetic, AllSmooth, Exact;
    PositiveFolds(e, types);
    FoldedIsArithmetic(Simplify(e).value.e, types);
    AssignedRunIsExact(Simplify(e).value.e, x, t, n, types, env, Loose);
  }

  /** A completed run shows that the value of the original expression is in range, on every layer on which the
      simplified expression keeps its types. */
  lemma SimplifiedValueIsInRange(e: Expr, x: string, t: Ty, n: nat, types: Context, env: Env, k: Layer)
    requires Meaning(e, env).Some? && Compile(e, x, t, n).Ok? && TempIndex(x) < n
    requires ContextBelow(types, n) && TypedEnv(env, types, k)
    requires SM.Sound(Simplify(e).value.log, E.Setting(env, true))
    requires Arithmetic(Simplify(e).value.e, types, k) && StoredIn(Simplify(e).value.e, t, k)
    requires Run(Compile(e, x, t, n).value.stmts, env).Done?
    ensures Fits(Meaning(e, env), t, k)
  {
    hide Simplify, Arithmetic, Meaning, SM.Sound, AssignCode;
    SimplifyKeepsMeaning(e, env);
    AssignedValueIsInRange(Simplify(e).value.e, x, t, n, types, env, k);
  }

  /** For these expressions a completed run shows that the value of the original expression itself is in range. */
  lemma CompiledValueIsInRange(e: Expr, x: string, t: Ty, n: nat, types: Context, env: Env)
    requires Positive(e, types) && Scalar(t) && Compile(e, x, t, n).Ok? && TempIndex(x) < n
    requires ContextBelow(types, n) && TypedEnv(env, types, Loose) && Meaning(e, env).Some?
    requires Run(Compile(e, x, t, n).value.stmts, env).Done?
    ensures Fits(Meaning(e, env), t, Loose)
  {
    hide Simplify, Positive, Folded, Arithmetic, Meaning, AssignCode;
    PositiveFolds(e, types);
    PositiveIsPlain(e, types);
    SimplifyPlain(e, ARITHMETIC);
    ReasonsSuffice(Simplify(e).value.log, ARITHMETIC, E.Setting(env, true));
    FoldedIsArithmetic(Simplify(e).value.e, types);
    SimplifiedValueIsInRange(e, x, t, n, types, env, Loose);
  }
}
