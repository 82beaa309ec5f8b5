/** Runs of instrumented programs: which ones complete, and why a completed one is safe. */
module ChecksSafety {
  import opened Results
  import opened Types
  import opened Expressions
  import opened Identifiers
  import opened Ir
  import opened Temporaries
  import opened Checks
  import opened ChecksMeaning

  // Exactness over whole runs.

  predicate GuardStmt(s: Stmt, env: Env) {
    match s
    case VarDecl(_, _) => true
    case Assign(_, e, t) => Guard(e, if e.Arith? then Some(t) else None, env)
    case Check(e) => Guard(e, None, env)
  }

  predicate RegularStmt(s: Stmt, env: Env) {
    match s
    case VarDecl(_, _) => true
    case Assign(_, e, t) => Regular(e, if e.Arith? then Some(t) else None, env)
    case Check(e) => Regular(e, None, env)
  }

  /** Along the run of the program without checks, everything that the checks would guard is in order. */
  predicate AllGuarded(stmts: seq<Stmt>, env: Env) {
    stmts == [] ||
    (GuardStmt(stmts[0], env) && (Step(stmts[0], env).Done? ==> AllGuarded(stmts[1..], Step(stmts[0], env).env)))
  }

  /** As long as everything is in order, the facts of the checks have a value. */
  predicate AllRegular(stmts: seq<Stmt>, env: Env) {
    stmts == [] ||
    (RegularStmt(stmts[0], env) &&
     (GuardStmt(stmts[0], env) && Step(stmts[0], env).Done? ==> AllRegular(stmts[1..], Step(stmts[0], env).env)))
  }

  lemma StmtChecksAreExact(s: Stmt, n: nat, env: Env)
    requires StmtBelow(s, n) && RegularStmt(s, env)
    ensures Decides(Run(CheckCode(StmtPreconditions(s, n).conds), env), GuardStmt(s, env))
  {
    match s
    case VarDecl(_, _) =>
    case Assign(_, e, t) => ChecksAreExact(e, if e.Arith? then Some(t) else None, n, env);
    case Check(e) => ChecksAreExact(e, None, n, env);
  }

  lemma StmtGuardFrame(s: Stmt, a: Env, b: Env, n: nat, hi: nat)
    requires StmtBelow(s, n) && Agree(a, b, n, hi)
    ensures GuardStmt(s, a) == GuardStmt(s, b) && RegularStmt(s, a) == RegularStmt(s, b)
  {
    match s
    case VarDecl(_, _) =>
    case Assign(_, e, t) => GuardFrame(e, if e.Arith? then Some(t) else None, a, b, n, hi);
    case Check(e) => GuardFrame(e, None, a, b, n, hi);
  }

  /** The run of the first statement of an instrumented program. */
  lemma FirstStatement(stmts: seq<Stmt>, n: nat, env: Env)
    requires stmts != []
    ensures var pre := StmtPreconditions(stmts[0], n);
            Run(AddChecks(stmts, n).stmts, env) ==
            var checked := Run(CheckCode(pre.conds), env);
            if !checked.Done? then checked
            else Then(Step(stmts[0], checked.env), AddChecks(stmts[1..], pre.next).stmts)
  {
    var pre := StmtPreconditions(stmts[0], n);
    var checks := CheckCode(pre.conds);
    var rest := AddChecks(stmts[1..], pre.next).stmts;
    RunConcat(checks + [stmts[0]], rest, env);
    RunConcat(checks, [stmts[0]], env);
    var checked := Run(checks, env);
    if checked.Done? {
      RunSingle(stmts[0], checked.env);
    }
  }

  /** As long as the facts have values, the instrumented run of a program, whether it is defined or not, stops at a
      failing check if something along the run of the program is out of order; otherwise it ends as the program does. */
  ghost predicate Exact(stmts: seq<Stmt>, code: Code, lo: nat, a: Env, b: Env) {
    if AllGuarded(stmts, a) then SameOutcome(Run(stmts, a), Run(code.stmts, b), lo, code.next)
    else Run(code.stmts, b) == Failed
  }

  lemma {:induction false} InstrumentedRunIsExact(stmts: seq<Stmt>, lo: nat, n: nat, a: Env, b: Env)
    requires AllBelow(stmts, lo) && lo <= n && Agree(a, b, lo, n) && AllRegular(stmts, a)
    ensures Exact(stmts, AddChecks(stmts, n), lo, a, b)
  {
    if stmts != [] {
      var s := stmts[0];
      var pre := StmtPreconditions(s, n);
      FirstStatement(stmts, n, b);
      StmtMonotone(s, lo, n);
      StmtGuardFrame(s, a, b, lo, n);
      StmtChecksAreExact(s, n, b);
      if GuardStmt(s, a) {
        var b1 := Run(CheckCode(pre.conds), b).env;
        ChecksAgree(s, n, a, b, lo);
        StepFrame(s, a, b1, lo, pre.next);
        if Step(s, a).Done? {
          InstrumentedRunIsExact(stmts[1..], lo, pre.next, Step(s, a).env, Step(s, b1).env);
        }
      }
    }
  }

  // Safety.

  /** A type whose values are machine integers. */
  predicate Scalar(t: Ty) {
    t.Integer? && 0 <= t.bounds.lower && t.bounds.upper <= MAX_SCALAR
  }

  /** What the values of a program are held to: the whole type, or everything from zero up to the upper bound, since
      the checks do not look at the lower bound of a result.  The last layer also admits right operands of sums and
      products that are read with another type than they were stored with. */
  datatype Layer = Whole | Upper | Loose

  predicate Fits(v: Option<Value>, t: Ty, k: Layer) {
    && t.AnyInteger() && v.Some? && v.value.Int?
    && (if k.Whole? then t.bounds.lower else 0) <= v.value.i <= t.bounds.upper
  }

  predicate NonNegative(v: Option<Value>) {
    v.Some? && v.value.Int? && v.value.i >= 0
  }

  /** The check of a sum or a product needs no more of its right operand than that it is not negative. */
  predicate LooseRight(op: ArithOp, k: Layer) {
    k.Loose? && (op == Plus || op == Times)
  }

  predicate FitsRight(op: ArithOp, v: Option<Value>, t: Ty, k: Layer) {
    Fits(v, t, k) || (LooseRight(op, k) && NonNegative(v))
  }

  /** Checks that passed had a meaning, provided that no factor is negative. */
  lemma {:induction false} PassedIsRegular(e: IExpr, target: Option<Ty>, n: nat, env: Env)
    requires Below(e, n) && Run(CheckCode(Preconditions(e, target, n).conds), env).Done?
    requires e.IntVar? || e.IntVal? || (e.IntConversion? && (e.arg.IntVar? || e.arg.IntVal?))
    ensures Regular(e, target, env)
  {
    if e.IntConversion? {
      var t, x := e.target, e.arg;
      var lo, hi := Test(LessEqual, ToBase(First(t)), ToBase(x)), Test(LessEqual, ToBase(x), ToBase(Last(t)));
      assert RangeConds(t, x) == [Cond(lo, [])] + [Cond(hi, [])];
      assert Preconditions(e, target, n).conds == RangeConds(t, x);
      RunChecks([Cond(lo, [])], [Cond(hi, [])], env);
      RunGoal(lo, env);
      TestPassed(lo, env);
    }
  }

  lemma TestPassed(goal: IExpr, env: Env)
    requires goal.Test? && goal.left.IntConversion? && goal.right.IntConversion? && Step(Check(goal), env).Done?
    ensures IntOnly(Eval(goal.left.arg, env)).Some? && IntOnly(Eval(goal.right.arg, env)).Some?
  {
    assert Eval(goal, env) == TestValue(goal.rel, Eval(goal.left, env), Eval(goal.right, env));
    assert Eval(goal.left, env) == IntOnly(Eval(goal.left.arg, env));
    assert Eval(goal.right, env) == IntOnly(Eval(goal.right.arg, env));
  }

  /** The value of an operand that was checked is a value of the target type. */
  lemma OperandFits(o: IExpr, t: Ty, env: Env, k: Layer)
    requires (o.IntVar? || o.IntVal?) && Scalar(t)
    requires o.IntVar? ==> o.typ.Integer? && (IntOnly(Eval(o, env)).Some? ==> Fits(Eval(o, env), o.typ, k))
    requires Guard(ConvertOperand(o, t), None, env) && IntOnly(Eval(ConvertOperand(o, t), env)).Some?
    ensures Fits(Eval(ConvertOperand(o, t), env), t, k)
  {
  }

  lemma ProductSigns(a: int, b: int)
    requires a >= 0 && b >= 0
    ensures Product(a, b) >= 0
    ensures b > 0 ==> Product(a, b) >= a
  {
    if b > 0 {
      assert a * b == a * (b - 1) + a;
      assert a * (b - 1) >= 0;
    }
  }

  lemma QuotientSmall(a: int, b: int)
    requires a >= 0 && b > 0
    ensures 0 <= TruncDiv(a, b) <= a
  {
    var q := a / b;
    assert Product(q, b) + a % b == a;
    ProductSigns(q, b);
  }

  lemma PowerSign(a: int, b: nat)
    requires a >= 0
    ensures Power(a, b) >= 0
    ensures a > 0 ==> Power(a, b) >= 1
    ensures a > 0 && b > 0 ==> Power(a, b) >= a
  {
    if b > 0 {
      PowerSign(a, b - 1);
      ProductSigns(a, Power(a, b - 1));
    }
  }

  /** The operations whose result cannot be below their operands, unless a factor or exponent is zero. */
  predicate Grows(op: ArithOp) {
    op == Plus || op == Times || op == Raise
  }

  /** An operation whose check passed on operands between zero and the upper bound has a result there; on operands
      in a type, sums, products and powers that do not lose their factor or exponent stay in the whole type. */
  lemma OperationIsSafe(op: ArithOp, t: Ty, a: int, b: int, k: Layer)
    requires Scalar(t) && Fits(Some(Int(a)), t, k) && FitsRight(op, Some(Int(b)), t, k)
    requires InRange(op, t.bounds.upper, a, b)
    ensures Calc(op, a, b).Some? && 0 <= Calc(op, a, b).value <= t.bounds.upper
    ensures k.Whole? && (op == Plus || (Grows(op) && b > 0)) ==> t.bounds.ContainsInt(Calc(op, a, b).value)
  {
    match op
    case Times => ProductSigns(a, b);
    case Quotient => QuotientSmall(a, b);
    case Raise => PowerSign(a, b);
    case _ =>
  }

  /** A simple operand whose variable holds a value that fits its type. */
  predicate TypedOperand(o: IExpr, env: Env, k: Layer) {
    (o.IntVar? || o.IntVal?) && (o.IntVar? ==> o.typ.Integer? && Fits(Eval(o, env), o.typ, k))
  }

  predicate TypedRight(op: ArithOp, o: IExpr, env: Env, k: Layer) {
    TypedOperand(o, env, k) || (LooseRight(op, k) && o.IntVar? && NonNegative(Eval(o, env)))
  }

  lemma TypedOperandFrame(o: IExpr, a: Env, b: Env, n: nat, hi: nat, k: Layer)
    requires Below(o, n) && Agree(a, b, n, hi)
    ensures TypedOperand(o, a, k) == TypedOperand(o, b, k)
    ensures forall op :: TypedRight(op, o, a, k) == TypedRight(op, o, b, k)
  {
    EvalFrame(o, a, b, n, hi);
  }

  /** The checks of one operand passed. */
  lemma OperandPassed(o: IExpr, t: Ty, n: nat, env: Env, k: Layer)
    requires Scalar(t) && TypedOperand(o, env, k) && Below(o, n)
    requires Run(CheckCode(Preconditions(ConvertOperand(o, t), None, n).conds), env).Done?
    ensures Guard(ConvertOperand(o, t), None, env) && Regular(ConvertOperand(o, t), None, env)
    ensures Fits(Eval(ConvertOperand(o, t), env), t, k)
  {
    var c := ConvertOperand(o, t);
    PassedIsRegular(c, None, n, env);
    ChecksAreExact(c, None, n, env);
    assert Eval(c, env) == Eval(o, env);
    OperandFits(o, t, env, k);
  }

  lemma RightPassed(op: ArithOp, o: IExpr, t: Ty, n: nat, env: Env, k: Layer)
    requires Scalar(t) && TypedRight(op, o, env, k) && Below(o, n)
    requires Run(CheckCode(Preconditions(ConvertOperand(o, t), None, n).conds), env).Done?
    ensures Guard(ConvertOperand(o, t), None, env) && Regular(ConvertOperand(o, t), None, env)
    ensures FitsRight(op, Eval(ConvertOperand(o, t), env), t, k)
  {
    var c := ConvertOperand(o, t);
    PassedIsRegular(c, None, n, env);
    ChecksAreExact(c, None, n, env);
    assert Eval(c, env) == Eval(o, env);
    if TypedOperand(o, env, k) {
      OperandFits(o, t, env, k);
    }
  }

  /** The fact of a product has no value for a factor of zero, so its check cannot be passed. */
  lemma ZeroFactorIsStuck(l: IExpr, r: IExpr, upper: int, k: nat, env: Env)
    requires Eval(r, env) == Some(Int(0))
    ensures Run(CheckCode([OperationCond(Times, l, r, upper, TempName(k))]), env) == Stuck
  {
    var e := Arith(Quotient, IntVal(upper), r);
    RunStored(Test(LessEqual, l, IntVar(TempName(k), BASE_INTEGER)), k, e, env);
    assert Eval(e, env) == None;
  }

  /** An arithmetic statement whose checks passed has operands that fit the target type, divides by no zero, and
      stores a value between zero and the upper bound; with operands in the whole type, sums and products, and
      powers with a positive exponent, are in the whole type too. */
  predicate SafeOperation(op: ArithOp, l: IExpr, r: IExpr, t: Ty, env: Env, k: Layer) {
    && Fits(Eval(l, env), t, k) && FitsRight(op, Eval(r, env), t, k)
    && var a, b := Eval(l, env).value.i, Eval(r, env).value.i;
    && Calc(op, a, b).Some?
    && 0 <= Calc(op, a, b).value <= t.bounds.upper
    && (k.Whole? && (op == Plus || (Grows(op) && b > 0)) ==> t.bounds.ContainsInt(Calc(op, a, b).value))
  }

  lemma PassedIsSafe(op: ArithOp, x: IExpr, y: IExpr, t: Ty, n: nat, env: Env, k: Layer)
    requires Scalar(t) && Below(x, n) && Below(y, n) && TypedOperand(x, env, k) && TypedRight(op, y, env, k)
    requires var e := Arith(op, ConvertOperand(x, t), ConvertOperand(y, t));
             Run(CheckCode(Preconditions(e, Some(t), n).conds), env).Done?
    ensures SafeOperation(op, ConvertOperand(x, t), ConvertOperand(y, t), t, env, k)
  {
    hide Run, CheckCode, Eval;
    var l, r := ConvertOperand(x, t), ConvertOperand(y, t);
    var end, next := OperandsPassed(op, x, y, t, n, env, k);
    ConvertedFrame(x, t, env, end, n, next);
    ConvertedFrame(y, t, env, end, n, next);
    var a, b := Eval(l, env).value.i, Eval(r, env).value.i;
    if op == Times && b == 0 {
      ZeroFactorIsStuck(l, r, t.bounds.upper, n, end);
      assert false;
    }
    OperationCheckExact(op, l, r, t.bounds.upper, n, n, end, a, b);
    OperationIsSafe(op, t, a, b, k);
  }

  lemma OperandsPassed(op: ArithOp, x: IExpr, y: IExpr, t: Ty, n: nat, env: Env, k: Layer)
    returns (end: Env, next: nat)
    requires Scalar(t) && Below(x, n) && Below(y, n) && TypedOperand(x, env, k) && TypedRight(op, y, env, k)
    requires var e := Arith(op, ConvertOperand(x, t), ConvertOperand(y, t));
             Run(CheckCode(Preconditions(e, Some(t), n).conds), env).Done?
    ensures Agree(env, end, n, next)
    ensures Fits(Eval(ConvertOperand(x, t), env), t, k) && FitsRight(op, Eval(ConvertOperand(y, t), env), t, k)
    ensures var c := OperationCond(op, ConvertOperand(x, t), ConvertOperand(y, t), t.bounds.upper, TempName(n));
            Run(CheckCode([c]), end).Done?
  {
    hide Run, CheckCode, Agree, Eval, Guard, Regular;
    var l, r := ConvertOperand(x, t), ConvertOperand(y, t);
    var start := if NeedsTemp(op) then n + 1 else n;
    var left := Preconditions(l, None, start);
    var right := Preconditions(r, None, left.next);
    PrefixesDone(left.conds, right.conds, [OperationCond(op, l, r, t.bounds.upper, TempName(n))], env);
    BelowMonotone(x, n, start);
    BelowMonotone(y, n, left.next);
    OperandPassed(x, t, start, env, k);
    var mid := ChecksWrite(l, start, n, env);
    TypedOperandFrame(y, env, mid, n, left.next, k);
    RightPassed(op, y, t, left.next, mid, k);
    end := ChecksWrite(r, left.next, n, mid);
    next := right.next;
    AgreeChain(env, mid, end, n, left.next, n, next, n, next);
    ConvertedFrame(y, t, env, mid, n, left.next);
  }

  lemma ConvertedFrame(o: IExpr, t: Ty, a: Env, b: Env, n: nat, hi: nat)
    requires Below(o, n) && Agree(a, b, n, hi)
    ensures Below(ConvertOperand(o, t), n) && Eval(ConvertOperand(o, t), a) == Eval(ConvertOperand(o, t), b)
  {
    EvalFrame(ConvertOperand(o, t), a, b, n, hi);
  }

  lemma PrefixesDone(a: seq<Cond>, b: seq<Cond>, c: seq<Cond>, env: Env)
    requires Run(CheckCode(a + b + c), env).Done?
    ensures Run(CheckCode(a), env).Done?
    ensures var mid := Run(CheckCode(a), env).env;
            && Run(CheckCode(b), mid).Done?
            && Run(CheckCode(c), Run(CheckCode(b), mid).env).Done?
  {
    RunChecks(a + b, c, env);
    RunChecks(a, b, env);
  }

  // Safety of whole runs.

  /** The types of the variables that have a value, and of the message fields. */
  type Context = map<Loc, Ty>

  ghost predicate TypedEnv(env: Env, types: Context, k: Layer) {
    forall loc :: loc in types ==> Fits(Lookup(env, loc), types[loc], k)
  }

  ghost predicate ContextBelow(types: Context, n: nat) {
    forall loc :: loc in types && loc.Var? ==> TempIndex(loc.id) < n
  }

  predicate SimpleIn(o: IExpr, types: Context) {
    o.IntVal? || (o.IntVar? && o.typ.Integer? && Var(o.id) in types && types[Var(o.id)] == o.typ)
  }

  /** A variable that is read, with whatever type. */
  predicate IsStored(o: IExpr, types: Context) {
    o.IntVar? && Var(o.id) in types
  }

  predicate RightIn(op: ArithOp, o: IExpr, types: Context, k: Layer) {
    SimpleIn(o, types) || (LooseRight(op, k) && IsStored(o, types))
  }

  /** What is assigned to a target of type `t` fits the type once its checks have passed: arithmetic, which keeps to
      the whole type if it grows or if the type starts at zero; variables, constants and fields; everything that is
      converted. */
  predicate KeepsType(e: IExpr, t: Ty, types: Context, k: Layer)
    requires t.Integer?
  {
    if e.Arith? then
      && SimpleIn(e.left, types) && RightIn(e.op, e.right, types, k)
      && (k.Whole? ==> Grows(e.op) || t.bounds.lower == 0)
    else if e.IntVar? || e.IntVal? then SimpleIn(e, types)
    else if e.FieldAccess? then
      e.typ.Integer? && Field(e.message, e.field) in types && types[Field(e.message, e.field)] == e.typ
    else TypeOf(e).AnyInteger() && !t.IsCompatibleStrong(TypeOf(e))
  }

  /** Variables are assigned before they are used, with values that keep to their types. */
  predicate WellTyped(stmts: seq<Stmt>, types: Context, k: Layer) {
    stmts == [] ||
    match stmts[0]
    case VarDecl(_, _) => WellTyped(stmts[1..], types, k)
    case Check(_) => false
    case Assign(x, e, t) =>
      if t.AnyInteger() then
        Scalar(t) && KeepsType(e, t, types, k) && WellTyped(stmts[1..], types[Var(x) := t], k)
      else Var(x) !in types && WellTyped(stmts[1..], types, k)
  }

  predicate SafeStmt(s: Stmt, env: Env, k: Layer) {
    s.Assign? && s.typ.Integer? ==>
      (s.expr.Arith? ==> SafeOperation(s.expr.op, s.expr.left, s.expr.right, s.typ, env, k))
      && (s.expr.IntConversion? ==> InType(Eval(s.expr.arg, env), s.typ))
  }

  /** The run of the instrumented program, statement by statement: whenever the checks of a statement pass, the
      statement is safe and leaves every variable with a value that fits its type. */
  ghost predicate SafeRun(stmts: seq<Stmt>, types: Context, n: nat, env: Env, k: Layer) {
    TypedEnv(env, types, k) &&
    (stmts == [] ||
     var s, pre := stmts[0], StmtPreconditions(stmts[0], n);
     var checked := Run(CheckCode(pre.conds), env);
     checked.Done? ==>
       && SafeStmt(s, checked.env, k)
       && (Step(s, checked.env).Done? ==>
             SafeRun(stmts[1..], if s.Assign? && s.typ.AnyInteger() then types[Var(s.target) := s.typ] else types,
                     pre.next, Step(s, checked.env).env, k)))
  }

  lemma TypedEnvFrame(a: Env, b: Env, types: Context, n: nat, hi: nat, k: Layer)
    requires TypedEnv(a, types, k) && ContextBelow(types, n) && Agree(a, b, n, hi)
    ensures TypedEnv(b, types, k)
  {
    forall loc | loc in types ensures Fits(Lookup(b, loc), types[loc], k) {
      assert !IsTemp(loc, n, hi);
    }
  }

  lemma TypedEnvAssign(env: Env, types: Context, x: string, v: Value, t: Ty, k: Layer)
    requires TypedEnv(env, types, k)
    ensures Fits(Some(v), t, k) ==> TypedEnv(env[Var(x) := v], types[Var(x) := t], k)
    ensures Var(x) !in types ==> TypedEnv(env[Var(x) := v], types, k)
  {
    forall loc | loc in types && loc != Var(x)
      ensures Fits(Lookup(env[Var(x) := v], loc), types[loc], k)
    {
      assert Lookup(env[Var(x) := v], loc) == Lookup(env, loc);
    }
  }

  lemma RangePassed(t: Ty, x: IExpr, env: Env)
    requires Run(CheckCode(RangeConds(t, x)), env).Done?
    ensures InType(Eval(x, env), t)
  {
    var lo, hi := Test(LessEqual, ToBase(First(t)), ToBase(x)), Test(LessEqual, ToBase(x), ToBase(Last(t)));
    assert RangeConds(t, x) == [Cond(lo, [])] + [Cond(hi, [])];
    RunChecks([Cond(lo, [])], [Cond(hi, [])], env);
    RunGoal(lo, env);
    TestPassed(lo, env);
    assert Eval(First(t), env).Some?;
    RangeChecksExact(t, x, env, Eval(x, env).value.i);
  }

  /** A conversion whose checks passed is inside its type. */
  lemma ConversionPassed(t: Ty, x: IExpr, n: nat, env: Env)
    requires Below(x, n) && Run(CheckCode(Preconditions(IntConversion(t, x), None, n).conds), env).Done?
    ensures InType(Eval(x, env), t)
  {
    var inner := Preconditions(x, None, n);
    RunChecks(inner.conds, RangeConds(t, x), env);
    var mid := ChecksWrite(x, n, n, env);
    RangePassed(t, x, mid);
    EvalFrame(x, env, mid, n, inner.next);
  }

  lemma SimpleIsTyped(o: IExpr, types: Context, env: Env, k: Layer)
    requires SimpleIn(o, types) && TypedEnv(env, types, k)
    ensures TypedOperand(o, env, k)
  {
    if o.IntVar? {
      assert Fits(Lookup(env, Var(o.id)), types[Var(o.id)], k);
    }
  }

  lemma RightIsTyped(op: ArithOp, o: IExpr, types: Context, env: Env, k: Layer)
    requires RightIn(op, o, types, k) && TypedEnv(env, types, k)
    ensures TypedRight(op, o, env, k)
  {
    if SimpleIn(o, types) {
      SimpleIsTyped(o, types, env, k);
    } else {
      assert Fits(Lookup(env, Var(o.id)), types[Var(o.id)], k);
    }
  }

  /** One assignment: if its checks pass, it is safe and stores a value of its type. */
  lemma AssignmentIsSafe(x: string, e: IExpr, t: Ty, types: Context, n: nat, env: Env, k: Layer)
    requires Scalar(t) && KeepsType(e, t, types, k) && Below(e, n)
    requires ContextBelow(types, n) && TypedEnv(env, types, k)
    requires Convert(e, t).Ok?
    requires Run(CheckCode(StmtPreconditions(Assign(x, Convert(e, t).value, t), n).conds), env).Done?
    ensures var checked := Run(CheckCode(StmtPreconditions(Assign(x, Convert(e, t).value, t), n).conds), env).env;
            && SafeStmt(Assign(x, Convert(e, t).value, t), checked, k)
            && (Eval(Convert(e, t).value, checked).Some? ==> Fits(Eval(Convert(e, t).value, checked), t, k))
  {
    var c := Convert(e, t).value;
    var pre := StmtPreconditions(Assign(x, c, t), n);
    var checked := Run(CheckCode(pre.conds), env).env;
    AgreeRefl(env, n);
    ChecksAgree(Assign(x, c, t), n, env, env, n);
    TypedEnvFrame(env, checked, types, n, pre.next, k);
    if e.Arith? {
      SimpleIsTyped(e.left, types, env, k);
      RightIsTyped(e.op, e.right, types, env, k);
      PassedIsSafe(e.op, e.left, e.right, t, n, env, k);
      ConvertedFrame(e.left, t, env, checked, n, pre.next);
      ConvertedFrame(e.right, t, env, checked, n, pre.next);
    } else if c.IntConversion? && c == IntConversion(t, e) {
      ConversionPassed(t, e, n, env);
      EvalFrame(e, env, checked, n, pre.next);
    } else if e.FieldAccess? {
      assert Fits(Lookup(checked, Field(e.message, e.field)), e.typ, k);
    } else {
      SimpleIsTyped(e, types, checked, k);
    }
  }

  /** Run safety: in every run of the instrumented program from a well-typed environment, each statement whose
      checks pass is safe, and the environment stays well typed. */
  lemma {:induction false} RunIsSafe(stmts: seq<Stmt>, types: Context, n: nat, env: Env, k: Layer)
    requires WellTyped(stmts, types, k) && AllBelow(stmts, n)
    requires ContextBelow(types, n) && TypedEnv(env, types, k)
    requires AddConversions(stmts).Ok?
    ensures SafeRun(AddConversions(stmts).value, types, n, env, k)
  {
    if stmts != [] {
      var conv := AddConversions(stmts).value;
      var s, s' := stmts[0], conv[0];
      assert conv[1..] == AddConversions(stmts[1..]).value;
      var pre := StmtPreconditions(s', n);
      var checked := Run(CheckCode(pre.conds), env);
      if checked.Done? {
        AgreeRefl(env, n);
        ChecksAgree(s', n, env, env, n);
        TypedEnvFrame(env, checked.env, types, n, pre.next, k);
        AllMonotone(stmts[1..], n, pre.next);
        if s.Assign? && s.typ.AnyInteger() {
          AssignmentIsSafe(s.target, s.expr, s.typ, types, n, env, k);
          var v := Eval(s'.expr, checked.env);
          if v.Some? {
            TypedEnvAssign(checked.env, types, s.target, v.value, s.typ, k);
            RunIsSafe(stmts[1..], types[Var(s.target) := s.typ], pre.next, Step(s', checked.env).env, k);
          }
        } else if Step(s', checked.env).Done? {
          if s.Assign? {
            TypedEnvAssign(checked.env, types, s.target, Eval(s'.expr, checked.env).value, s.typ, k);
          }
          RunIsSafe(stmts[1..], types, pre.next, Step(s', checked.env).env, k);
        }
      }
    }
  }

  // Exactness for well-typed programs.

  /** What can leave a fact without a value: a factor of zero, the undefined validity of a field, an undefined negation
      or conditional that is converted, or a conversion that the program itself contains. */
  predicate Smooth(s: Stmt, env: Env) {
    s.Assign? ==>
      match s.expr
      case Arith(op, _, r) => op == Times ==> Eval(r, env) != Some(Int(0))
      case FieldAccess(m, f, _) => NotValue(Lookup(env, Valid(m, f))).Some?
      case IntConversion(_, _) => Regular(s.expr, None, env)
      case IntVar(_, _) => true
      case IntVal(_) => true
      case _ => s.typ.AnyInteger() ==> IntOnly(Eval(s.expr, env)).Some?
  }

  /** Along the run without checks, as long as everything is in order. */
  predicate AllSmooth(stmts: seq<Stmt>, conv: seq<Stmt>, env: Env)
    requires |stmts| == |conv|
  {
    stmts == [] ||
    (Smooth(stmts[0], env) &&
     (GuardStmt(conv[0], env) && Step(conv[0], env).Done? ==>
        AllSmooth(stmts[1..], conv[1..], Step(conv[0], env).env)))
  }

  lemma SimpleIsRegular(o: IExpr, t: Ty, env: Env)
    requires t.Integer? && (o.IntVar? || o.IntVal?) && IntOnly(Eval(o, env)).Some?
    ensures Regular(ConvertOperand(o, t), None, env) && Guard(o, None, env)
    ensures Eval(ConvertOperand(o, t), env) == Eval(o, env)
  {
  }

  lemma OperationIsRegular(op: ArithOp, x: IExpr, y: IExpr, t: Ty, env: Env, k: Layer)
    requires Scalar(t) && TypedOperand(x, env, k) && TypedRight(op, y, env, k)
    requires op == Times ==> Eval(y, env) != Some(Int(0))
    ensures var l, r := ConvertOperand(x, t), ConvertOperand(y, t);
            && Regular(Arith(op, l, r), Some(t), env)
            && (Guard(Arith(op, l, r), Some(t), env) ==> SafeOperation(op, l, r, t, env, k))
  {
    hide Calc, InRange;
    SimpleIsRegular(x, t, env);
    SimpleIsRegular(y, t, env);
    var l, r := ConvertOperand(x, t), ConvertOperand(y, t);
    if Guard(l, None, env) && Guard(r, None, env) {
      OperandFits(x, t, env, k);
      if TypedOperand(y, env, k) {
        OperandFits(y, t, env, k);
      }
      var a, b := Eval(l, env).value.i, Eval(r, env).value.i;
      if InRange(op, t.bounds.upper, a, b) {
        OperationIsSafe(op, t, a, b, k);
      }
    }
  }

  /** An assignment of a well-typed program has regular checks, and if everything is in order it keeps the types. */
  lemma AssignmentIsRegular(x: string, e: IExpr, t: Ty, types: Context, env: Env, k: Layer)
    requires Scalar(t) && KeepsType(e, t, types, k) && TypedEnv(env, types, k) && Smooth(Assign(x, e, t), env)
    requires Convert(e, t).Ok?
    ensures var s := Assign(x, Convert(e, t).value, t);
            RegularStmt(s, env) && (GuardStmt(s, env) ==> Fits(Eval(s.expr, env), t, k))
  {
    var c := Convert(e, t).value;
    if e.Arith? {
      hide Calc, InRange;
      SimpleIsTyped(e.left, types, env, k);
      RightIsTyped(e.op, e.right, types, env, k);
      OperationIsRegular(e.op, e.left, e.right, t, env, k);
      if GuardStmt(Assign(x, c, t), env) {
        assert SafeOperation(c.op, c.left, c.right, t, env, k);
        assert Eval(c, env) == ArithValue(c.op, Eval(c.left, env), Eval(c.right, env));
      }
    } else {
      assert Regular(e, None, env);
      if c == e {
        if Guard(e, None, env) {
          UnconvertedFits(e, t, types, env, k);
        }
      } else {
        assert c == IntConversion(t, e) && Eval(c, env) == IntOnly(Eval(e, env));
        assert Guard(c, None, env) ==> InType(Eval(e, env), t);
        if Guard(e, None, env) {
          ArgumentIsInteger(x, e, t, types, env, k);
        }
      }
    }
  }

  /** What is converted is an integer, if it can be read at all. */
  lemma ArgumentIsInteger(x: string, e: IExpr, t: Ty, types: Context, env: Env, k: Layer)
    requires !e.Arith? && Scalar(t) && KeepsType(e, t, types, k) && TypedEnv(env, types, k)
    requires Smooth(Assign(x, e, t), env) && Guard(e, None, env)
    ensures IntOnly(Eval(e, env)).Some? || e.IntConversion?
  {
    if e.FieldAccess? {
      assert Fits(Lookup(env, Field(e.message, e.field)), e.typ, k);
    } else if e.IntVar? || e.IntVal? {
      SimpleIsTyped(e, types, env, k);
    }
  }

  lemma UnconvertedFits(e: IExpr, t: Ty, types: Context, env: Env, k: Layer)
    requires Scalar(t) && !e.Arith? && KeepsType(e, t, types, k) && TypedEnv(env, types, k)
    requires Convert(e, t) == Ok(e) && t.IsCompatibleStrong(TypeOf(e)) && Guard(e, None, env)
    ensures Fits(Eval(e, env), t, k)
  {
    if e.FieldAccess? {
      assert Fits(Lookup(env, Field(e.message, e.field)), e.typ, k);
    } else {
      SimpleIsTyped(e, types, env, k);
    }
  }

  /** In a well-typed program only the smooth statements matter for the facts. */
  lemma {:induction false} WellTypedIsRegular(stmts: seq<Stmt>, types: Context, env: Env, k: Layer)
    requires WellTyped(stmts, types, k) && TypedEnv(env, types, k) && AddConversions(stmts).Ok?
    requires AllSmooth(stmts, AddConversions(stmts).value, env)
    ensures AllRegular(AddConversions(stmts).value, env)
  {
    if stmts != [] {
      var conv := AddConversions(stmts).value;
      var s, s' := stmts[0], conv[0];
      assert conv[1..] == AddConversions(stmts[1..]).value;
      var next := Step(s', env);
      if s.Assign? && s.typ.AnyInteger() {
        AssignmentIsRegular(s.target, s.expr, s.typ, types, env, k);
        if GuardStmt(s', env) && next.Done? {
          TypedEnvAssign(env, types, s.target, Eval(s'.expr, env).value, s.typ, k);
          WellTypedIsRegular(stmts[1..], types[Var(s.target) := s.typ], next.env, k);
        }
      } else {
        OtherIsRegular(s, s', env);
        if GuardStmt(s', env) && next.Done? {
          if s.Assign? {
            TypedEnvAssign(env, types, s.target, Eval(s'.expr, env).value, s.typ, k);
          }
          WellTypedIsRegular(stmts[1..], types, next.env, k);
        }
      }
    }
  }

  lemma OtherIsRegular(s: Stmt, c: Stmt, env: Env)
    requires !s.Check? && (s.Assign? ==> !s.typ.AnyInteger()) && ConvertStmt(s) == Ok(c) && Smooth(s, env)
    ensures RegularStmt(c, env)
  {
  }

  /** The instrumented run of a well-typed program stops at a failing check exactly if something along the run of the
      program is out of order, a division by zero among others, and otherwise ends as the program does. */
  lemma WellTypedRunIsExact(stmts: seq<Stmt>, types: Context, n: nat, env: Env, k: Layer)
    requires WellTyped(stmts, types, k) && TypedEnv(env, types, k) && AddConversions(stmts).Ok?
    requires AllBelow(AddConversions(stmts).value, n) && AllSmooth(stmts, AddConversions(stmts).value, env)
    ensures var conv := AddConversions(stmts).value; Exact(conv, AddChecks(conv, n), n, env, env)
  {
    WellTypedIsRegular(stmts, types, env, k);
    AgreeRefl(env, n);
    InstrumentedRunIsExact(AddConversions(stmts).value, n, n, env, env);
  }

  lemma StatementIsExact(s: Stmt, n: nat, env: Env)
    requires ConvertStmt(s) == Ok(s) && StmtBelow(s, n) && RegularStmt(s, env)
    ensures AddRequiredChecks([s], n).Ok?
    ensures var o := Run(AddRequiredChecks([s], n).value.stmts, env);
            if GuardStmt(s, env) then SameOutcome(Step(s, env), o, n, AddRequiredChecks([s], n).value.next)
            else o == Failed
  {
    assert [s][1..] == [] && [s] + [] == [s];
    assert AddConversions([]) == Ok([]);
    assert AddConversions([s]) == Ok([s]);
    SingleGuarded(s, n, env);
    RunSingle(s, env);
    AgreeRefl(env, n);
    InstrumentedRunIsExact([s], n, n, env, env);
  }

  lemma SingleGuarded(s: Stmt, n: nat, env: Env)
    requires StmtBelow(s, n) && RegularStmt(s, env)
    ensures AllBelow([s], n) && AllRegular([s], env) && AllGuarded([s], env) == GuardStmt(s, env)
  {
    assert [s][1..] == [];
    assert forall e :: AllGuarded([], e) && AllRegular([], e);
  }

  /** A division by zero leaves the program without a result, and the instrumented one at a failing check. */
  lemma ZeroDivisorFails(op: ArithOp, x: string, y: string, z: string, t: Ty, v: int, n: nat, env: Env)
    requires op == Quotient || op == Modulus
    requires t.Integer? && Lookup(env, Var(y)) == Some(Int(v)) && Lookup(env, Var(z)) == Some(Int(0))
    requires TempIndex(x) < n && TempIndex(y) < n && TempIndex(z) < n
    ensures var s := Assign(x, Arith(op, IntVar(y, t), IntVar(z, t)), t);
            && Run([s], env) == Stuck && AddRequiredChecks([s], n).Ok?
            && Run(AddRequiredChecks([s], n).value.stmts, env) == Failed
  {
    var s := Assign(x, Arith(op, IntVar(y, t), IntVar(z, t)), t);
    assert Eval(s.expr.left, env) == Some(Int(v)) && Eval(s.expr.right, env) == Some(Int(0));
    assert Eval(s.expr, env) == ArithValue(op, Some(Int(v)), Some(Int(0))) == None;
    assert !GuardStmt(s, env) && RegularStmt(s, env);
    RunSingle(s, env);
    StatementIsExact(s, n, env);
  }

  /** An operation on two variables of the target type: its result is stored if it is in range, and otherwise the
      run stops at a failing check. */
  lemma OperationCompletes(op: ArithOp, x: string, y: string, z: string, t: Ty, v: int, w: int, n: nat, env: Env)
    requires Scalar(t) && t.bounds.ContainsInt(v) && t.bounds.ContainsInt(w) && (op == Times ==> w > 0)
    requires Lookup(env, Var(y)) == Some(Int(v)) && Lookup(env, Var(z)) == Some(Int(w))
    requires TempIndex(x) < n && TempIndex(y) < n && TempIndex(z) < n
    ensures var s := Assign(x, Arith(op, IntVar(y, t), IntVar(z, t)), t);
            && AddRequiredChecks([s], n).Ok?
            && var code := AddRequiredChecks([s], n).value;
               if InRange(op, t.bounds.upper, v, w) then
                 && Calc(op, v, w).Some? && Run(code.stmts, env).Done?
                 && Agree(env[Var(x) := Int(Calc(op, v, w).value)], Run(code.stmts, env).env, n, code.next)
               else Run(code.stmts, env) == Failed
  {
    hide Run, AddRequiredChecks, Power, Product, TruncDiv, FloorMod;
    var s := Assign(x, Arith(op, IntVar(y, t), IntVar(z, t)), t);
    assert Eval(s.expr.left, env) == Some(Int(v)) && Eval(s.expr.right, env) == Some(Int(w));
    assert Eval(s.expr, env) == ArithValue(op, Some(Int(v)), Some(Int(w)));
    var upper, e := UpperBound(t), s.expr;
    assert upper == t.bounds.upper && Target(e, Some(t)) == t;
    assert Guard(e.left, None, env) && Guard(e.right, None, env);
    assert Guard(e, Some(t), env) == OperandsInRange(op, upper, Some(Int(v)), Some(Int(w)));
    assert Regular(e.left, None, env) && Regular(e.right, None, env);
    assert Regular(e, Some(t), env) == RegularOperands(op, upper, Some(Int(v)), Some(Int(w)));
    StatementIsExact(s, n, env);
  }

  // What the checks do not cover.

  /** A result below the first value of a type passes the checks: with `type T is range 5 .. 10`, the difference
      of 7 and 6 is stored although 1 is not in the type. */
  lemma ResultBelowFirstPasses(x: string, a: int, b: int, t: Ty, env: Env)
    requires t.Integer? && t.bounds.ContainsInt(a) && t.bounds.ContainsInt(b)
    requires 0 <= a - b < t.bounds.lower
    ensures var s := Assign(x, Arith(Minus, IntVal(a), IntVal(b)), t);
            && AddRequiredChecks([s], 0).Ok?
            && Run(AddRequiredChecks([s], 0).value.stmts, env) == Done(env[Var(x) := Int(a - b)])
            && !InType(Some(Int(a - b)), t)
  {
    hide Run, CheckCode, AddRequiredChecks;
    var s := Assign(x, Arith(Minus, IntVal(a), IntVal(b)), t);
    var goal := Test(GreaterEqual, IntVal(a), IntVal(b));
    SingleStatement(s, 0);
    GoalCheck(goal, env, GreaterEqual, a, b);
    assert Preconditions(IntVal(a), None, 0).conds == [] && Preconditions(IntVal(b), None, 0).conds == [];
    assert [] + [] + [Cond(goal, [])] == [Cond(goal, [])];
    assert StmtPreconditions(s, 0).conds == [Cond(goal, [])];
    hide StmtPreconditions;
    RunConcat(CheckCode([Cond(goal, [])]), [s], env);
    RunSingle(s, env);
  }

  lemma SingleStatement(s: Stmt, n: nat)
    requires ConvertStmt(s) == Ok(s)
    ensures AddRequiredChecks([s], n) ==
            Ok(Code(CheckCode(StmtPreconditions(s, n).conds) + [s], StmtPreconditions(s, n).next))
  {
    var pre := StmtPreconditions(s, n);
    assert [s][1..] == [] && [s] + [] == [s];
    assert AddConversions([]) == Ok([]);
    assert AddChecks([], pre.next) == Code([], pre.next);
    assert (CheckCode(pre.conds) + [s]) + [] == CheckCode(pre.conds) + [s];
  }

  /** A negated variable of the target type, and a conditional of the target type with all the code inside of its
      branches, are assigned without any check. */
  lemma NegationAndConditionalAreUnchecked(x: string, e: IExpr, t: Ty)
    requires e.Minus1? || e.IfThenElse?
    requires t.IsCompatibleStrong(TypeOf(e))
    ensures AddRequiredChecks([Assign(x, e, t)], 0) == Ok(Code([Assign(x, e, t)], 0))
  {
    SingleStatement(Assign(x, e, t), 0);
    assert CheckCode([]) + [Assign(x, e, t)] == [Assign(x, e, t)];
  }

  lemma UncheckedRun(x: string, e: IExpr, t: Ty, env: Env)
    requires (e.Minus1? || e.IfThenElse?) && t.IsCompatibleStrong(TypeOf(e)) && Eval(e, env).Some?
    ensures AddRequiredChecks([Assign(x, e, t)], 0).Ok?
    ensures Run(AddRequiredChecks([Assign(x, e, t)], 0).value.stmts, env) == Done(env[Var(x) := Eval(e, env).value])
  {
    NegationAndConditionalAreUnchecked(x, e, t);
    RunSingle(Assign(x, e, t), env);
  }

  /** The negation of a variable of the target type is stored whatever its value is, and is in the type exactly if
      the variable is zero. */
  lemma NegationIsStored(x: string, y: string, t: Ty, v: int, env: Env)
    requires Scalar(t) && t.bounds.ContainsInt(v) && Lookup(env, Var(y)) == Some(Int(v))
    ensures var s := Assign(x, Minus1(IntVar(y, t)), t);
            && AddRequiredChecks([s], 0).Ok?
            && Run(AddRequiredChecks([s], 0).value.stmts, env) == Done(env[Var(x) := Int(-v)])
    ensures InType(Some(Int(-v)), t) <==> v == 0
  {
    UncheckedRun(x, Minus1(IntVar(y, t)), t, env);
  }

  /** A conditional of the target type is stored with the value of the chosen branch, without any check. */
  lemma ConditionalIsStored(x: string, c: string, thn: Complex, els: Complex, t: Ty, b: bool, v: Value, env: Env)
    requires t.Integer? && Lookup(env, Var(c)) == Some(Bool(b))
    requires EvalComplex(if b then thn else els, env) == Some(v)
    ensures var s := Assign(x, IfThenElse(BoolVar(c), thn, els, t), t);
            && AddRequiredChecks([s], 0).Ok?
            && Run(AddRequiredChecks([s], 0).value.stmts, env) == Done(env[Var(x) := v])
  {
    UncheckedRun(x, IfThenElse(BoolVar(c), thn, els, t), t, env);
  }

  /** The result of an operation on two values of a type is in the type exactly if the check of the operation passes
      and the result is not below the first value of the type. */
  lemma ResultInType(op: ArithOp, t: Ty, v: int, w: int)
    requires Scalar(t) && t.bounds.ContainsInt(v) && t.bounds.ContainsInt(w) && Calc(op, v, w).Some?
    ensures var r := Calc(op, v, w).value;
            InType(Some(Int(r)), t) <==> InRange(op, t.bounds.upper, v, w) && t.bounds.lower <= r
  {
    if op == Quotient {
      QuotientSmall(v, w);
    }
  }

  /** An operation on two variables of the target type in the chosen branch is stored whatever its result is; it is in
      the type exactly under the condition that its check would have tested, and if it is not below the first value. */
  lemma ConditionalOperationIsStored(op: ArithOp, x: string, y: string, z: string, c: string, other: Complex, t: Ty,
                                     b: bool, v: int, w: int, env: Env)
    requires Scalar(t) && t.bounds.ContainsInt(v) && t.bounds.ContainsInt(w) && Calc(op, v, w).Some?
    requires Lookup(env, Var(c)) == Some(Bool(b))
    requires Lookup(env, Var(y)) == Some(Int(v)) && Lookup(env, Var(z)) == Some(Int(w))
    ensures var chosen, r := Complex([], Arith(op, IntVar(y, t), IntVar(z, t))), Calc(op, v, w).value;
            var e := IfThenElse(BoolVar(c), if b then chosen else other, if b then other else chosen, t);
            && AddRequiredChecks([Assign(x, e, t)], 0).Ok?
            && Run(AddRequiredChecks([Assign(x, e, t)], 0).value.stmts, env) == Done(env[Var(x) := Int(r)])
            && (InType(Some(Int(r)), t) <==> InRange(op, t.bounds.upper, v, w) && t.bounds.lower <= r)
  {
    hide Calc, AddRequiredChecks;
    var chosen, r := Complex([], Arith(op, IntVar(y, t), IntVar(z, t))), Calc(op, v, w).value;
    assert chosen.stmts == [] && Run(chosen.stmts, env) == Done(env);
    assert Eval(chosen.expr.left, env) == Some(Int(v)) && Eval(chosen.expr.right, env) == Some(Int(w));
    assert Eval(chosen.expr, env) == ArithValue(op, Some(Int(v)), Some(Int(w)));
    assert EvalComplex(chosen, env) == Some(Int(r));
    ResultInType(op, t, v, w);
    ConditionalIsStored(x, c, if b then chosen else other, if b then other else chosen, t, b, Int(r), env);
  }

  /** A product with the factor zero is always in range, but the fact of its check divides by the factor. */
  lemma ZeroProductIsStuck(x: string, a: string, b: string, env: Env)
    requires Lookup(env, Var(b)) == Some(Int(0))
    ensures var e := Arith(Times, IntVar(a, BASE_INTEGER), IntVar(b, BASE_INTEGER));
            AddRequiredChecks([Assign(x, e, BASE_INTEGER)], 0).Ok? &&
            Run(AddRequiredChecks([Assign(x, e, BASE_INTEGER)], 0).value.stmts, env) == Stuck
  {
    var l, r := IntVar(a, BASE_INTEGER), IntVar(b, BASE_INTEGER);
    var s := Assign(x, Arith(Times, l, r), BASE_INTEGER);
    SingleStatement(s, 0);
    var c := OperationCond(Times, l, r, BASE_INTEGER.bounds.upper, TempName(0));
    assert Preconditions(l, None, 1).conds == [] && Preconditions(r, None, 1).conds == [];
    assert [] + [] + [c] == [c];
    assert StmtPreconditions(s, 0).conds == [c];
    ZeroFactorIsStuck(l, r, BASE_INTEGER.bounds.upper, 0, env);
    RunConcat(CheckCode([c]), [s], env);
  }
}
