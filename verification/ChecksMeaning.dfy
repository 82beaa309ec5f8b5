/** What the conversions and checks mean for a run: they are transparent, they fail exactly if the operation
    they guard would leave its range, and a run that passes them is safe. */
module ChecksMeaning {
  import opened Results
  import opened Types
  import opened Expressions
  import opened Identifiers
  import opened Ir
  import opened Temporaries
  import opened Checks

  // The code of conditions.

  lemma {:induction false} CheckCodeConcat(a: seq<Cond>, b: seq<Cond>)
    ensures CheckCode(a + b) == CheckCode(a) + CheckCode(b)
  {
    if a == [] {
      assert a + b == b;
    } else {
      assert (a + b)[1..] == a[1..] + b;
      CheckCodeConcat(a[1..], b);
      var first := a[0].facts + [Check(a[0].goal)];
      assert first + (CheckCode(a[1..]) + CheckCode(b)) == (first + CheckCode(a[1..])) + CheckCode(b);
    }
  }

  lemma RunChecks(a: seq<Cond>, b: seq<Cond>, env: Env)
    ensures Run(CheckCode(a + b), env) == Then(Run(CheckCode(a), env), CheckCode(b))
  {
    CheckCodeConcat(a, b);
    RunConcat(CheckCode(a), CheckCode(b), env);
  }

  /** A condition without facts is a single check. */
  lemma RunGoal(goal: IExpr, env: Env)
    ensures Run(CheckCode([Cond(goal, [])]), env) == Step(Check(goal), env)
  {
    var c := [Cond(goal, [])];
    assert c[1..] == [] && CheckCode([]) == [];
    assert CheckCode(c) == [Check(goal)];
    RunSingle(Check(goal), env);
  }

  /** A condition with facts stores a value in a temporary and then checks its goal. */
  lemma RunStored(goal: IExpr, k: nat, e: IExpr, env: Env)
    ensures Run(CheckCode([Cond(goal, Store(TempName(k), e))]), env) ==
            var v := Eval(e, env);
            if v.Some? then Step(Check(goal), env[Var(TempName(k)) := v.value]) else Stuck
  {
    var facts := Store(TempName(k), e);
    var c := [Cond(goal, facts)];
    assert c[1..] == [] && CheckCode([]) == [];
    assert CheckCode(c) == facts + [Check(goal)];
    RunConcat(facts, [Check(goal)], env);
    var last := [Assign(TempName(k), e, BASE_INTEGER)];
    assert facts[1..] == last;
    RunSingle(last[0], env);
    assert Step(facts[0], env) == Done(env);
    assert Run(facts, env) == Run(last, env);
    var v := Eval(e, env);
    if v.Some? {
      var next := env[Var(TempName(k)) := v.value];
      assert Step(last[0], env) == Done(next);
      RunSingle(Check(goal), next);
    }
  }

  // Facts write fresh temporaries only.

  ghost predicate Within(c: Cond, lo: nat, hi: nat) {
    c.facts == [] ||
    (exists k, e :: lo <= k < hi && c.facts == Store(TempName(k), e))
  }

  lemma {:induction false} PreconditionsWithin(e: IExpr, target: Option<Ty>, n: nat)
    ensures forall i :: 0 <= i < |Preconditions(e, target, n).conds| ==>
              Within(Preconditions(e, target, n).conds[i], n, Preconditions(e, target, n).next)
    decreases e
  {
    match e
    case Arith(op, l, r) =>
      var start := if NeedsTemp(op) then n + 1 else n;
      PreconditionsWithin(l, None, start);
      PreconditionsWithin(r, None, Preconditions(l, None, start).next);
    case IntConversion(t, x) => PreconditionsWithin(x, None, n);
    case _ =>
  }

  lemma {:induction false} CheckCodeWrites(conds: seq<Cond>, lo: nat, hi: nat, env: Env)
    requires forall i :: 0 <= i < |conds| ==> Within(conds[i], lo, hi)
    requires Run(CheckCode(conds), env).Done?
    ensures Agree(env, Run(CheckCode(conds), env).env, lo, hi)
  {
    if conds != [] {
      var c := conds[0];
      assert conds == [c] + conds[1..];
      RunChecks([c], conds[1..], env);
      assert Within(c, lo, hi);
      var mid := Run(CheckCode([c]), env).env;
      if c.facts == [] {
        RunGoal(c.goal, env);
      } else {
        var k, e :| lo <= k < hi && c.facts == Store(TempName(k), e);
        RunStored(c.goal, k, e, env);
        AgreeAssign(env, k, Eval(e, env).value);
        AgreeChain(env, mid, mid, k, k + 1, k, k + 1, lo, hi);
      }
      CheckCodeWrites(conds[1..], lo, hi, mid);
      AgreeChain(env, mid, Run(CheckCode(conds), env).env, lo, hi, lo, hi, lo, hi);
    }
  }

  // Conversions keep values and write the same variables.

  lemma {:induction false} ConvertedBelow(stmts: seq<Stmt>, n: nat)
    requires AllBelow(stmts, n) && AddConversions(stmts).Ok?
    ensures AllBelow(AddConversions(stmts).value, n)
  {
    if stmts != [] {
      var conv := AddConversions(stmts).value;
      assert conv[1..] == AddConversions(stmts[1..]).value;
      ConvertedBelow(stmts[1..], n);
      ConvertedStmtBelow(stmts[0], n);
    }
  }

  lemma ConvertedStmtBelow(s: Stmt, n: nat)
    requires StmtBelow(s, n) && ConvertStmt(s).Ok?
    ensures StmtBelow(ConvertStmt(s).value, n)
  {
  }

  lemma ConvertOperandValue(e: IExpr, t: Ty, env: Env)
    ensures Eval(ConvertOperand(e, t), env).Some? ==> Eval(ConvertOperand(e, t), env) == Eval(e, env)
    ensures IntOnly(Eval(ConvertOperand(e, t), env)) == IntOnly(Eval(e, env))
  {
  }

  lemma ArithValueInts(op: ArithOp, a: Option<Value>, b: Option<Value>)
    ensures ArithValue(op, a, b) == ArithValue(op, IntOnly(a), IntOnly(b))
  {
  }

  /** A converted expression that has a value has the value of the original one. */
  lemma ConvertValue(e: IExpr, t: Ty, env: Env)
    requires Convert(e, t).Ok? && Eval(Convert(e, t).value, env).Some?
    ensures Eval(Convert(e, t).value, env) == Eval(e, env)
  {
    if e.Arith? {
      var l, r := ConvertOperand(e.left, t), ConvertOperand(e.right, t);
      ConvertOperandValue(e.left, t, env);
      ConvertOperandValue(e.right, t, env);
      ArithValueInts(e.op, Eval(l, env), Eval(r, env));
      ArithValueInts(e.op, Eval(e.left, env), Eval(e.right, env));
    }
  }

  /** Transparency: if the instrumented program runs to its end, then so does the original one, and both end in
      environments that differ in fresh temporaries only. */
  lemma {:induction false} InstrumentationIsTransparent(stmts: seq<Stmt>, lo: nat, n: nat, a: Env, b: Env)
    requires AllBelow(stmts, lo) && lo <= n && Agree(a, b, lo, n)
    requires AddConversions(stmts).Ok?
    requires Run(AddChecks(AddConversions(stmts).value, n).stmts, b).Done?
    ensures Run(stmts, a).Done?
    ensures var out := AddChecks(AddConversions(stmts).value, n);
            Agree(Run(stmts, a).env, Run(out.stmts, b).env, lo, out.next)
  {
    if stmts != [] {
      var conv := AddConversions(stmts).value;
      var s, s' := stmts[0], conv[0];
      var pre := StmtPreconditions(s', n);
      var rest := AddChecks(conv[1..], pre.next);
      assert conv[1..] == AddConversions(stmts[1..]).value;
      var checks := CheckCode(pre.conds);
      RunConcat(checks + [s'], rest.stmts, b);
      RunConcat(checks, [s'], b);
      var b1 := Run(checks, b).env;
      RunSingle(s', b1);
      ChecksAgree(s', n, a, b, lo);
      ConvertedStep(s, lo, pre.next, a, b1);
      InstrumentationIsTransparent(stmts[1..], lo, pre.next, Step(s, a).env, Step(s', b1).env);
    }
  }

  lemma ChecksAgree(s: Stmt, n: nat, a: Env, b: Env, lo: nat)
    requires lo <= n && Agree(a, b, lo, n)
    requires Run(CheckCode(StmtPreconditions(s, n).conds), b).Done?
    ensures Agree(a, Run(CheckCode(StmtPreconditions(s, n).conds), b).env, lo, StmtPreconditions(s, n).next)
  {
    var pre := StmtPreconditions(s, n);
    var end := Run(CheckCode(pre.conds), b).env;
    match s {
      case VarDecl(_, _) =>
      case Assign(_, e, t) => PreconditionsWithin(e, if e.Arith? then Some(t) else None, n);
      case Check(e) => PreconditionsWithin(e, None, n);
    }
    CheckCodeWrites(pre.conds, n, pre.next, b);
    AgreeChain(a, b, end, lo, n, n, pre.next, lo, pre.next);
  }

  lemma ConvertedStep(s: Stmt, lo: nat, hi: nat, a: Env, b: Env)
    requires StmtBelow(s, lo) && Agree(a, b, lo, hi)
    requires ConvertStmt(s).Ok? && Step(ConvertStmt(s).value, b).Done?
    ensures Step(s, a).Done? && Agree(Step(s, a).env, Step(ConvertStmt(s).value, b).env, lo, hi)
  {
    StepFrame(s, a, b, lo, hi);
    if s.Assign? {
      ConvertValue(s.expr, s.typ, b);
    }
  }

  // Exactness: when a check fails.

  predicate InType(v: Option<Value>, t: Ty) {
    t.AnyInteger() && v.Some? && v.value.Int? && t.bounds.ContainsInt(v.value.i)
  }

  /** The operation neither exceeds the upper bound, nor goes below zero, nor divides by zero. */
  predicate InRange(op: ArithOp, upper: int, a: int, b: int) {
    match op
    case Plus => a + b <= upper
    case Minus => a - b >= 0
    case Times => Product(a, b) <= upper
    case Quotient => b != 0
    case Modulus => b != 0
    case Raise => b >= 0 && Power(a, b) <= upper
  }

  function Target(e: IExpr, target: Option<Ty>): Ty {
    if target.Some? then target.value else TypeOf(e)
  }

  /** All that the checks of an expression have to guard: conversions stay inside their type, fields are
      valid, and the operation is in range. */
  predicate Guard(e: IExpr, target: Option<Ty>, env: Env)
    decreases e
  {
    match e
    case Arith(op, l, r) =>
      && Guard(l, None, env) && Guard(r, None, env)
      && OperandsInRange(op, UpperBound(Target(e, target)), Eval(l, env), Eval(r, env))
    case IntConversion(t, x) => Guard(x, None, env) && InType(Eval(x, env), t)
    case FieldAccess(m, f, _) => Lookup(env, Valid(m, f)) == Some(Bool(true))
    case _ => true
  }

  predicate OperandsInRange(op: ArithOp, upper: int, a: Option<Value>, b: Option<Value>) {
    match (a, b)
    case (Some(Int(x)), Some(Int(y))) => InRange(op, upper, x, y)
    case _ => false
  }

  /** The facts have a value: operands are integers once their own checks have passed, the right operand of a
      product is positive (the fact divides by it), and an exponent is not negative. */
  predicate Regular(e: IExpr, target: Option<Ty>, env: Env)
    decreases e
  {
    match e
    case Arith(op, l, r) =>
      && Regular(l, None, env) && Regular(r, None, env)
      && (Guard(l, None, env) && Guard(r, None, env) ==>
            RegularOperands(op, UpperBound(Target(e, target)), Eval(l, env), Eval(r, env)))
    case IntConversion(t, x) =>
      Regular(x, None, env) && t.Integer? && (Guard(x, None, env) ==> IntOnly(Eval(x, env)).Some?)
    case FieldAccess(m, f, _) => NotValue(Lookup(env, Valid(m, f))).Some?
    case _ => true
  }

  predicate RegularOperands(op: ArithOp, upper: int, a: Option<Value>, b: Option<Value>) {
    match (a, b)
    case (Some(Int(x)), Some(Int(y))) => (op == Times ==> y > 0 && upper >= 0) && (op == Raise ==> y >= 0)
    case _ => false
  }

  lemma {:induction false} GuardFrame(e: IExpr, target: Option<Ty>, a: Env, b: Env, n: nat, hi: nat)
    requires Below(e, n) && Agree(a, b, n, hi)
    ensures Guard(e, target, a) == Guard(e, target, b) && Regular(e, target, a) == Regular(e, target, b)
    decreases e
  {
    match e
    case Arith(op, l, r) =>
      GuardFrame(l, None, a, b, n, hi);
      GuardFrame(r, None, a, b, n, hi);
      EvalFrame(l, a, b, n, hi);
      EvalFrame(r, a, b, n, hi);
    case IntConversion(t, x) =>
      GuardFrame(x, None, a, b, n, hi);
      EvalFrame(x, a, b, n, hi);
    case FieldAccess(m, f, _) => assert !IsTemp(Valid(m, f), n, hi);
    case _ =>
  }

  /** The outcome of checks that guard a condition. */
  ghost predicate Decides(o: Outcome, ok: bool) {
    if ok then o.Done? else o == Failed
  }

  lemma ProductOrder(a: int, q: int, b: int)
    requires a <= q && b > 0
    ensures Product(a, b) <= Product(q, b) && Product(q + 1, b) == Product(q, b) + b
  {
  }

  lemma QuotientParts(upper: nat, b: int)
    requires b > 0
    ensures var q := TruncDiv(upper, b); Product(q, b) <= upper < Product(q, b) + b
  {
    var q := upper / b;
    assert q * b + upper % b == upper;
  }

  lemma ProductBound(a: int, b: int, upper: int)
    requires b > 0 && upper >= 0
    ensures a <= TruncDiv(upper, b) <==> Product(a, b) <= upper
  {
    hide Product, TruncDiv;
    var q := TruncDiv(upper, b);
    QuotientParts(upper, b);
    if a <= q {
      ProductOrder(a, q, b);
    } else {
      ProductOrder(q + 1, a, b);
      ProductOrder(q, q, b);
    }
  }

  lemma StepTest(goal: IExpr, env: Env, rel: RelOp, a: int, b: int)
    requires goal.Test? && goal.rel == rel
    requires Eval(goal.left, env) == Some(Int(a)) && Eval(goal.right, env) == Some(Int(b))
    ensures Step(Check(goal), env) == if Compare(rel, a, b) then Done(env) else Failed
  {
    assert Eval(goal, env) == Some(Bool(Compare(rel, a, b)));
  }

  lemma GoalCheck(goal: IExpr, env: Env, rel: RelOp, a: int, b: int)
    requires goal.Test? && goal.rel == rel
    requires Eval(goal.left, env) == Some(Int(a)) && Eval(goal.right, env) == Some(Int(b))
    ensures Run(CheckCode([Cond(goal, [])]), env) == if Compare(rel, a, b) then Done(env) else Failed
  {
    RunGoal(goal, env);
    StepTest(goal, env, rel, a, b);
  }

  /** The single check of an operation fails exactly if the operation is out of range. */
  lemma OperationCheckExact(op: ArithOp, l: IExpr, r: IExpr, upper: int, k: nat, n: nat, env: Env, a: int, b: int)
    requires Below(l, n) && Below(r, n) && n <= k
    requires Eval(l, env) == Some(Int(a)) && Eval(r, env) == Some(Int(b))
    requires RegularOperands(op, upper, Some(Int(a)), Some(Int(b)))
    ensures Decides(Run(CheckCode([OperationCond(op, l, r, upper, TempName(k))]), env), InRange(op, upper, a, b))
  {
    var c := OperationCond(op, l, r, upper, TempName(k));
    match op
    case Minus => GoalCheck(c.goal, env, GreaterEqual, a, b);
    case Quotient => GoalCheck(c.goal, env, NotEqual, b, 0);
    case Modulus => GoalCheck(c.goal, env, NotEqual, b, 0);
    case Plus => StoredCheck(l, c.facts[1].expr, k, n, env, a, upper - b);
    case Times =>
      ProductBound(a, b, upper);
      StoredCheck(l, c.facts[1].expr, k, n, env, a, TruncDiv(upper, b));
    case Raise => PowerCheck(l, r, upper, k, env, a, b);
  }

  lemma PowerCheck(l: IExpr, r: IExpr, upper: int, k: nat, env: Env, a: int, b: nat)
    requires Eval(l, env) == Some(Int(a)) && Eval(r, env) == Some(Int(b))
    ensures Decides(Run(CheckCode([OperationCond(Raise, l, r, upper, TempName(k))]), env), Power(a, b) <= upper)
  {
    hide Power;
    var c, e, v := OperationCond(Raise, l, r, upper, TempName(k)), Arith(Raise, l, r), Power(a, b);
    RunStored(c.goal, k, e, env);
    assert Eval(e, env) == ArithValue(Raise, Some(Int(a)), Some(Int(b))) == Some(Int(v));
    var next := env[Var(TempName(k)) := Int(v)];
    assert Eval(c.goal.left, next) == Some(Int(v)) && Eval(c.goal.right, next) == Some(Int(upper));
    StepTest(c.goal, next, LessEqual, v, upper);
  }

  lemma StoredCheck(l: IExpr, e: IExpr, k: nat, n: nat, env: Env, a: int, v: int)
    requires Below(l, n) && n <= k && Eval(l, env) == Some(Int(a)) && Eval(e, env) == Some(Int(v))
    ensures var c := Cond(Test(LessEqual, l, IntVar(TempName(k), BASE_INTEGER)), Store(TempName(k), e));
            Decides(Run(CheckCode([c]), env), a <= v)
  {
    var goal := Test(LessEqual, l, IntVar(TempName(k), BASE_INTEGER));
    RunStored(goal, k, e, env);
    AgreeAssign(env, k, Int(v));
    var next := env[Var(TempName(k)) := Int(v)];
    AgreeChain(env, next, next, k, k + 1, k, k + 1, n, k + 1);
    EvalFrame(l, env, next, n, k + 1);
    assert Eval(goal.right, next) == Some(Int(v));
    StepTest(goal, next, LessEqual, a, v);
  }

  lemma RangeChecksExact(t: Ty, x: IExpr, env: Env, v: int)
    requires t.Integer? && Eval(x, env) == Some(Int(v))
    ensures Decides(Run(CheckCode(RangeConds(t, x)), env), t.bounds.ContainsInt(v))
  {
    var lo, hi := Test(LessEqual, ToBase(First(t)), ToBase(x)), Test(LessEqual, ToBase(x), ToBase(Last(t)));
    assert RangeConds(t, x) == [Cond(lo, [])] + [Cond(hi, [])];
    RunChecks([Cond(lo, [])], [Cond(hi, [])], env);
    assert Eval(ToBase(x), env) == Some(Int(v));
    assert Eval(First(t), env) == Some(Int(t.bounds.lower)) && Eval(Last(t), env) == Some(Int(t.bounds.upper));
    assert Eval(lo.left, env) == Some(Int(t.bounds.lower)) && Eval(hi.right, env) == Some(Int(t.bounds.upper));
    GoalCheck(lo, env, LessEqual, t.bounds.lower, v);
    GoalCheck(hi, env, LessEqual, v, t.bounds.upper);
  }

  lemma DecidesBoth(a: seq<Cond>, b: seq<Cond>, env: Env, p: bool, q: bool)
    requires Decides(Run(CheckCode(a), env), p)
    requires p ==> Decides(Run(CheckCode(b), Run(CheckCode(a), env).env), q)
    ensures Decides(Run(CheckCode(a + b), env), p && q)
  {
    RunChecks(a, b, env);
  }

  /** The checks of an expression pass exactly if everything they guard is in order, and fail otherwise. */
  lemma {:induction false} ChecksAreExact(e: IExpr, target: Option<Ty>, n: nat, env: Env)
    requires Below(e, n) && Regular(e, target, env)
    ensures Decides(Run(CheckCode(Preconditions(e, target, n).conds), env), Guard(e, target, env))
    decreases e
  {
    match e
    case Arith(op, l, r) => ArithChecksExact(op, l, r, target, n, env);
    case IntConversion(t, x) =>
      var inner := Preconditions(x, None, n);
      ChecksAreExact(x, None, n, env);
      if Guard(x, None, env) {
        var mid := Run(CheckCode(inner.conds), env).env;
        PreconditionsWithin(x, None, n);
        CheckCodeWrites(inner.conds, n, inner.next, env);
        EvalFrame(x, env, mid, n, inner.next);
        RangeChecksExact(t, x, mid, Eval(x, env).value.i);
      }
      DecidesBoth(inner.conds, RangeConds(t, x), env, Guard(x, None, env), InType(Eval(x, env), t));
    case FieldAccess(m, f, _) => RunGoal(FieldValid(m, f), env);
    case _ =>
  }

  lemma {:induction false} ArithChecksExact(op: ArithOp, l: IExpr, r: IExpr, target: Option<Ty>, n: nat, env: Env)
    requires Below(l, n) && Below(r, n) && Regular(Arith(op, l, r), target, env)
    ensures Decides(Run(CheckCode(Preconditions(Arith(op, l, r), target, n).conds), env),
                    Guard(Arith(op, l, r), target, env))
    decreases Arith(op, l, r), 0
  {
    hide Run, Eval, Agree, CheckCode;
    var upper := UpperBound(Target(Arith(op, l, r), target));
    var start := if NeedsTemp(op) then n + 1 else n;
    var left := Preconditions(l, None, start);
    var right := Preconditions(r, None, left.next);
    var last := [OperationCond(op, l, r, upper, TempName(n))];
    BelowMonotone(l, n, start);
    BelowMonotone(r, n, left.next);
    ChecksAreExact(l, None, start, env);
    var p, q := Guard(l, None, env), Guard(r, None, env);
    var ok := OperandsInRange(op, upper, Eval(l, env), Eval(r, env));
    if p {
      var mid := ChecksWrite(l, start, n, env);
      GuardFrame(r, None, env, mid, n, left.next);
      ChecksAreExact(r, None, left.next, mid);
      DecidesBoth(left.conds, right.conds, env, p, q);
      if q {
        var end := ChecksWrite(r, left.next, n, mid);
        RunChecks(left.conds, right.conds, env);
        AgreeChain(env, mid, end, n, left.next, n, right.next, n, right.next);
        LastCheckExact(op, l, r, upper, n, right.next, env, end);
      }
    } else {
      DecidesBoth(left.conds, right.conds, env, p, q);
    }
    DecidesBoth(left.conds + right.conds, last, env, p && q, ok);
  }

  lemma LastCheckExact(op: ArithOp, l: IExpr, r: IExpr, upper: int, n: nat, next: nat, env: Env, end: Env)
    requires Below(l, n) && Below(r, n) && Agree(env, end, n, next)
    requires RegularOperands(op, upper, Eval(l, env), Eval(r, env))
    ensures Decides(Run(CheckCode([OperationCond(op, l, r, upper, TempName(n))]), end),
                    OperandsInRange(op, upper, Eval(l, env), Eval(r, env)))
  {
    EvalFrame(l, env, end, n, next);
    EvalFrame(r, env, end, n, next);
    OperationCheckExact(op, l, r, upper, n, n, end, Eval(l, env).value.i, Eval(r, env).value.i);
  }

  lemma ChecksWrite(e: IExpr, start: nat, n: nat, env: Env) returns (end: Env)
    requires n <= start && Run(CheckCode(Preconditions(e, None, start).conds), env).Done?
    ensures end == Run(CheckCode(Preconditions(e, None, start).conds), env).env
    ensures Agree(env, end, n, Preconditions(e, None, start).next)
  {
    var pre := Preconditions(e, None, start);
    end := Run(CheckCode(pre.conds), env).env;
    PreconditionsWithin(e, None, start);
    CheckCodeWrites(pre.conds, start, pre.next, env);
    AgreeChain(env, end, end, start, pre.next, start, pre.next, n, pre.next);
  }
}
