/** Which compiled assignments are safe: the lowered code is well typed, so that a run that passes its checks
    keeps every variable to its type. */
module CompiledSafety {
  import opened Results
  import opened Types
  import opened Expressions
  import opened Identifiers
  import opened Ir
  import opened Temporaries
  import opened Lowering
  import opened LoweringMeaning
  import opened LoweringShape
  import opened Checks
  import opened ChecksMeaning
  import opened ChecksSafety
  import opened IntEval
  import opened Pipeline

  // Contexts.

  /** The types of the variables after the statements. */
  function After(stmts: seq<Stmt>, types: Context): Context {
    if stmts == [] then types
    else
      var s := stmts[0];
      After(stmts[1..], if s.Assign? && s.typ.AnyInteger() then types[Var(s.target) := s.typ] else types)
  }

  ghost predicate Extends(c: Context, d: Context) {
    forall loc :: loc in c ==> loc in d && d[loc] == c[loc]
  }

  /** Only temporaries with numbers from `lo` up to `hi` are added. */
  ghost predicate Grown(c: Context, d: Context, lo: nat, hi: nat) {
    Extends(c, d) && forall loc :: loc in d ==> loc in c || IsTemp(loc, lo, hi)
  }

  ghost predicate Fresh(c: Context, lo: nat, hi: nat) {
    forall loc :: loc in c ==> !IsTemp(loc, lo, hi)
  }

  lemma {:induction false} WellTypedConcat(a: seq<Stmt>, b: seq<Stmt>, c: Context, k: Layer)
    ensures WellTyped(a + b, c, k) <==> WellTyped(a, c, k) && WellTyped(b, After(a, c), k)
    ensures After(a + b, c) == After(b, After(a, c))
  {
    if a == [] {
      assert a + b == b;
    } else {
      assert (a + b)[1..] == a[1..] + b;
      var s := a[0];
      WellTypedConcat(a[1..], b, if s.Assign? && s.typ.AnyInteger() then c[Var(s.target) := s.typ] else c, k);
    }
  }

  // The condition on the expression.

  /** The value of an operation that is stored in a variable of type `d` keeps to the type. */
  predicate StoredIn(e: Expr, d: Ty, k: Layer) {
    Scalar(d) && (k.Whole? ==> Growing(e) || d.bounds.lower == 0)
  }

  predicate Growing(e: Expr) {
    e.Bin? ==> e.bin == Pow
  }

  /** Arithmetic on variables, fields and numbers.  The temporary for the terms of a sum or product after the first one
      is declared with the type of the whole and read with the type of these terms; unless the layer is loose, the two
      types have to agree. */
  predicate Arithmetic(e: Expr, types: Context, k: Layer)
    decreases e, 0
  {
    match e
    case Number(_) => true
    case Variable(id, t) => t.Integer? && Var(id) in types && types[Var(id)] == t
    case Selected(m, f, t) => t.Integer? && Field(m, f) in types && types[Field(m, f)] == t
    case Ass(op, terms) =>
      (op == Add || op == Mul) && (terms == [] ==> op == Add) && AllOperands(op, terms, types, k)
    case Bin(_, l, r) => Operand(l, types, k) && Operand(r, types, k)
    case _ => false
  }

  /** An operand that is no variable and no number is stored in a temporary of its own type. */
  predicate Operand(e: Expr, types: Context, k: Layer)
    decreases e, 1
  {
    Arithmetic(e, types, k) && (e.Number? || e.Variable? || StoredIn(e, ToInteger(ExprType(e)), k))
  }

  predicate AllOperands(op: AssOp, terms: seq<Expr>, types: Context, k: Layer)
    decreases terms
  {
    terms == [] ||
    (&& Operand(terms[0], types, k) && AllOperands(op, terms[1..], types, k)
     && (|terms| >= 3 ==>
           var d := ToInteger(ExprType(Ass(op, terms)));
           Scalar(d) && (k.Loose? || ExprType(Ass(op, terms[1..])) == d)))
  }

  // The code.

  predicate Storable(v: IExpr, c: Context, k: Layer) {
    match v
    case Arith(op, l, r) => SimpleIn(l, c) && RightIn(op, r, c, k)
    case FieldAccess(m, f, t) => t.Integer? && Field(m, f) in c && c[Field(m, f)] == t
    case _ => SimpleIn(v, c)
  }

  ghost predicate TypedCode(stmts: seq<Stmt>, n: nat, next: nat, c: Context, k: Layer) {
    WellTyped(stmts, c, k) && n <= next && Grown(c, After(stmts, c), n, next)
  }

  /** Well-typed code with a result that can be stored. */
  ghost predicate TypedLow(l: Low, growing: bool, n: nat, c: Context, k: Layer) {
    && TypedCode(l.stmts, n, l.next, c, k) && Storable(l.expr, After(l.stmts, c), k)
    && (growing && l.expr.Arith? ==> Grows(l.expr.op))
  }

  /** Well-typed code with a simple result. */
  ghost predicate SimpleLow(l: Low, n: nat, c: Context, k: Layer) {
    TypedCode(l.stmts, n, l.next, c, k) && SimpleIn(l.expr, After(l.stmts, c))
  }

  lemma StorableKeeps(v: IExpr, t: Ty, c: Context, k: Layer)
    requires t.Integer? && Storable(v, c, k)
    requires k.Whole? && v.Arith? ==> Grows(v.op) || t.bounds.lower == 0
    ensures KeepsType(v, t, c, k)
  {
  }

  lemma CodeConcat(a: seq<Stmt>, b: seq<Stmt>, n: nat, p: nat, q: nat, next: nat, lo: nat, hi: nat, c: Context,
                   k: Layer)
    requires TypedCode(a, n, p, c, k) && TypedCode(b, q, next, After(a, c), k)
    requires lo <= n && p <= hi && lo <= q && next <= hi
    ensures TypedCode(a + b, lo, hi, c, k) && Extends(After(a, c), After(a + b, c))
    ensures After(a + b, c) == After(b, After(a, c))
  {
    hide WellTyped, After;
    WellTypedConcat(a, b, c, k);
  }

  lemma SingleStore(x: string, v: IExpr, d: Ty, c: Context, k: Layer)
    requires Scalar(d) && KeepsType(v, d, c, k)
    ensures WellTyped([Assign(x, v, d)], c, k) && After([Assign(x, v, d)], c) == c[Var(x) := d]
  {
    assert [Assign(x, v, d)][1..] == [];
  }

  lemma StoreTyped(l: Low, i: nat, v: IExpr, d: Ty, n: nat, next: nat, lo: nat, c: Context, k: Layer)
    requires TypedCode(l.stmts, n, l.next, c, k) && Scalar(d) && KeepsType(l.expr, d, After(l.stmts, c), k)
    requires Fresh(c, i, i + 1) && !(n <= i < l.next) && lo <= n && lo <= i && l.next <= next && i < next
    requires v.IntVar? && v.id == TempName(i)
    ensures var r := Temp(l, TempName(i), v, d, next);
            && TypedCode(r.stmts, lo, next, c, k) && After(r.stmts, c) == After(l.stmts, c)[Var(TempName(i)) := d]
            && IsStored(v, After(r.stmts, c)) && (v.typ == d ==> SimpleIn(v, After(r.stmts, c)))
  {
    var mid := After(l.stmts, c);
    var store := [VarDecl(TempName(i), d), Assign(TempName(i), l.expr, d)];
    TempIndexOfName(i);
    assert Var(TempName(i)) !in mid;
    SingleStore(TempName(i), l.expr, d, mid, k);
    assert store[1..] == [Assign(TempName(i), l.expr, d)];
    assert WellTyped(store, mid, k) && After(store, mid) == mid[Var(TempName(i)) := d];
    assert TypedCode(store, i, i + 1, mid, k);
    CodeConcat(l.stmts, store, n, l.next, i, i + 1, lo, next, c, k);
  }

  /** Code for two operands, in the order in which it runs. */
  lemma OperandsTyped(a: Low, b: Low, op: ArithOp, swap: bool, growing: bool, n: nat, p: nat, q: nat, r: Low,
                      c: Context, k: Layer)
    requires TypedCode(a.stmts, n, a.next, c, k) && TypedCode(b.stmts, q, b.next, After(a.stmts, c), k)
    requires var first, both := After(a.stmts, c), After(b.stmts, After(a.stmts, c));
             if swap then RightIn(op, a.expr, first, k) && SimpleIn(b.expr, both)
             else SimpleIn(a.expr, first) && RightIn(op, b.expr, both, k)
    requires p <= n && p <= q && a.next <= r.next && b.next <= r.next
    requires r.stmts == a.stmts + b.stmts
    requires r.expr == if swap then Arith(op, b.expr, a.expr) else Arith(op, a.expr, b.expr)
    requires growing ==> Grows(op)
    ensures TypedLow(r, growing, p, c, k)
  {
    CodeConcat(a.stmts, b.stmts, n, a.next, q, b.next, p, r.next, c, k);
  }

  lemma FreshParts(c: Context, d: Context, lo: nat, p: nat, q: nat, hi: nat, types: Context)
    requires Fresh(c, lo, hi) && Extends(types, c) && Grown(c, d, lo, p) && lo <= p <= q <= hi
    ensures Fresh(d, q, hi) && Extends(types, d)
  {
  }

  lemma BasicTyped(e: Expr, n: nat, c: Context, k: Layer)
    requires ToBasicInt(e, n).Ok? && Fresh(c, n, ToBasicInt(e, n).value.next)
    requires TypedLow(ToIr(e, n).value, Growing(e), n, c, k)
    requires e.Number? || e.Variable? || StoredIn(e, ToInteger(ExprType(e)), k)
    ensures SimpleLow(ToBasicInt(e, n).value, n, c, k)
  {
    hide WellTyped, After;
    var l := ToIr(e, n).value;
    if !BasicInt(l.expr) {
      var d := ToInteger(ExprType(e));
      StorableKeeps(l.expr, d, After(l.stmts, c), k);
      StoreTyped(l, l.next, IntVar(TempName(l.next), d), d, n, l.next + 1, n, c, k);
    }
  }

  // The translation, one lemma for each function.

  lemma {:induction false} ToIrTyped(e: Expr, n: nat, types: Context, c: Context, k: Layer)
    requires ToIr(e, n).Ok? && Arithmetic(e, types, k) && Extends(types, c) && Fresh(c, n, ToIr(e, n).value.next)
    ensures TypedLow(ToIr(e, n).value, Growing(e), n, c, k)
    decreases e, 1
  {
    match e
    case Ass(op, terms) => MathTyped(op, terms, n, types, c, k);
    case Bin(op, left, right) =>
      var l := ToBasicInt(left, n).value;
      var q := ToBasicInt(right, l.next).value;
      OperandTyped(left, n, types, c, k);
      FreshParts(c, After(l.stmts, c), n, l.next, l.next, q.next, types);
      OperandTyped(right, l.next, types, After(l.stmts, c), k);
      OperandsTyped(l, q, ToArith(op), false, Growing(e), n, n, l.next, ToIr(e, n).value, c, k);
    case _ =>
  }

  lemma {:induction false} OperandTyped(e: Expr, n: nat, types: Context, c: Context, k: Layer)
    requires ToBasicInt(e, n).Ok? && Operand(e, types, k)
    requires Extends(types, c) && Fresh(c, n, ToBasicInt(e, n).value.next)
    ensures SimpleLow(ToBasicInt(e, n).value, n, c, k)
    decreases e, 2
  {
    ToIrTyped(e, n, types, c, k);
    BasicTyped(e, n, c, k);
  }

  lemma {:induction false} MathTyped(op: AssOp, terms: seq<Expr>, n: nat, types: Context, c: Context, k: Layer)
    requires op == Add || op == Mul
    requires MathToIr(op, terms, n).Ok? && AllOperands(op, terms, types, k)
    requires Extends(types, c) && Fresh(c, n, MathToIr(op, terms, n).value.next)
    ensures TypedLow(MathToIr(op, terms, n).value, true, n, c, k)
    ensures |terms| >= 2 ==> MathToIr(op, terms, n).value.expr.Arith?
    decreases terms, 3
  {
    if |terms| == 1 {
      OperandTyped(terms[0], n, types, c, k);
    } else if |terms| == 2 {
      var l := ToBasicInt(terms[0], n).value;
      var q := ToBasicInt(terms[1], l.next).value;
      assert terms[1..][0] == terms[1];
      OperandTyped(terms[0], n, types, c, k);
      FreshParts(c, After(l.stmts, c), n, l.next, l.next, q.next, types);
      OperandTyped(terms[1], l.next, types, After(l.stmts, c), k);
      OperandsTyped(l, q, AssArith(op), false, true, n, n, l.next, MathToIr(op, terms, n).value, c, k);
    } else if |terms| > 2 {
      var l := ToBasicInt(terms[0], n + 1).value;
      var q := MathToIr(op, terms[1..], l.next).value;
      MathTyped(op, terms[1..], l.next, types, c, k);
      var first := RestTyped(op, terms, q, l.next, n, types, c, k);
      OperandTyped(terms[0], n + 1, types, After(first.stmts, c), k);
      OperandsTyped(first, l, AssArith(op), true, true, n, n, n + 1, MathToIr(op, terms, n).value, c, k);
    }
  }

  /** The temporary of the terms after the first one. */
  lemma RestTyped(op: AssOp, terms: seq<Expr>, q: Low, m: nat, n: nat, types: Context, c: Context, k: Layer)
    returns (first: Low)
    requires op == Add || op == Mul
    requires |terms| > 2 && AllOperands(op, terms, types, k)
    requires n < m <= q.next && TypedLow(q, true, m, c, k) && q.expr.Arith?
    requires Extends(types, c) && Fresh(c, n, q.next)
    ensures var v := IntVar(TempName(n), ExprType(Ass(op, terms[1..])));
            first == Temp(q, TempName(n), v, ToInteger(ExprType(Ass(op, terms))), q.next)
    ensures TypedCode(first.stmts, n, first.next, c, k) && RightIn(AssArith(op), first.expr, After(first.stmts, c), k)
    ensures Extends(types, After(first.stmts, c)) && Fresh(After(first.stmts, c), n + 1, m)
  {
    hide WellTyped, After;
    var d := ToInteger(ExprType(Ass(op, terms)));
    var v := IntVar(TempName(n), ExprType(Ass(op, terms[1..])));
    StorableKeeps(q.expr, d, After(q.stmts, c), k);
    StoreTyped(q, n, v, d, m, q.next, n, c, k);
    first := Temp(q, TempName(n), v, d, q.next);
    TempIndexOfName(n);
  }

  lemma {:induction false} ArithmeticIsSource(e: Expr, n: nat, types: Context, k: Layer)
    requires Arithmetic(e, types, k) && ContextBelow(types, n)
    ensures Source(e, n)
    decreases e, 0
  {
    match e
    case Ass(op, terms) => OperandsAreSource(op, terms, n, types, k);
    case Bin(_, l, r) =>
      ArithmeticIsSource(l, n, types, k);
      ArithmeticIsSource(r, n, types, k);
    case _ =>
  }

  lemma {:induction false} OperandsAreSource(op: AssOp, terms: seq<Expr>, n: nat, types: Context, k: Layer)
    requires AllOperands(op, terms, types, k) && ContextBelow(types, n)
    ensures AllSource(terms, n)
    decreases terms, 1
  {
    if terms != [] {
      ArithmeticIsSource(terms[0], n, types, k);
      OperandsAreSource(op, terms[1..], n, types, k);
    }
  }

  // Runs.

  lemma {:induction false} AfterConverted(stmts: seq<Stmt>, types: Context)
    requires AddConversions(stmts).Ok?
    ensures After(AddConversions(stmts).value, types) == After(stmts, types)
  {
    if stmts != [] {
      var conv, s := AddConversions(stmts).value, stmts[0];
      assert conv[1..] == AddConversions(stmts[1..]).value;
      AfterConverted(stmts[1..], if s.Assign? && s.typ.AnyInteger() then types[Var(s.target) := s.typ] else types);
    }
  }

  /** At the end of a safe run every variable fits its type. */
  lemma {:induction false} SafeRunEnd(stmts: seq<Stmt>, types: Context, n: nat, env: Env, k: Layer)
    requires SafeRun(stmts, types, n, env, k) && Run(AddChecks(stmts, n).stmts, env).Done?
    ensures TypedEnv(Run(AddChecks(stmts, n).stmts, env).env, After(stmts, types), k)
  {
    if stmts != [] {
      FirstStatement(stmts, n, env);
      var s, pre := stmts[0], StmtPreconditions(stmts[0], n);
      var checked := Run(CheckCode(pre.conds), env);
      SafeRunEnd(stmts[1..], if s.Assign? && s.typ.AnyInteger() then types[Var(s.target) := s.typ] else types,
                 pre.next, Step(s, checked.env).env, k);
    }
  }

  lemma BodyTyped(e: Expr, x: string, t: Ty, n: nat, types: Context, k: Layer)
    requires ToIr(e, n).Ok? && Arithmetic(e, types, k) && ContextBelow(types, n) && TempIndex(x) < n
    requires StoredIn(e, t, k)
    ensures var l := ToIr(e, n).value;
            && n <= l.next && WellTyped(Body(l, x, t), types, k) && AllBelow(Body(l, x, t), l.next)
            && Var(x) in After(Body(l, x, t), types) && After(Body(l, x, t), types)[Var(x)] == t
  {
    var l := ToIr(e, n).value;
    ToIrTyped(e, n, types, types, k);
    var mid, store := After(l.stmts, types), [Assign(x, l.expr, t)];
    StorableKeeps(l.expr, t, mid, k);
    SingleStore(x, l.expr, t, mid, k);
    WellTypedConcat(l.stmts, store, types, k);
    ArithmeticIsSource(e, n, types, k);
    ToIrShaped(true, x, e, n, n);
    BodyBelow(l, x, t);
  }

  /** An assignment of arithmetic is safe: in the run of its code every statement whose checks pass is safe, and if the
      run completes the target fits its type.  On the loose layer there is no further condition. */
  lemma AssignedRunIsSafe(e: Expr, x: string, t: Ty, n: nat, types: Context, env: Env, k: Layer)
    requires AssignCode(e, x, t, n).Ok? && TempIndex(x) < n && ContextBelow(types, n) && TypedEnv(env, types, k)
    requires Arithmetic(e, types, k) && StoredIn(e, t, k)
    ensures var l := ToIr(e, n).value; SafeRun(AddConversions(Body(l, x, t)).value, types, l.next, env, k)
    ensures var o := Run(AssignCode(e, x, t, n).value.stmts, env); o.Done? ==> Fits(Lookup(o.env, Var(x)), t, k)
  {
    hide Arithmetic, SafeRun;
    var l := ToIr(e, n).value;
    var body := Body(l, x, t);
    BodyTyped(e, x, t, n, types, k);
    RunIsSafe(body, types, l.next, env, k);
    AfterConverted(body, types);
    if Run(AssignCode(e, x, t, n).value.stmts, env).Done? {
      SafeRunEnd(AddConversions(body).value, types, l.next, env, k);
    }
  }

  /** And its run is exact: it stops at a failing check exactly if an operation or conversion of the lowered code is out
      of order, and otherwise ends as the lowered code does. */
  lemma AssignedRunIsExact(e: Expr, x: string, t: Ty, n: nat, types: Context, env: Env, k: Layer)
    requires AssignCode(e, x, t, n).Ok? && TempIndex(x) < n && ContextBelow(types, n) && TypedEnv(env, types, k)
    requires Arithmetic(e, types, k) && StoredIn(e, t, k)
    requires var body := Body(ToIr(e, n).value, x, t); AllSmooth(body, AddConversions(body).value, env)
    ensures var l := ToIr(e, n).value;
            Exact(AddConversions(Body(l, x, t)).value, AssignCode(e, x, t, n).value, l.next, env, env)
  {
    hide Arithmetic, AllSmooth, Exact;
    var l := ToIr(e, n).value;
    var body := Body(l, x, t);
    BodyTyped(e, x, t, n, types, k);
    ConvertedBelow(body, l.next);
    WellTypedRunIsExact(body, types, l.next, env, k);
  }

  /** A completed run shows that the value of the source expression itself is in range. */
  lemma AssignedValueIsInRange(e: Expr, x: string, t: Ty, n: nat, types: Context, env: Env, k: Layer)
    requires AssignCode(e, x, t, n).Ok? && TempIndex(x) < n && ContextBelow(types, n) && TypedEnv(env, types, k)
    requires Arithmetic(e, types, k) && StoredIn(e, t, k) && Meaning(e, env).Some?
    requires Run(AssignCode(e, x, t, n).value.stmts, env).Done?
    ensures Fits(Meaning(e, env), t, k)
  {
    hide Arithmetic, SafeRun, Meaning, AssignCode;
    AssignedRunIsSafe(e, x, t, n, types, env, k);
    ArithmeticIsSource(e, n, types, k);
    AssignedRunStoresValue(e, x, t, n, env);
    var end := Run(AssignCode(e, x, t, n).value.stmts, env).env;
    assert Lookup(end, Var(x)) == Lookup(env[Var(x) := Meaning(e, env).value], Var(x));
  }

  // Without the condition.

  /** The product of a variable and two numbers reads the temporary with the range of the numbers, not of their
      product. */
  lemma RestIsReadWithItsOwnType(x: string, t: Ty, n: nat)
    requires t.Integer?
    ensures var id, u := TempName(n), UniversalInteger(Bounds(2, 3));
            ToIr(Ass(Mul, [Variable(x, t), Number(2), Number(3)]), n) ==
            Ok(Low([VarDecl(id, BASE_INTEGER), Assign(id, Arith(Times, IntVal(2), IntVal(3)), BASE_INTEGER)],
                   Arith(Times, IntVar(x, t), IntVar(id, u)), n + 1))
  {
    var all := [Variable(x, t), Number(2), Number(3)];
    var rest := [Number(2), Number(3)];
    assert all[1..] == rest && rest[1..] == [Number(3)] && rest[1..][1..] == [];
    assert ExprTypes([]) == [] && ExprTypes([Number(3)]) == [UniversalInteger(Bounds(3, 3))];
    assert ExprTypes(rest) == [UniversalInteger(Bounds(2, 2)), UniversalInteger(Bounds(3, 3))];
    assert ExprTypes(all) == [t] + ExprTypes(rest);
    FoldFromStart(Any.CommonType(UniversalInteger(Bounds(2, 2))), [UniversalInteger(Bounds(3, 3))]);
    assert ExprType(Ass(Mul, rest)) == UniversalInteger(Bounds(2, 3));
    FoldFromStart(Any.CommonType(t), ExprTypes(rest));
    assert ExprType(Ass(Mul, all)) == BASE_INTEGER;
    assert ToBasicInt(Number(2), n + 1) == Ok(Low([], IntVal(2), n + 1));
    assert ToBasicInt(Number(3), n + 1) == Ok(Low([], IntVal(3), n + 1));
    assert ToBasicInt(Variable(x, t), n + 1) == Ok(Low([], IntVar(x, t), n + 1));
    var none: seq<Stmt> := [];
    var q := Low(none, Arith(Times, IntVal(2), IntVal(3)), n + 1);
    assert none + none == none && MathToIr(Mul, rest, n + 1) == Ok(q);
    var v := IntVar(TempName(n), UniversalInteger(Bounds(2, 3)));
    var stmts := [VarDecl(TempName(n), BASE_INTEGER), Assign(TempName(n), q.expr, BASE_INTEGER)];
    assert Temp(q, TempName(n), v, BASE_INTEGER, n + 1) == Low(stmts, v, n + 1) && stmts + none == stmts;
  }

  /** An operand that is read with a range inside of the target type is not checked against the target type: the
      operation completes exactly if its result is within the upper bound.  The operand is in the target type then,
      unless the other factor is zero. */
  lemma MistypedOperandPasses(op: ArithOp, x: string, y: string, id: string, t: Ty, u: Ty, a: int, w: int, n: nat,
                              env: Env)
    requires op == Plus || op == Times
    requires Scalar(t) && u.UniversalInteger? && t.bounds.ContainsBounds(u.bounds) && w > 0
    requires Lookup(env, Var(x)) == Some(Int(a)) && Lookup(env, Var(id)) == Some(Int(w))
    requires TempIndex(x) < n && TempIndex(id) < n
    ensures var s := Assign(y, Arith(op, IntVar(x, t), IntVar(id, u)), t);
            && AddRequiredChecks([s], n).Ok?
            && (Run(AddRequiredChecks([s], n).value.stmts, env).Done? <==> InRange(op, t.bounds.upper, a, w))
    ensures InRange(op, t.bounds.upper, a, w) && a >= 0 ==>
              (Fits(Some(Int(w)), t, Upper) <==> op == Plus || a != 0 || w <= t.bounds.upper)
  {
    var l, r := IntVar(x, t), IntVar(id, u);
    var s := Assign(y, Arith(op, l, r), t);
    SingleStatement(s, n);
    var c := OperationCond(op, l, r, t.bounds.upper, TempName(n));
    assert Preconditions(l, None, n + 1).conds == [] && Preconditions(r, None, n + 1).conds == [];
    assert [] + [] + [c] == [c];
    assert StmtPreconditions(s, n) == Conds([c], n + 1);
    hide StmtPreconditions, AddRequiredChecks, CheckCode;
    OperationCheckExact(op, l, r, t.bounds.upper, n, n, env, a, w);
    RunConcat(CheckCode([c]), [s], env);
    var checked := Run(CheckCode([c]), env);
    if checked.Done? {
      AgreeRefl(env, n);
      ChecksAgree(s, n, env, env, n);
      EvalFrame(s.expr, env, checked.env, n, n + 1);
      RunSingle(s, checked.env);
    }
    if a > 0 {
      ProductSigns(w, a);
    }
  }

  /** `Y := X * 2 * 3` with X = 0, for a type that holds 2 and 3 but not 6: all checks pass although the second operand
      of the product is outside of the type. */
  lemma ProductEscapesCheck(x: string, y: string, t: Ty, n: nat, env: Env)
    requires Scalar(t) && t.bounds.ContainsBounds(Bounds(2, 3)) && t.bounds.upper < 6
    requires TempIndex(x) < n && TempIndex(y) < n && Lookup(env, Var(x)) == Some(Int(0))
    ensures var e := Ass(Mul, [Variable(x, t), Number(2), Number(3)]);
            AssignCode(e, y, t, n).Ok? &&
            var o := Run(AssignCode(e, y, t, n).value.stmts, env);
            && o.Done? && Lookup(o.env, Var(y)) == Some(Int(0))
            && Lookup(o.env, Var(TempName(n))) == Some(Int(6)) && !Fits(Some(Int(6)), t, Upper)
  {
    hide AssignCode, AddChecks, Run, ToIr, AllGuarded, AllRegular, ConvertStmt, Step, GuardStmt, RegularStmt;
    TempIndexOfName(n);
    var id := TempName(n);
    var decl := VarDecl(id, BASE_INTEGER);
    var first := Assign(id, Arith(Times, IntVal(2), IntVal(3)), BASE_INTEGER);
    var last := Assign(y, Arith(Times, IntVar(x, t), IntVar(id, UniversalInteger(Bounds(2, 3)))), t);
    var mid := env[Var(id) := Int(6)];
    ProductCode(x, y, t, n);
    StoredProduct(first, BASE_INTEGER, 2, 3, env);
    StoredProduct(last, t, 0, 6, mid);
    ThreeSteps(decl, first, last, env, mid, mid[Var(y) := Int(0)]);
    ThreeBelow(decl, first, last, n + 1);
    AgreeRefl(env, n + 1);
    InstrumentedRunIsExact([decl, first, last], n + 1, n + 1, env, env);
    var out := Run(AddChecks([decl, first, last], n + 1).stmts, env);
    assert Lookup(out.env, Var(y)) == Some(Int(0)) && Lookup(out.env, Var(id)) == Some(Int(6));
  }

  lemma ProductCode(x: string, y: string, t: Ty, n: nat)
    requires Scalar(t) && t.bounds.ContainsBounds(Bounds(2, 3))
    ensures var id := TempName(n);
            var first := Assign(id, Arith(Times, IntVal(2), IntVal(3)), BASE_INTEGER);
            var last := Assign(y, Arith(Times, IntVar(x, t), IntVar(id, UniversalInteger(Bounds(2, 3)))), t);
            AssignCode(Ass(Mul, [Variable(x, t), Number(2), Number(3)]), y, t, n) ==
            Ok(AddChecks([VarDecl(id, BASE_INTEGER), first, last], n + 1))
  {
    hide ToIr, AddChecks;
    RestIsReadWithItsOwnType(x, t, n);
    var l := ToIr(Ass(Mul, [Variable(x, t), Number(2), Number(3)]), n).value;
    var last := Assign(y, l.expr, t);
    assert Body(l, y, t) == [l.stmts[0], l.stmts[1], last];
    UnchangedByConversion(l.stmts[0], l.stmts[1], last);
  }

  /** The product of two operands with known values that needs no conversion. */
  lemma StoredProduct(s: Stmt, t: Ty, a: int, b: int, env: Env)
    requires s.Assign? && s.typ == t && Scalar(t) && s.expr.Arith? && s.expr.op == Times
    requires s.expr.left.IntVar? || s.expr.left.IntVal?
    requires s.expr.right.IntVar? || s.expr.right.IntVal?
    requires Eval(s.expr.left, env) == Some(Int(a)) && Eval(s.expr.right, env) == Some(Int(b))
    requires b > 0 && Product(a, b) <= t.bounds.upper
    ensures Step(s, env) == Done(env[Var(s.target) := Int(Product(a, b))]) && GuardStmt(s, env) && RegularStmt(s, env)
  {
  }

  lemma ThreeBelow(a: Stmt, b: Stmt, c: Stmt, n: nat)
    requires StmtBelow(a, n) && StmtBelow(b, n) && StmtBelow(c, n)
    ensures AllBelow([a, b, c], n)
  {
    assert [a, b, c][1..] == [b, c] && [b, c][1..] == [c] && [c][1..] == [];
    assert AllBelow([c], n) && AllBelow([b, c], n);
  }

  lemma UnchangedByConversion(a: Stmt, b: Stmt, c: Stmt)
    requires ConvertStmt(a) == Ok(a) && ConvertStmt(b) == Ok(b) && ConvertStmt(c) == Ok(c)
    ensures AddConversions([a, b, c]) == Ok([a, b, c])
  {
    assert [a, b, c][1..] == [b, c] && [b, c][1..] == [c] && [c][1..] == [];
    assert AddConversions([]) == Ok([]);
    assert [c] + [] == [c] && [b] + [c] == [b, c] && [a] + [b, c] == [a, b, c];
    assert AddConversions([c]) == Ok([c]);
    assert AddConversions([b, c]) == Ok([b, c]);
  }

  /** A run of a declaration and two statements whose checks have nothing to object to. */
  lemma ThreeSteps(a: Stmt, b: Stmt, c: Stmt, env: Env, mid: Env, end: Env)
    requires a.VarDecl? && Step(b, env) == Done(mid) && Step(c, mid) == Done(end)
    requires GuardStmt(b, env) && RegularStmt(b, env) && GuardStmt(c, mid) && RegularStmt(c, mid)
    ensures Run([a, b, c], env) == Done(end) && AllGuarded([a, b, c], env) && AllRegular([a, b, c], env)
  {
    assert [a, b, c][1..] == [b, c] && [b, c][1..] == [c] && [c][1..] == [];
    RunSingle(c, mid);
    assert Run([b, c], env) == Done(end);
    assert AllGuarded([c], mid) && AllRegular([c], mid);
    assert AllGuarded([b, c], env) && AllRegular([b, c], env);
  }
}
