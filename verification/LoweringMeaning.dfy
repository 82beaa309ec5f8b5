/** Lowering preserves meaning: running the statements and then evaluating the expression gives the value of
    the source expression, and only temporaries of the lowering itself are written. */
module LoweringMeaning {
  import opened Results
  import opened Types
  import opened Expressions
  import opened Identifiers
  import opened Temporaries
  import opened Ir
  import opened IntEval
  import opened Lowering

  /** No variable of the expression is a temporary with number `n` or above, and no disjunction or product in
      it is empty. */
  predicate Source(e: Expr, n: nat)
    decreases e
  {
    match e
    case Variable(id, _) => TempIndex(id) < n
    case Not(x) => Source(x, n)
    case Neg(x) => Source(x, n)
    case Ass(op, terms) => AllSource(terms, n) && (terms == [] ==> op.IsAnd() || op == Add)
    case Bin(_, l, r) => Source(l, n) && Source(r, n)
    case Rel(_, l, r) => Source(l, n) && Source(r, n)
    case If(c, t, rest) => Source(c, n) && Source(t, n) && ElseSource(rest, n)
    case _ => true
  }

  predicate AllSource(terms: seq<Expr>, n: nat)
    decreases terms
  {
    terms == [] || (Source(terms[0], n) && AllSource(terms[1..], n))
  }

  predicate ElseSource(rest: Else, n: nat)
    decreases rest
  {
    match rest
    case NoElse => true
    case ElsePart(e) => Source(e, n)
    case Elsif(c, t, r) => Source(c, n) && Source(t, n) && ElseSource(r, n)
  }

  lemma {:induction false} SourceMonotone(e: Expr, n: nat, m: nat)
    requires Source(e, n) && n <= m
    ensures Source(e, m)
    decreases e
  {
    match e
    case Not(x) => SourceMonotone(x, n, m);
    case Neg(x) => SourceMonotone(x, n, m);
    case Ass(_, terms) => AllSourceMonotone(terms, n, m);
    case Bin(_, l, r) => SourceMonotone(l, n, m); SourceMonotone(r, n, m);
    case Rel(_, l, r) => SourceMonotone(l, n, m); SourceMonotone(r, n, m);
    case If(c, t, rest) => SourceMonotone(c, n, m); SourceMonotone(t, n, m); ElseSourceMonotone(rest, n, m);
    case _ =>
  }

  lemma {:induction false} AllSourceMonotone(terms: seq<Expr>, n: nat, m: nat)
    requires AllSource(terms, n) && n <= m
    ensures AllSource(terms, m)
    decreases terms
  {
    if terms != [] {
      SourceMonotone(terms[0], n, m);
      AllSourceMonotone(terms[1..], n, m);
    }
  }

  lemma {:induction false} ElseSourceMonotone(rest: Else, n: nat, m: nat)
    requires ElseSource(rest, n) && n <= m
    ensures ElseSource(rest, m)
    decreases rest
  {
    match rest
    case NoElse =>
    case ElsePart(e) => SourceMonotone(e, n, m);
    case Elsif(c, t, r) => SourceMonotone(c, n, m); SourceMonotone(t, n, m); ElseSourceMonotone(r, n, m);
  }

  // A source expression does not see the temporaries.

  lemma {:induction false} MeaningFrame(e: Expr, a: Env, b: Env, n: nat, hi: nat)
    requires Source(e, n) && Agree(a, b, n, hi)
    ensures Meaning(e, a) == Meaning(e, b)
    decreases e
  {
    match e
    case Number(_) =>
    case Literal(_) =>
    case Variable(id, _) => assert !IsTemp(Var(id), n, hi);
    case Selected(m, f, _) => assert !IsTemp(Valid(m, f), n, hi) && !IsTemp(Field(m, f), n, hi);
    case Not(x) => MeaningFrame(x, a, b, n, hi);
    case Neg(x) => MeaningFrame(x, a, b, n, hi);
    case Ass(op, terms) => MeaningAllFrame(op, terms, a, b, n, hi);
    case Bin(_, l, r) => MeaningFrame(l, a, b, n, hi); MeaningFrame(r, a, b, n, hi);
    case Rel(_, l, r) => MeaningFrame(l, a, b, n, hi); MeaningFrame(r, a, b, n, hi);
    case If(c, t, rest) =>
      MeaningFrame(c, a, b, n, hi);
      MeaningFrame(t, a, b, n, hi);
      MeaningElseFrame(rest, a, b, n, hi);
  }

  lemma {:induction false} MeaningAllFrame(op: AssOp, terms: seq<Expr>, a: Env, b: Env, n: nat, hi: nat)
    requires AllSource(terms, n) && Agree(a, b, n, hi)
    ensures MeaningAll(op, terms, a) == MeaningAll(op, terms, b)
    decreases terms
  {
    if terms != [] {
      MeaningFrame(terms[0], a, b, n, hi);
      MeaningAllFrame(op, terms[1..], a, b, n, hi);
    }
  }

  lemma {:induction false} MeaningElseFrame(rest: Else, a: Env, b: Env, n: nat, hi: nat)
    requires ElseSource(rest, n) && Agree(a, b, n, hi)
    ensures MeaningElse(rest, a) == MeaningElse(rest, b)
    decreases rest
  {
    match rest
    case NoElse =>
    case ElsePart(e) => MeaningFrame(e, a, b, n, hi);
    case Elsif(c, t, r) =>
      MeaningFrame(c, a, b, n, hi);
      MeaningFrame(t, a, b, n, hi);
      MeaningElseFrame(r, a, b, n, hi);
  }

  // Correct pieces of code and their composition.

  /** The code computes `v` from `env` and writes only temporaries from `n` up to its next number. */
  ghost predicate Correct(l: Low, n: nat, env: Env, v: Option<Value>) {
    && n <= l.next
    && Run(l.stmts, env).Done?
    && Agree(env, Run(l.stmts, env).env, n, l.next)
    && Eval(l.expr, Run(l.stmts, env).env) == v
    && v.Some?
    && (Basic(l.expr) ==> Stable(l.expr, l.next))
  }

  /** A basic expression that no later temporary can change. */
  predicate Stable(e: IExpr, n: nat) {
    match e
    case IntVar(id, _) => TempIndex(id) < n
    case BoolVar(id) => TempIndex(id) < n
    case ObjVar(id, _) => TempIndex(id) < n
    case IntConversion(_, _) => false
    case _ => Basic(e)
  }

  predicate IsVar(e: IExpr, id: string) {
    (e.IntVar? || e.BoolVar? || e.ObjVar?) && e.id == id
  }

  lemma StableKeeps(e: IExpr, n: nat, a: Env, b: Env, lo: nat, hi: nat)
    requires Stable(e, n) && Agree(a, b, lo, hi)
    requires forall id :: TempIndex(id) < n ==> !IsTemp(Var(id), lo, hi)
    ensures Eval(e, a) == Eval(e, b)
  {
    match e
    case IntVar(id, _) => assert !IsTemp(Var(id), lo, hi);
    case BoolVar(id) => assert !IsTemp(Var(id), lo, hi);
    case ObjVar(id, _) => assert !IsTemp(Var(id), lo, hi);
    case _ =>
  }

  /** Storing the value of correct code in a fresh temporary. */
  lemma TempCorrect(l: Low, n: nat, k: nat, v: Value, t: Ty, env: Env)
    requires Correct(l, n, env, Some(v))
    ensures var stmts := l.stmts + [VarDecl(TempName(k), t), Assign(TempName(k), l.expr, t)];
            Run(stmts, env) == Done(Run(l.stmts, env).env[Var(TempName(k)) := v])
  {
    var id := TempName(k);
    var code := [VarDecl(id, t), Assign(id, l.expr, t)];
    var mid := Run(l.stmts, env).env;
    RunConcat(l.stmts, code, env);
    var last := [Assign(id, l.expr, t)];
    assert code[1..] == last && last[1..] == [];
    assert Step(last[0], mid) == Done(mid[Var(id) := v]);
    assert Run(last, mid) == Run([], mid[Var(id) := v]);
    assert Step(code[0], mid) == Done(mid);
  }

  /** A temporary that is the result itself, numbered last. */
  lemma TempLast(l: Low, n: nat, v: Value, x: IExpr, t: Ty, env: Env)
    requires Correct(l, n, env, Some(v))
    requires IsVar(x, TempName(l.next))
    ensures Correct(Temp(l, TempName(l.next), x, t, l.next + 1), n, env, Some(v))
  {
    TempCorrect(l, n, l.next, v, t, env);
    TempIndexOfName(l.next);
    var mid := Run(l.stmts, env).env;
    AgreeAssign(mid, l.next, v);
    AgreeChain(env, mid, mid[Var(TempName(l.next)) := v], n, l.next, l.next, l.next + 1, n, l.next + 1);
  }

  /** Both operands have their value after the code of both was run. */
  ghost predicate OperandsReady(stmts: seq<Stmt>, l: IExpr, r: IExpr, n: nat, next: nat, env: Env,
                                a: Option<Value>, b: Option<Value>) {
    && n <= next
    && Run(stmts, env).Done?
    && Agree(env, Run(stmts, env).env, n, next)
    && Eval(l, Run(stmts, env).env) == a
    && Eval(r, Run(stmts, env).env) == b
  }

  lemma PairCorrect(l: Low, r: Low, n: nat, env: Env, a: Option<Value>, b: Option<Value>)
    requires Correct(l, n, env, a) && Stable(l.expr, l.next)
    requires Correct(r, l.next, Run(l.stmts, env).env, b)
    ensures OperandsReady(l.stmts + r.stmts, l.expr, r.expr, n, r.next, env, a, b)
  {
    RunConcat(l.stmts, r.stmts, env);
    var mid := Run(l.stmts, env).env;
    var end := Run(r.stmts, mid).env;
    AgreeChain(env, mid, end, n, l.next, l.next, r.next, n, r.next);
    StableKeeps(l.expr, l.next, mid, end, l.next, r.next);
  }

  /** The code of an operator with three or more operands: the right part is stored in temporary `k`, then
      the first operand is computed. */
  lemma NaryCorrect(l: Low, r: Low, k: nat, x: IExpr, t: Ty, n: nat, lo: nat, lr: nat, env: Env,
                    a: Option<Value>, b: Option<Value>)
    requires Correct(r, lr, env, b)
    requires Correct(l, lo, Run(r.stmts, env).env[Var(TempName(k)) := b.value], a)
    requires IsVar(x, TempName(k))
    requires n <= lo && l.next <= lr && n <= k < r.next && !(lo <= k < l.next)
    ensures OperandsReady(Temp(r, TempName(k), x, t, r.next).stmts + l.stmts, l.expr, x, n, r.next, env, a, b)
  {
    var code := Temp(r, TempName(k), x, t, r.next).stmts;
    TempCorrect(r, lr, k, b.value, t, env);
    RunConcat(code, l.stmts, env);
    var mid := Run(r.stmts, env).env;
    var stored := mid[Var(TempName(k)) := b.value];
    var end := Run(l.stmts, stored).env;
    AgreeAssign(mid, k, b.value);
    AgreeChain(env, mid, stored, lr, r.next, k, k + 1, n, r.next);
    AgreeChain(env, stored, end, n, r.next, lo, l.next, n, r.next);
    TempIndexOfName(k);
    assert !IsTemp(Var(TempName(k)), lo, l.next);
    assert Lookup(stored, Var(TempName(k))) == b;
  }

  // The translation, one lemma for each function.

  /** Compiler correctness, for every expression that can be translated and every environment in which it is
      defined. */
  lemma {:induction false} ToIrCorrect(e: Expr, n: nat, env: Env)
    requires ToIr(e, n).Ok? && Source(e, n) && Meaning(e, env).Some?
    ensures Correct(ToIr(e, n).value, n, env, Meaning(e, env))
    decreases e, 0, 1
  {
    match e
    case Number(_) =>
    case Literal(_) =>
    case Variable(_, _) =>
    case Selected(_, _, _) =>
    case Not(x) => ToBasicBoolCorrect(x, n, env);
    case Neg(x) => ToBasicIntCorrect(x, n, env);
    case Ass(op, terms) =>
      if op.IsBool() {
        BoolToIrCorrect(op, terms, n, env);
      } else {
        MathToIrCorrect(op, terms, n, env);
      }
    case Bin(op, left, right) => BinToIrCorrect(op, left, right, n, env);
    case Rel(rel, left, right) => RelToIrCorrect(rel, left, right, n, env);
    case If(cond, thn, rest) => IfToIrCorrect(cond, thn, rest, n, env);
  }

  lemma {:induction false} BinToIrCorrect(op: BinOp, left: Expr, right: Expr, n: nat, env: Env)
    requires ToIr(Bin(op, left, right), n).Ok? && Source(left, n) && Source(right, n)
    requires Meaning(Bin(op, left, right), env).Some?
    ensures Correct(ToIr(Bin(op, left, right), n).value, n, env, Meaning(Bin(op, left, right), env))
    decreases Bin(op, left, right), 0, 0
  {
    hide Run, Eval;
    var l := ToBasicInt(left, n).value;
    ToBasicIntCorrect(left, n, env);
    var mid := Run(l.stmts, env).env;
    MeaningFrame(right, env, mid, n, l.next);
    SourceMonotone(right, n, l.next);
    ToBasicIntCorrect(right, l.next, mid);
    var r := ToBasicInt(right, l.next).value;
    PairCorrect(l, r, n, env, Meaning(left, env), Meaning(right, env));
    ArithReady(ToArith(op), l.stmts + r.stmts, l.expr, r.expr, n, r.next, env, Meaning(left, env), Meaning(right, env));
  }

  lemma {:induction false} RelToIrCorrect(rel: RelOp, left: Expr, right: Expr, n: nat, env: Env)
    requires ToIr(Rel(rel, left, right), n).Ok? && Source(left, n) && Source(right, n)
    requires Meaning(Rel(rel, left, right), env).Some?
    ensures Correct(ToIr(Rel(rel, left, right), n).value, n, env, Meaning(Rel(rel, left, right), env))
    decreases Rel(rel, left, right), 0, 0
  {
    hide Run, Eval;
    var l := ToBasic(left, n).value;
    ToBasicCorrect(left, n, env);
    var mid := Run(l.stmts, env).env;
    MeaningFrame(right, env, mid, n, l.next);
    SourceMonotone(right, n, l.next);
    ToBasicCorrect(right, l.next, mid);
    var r := ToBasic(right, l.next).value;
    PairCorrect(l, r, n, env, Meaning(left, env), Meaning(right, env));
    TestReady(rel, l.stmts + r.stmts, l.expr, r.expr, n, r.next, env, Meaning(left, env), Meaning(right, env));
  }

  lemma {:induction false} ToBasicIntCorrect(e: Expr, n: nat, env: Env)
    requires ToBasicInt(e, n).Ok? && Source(e, n) && Meaning(e, env).Some?
    ensures Correct(ToBasicInt(e, n).value, n, env, Meaning(e, env)) && BasicInt(ToBasicInt(e, n).value.expr)
    decreases e, 1
  {
    ToIrCorrect(e, n, env);
    var l := ToIr(e, n).value;
    var t := ToInteger(ExprType(e));
    if !BasicInt(l.expr) {
      TempLast(l, n, Meaning(e, env).value, IntVar(TempName(l.next), t), t, env);
    }
  }

  lemma {:induction false} ToBasicBoolCorrect(e: Expr, n: nat, env: Env)
    requires ToBasicBool(e, n).Ok? && Source(e, n) && Meaning(e, env).Some?
    ensures Correct(ToBasicBool(e, n).value, n, env, Meaning(e, env)) && BasicBool(ToBasicBool(e, n).value.expr)
    decreases e, 1
  {
    ToIrCorrect(e, n, env);
    var l := ToIr(e, n).value;
    if !BasicBool(l.expr) {
      TempLast(l, n, Meaning(e, env).value, BoolVar(TempName(l.next)), BOOLEAN, env);
    }
  }

  lemma {:induction false} ToBasicCorrect(e: Expr, n: nat, env: Env)
    requires ToBasic(e, n).Ok? && Source(e, n) && Meaning(e, env).Some?
    ensures Correct(ToBasic(e, n).value, n, env, Meaning(e, env)) && Basic(ToBasic(e, n).value.expr)
    decreases e, 1
  {
    ToIrCorrect(e, n, env);
    var l := ToIr(e, n).value;
    var v := Meaning(e, env).value;
    if !Basic(l.expr) {
      var t := TypeOf(l.expr);
      var id := TempName(l.next);
      if t == BOOLEAN {
        TempLast(l, n, v, BoolVar(id), BOOLEAN, env);
      } else if t.AnyInteger() {
        TempLast(l, n, v, IntVar(id, ToInteger(ExprType(e))), ToInteger(ExprType(e)), env);
      } else {
        TempLast(l, n, v, ObjVar(id, ExprType(e)), ExprType(e), env);
      }
    }
  }

  /** The code of the branches stays inside the conditional. */
  lemma {:induction false} IfToIrCorrect(cond: Expr, thn: Expr, rest: Else, n: nat, env: Env)
    requires IfToIr(cond, thn, rest, n).Ok? && Source(cond, n) && Source(thn, n) && ElseSource(rest, n)
    requires Meaning(If(cond, thn, rest), env).Some?
    ensures Correct(IfToIr(cond, thn, rest, n).value, n, env, Meaning(If(cond, thn, rest), env))
    decreases If(cond, thn, rest), 0, 0
  {
    hide Run, Eval, Agree;
    var c := ToBasicBool(cond, n).value;
    var t := ToIr(thn, c.next).value;
    var f := ToIr(rest.els, t.next).value;
    ToBasicBoolCorrect(cond, n, env);
    var mid := Run(c.stmts, env).env;
    var b := Meaning(cond, env) == Some(Bool(true));
    var chosen, start := if b then thn else rest.els, if b then c.next else t.next;
    assert Meaning(chosen, env) == Meaning(If(cond, thn, rest), env);
    SourceMonotone(chosen, n, start);
    MeaningFrame(chosen, env, mid, n, c.next);
    ToIrCorrect(chosen, start, mid);
    AgreeWider(env, mid, n, c.next, f.next);
    IfReady(c, t, f, ExprType(thn).CommonType(ExprType(rest.els)), n, env, b, Meaning(chosen, env));
  }

  lemma IfReady(c: Low, t: Low, f: Low, typ: Ty, n: nat, env: Env, b: bool, v: Option<Value>)
    requires Correct(c, n, env, Some(Bool(b)))
    requires var mid := Run(c.stmts, env).env;
             Correct(if b then t else f, if b then c.next else t.next, mid, v) && Agree(env, mid, n, f.next)
    requires n <= f.next
    ensures Correct(Low(c.stmts, IfThenElse(c.expr, Complex(t.stmts, t.expr), Complex(f.stmts, f.expr), typ), f.next),
                    n, env, v)
  {
    var mid := Run(c.stmts, env).env;
    var chosen := if b then t else f;
    assert EvalComplex(Complex(chosen.stmts, chosen.expr), mid) == v;
  }

  lemma JoinLaws(op: AssOp, a: Option<Value>, b: Option<Value>)
    ensures Join(op, a, Some(NeutralValue(op))).Some? ==> Join(op, a, Some(NeutralValue(op))) == a
    ensures Join(op, a, Join(op, b, Some(NeutralValue(op)))).Some? ==>
              Join(op, a, Join(op, b, Some(NeutralValue(op)))) == Join(op, a, b)
    ensures Join(op, a, b).Some? ==> a.Some? && b.Some?
  {
  }

  lemma MeaningSmall(op: AssOp, terms: seq<Expr>, env: Env)
    requires MeaningAll(op, terms, env).Some? && terms != []
    ensures Meaning(terms[0], env).Some? && MeaningAll(op, terms[1..], env).Some?
    ensures |terms| == 1 ==> MeaningAll(op, terms, env) == Meaning(terms[0], env)
    ensures |terms| == 2 ==> Meaning(terms[1], env).Some?
    ensures |terms| == 2 ==> MeaningAll(op, terms, env) == Join(op, Meaning(terms[0], env), Meaning(terms[1], env))
  {
    JoinLaws(op, Meaning(terms[0], env), MeaningAll(op, terms[1..], env));
    if |terms| == 1 {
      assert terms[1..] == [];
    } else if |terms| == 2 {
      assert terms[1..][1..] == [];
      JoinLaws(op, Meaning(terms[0], env), Meaning(terms[1], env));
      JoinLaws(op, Meaning(terms[1], env), Some(NeutralValue(op)));
    }
  }

  lemma LogicReady(op: AssOp, stmts: seq<Stmt>, l: IExpr, r: IExpr, n: nat, next: nat, env: Env,
                   a: Option<Value>, b: Option<Value>)
    requires OperandsReady(stmts, l, r, n, next, env, a, b)
    requires (op == And || op == Or) && Join(op, a, b).Some?
    ensures Correct(Low(stmts, Logic(op == And, l, r), next), n, env, Join(op, a, b))
  {
  }

  lemma ArithReady(op: ArithOp, stmts: seq<Stmt>, l: IExpr, r: IExpr, n: nat, next: nat, env: Env,
                   a: Option<Value>, b: Option<Value>)
    requires OperandsReady(stmts, l, r, n, next, env, a, b) && ArithValue(op, a, b).Some?
    ensures Correct(Low(stmts, Arith(op, l, r), next), n, env, ArithValue(op, a, b))
  {
  }

  lemma TestReady(rel: RelOp, stmts: seq<Stmt>, l: IExpr, r: IExpr, n: nat, next: nat, env: Env,
                  a: Option<Value>, b: Option<Value>)
    requires OperandsReady(stmts, l, r, n, next, env, a, b) && TestValue(rel, a, b).Some?
    ensures Correct(Low(stmts, Test(rel, l, r), next), n, env, TestValue(rel, a, b))
  {
  }

  lemma {:induction false} BoolToIrCorrect(op: AssOp, terms: seq<Expr>, n: nat, env: Env)
    requires op.IsBool() && BoolToIr(op, terms, n).Ok? && AllSource(terms, n) && MeaningAll(op, terms, env).Some?
    requires terms == [] ==> op.IsAnd()
    ensures Correct(BoolToIr(op, terms, n).value, n, env, MeaningAll(op, terms, env))
    decreases terms, 1
  {
    if terms != [] {
      MeaningSmall(op, terms, env);
      if |terms| == 1 {
        ToBasicBoolCorrect(terms[0], n, env);
      } else if |terms| == 2 {
        BoolPairCorrect(op, terms, n, env);
      } else {
        BoolNaryCorrect(op, terms, n, env);
      }
    }
  }

  lemma {:induction false} BoolNaryCorrect(op: AssOp, terms: seq<Expr>, n: nat, env: Env)
    requires |terms| > 2 && op.IsBool()
    requires BoolToIr(op, terms, n).Ok? && AllSource(terms, n)
    requires Meaning(terms[0], env).Some? && MeaningAll(op, terms[1..], env).Some?
    requires Join(op, Meaning(terms[0], env), MeaningAll(op, terms[1..], env)).Some?
    ensures Correct(BoolToIr(op, terms, n).value, n, env,
                    Join(op, Meaning(terms[0], env), MeaningAll(op, terms[1..], env)))
    decreases terms, 0
  {
    hide Run, Eval, Meaning, MeaningAll, Join;
    var l := ToBasicBool(terms[0], n).value;
    var r := BoolToIr(op, terms[1..], l.next + 1).value;
    var k := l.next;
    AllSourceMonotone(terms[1..], n, k + 1);
    BoolToIrCorrect(op, terms[1..], k + 1, env);
    var a, b := Meaning(terms[0], env), MeaningAll(op, terms[1..], env);
    var stored := Run(r.stmts, env).env[Var(TempName(k)) := b.value];
    StoredAgrees(r, k + 1, k, b.value, env, n, r.next);
    MeaningFrame(terms[0], env, stored, n, r.next);
    ToBasicBoolCorrect(terms[0], n, stored);
    NaryCorrect(l, r, k, BoolVar(TempName(k)), BOOLEAN, n, n, k + 1, env, a, b);
    LogicReady(op, Temp(r, TempName(k), BoolVar(TempName(k)), BOOLEAN, r.next).stmts + l.stmts, l.expr,
               BoolVar(TempName(k)), n, r.next, env, a, b);
  }

  lemma StoredAgrees(r: Low, lr: nat, k: nat, b: Value, env: Env, n: nat, next: nat)
    requires Correct(r, lr, env, Some(b)) && n <= lr && r.next <= next && n <= k < next
    ensures Agree(env, Run(r.stmts, env).env[Var(TempName(k)) := b], n, next)
  {
    var mid := Run(r.stmts, env).env;
    AgreeAssign(mid, k, b);
    AgreeChain(env, mid, mid[Var(TempName(k)) := b], lr, r.next, k, k + 1, n, next);
  }

  lemma {:induction false} BoolPairCorrect(op: AssOp, terms: seq<Expr>, n: nat, env: Env)
    requires |terms| == 2 && op.IsBool()
    requires BoolToIr(op, terms, n).Ok? && AllSource(terms, n)
    requires Meaning(terms[0], env).Some? && Meaning(terms[1], env).Some?
    requires Join(op, Meaning(terms[0], env), Meaning(terms[1], env)).Some?
    ensures Correct(BoolToIr(op, terms, n).value, n, env, Join(op, Meaning(terms[0], env), Meaning(terms[1], env)))
    decreases terms, 0
  {
    var l := ToBasicBool(terms[0], n).value;
    ToBasicBoolCorrect(terms[0], n, env);
    var mid := Run(l.stmts, env).env;
    assert terms[1..][0] == terms[1];
    MeaningFrame(terms[1], env, mid, n, l.next);
    SourceMonotone(terms[1], n, l.next);
    ToBasicBoolCorrect(terms[1], l.next, mid);
    var r := ToBasicBool(terms[1], l.next).value;
    PairCorrect(l, r, n, env, Meaning(terms[0], env), Meaning(terms[1], env));
    LogicReady(op, l.stmts + r.stmts, l.expr, r.expr, n, r.next, env, Meaning(terms[0], env), Meaning(terms[1], env));
  }

  lemma {:induction false} MathPairCorrect(op: AssOp, terms: seq<Expr>, n: nat, env: Env)
    requires |terms| == 2 && !op.IsBool()
    requires MathToIr(op, terms, n).Ok? && AllSource(terms, n)
    requires Meaning(terms[0], env).Some? && Meaning(terms[1], env).Some?
    requires Join(op, Meaning(terms[0], env), Meaning(terms[1], env)).Some?
    ensures Correct(MathToIr(op, terms, n).value, n, env, Join(op, Meaning(terms[0], env), Meaning(terms[1], env)))
    decreases terms, 0
  {
    var l := ToBasicInt(terms[0], n).value;
    ToBasicIntCorrect(terms[0], n, env);
    var mid := Run(l.stmts, env).env;
    assert terms[1..][0] == terms[1];
    MeaningFrame(terms[1], env, mid, n, l.next);
    SourceMonotone(terms[1], n, l.next);
    ToBasicIntCorrect(terms[1], l.next, mid);
    var r := ToBasicInt(terms[1], l.next).value;
    PairCorrect(l, r, n, env, Meaning(terms[0], env), Meaning(terms[1], env));
    ArithReady(AssArith(op), l.stmts + r.stmts, l.expr, r.expr, n, r.next, env,
               Meaning(terms[0], env), Meaning(terms[1], env));
  }

  lemma {:induction false} MathToIrCorrect(op: AssOp, terms: seq<Expr>, n: nat, env: Env)
    requires !op.IsBool() && MathToIr(op, terms, n).Ok? && AllSource(terms, n) && MeaningAll(op, terms, env).Some?
    requires terms == [] ==> op == Add
    ensures Correct(MathToIr(op, terms, n).value, n, env, MeaningAll(op, terms, env))
    decreases terms, 1
  {
    if terms != [] {
      MeaningSmall(op, terms, env);
      if |terms| == 1 {
        ToBasicIntCorrect(terms[0], n, env);
      } else if |terms| == 2 {
        MathPairCorrect(op, terms, n, env);
      } else {
        MathNaryCorrect(op, terms, n, env);
      }
    }
  }

  lemma {:induction false} MathNaryCorrect(op: AssOp, terms: seq<Expr>, n: nat, env: Env)
    requires |terms| > 2 && !op.IsBool()
    requires MathToIr(op, terms, n).Ok? && AllSource(terms, n)
    requires Meaning(terms[0], env).Some? && MeaningAll(op, terms[1..], env).Some?
    requires Join(op, Meaning(terms[0], env), MeaningAll(op, terms[1..], env)).Some?
    ensures Correct(MathToIr(op, terms, n).value, n, env,
                    Join(op, Meaning(terms[0], env), MeaningAll(op, terms[1..], env)))
    decreases terms, 0
  {
    hide Run, Eval, Meaning, MeaningAll;
    var l := ToBasicInt(terms[0], n + 1).value;
    var r := MathToIr(op, terms[1..], l.next).value;
    AllSourceMonotone(terms[1..], n, l.next);
    MathToIrCorrect(op, terms[1..], l.next, env);
    var a, b := Meaning(terms[0], env), MeaningAll(op, terms[1..], env);
    var stored := Run(r.stmts, env).env[Var(TempName(n)) := b.value];
    StoredAgrees(r, l.next, n, b.value, env, n, r.next);
    MeaningFrame(terms[0], env, stored, n, r.next);
    SourceMonotone(terms[0], n, n + 1);
    ToBasicIntCorrect(terms[0], n + 1, stored);
    var x := IntVar(TempName(n), ExprType(Ass(op, terms[1..])));
    var t := ToInteger(ExprType(Ass(op, terms)));
    NaryCorrect(l, r, n, x, t, n, n + 1, l.next, env, a, b);
    ArithReady(AssArith(op), Temp(r, TempName(n), x, t, r.next).stmts + l.stmts, l.expr, x, n, r.next, env, a, b);
  }

  /** The value of an empty list of operands is lost exactly for disjunctions and products: an empty `or` is
      lowered to True and an empty product to 0. */
  lemma EmptyListLowering(op: AssOp, n: nat, env: Env)
    ensures ToIr(Ass(op, []), n).Ok? && ToIr(Ass(op, []), n).value.stmts == []
    ensures Eval(ToIr(Ass(op, []), n).value.expr, env) == Meaning(Ass(op, []), env) <==> op.IsAnd() || op == Add
  {
  }
}
