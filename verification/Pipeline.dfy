/** The passes together: an expression is simplified, lowered, assigned to a variable and instrumented with
    checks; a run that passes its checks stores the value of the original expression. */
module Pipeline {
  import opened Results
  import opened Types
  import opened Expressions
  import opened Identifiers
  import opened Temporaries
  import opened IntEval
  import opened Lowering
  import opened LoweringMeaning
  import opened LoweringShape
  import opened Checks
  import opened ChecksMeaning
  import opened SimplifierShape
  import opened Rounding
  import Ir
  import E = ExactEval
  import S = Simplifier
  import SM = SimplifierMeaning

  /** The expressions that are compiled: without empty disjunctions or products, and without temporaries from `n` on. */
  function Compiled(n: nat): Fragment {
    Fragment(true, true, true, false, Some(n))
  }

  const DIVISION_FREE := Fragment(false, true, true, true, None)

  // The integer meaning is the one with rounded quotients.

  lemma LiftJoin(op: AssOp, a: Option<Value>, b: Option<Value>)
    ensures E.Lift(Join(op, a, b)) == E.Combine(op, E.Lift(a), E.Lift(b))
  {
    match (a, b)
    case (Some(Int(x)), Some(Int(y))) => assert Ir.Product(x, y) as real == E.Times(x as real, y as real);
    case _ =>
  }

  lemma LiftBin(op: BinOp, a: Option<Value>, b: Option<Value>, rounded: bool)
    requires rounded || op != Div
    ensures E.Lift(Ir.ArithValue(Ir.ToArith(op), a, b)) == E.ExactBin(op, E.Lift(a), E.Lift(b), rounded)
  {
    match (a, b)
    case (Some(Int(x)), Some(Int(y))) =>
      assert (x as real).Floor == x && (y as real).Floor == y;
      if op == Pow && y >= 0 {
        SM.RealPowerInt(x, y);
      }
    case _ =>
  }

  lemma LiftTest(rel: RelOp, a: Option<Value>, b: Option<Value>)
    ensures E.Lift(Ir.TestValue(rel, a, b)) == E.ExactRel(rel, E.Lift(a), E.Lift(b))
  {
  }

  /** The integer meaning of any expression is its meaning with rounded quotients; without division it is the exact
      one. */
  lemma {:induction false} MeaningsAgree(e: Expr, env: Env, rounded: bool)
    requires rounded || Plain(e, DIVISION_FREE)
    ensures E.Lift(Meaning(e, env)) == E.Eval(e, E.Setting(env, rounded))
    decreases e
  {
    match e
    case Number(_) =>
    case Literal(_) =>
    case Variable(_, _) =>
    case Selected(_, _, _) =>
    case Not(x) => MeaningsAgree(x, env, rounded);
    case Neg(x) => MeaningsAgree(x, env, rounded);
    case Ass(op, terms) => MeaningsAllAgree(op, terms, env, rounded);
    case Bin(op, l, r) =>
      MeaningsAgree(l, env, rounded);
      MeaningsAgree(r, env, rounded);
      LiftBin(op, Meaning(l, env), Meaning(r, env), rounded);
    case Rel(rel, l, r) =>
      MeaningsAgree(l, env, rounded);
      MeaningsAgree(r, env, rounded);
      LiftTest(rel, Meaning(l, env), Meaning(r, env));
    case If(c, t, rest) =>
      MeaningsAgree(c, env, rounded);
      MeaningsAgree(t, env, rounded);
      MeaningsElseAgree(rest, env, rounded);
  }

  lemma {:induction false} MeaningsAllAgree(op: AssOp, terms: seq<Expr>, env: Env, rounded: bool)
    requires rounded || AllPlain(terms, DIVISION_FREE)
    ensures E.Lift(MeaningAll(op, terms, env)) == E.EvalAll(op, terms, E.Setting(env, rounded))
    decreases terms
  {
    if terms != [] {
      MeaningsAgree(terms[0], env, rounded);
      MeaningsAllAgree(op, terms[1..], env, rounded);
      LiftJoin(op, Meaning(terms[0], env), MeaningAll(op, terms[1..], env));
    }
  }

  lemma {:induction false} MeaningsElseAgree(rest: Else, env: Env, rounded: bool)
    requires rounded || ElsePlain(rest, DIVISION_FREE)
    ensures E.Lift(MeaningElse(rest, env)) == E.EvalElse(rest, E.Setting(env, rounded))
    decreases rest
  {
    match rest
    case NoElse =>
    case ElsePart(e) => MeaningsAgree(e, env, rounded);
    case Elsif(c, t, r) =>
      MeaningsAgree(c, env, rounded);
      MeaningsAgree(t, env, rounded);
      MeaningsElseAgree(r, env, rounded);
  }

  lemma {:induction false} PlainIsSource(e: Expr, n: nat)
    requires Plain(e, Compiled(n))
    ensures Source(e, n)
    decreases e
  {
    match e
    case Not(x) => PlainIsSource(x, n);
    case Neg(x) => PlainIsSource(x, n);
    case Ass(_, terms) => AllPlainIsSource(terms, n);
    case Bin(_, l, r) => PlainIsSource(l, n); PlainIsSource(r, n);
    case Rel(_, l, r) => PlainIsSource(l, n); PlainIsSource(r, n);
    case If(c, t, rest) => PlainIsSource(c, n); PlainIsSource(t, n); ElsePlainIsSource(rest, n);
    case _ =>
  }

  lemma {:induction false} AllPlainIsSource(terms: seq<Expr>, n: nat)
    requires AllPlain(terms, Compiled(n))
    ensures AllSource(terms, n)
    decreases terms
  {
    if terms != [] {
      PlainIsSource(terms[0], n);
      AllPlainIsSource(terms[1..], n);
    }
  }

  lemma {:induction false} ElsePlainIsSource(rest: Else, n: nat)
    requires ElsePlain(rest, Compiled(n))
    ensures ElseSource(rest, n)
    decreases rest
  {
    match rest
    case NoElse =>
    case ElsePart(e) => PlainIsSource(e, n);
    case Elsif(c, t, r) => PlainIsSource(c, n); PlainIsSource(t, n); ElsePlainIsSource(r, n);
  }

  lemma LiftInjective(a: Option<Value>, b: Option<Value>)
    requires E.Lift(a) == E.Lift(b)
    ensures a == b
  {
  }

  /** Simplification keeps the integer meaning, with divisions too, where the merges and the comparisons of constant
      quotients that it makes are harmless. */
  lemma SimplifyKeepsMeaning(e: Expr, env: Env)
    requires Meaning(e, env).Some? && S.Simplify(e).Ok?
    requires SM.Sound(S.Simplify(e).value.log, E.Setting(env, true))
    ensures Meaning(S.Simplify(e).value.e, env) == Meaning(e, env)
  {
    hide S.Simplify;
    var s := S.Simplify(e).value.e;
    MeaningsAgree(e, env, true);
    MeaningsAgree(s, env, true);
    SM.SimplifyKeeps(e, E.Setting(env, true));
    LiftInjective(Meaning(s, env), Meaning(e, env));
  }

  /** Without conditionals, and without divisions or relations, there is no further condition. */
  lemma PlainKeepsMeaning(e: Expr, f: Fragment, env: Env)
    requires Plain(e, f) && !f.conditionals && !(f.divisions && f.relations)
    requires Meaning(e, env).Some? && S.Simplify(e).Ok?
    ensures Meaning(S.Simplify(e).value.e, env) == Meaning(e, env)
  {
    hide S.Simplify, Plain, Meaning;
    SimplifyPlain(e, f);
    ReasonsSuffice(S.Simplify(e).value.log, f, E.Setting(env, true));
    SimplifyKeepsMeaning(e, env);
  }

  /** The lowered assignment of an expression to a variable. */
  function Body(l: Low, x: string, t: Ty): seq<Ir.Stmt> {
    l.stmts + [Ir.Assign(x, l.expr, t)]
  }

  /** The code of an assignment: the expression is lowered, its operands are converted and checks are inserted. */
  function AssignCode(e: Expr, x: string, t: Ty, n: nat): Result<Code> {
    var l :- ToIr(e, n);
    AddRequiredChecks(Body(l, x, t), l.next)
  }

  /** The same for an expression that is simplified first. */
  function Compile(e: Expr, x: string, t: Ty, n: nat): Result<Code> {
    var s :- S.Simplify(e);
    AssignCode(s.e, x, t, n)
  }

  lemma BodyBelow(l: Low, x: string, t: Ty)
    requires Formed(l) && TempIndex(x) < l.next
    ensures AllBelow(Body(l, x, t), l.next)
  {
    var a := Ir.Assign(x, l.expr, t);
    FormedSingle(a, l.next);
    FormedConcat(l.stmts, [a], l.next);
  }

  /** Lowering and checks together: a run that passes all checks stores the value of the expression and changes
      nothing else but temporaries. */
  lemma AssignedRunStoresValue(e: Expr, x: string, t: Ty, n: nat, env: Env)
    requires Source(e, n) && TempIndex(x) < n && Meaning(e, env).Some?
    requires AssignCode(e, x, t, n).Ok? && Ir.Run(AssignCode(e, x, t, n).value.stmts, env).Done?
    ensures var code := AssignCode(e, x, t, n).value;
            Agree(env[Var(x) := Meaning(e, env).value], Ir.Run(code.stmts, env).env, n, code.next)
  {
    hide Source, Meaning, WritesOnce, Ir.Eval, ToIr, AddConversions;
    var v := Meaning(e, env).value;
    var l := ToIr(e, n).value;
    ToIrCorrect(e, n, env);
    ToIrShaped(true, x, e, n, n);
    BodyBelow(l, x, t);
    var body := Body(l, x, t);
    var out := AddRequiredChecks(body, l.next).value;
    AgreeRefl(env, l.next);
    InstrumentationIsTransparent(body, l.next, l.next, env, env);
    StoredValue(l, x, t, n, env, v);
    var mid := Ir.Run(body, env).env;
    AgreeChain(env[Var(x) := v], mid, Ir.Run(out.stmts, env).env, n, l.next, l.next, out.next, n, out.next);
  }

  /** With simplification: a run that passes all checks stores the value of the original expression. */
  lemma CompiledRunStoresValue(e: Expr, x: string, t: Ty, n: nat, env: Env)
    requires Plain(e, Compiled(n)) && TempIndex(x) < n && Meaning(e, env).Some?
    requires S.Simplify(e).Ok? && SM.Sound(S.Simplify(e).value.log, E.Setting(env, true))
    requires Compile(e, x, t, n).Ok? && Ir.Run(Compile(e, x, t, n).value.stmts, env).Done?
    ensures var code := Compile(e, x, t, n).value;
            Agree(env[Var(x) := Meaning(e, env).value], Ir.Run(code.stmts, env).env, n, code.next)
  {
    hide Plain, Source, Meaning, S.Simplify, SM.Sound, AssignCode;
    var s := S.Simplify(e).value.e;
    SimplifyKeepsMeaning(e, env);
    SimplifyPlain(e, Compiled(n));
    PlainIsSource(s, n);
    AssignedRunStoresValue(s, x, t, n, env);
  }

  lemma StoredValue(l: Low, x: string, t: Ty, n: nat, env: Env, v: Value)
    requires Correct(l, n, env, Some(v))
    ensures var o := Ir.Run(Body(l, x, t), env);
            o.Done? && Agree(env[Var(x) := v], o.env, n, l.next)
  {
    var a := Ir.Assign(x, l.expr, t);
    Ir.RunConcat(l.stmts, [a], env);
    var mid := Ir.Run(l.stmts, env).env;
    Ir.RunSingle(a, mid);
    AgreeUpdate(env, mid, Var(x), v, n, l.next);
  }

  // Comparisons of constant quotients.

  function Quotient(a: int, b: int): Expr {
    Bin(Div, Number(a), Number(b))
  }

  lemma QuotientIsSimple(a: int, b: int)
    requires b != 0 && FloorMod(a, b) != 0
    ensures S.Simplify(Quotient(a, b)) == Ok(S.Simp(Quotient(a, b), []))
  {
    var none: seq<S.Rewrite> := [];
    assert none + none == none;
    assert S.Simplify(Number(a)) == Ok(S.Simp(Number(a), none)) && S.Simplify(Number(b)) == Ok(S.Simp(Number(b), none));
    assert S.SimplifyBin(Div, Number(a), Number(b)) == Ok(S.Simp(Quotient(a, b), none + none));
  }

  lemma FoldedComparison(rel: RelOp, a: int, b: int, c: int, d: int)
    requires b != 0 && d != 0
    ensures S.SimplifyRel(rel, Quotient(a, b), Quotient(c, d)) == BoolLit(S.CompareFractions(rel, a, b, c, d))
  {
  }

  /** The relation of two inexact constant quotients is simplified to a truth value, which is the value of the
      compiled relation exactly under the condition for rounded comparisons. */
  lemma SimplifiedComparisonIsExact(rel: RelOp, a: int, b: int, c: int, d: int, env: Env)
    requires b != 0 && FloorMod(a, b) != 0 && d != 0 && FloorMod(c, d) != 0
    ensures var e := Rel(rel, Quotient(a, b), Quotient(c, d));
            && S.Simplify(e) ==
               Ok(S.Simp(BoolLit(S.CompareFractions(rel, a, b, c, d)), [S.Comparison(rel, e.left, e.right)]))
            && (Meaning(S.Simplify(e).value.e, env) == Meaning(e, env) <==>
                RoundingIsHarmless(rel, a, b, c, d))
  {
    hide S.Simplify, S.CompareFractions, S.SimplifyRel;
    var l, r := Quotient(a, b), Quotient(c, d);
    var none: seq<S.Rewrite> := [];
    assert none + none == none;
    QuotientIsSimple(a, b);
    QuotientIsSimple(c, d);
    FoldedComparison(rel, a, b, c, d);
    RelationOfSimple(rel, l, r);
    RoundedComparisonIsExact(rel, a, b, c, d);
    hide RoundingIsHarmless, TruncDiv;
    assert Meaning(l, env) == Some(Int(TruncDiv(a, b))) && Meaning(r, env) == Some(Int(TruncDiv(c, d)));
  }

  lemma RelationOfSimple(rel: RelOp, l: Expr, r: Expr)
    requires S.Simplify(l) == Ok(S.Simp(l, [])) && S.Simplify(r) == Ok(S.Simp(r, []))
    ensures S.Simplify(Rel(rel, l, r)) == Ok(S.Simp(S.SimplifyRel(rel, l, r), S.Compared(rel, l, r)))
  {
    hide S.SimplifyRel;
    var none: seq<S.Rewrite> := [];
    assert none + none == none && none + S.Compared(rel, l, r) == S.Compared(rel, l, r);
  }

  /** `7 / 2 < 15 / 4` is simplified to True, while both quotients round to 3. */
  lemma QuotientsAreComparedExactly(env: Env)
    ensures var e := Rel(Less, Quotient(7, 2), Quotient(15, 4));
            && S.Simplify(e).Ok? && S.Simplify(e).value.e == TRUE
            && Meaning(e, env) == Some(Bool(false))
  {
    hide S.Simplify;
    SimplifiedComparisonIsExact(Less, 7, 2, 15, 4, env);
  }
}
