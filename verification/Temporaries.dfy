/** Environments that agree up to a range of temporaries. */
module Temporaries {
  import opened Expressions
  import opened Identifiers
  import opened Ir

  predicate IsTemp(loc: Loc, lo: nat, hi: nat) {
    loc.Var? && lo <= TempIndex(loc.id) < hi
  }

  /** The environments differ at most in the temporaries with numbers from `lo` up to `hi`. */
  ghost predicate Agree(a: Env, b: Env, lo: nat, hi: nat) {
    forall loc :: !IsTemp(loc, lo, hi) ==> Lookup(a, loc) == Lookup(b, loc)
  }

  lemma AgreeRefl(env: Env, n: nat)
    ensures Agree(env, env, n, n)
  {
  }

  lemma AgreeChain(a: Env, b: Env, c: Env, p: nat, q: nat, r: nat, s: nat, lo: nat, hi: nat)
    requires Agree(a, b, p, q) && Agree(b, c, r, s)
    requires lo <= p && q <= hi && lo <= r && s <= hi
    ensures Agree(a, c, lo, hi)
  {
    forall loc | !IsTemp(loc, lo, hi) ensures Lookup(a, loc) == Lookup(c, loc) {
      assert Lookup(a, loc) == Lookup(b, loc) == Lookup(c, loc);
    }
  }

  lemma AgreeAssign(a: Env, k: nat, v: Value)
    ensures Agree(a, a[Var(TempName(k)) := v], k, k + 1)
  {
    TempIndexOfName(k);
  }

  lemma AgreeWider(a: Env, b: Env, n: nat, hi: nat, wider: nat)
    requires Agree(a, b, n, hi) && hi <= wider
    ensures Agree(a, b, n, wider)
  {
    AgreeChain(a, b, b, n, hi, n, hi, n, wider);
  }

  /** The runs end in the same way, with environments that agree up to the temporaries of the range. */
  ghost predicate SameOutcome(o: Outcome, p: Outcome, lo: nat, hi: nat) {
    if o.Done? then p.Done? && Agree(o.env, p.env, lo, hi) else o == p
  }

  // Code that does not mention temporaries with number `n` or above.

  predicate Below(e: IExpr, n: nat)
    decreases e
  {
    match e
    case IntVar(id, _) => TempIndex(id) < n
    case BoolVar(id) => TempIndex(id) < n
    case ObjVar(id, _) => TempIndex(id) < n
    case IntConversion(_, x) => Below(x, n)
    case Minus1(x) => Below(x, n)
    case Arith(_, l, r) => Below(l, n) && Below(r, n)
    case Not1(x) => Below(x, n)
    case Logic(_, l, r) => Below(l, n) && Below(r, n)
    case Test(_, l, r) => Below(l, n) && Below(r, n)
    case IfThenElse(c, t, f, _) => Below(c, n) && ComplexBelow(t, n) && ComplexBelow(f, n)
    case _ => true
  }

  predicate ComplexBelow(c: Complex, n: nat)
    decreases c
  {
    AllBelow(c.stmts, n) && Below(c.expr, n)
  }

  predicate StmtBelow(s: Stmt, n: nat)
    decreases s
  {
    match s
    case VarDecl(id, _) => TempIndex(id) < n
    case Assign(id, e, _) => TempIndex(id) < n && Below(e, n)
    case Check(e) => Below(e, n)
  }

  predicate AllBelow(stmts: seq<Stmt>, n: nat)
    decreases stmts
  {
    stmts == [] || (StmtBelow(stmts[0], n) && AllBelow(stmts[1..], n))
  }

  lemma {:induction false} BelowMonotone(e: IExpr, n: nat, m: nat)
    requires Below(e, n) && n <= m
    ensures Below(e, m)
    decreases e
  {
    match e
    case IntConversion(_, x) => BelowMonotone(x, n, m);
    case Minus1(x) => BelowMonotone(x, n, m);
    case Arith(_, l, r) => BelowMonotone(l, n, m); BelowMonotone(r, n, m);
    case Not1(x) => BelowMonotone(x, n, m);
    case Logic(_, l, r) => BelowMonotone(l, n, m); BelowMonotone(r, n, m);
    case Test(_, l, r) => BelowMonotone(l, n, m); BelowMonotone(r, n, m);
    case IfThenElse(c, t, f, _) => BelowMonotone(c, n, m); ComplexMonotone(t, n, m); ComplexMonotone(f, n, m);
    case _ =>
  }

  lemma {:induction false} ComplexMonotone(c: Complex, n: nat, m: nat)
    requires ComplexBelow(c, n) && n <= m
    ensures ComplexBelow(c, m)
    decreases c
  {
    AllMonotone(c.stmts, n, m);
    BelowMonotone(c.expr, n, m);
  }

  lemma {:induction false} AllMonotone(stmts: seq<Stmt>, n: nat, m: nat)
    requires AllBelow(stmts, n) && n <= m
    ensures AllBelow(stmts, m)
    decreases stmts
  {
    if stmts != [] {
      StmtMonotone(stmts[0], n, m);
      AllMonotone(stmts[1..], n, m);
    }
  }

  lemma {:induction false} StmtMonotone(s: Stmt, n: nat, m: nat)
    requires StmtBelow(s, n) && n <= m
    ensures StmtBelow(s, m)
    decreases s
  {
    match s
    case VarDecl(_, _) =>
    case Assign(_, e, _) => BelowMonotone(e, n, m);
    case Check(e) => BelowMonotone(e, n, m);
  }

  lemma {:induction false} EvalFrame(e: IExpr, a: Env, b: Env, n: nat, hi: nat)
    requires Below(e, n) && Agree(a, b, n, hi)
    ensures Eval(e, a) == Eval(e, b)
    decreases e
  {
    match e
    case IntVar(id, _) => assert !IsTemp(Var(id), n, hi);
    case BoolVar(id) => assert !IsTemp(Var(id), n, hi);
    case ObjVar(id, _) => assert !IsTemp(Var(id), n, hi);
    case IntConversion(_, x) => EvalFrame(x, a, b, n, hi);
    case FieldAccess(m, f, _) => assert !IsTemp(Valid(m, f), n, hi) && !IsTemp(Field(m, f), n, hi);
    case FieldValid(m, f) => assert !IsTemp(Valid(m, f), n, hi);
    case Minus1(x) => EvalFrame(x, a, b, n, hi);
    case Arith(_, l, r) => EvalFrame(l, a, b, n, hi); EvalFrame(r, a, b, n, hi);
    case Not1(x) => EvalFrame(x, a, b, n, hi);
    case Logic(_, l, r) => EvalFrame(l, a, b, n, hi); EvalFrame(r, a, b, n, hi);
    case Test(_, l, r) => EvalFrame(l, a, b, n, hi); EvalFrame(r, a, b, n, hi);
    case IfThenElse(c, t, f, _) =>
      EvalFrame(c, a, b, n, hi);
      ComplexFrame(t, a, b, n, hi);
      ComplexFrame(f, a, b, n, hi);
    case _ =>
  }

  lemma {:induction false} ComplexFrame(c: Complex, a: Env, b: Env, n: nat, hi: nat)
    requires ComplexBelow(c, n) && Agree(a, b, n, hi)
    ensures EvalComplex(c, a) == EvalComplex(c, b)
    decreases c
  {
    RunFrame(c.stmts, a, b, n, hi);
    if Run(c.stmts, a).Done? {
      EvalFrame(c.expr, Run(c.stmts, a).env, Run(c.stmts, b).env, n, hi);
    }
  }

  lemma {:induction false} StepFrame(s: Stmt, a: Env, b: Env, n: nat, hi: nat)
    requires StmtBelow(s, n) && Agree(a, b, n, hi)
    ensures SameOutcome(Step(s, a), Step(s, b), n, hi)
    decreases s
  {
    match s
    case VarDecl(_, _) =>
    case Assign(id, e, _) =>
      EvalFrame(e, a, b, n, hi);
      if Eval(e, a).Some? {
        AgreeUpdate(a, b, Var(id), Eval(e, a).value, n, hi);
      }
    case Check(e) => EvalFrame(e, a, b, n, hi);
  }

  lemma AgreeUpdate(a: Env, b: Env, loc: Loc, v: Value, lo: nat, hi: nat)
    requires Agree(a, b, lo, hi)
    ensures Agree(a[loc := v], b[loc := v], lo, hi)
  {
    forall x | !IsTemp(x, lo, hi) ensures Lookup(a[loc := v], x) == Lookup(b[loc := v], x) {
      assert Lookup(a, x) == Lookup(b, x);
    }
  }

  lemma {:induction false} RunFrame(stmts: seq<Stmt>, a: Env, b: Env, n: nat, hi: nat)
    requires AllBelow(stmts, n) && Agree(a, b, n, hi)
    ensures SameOutcome(Run(stmts, a), Run(stmts, b), n, hi)
    decreases stmts
  {
    if stmts != [] {
      StepFrame(stmts[0], a, b, n, hi);
      if Step(stmts[0], a).Done? {
        RunFrame(stmts[1..], Step(stmts[0], a).env, Step(stmts[0], b).env, n, hi);
      }
    }
  }
}
