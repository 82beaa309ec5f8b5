/** How many checks are inserted: one for each operation and each field, two for each conversion, and two statements
    more for each fact. */
module ChecksCost {
  import opened Results
  import opened Types
  import opened Ir
  import opened Checks
  import opened ChecksMeaning

  function Obligations(e: IExpr): nat {
    match e
    case Arith(_, l, r) => Obligations(l) + Obligations(r) + 1
    case IntConversion(_, x) => Obligations(x) + 2
    case FieldAccess(_, _, _) => 1
    case _ => 0
  }

  /** Sums, products and powers need a fact. */
  function Facts(e: IExpr): nat {
    match e
    case Arith(op, l, r) => Facts(l) + Facts(r) + if op in {Plus, Times, Raise} then 1 else 0
    case IntConversion(_, x) => Facts(x)
    case _ => 0
  }

  function Evaluated(s: Stmt): Option<IExpr> {
    match s
    case VarDecl(_, _) => None
    case Assign(_, e, _) => Some(e)
    case Check(e) => Some(e)
  }

  function ObligationsOf(stmts: seq<Stmt>): nat {
    if stmts == [] then 0
    else (if Evaluated(stmts[0]).Some? then Obligations(Evaluated(stmts[0]).value) else 0) + ObligationsOf(stmts[1..])
  }

  function FactsOf(stmts: seq<Stmt>): nat {
    if stmts == [] then 0
    else (if Evaluated(stmts[0]).Some? then Facts(Evaluated(stmts[0]).value) else 0) + FactsOf(stmts[1..])
  }

  lemma CodeOfCond(c: Cond)
    ensures |CheckCode([c])| == |c.facts| + 1
  {
    assert [c][1..] == [] && CheckCode([]) == [];
  }

  lemma {:induction false} PreconditionsCost(e: IExpr, target: Option<Ty>, n: nat)
    ensures var p := Preconditions(e, target, n);
            |CheckCode(p.conds)| == Obligations(e) + 2 * Facts(e) && p.next == n + Facts(e)
    decreases e
  {
    match e
    case Arith(op, l, r) =>
      var start := if NeedsTemp(op) then n + 1 else n;
      var left := Preconditions(l, None, start);
      var right := Preconditions(r, None, left.next);
      PreconditionsCost(l, None, start);
      PreconditionsCost(r, None, left.next);
      var p := Preconditions(e, target, n);
      var own := p.conds[|p.conds| - 1];
      assert p.conds == left.conds + right.conds + [own];
      OwnCost(op, own, e, target, n);
      hide Preconditions, CheckCode, OperationCond;
      CheckCodeConcat(left.conds, right.conds);
      CheckCodeConcat(left.conds + right.conds, [own]);
      CodeOfCond(own);
    case IntConversion(t, x) =>
      PreconditionsCost(x, None, n);
      CheckCodeConcat(Preconditions(x, None, n).conds, RangeConds(t, x));
      RangeCost(t, x);
    case FieldAccess(m, f, _) => CodeOfCond(Cond(FieldValid(m, f), []));
    case _ =>
  }

  lemma OwnCost(op: ArithOp, own: Cond, e: IExpr, target: Option<Ty>, n: nat)
    requires e.Arith? && e.op == op && Preconditions(e, target, n).conds != []
    requires own == Preconditions(e, target, n).conds[|Preconditions(e, target, n).conds| - 1]
    ensures |own.facts| == if op in {Plus, Times, Raise} then 2 else 0
  {
  }

  lemma RangeCost(t: Ty, x: IExpr)
    ensures |CheckCode(RangeConds(t, x))| == 2
  {
    var conds := RangeConds(t, x);
    assert conds == [conds[0]] + [conds[1]];
    CheckCodeConcat([conds[0]], [conds[1]]);
    CodeOfCond(conds[0]);
    CodeOfCond(conds[1]);
  }

  /** The instrumented code has exactly these statements more, and draws one temporary for each fact. */
  lemma {:induction false} InstrumentationCost(stmts: seq<Stmt>, n: nat)
    ensures |AddChecks(stmts, n).stmts| == |stmts| + ObligationsOf(stmts) + 2 * FactsOf(stmts)
    ensures AddChecks(stmts, n).next == n + FactsOf(stmts)
    decreases |stmts|
  {
    if stmts != [] {
      hide Preconditions, CheckCode, Obligations, Facts;
      StatementCost(stmts[0], n);
      InstrumentationCost(stmts[1..], StmtPreconditions(stmts[0], n).next);
    }
  }

  lemma StatementCost(s: Stmt, n: nat)
    ensures var p, e := StmtPreconditions(s, n), Evaluated(s);
            && |CheckCode(p.conds)| == (if e.Some? then Obligations(e.value) + 2 * Facts(e.value) else 0)
            && p.next == n + if e.Some? then Facts(e.value) else 0
  {
    hide Preconditions, Obligations, Facts;
    match s
    case VarDecl(_, _) =>
    case Assign(_, e, t) => PreconditionsCost(e, if e.Arith? then Some(t) else None, n);
    case Check(e) => PreconditionsCost(e, None, n);
  }
}
