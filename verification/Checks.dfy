/** The two passes that make assignments safe: operands are converted to the type of the target, and each
    statement is preceded by checks of its preconditions. */
module Checks {
  import opened Results
  import opened Types
  import opened Expressions
  import opened Identifiers
  import opened Ir

  /** A condition with the statements that compute what the goal refers to. */
  datatype Cond = Cond(goal: IExpr, facts: seq<Stmt>)

  datatype Conds = Conds(conds: seq<Cond>, next: nat)

  // Conversions.

  function ConvertOperand(e: IExpr, target: Ty): IExpr {
    if target.IsCompatibleStrong(TypeOf(e)) then e else IntConversion(target, e)
  }

  /** `Error` is a failed assertion: an arithmetic expression without an integer type to convert to, or a
      boolean or enumeration value of another type. */
  function Convert(e: IExpr, target: Ty): Result<IExpr> {
    if e.Arith? then
      if target.Integer? then Ok(Arith(e.op, ConvertOperand(e.left, target), ConvertOperand(e.right, target)))
      else Error
    else if target.IsCompatibleStrong(TypeOf(e)) || !(target.Integer? || target.Enumeration?) then Ok(e)
    else if TypeOf(e).AnyInteger() then (if target.Integer? then Ok(IntConversion(target, e)) else Ok(e))
    else Error
  }

  function ConvertStmt(s: Stmt): Result<Stmt> {
    if s.Assign? then
      var e :- Convert(s.expr, s.typ);
      Ok(Assign(s.target, e, s.typ))
    else Ok(s)
  }

  function AddConversions(stmts: seq<Stmt>): (r: Result<seq<Stmt>>)
    ensures r.Ok? ==> |r.value| == |stmts|
  {
    if stmts == [] then Ok([])
    else
      var first :- ConvertStmt(stmts[0]);
      var rest :- AddConversions(stmts[1..]);
      Ok([first] + rest)
  }

  // Checks.

  function UpperBound(target: Ty): int {
    if target.AnyInteger() then target.bounds.upper else MAX_SCALAR
  }

  function ToBase(e: IExpr): IExpr {
    IntConversion(BASE_INTEGER, e)
  }

  function Store(id: string, e: IExpr): seq<Stmt> {
    [VarDecl(id, BASE_INTEGER), Assign(id, e, BASE_INTEGER)]
  }

  /** The condition of an arithmetic operation on its (already checked) operands, with temporary `id`. */
  function OperationCond(op: ArithOp, l: IExpr, r: IExpr, upper: int, id: string): Cond {
    match op
    case Plus =>
      var right := if TypeOf(r) != BASE_INTEGER && !TypeOf(r).UniversalInteger? then ToBase(r) else r;
      Cond(Test(LessEqual, l, IntVar(id, BASE_INTEGER)), Store(id, Arith(Minus, IntVal(upper), right)))
    case Minus => Cond(Test(GreaterEqual, l, r), [])
    case Times =>
      Cond(Test(LessEqual, l, IntVar(id, BASE_INTEGER)), Store(id, Arith(Quotient, IntVal(upper), r)))
    case Quotient => Cond(Test(NotEqual, r, IntVal(0)), [])
    case Modulus => Cond(Test(NotEqual, r, IntVal(0)), [])
    case Raise =>
      Cond(Test(LessEqual, IntVar(id, TypeOf(Arith(op, l, r))), IntVal(upper)), Store(id, Arith(op, l, r)))
  }

  predicate NeedsTemp(op: ArithOp) {
    op == Plus || op == Times || op == Raise
  }

  function RangeConds(t: Ty, x: IExpr): seq<Cond> {
    [Cond(Test(LessEqual, ToBase(First(t)), ToBase(x)), []), Cond(Test(LessEqual, ToBase(x), ToBase(Last(t))), [])]
  }

  function Preconditions(e: IExpr, target: Option<Ty>, n: nat): (r: Conds)
    ensures n <= r.next
    decreases e
  {
    match e
    case Arith(op, l, r) =>
      var upper := UpperBound(if target.Some? then target.value else TypeOf(e));
      var left := Preconditions(l, None, if NeedsTemp(op) then n + 1 else n);
      var right := Preconditions(r, None, left.next);
      Conds(left.conds + right.conds + [OperationCond(op, l, r, upper, TempName(n))], right.next)
    case IntConversion(t, x) =>
      var inner := Preconditions(x, None, n);
      Conds(inner.conds + RangeConds(t, x), inner.next)
    case FieldAccess(m, f, _) => Conds([Cond(FieldValid(m, f), [])], n)
    case _ => Conds([], n)
  }

  function StmtPreconditions(s: Stmt, n: nat): (r: Conds)
    ensures n <= r.next
  {
    match s
    case VarDecl(_, _) => Conds([], n)
    case Assign(_, e, t) => Preconditions(e, if e.Arith? then Some(t) else None, n)
    case Check(e) => Preconditions(e, None, n)
  }

  function CheckCode(conds: seq<Cond>): seq<Stmt> {
    if conds == [] then [] else conds[0].facts + [Check(conds[0].goal)] + CheckCode(conds[1..])
  }

  datatype Code = Code(stmts: seq<Stmt>, next: nat)

  function AddChecks(stmts: seq<Stmt>, n: nat): (r: Code)
    ensures n <= r.next
  {
    if stmts == [] then Code([], n)
    else
      var pre := StmtPreconditions(stmts[0], n);
      var rest := AddChecks(stmts[1..], pre.next);
      Code(CheckCode(pre.conds) + [stmts[0]] + rest.stmts, rest.next)
  }

  /** The composition of both passes. */
  function AddRequiredChecks(stmts: seq<Stmt>, n: nat): Result<Code> {
    var converted :- AddConversions(stmts);
    Ok(AddChecks(converted, n))
  }

  // The passes as loops.

  method ConvertStatements(stmts: seq<Stmt>) returns (r: Result<seq<Stmt>>)
    ensures r == AddConversions(stmts)
  {
    var result: seq<Stmt> := [];
    ghost var whole := AddConversions(stmts);
    assert stmts[0..] == stmts;
    PrefixedEmpty(whole);
    for i := 0 to |stmts|
      invariant |result| == i
      invariant whole == Prefixed(result, AddConversions(stmts[i..]))
    {
      assert stmts[i..][1..] == stmts[i + 1..];
      var s := ConvertStmt(stmts[i]);
      if s.Error? {
        return Error;
      }
      PrefixedSnoc(result, s.value, AddConversions(stmts[i + 1..]));
      result := result + [s.value];
    }
    assert result + [] == result;
    return Ok(result);
  }

  function Prefixed(a: seq<Stmt>, r: Result<seq<Stmt>>): Result<seq<Stmt>> {
    if r.Ok? then Ok(a + r.value) else Error
  }

  lemma PrefixedEmpty(r: Result<seq<Stmt>>)
    ensures Prefixed([], r) == r
  {
    if r.Ok? {
      assert [] + r.value == r.value;
    }
  }

  lemma PrefixedSnoc(a: seq<Stmt>, s: Stmt, r: Result<seq<Stmt>>)
    ensures Prefixed(a, if r.Ok? then Ok([s] + r.value) else Error) == Prefixed(a + [s], r)
  {
    if r.Ok? {
      assert a + ([s] + r.value) == (a + [s]) + r.value;
    }
  }

  method EmitChecks(conds: seq<Cond>, before: seq<Stmt>) returns (result: seq<Stmt>)
    ensures result == before + CheckCode(conds)
  {
    result := before;
    assert conds[0..] == conds;
    for j := 0 to |conds|
      invariant result + CheckCode(conds[j..]) == before + CheckCode(conds)
    {
      assert conds[j..][1..] == conds[j + 1..];
      result := result + (conds[j].facts + [Check(conds[j].goal)]);
    }
  }

  method CheckStatements(stmts: seq<Stmt>, n: nat) returns (r: Code)
    ensures r == AddChecks(stmts, n)
  {
    hide StmtPreconditions, CheckCode;
    var result: seq<Stmt> := [];
    var next := n;
    ghost var whole := AddChecks(stmts, n);
    assert stmts[0..] == stmts;
    for i := 0 to |stmts|
      invariant n <= next
      invariant whole == Code(result + AddChecks(stmts[i..], next).stmts, AddChecks(stmts[i..], next).next)
    {
      var pre := StmtPreconditions(stmts[i], next);
      ghost var rest := AddChecks(stmts[i + 1..], pre.next);
      assert stmts[i..][1..] == stmts[i + 1..];
      assert result + (CheckCode(pre.conds) + [stmts[i]] + rest.stmts) ==
             (result + CheckCode(pre.conds) + [stmts[i]]) + rest.stmts;
      result := EmitChecks(pre.conds, result);
      result := result + [stmts[i]];
      next := pre.next;
    }
    return Code(result, next);
  }
}
