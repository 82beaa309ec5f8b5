/** Code that declares its temporaries before it assigns them and assigns them before it reads them. */
module Scopes {
  import opened Types
  import opened Identifiers
  import opened Ir

  datatype Mark = Named(id: string) | Stored(id: string)

  function Marks(s: Stmt): set<Mark> {
    match s
    case VarDecl(id, _) => {Named(id)}
    case Assign(id, _, _) => {Stored(id)}
    case Check(_) => {}
  }

  function AllMarks(stmts: seq<Stmt>): set<Mark> {
    if stmts == [] then {} else Marks(stmts[0]) + AllMarks(stmts[1..])
  }

  predicate Readable(id: string, base: nat, known: set<Mark>) {
    TempIndex(id) < base || Stored(id) in known
  }

  /** Every variable that is read is not a temporary from `base` on, or was assigned before. */
  predicate InScope(e: IExpr, base: nat, known: set<Mark>)
    decreases e
  {
    match e
    case IntVar(id, _) => Readable(id, base, known)
    case BoolVar(id) => Readable(id, base, known)
    case ObjVar(id, _) => Readable(id, base, known)
    case IntConversion(_, x) => InScope(x, base, known)
    case Minus1(x) => InScope(x, base, known)
    case Arith(_, l, r) => InScope(l, base, known) && InScope(r, base, known)
    case Not1(x) => InScope(x, base, known)
    case Logic(_, l, r) => InScope(l, base, known) && InScope(r, base, known)
    case Test(_, l, r) => InScope(l, base, known) && InScope(r, base, known)
    case IfThenElse(c, t, f, _) =>
      InScope(c, base, known) && ComplexInScope(t, base, known) && ComplexInScope(f, base, known)
    case _ => true
  }

  predicate ComplexInScope(c: Complex, base: nat, known: set<Mark>)
    decreases c
  {
    AllInScope(c.stmts, base, known) && InScope(c.expr, base, known + AllMarks(c.stmts))
  }

  predicate StmtInScope(s: Stmt, base: nat, known: set<Mark>)
    decreases s
  {
    match s
    case VarDecl(_, _) => true
    case Assign(id, e, _) => Named(id) in known && InScope(e, base, known)
    case Check(e) => InScope(e, base, known)
  }

  predicate AllInScope(stmts: seq<Stmt>, base: nat, known: set<Mark>)
    decreases stmts
  {
    stmts == [] || (StmtInScope(stmts[0], base, known) && AllInScope(stmts[1..], base, known + Marks(stmts[0])))
  }

  lemma {:induction false} InScopeMonotone(e: IExpr, base: nat, known: set<Mark>, more: set<Mark>)
    requires InScope(e, base, known) && known <= more
    ensures InScope(e, base, more)
    decreases e
  {
    match e
    case IntConversion(_, x) => InScopeMonotone(x, base, known, more);
    case Minus1(x) => InScopeMonotone(x, base, known, more);
    case Arith(_, l, r) => InScopeMonotone(l, base, known, more); InScopeMonotone(r, base, known, more);
    case Not1(x) => InScopeMonotone(x, base, known, more);
    case Logic(_, l, r) => InScopeMonotone(l, base, known, more); InScopeMonotone(r, base, known, more);
    case Test(_, l, r) => InScopeMonotone(l, base, known, more); InScopeMonotone(r, base, known, more);
    case IfThenElse(c, t, f, _) =>
      InScopeMonotone(c, base, known, more);
      ComplexInScopeMonotone(t, base, known, more);
      ComplexInScopeMonotone(f, base, known, more);
    case _ =>
  }

  lemma {:induction false} ComplexInScopeMonotone(c: Complex, base: nat, known: set<Mark>, more: set<Mark>)
    requires ComplexInScope(c, base, known) && known <= more
    ensures ComplexInScope(c, base, more)
    decreases c
  {
    AllInScopeMonotone(c.stmts, base, known, more);
    InScopeMonotone(c.expr, base, known + AllMarks(c.stmts), more + AllMarks(c.stmts));
  }

  lemma {:induction false} StmtInScopeMonotone(s: Stmt, base: nat, known: set<Mark>, more: set<Mark>)
    requires StmtInScope(s, base, known) && known <= more
    ensures StmtInScope(s, base, more)
    decreases s
  {
    match s
    case VarDecl(_, _) =>
    case Assign(_, e, _) => InScopeMonotone(e, base, known, more);
    case Check(e) => InScopeMonotone(e, base, known, more);
  }

  lemma {:induction false} AllInScopeMonotone(stmts: seq<Stmt>, base: nat, known: set<Mark>, more: set<Mark>)
    requires AllInScope(stmts, base, known) && known <= more
    ensures AllInScope(stmts, base, more)
    decreases stmts
  {
    if stmts != [] {
      StmtInScopeMonotone(stmts[0], base, known, more);
      AllInScopeMonotone(stmts[1..], base, known + Marks(stmts[0]), more + Marks(stmts[0]));
    }
  }

  lemma {:induction false} InScopeConcat(a: seq<Stmt>, b: seq<Stmt>, base: nat, known: set<Mark>)
    ensures AllMarks(a + b) == AllMarks(a) + AllMarks(b)
    ensures AllInScope(a + b, base, known) <==> AllInScope(a, base, known) && AllInScope(b, base, known + AllMarks(a))
  {
    if a == [] {
      assert a + b == b && known + {} == known;
    } else {
      assert (a + b)[1..] == a[1..] + b;
      assert known + AllMarks(a) == known + Marks(a[0]) + AllMarks(a[1..]);
      InScopeConcat(a[1..], b, base, known + Marks(a[0]));
    }
  }

  /** Two pieces of code that are in scope by themselves, one after the other. */
  lemma InScopePair(a: seq<Stmt>, b: seq<Stmt>, base: nat)
    requires AllInScope(a, base, {}) && AllInScope(b, base, {})
    ensures AllInScope(a + b, base, {}) && AllMarks(a) <= AllMarks(a + b) && AllMarks(b) <= AllMarks(a + b)
  {
    InScopeConcat(a, b, base, {});
    AllInScopeMonotone(b, base, {}, {} + AllMarks(a));
  }

  /** A temporary that is declared and assigned after the code. */
  lemma InScopeStore(a: seq<Stmt>, id: string, e: IExpr, t: Ty, base: nat)
    requires AllInScope(a, base, {}) && InScope(e, base, AllMarks(a))
    ensures var code := a + [VarDecl(id, t), Assign(id, e, t)];
            AllInScope(code, base, {}) && Stored(id) in AllMarks(code) && AllMarks(a) <= AllMarks(code)
  {
    var decl, assign := VarDecl(id, t), Assign(id, e, t);
    var known := {} + AllMarks(a);
    InScopeConcat(a, [decl, assign], base, {});
    assert [decl, assign][1..] == [assign] && [assign][1..] == [];
    InScopeMonotone(e, base, AllMarks(a), known + {Named(id)});
    assert StmtInScope(assign, base, known + Marks(decl));
    assert AllInScope([assign], base, known + Marks(decl));
    assert AllMarks([assign]) == {Stored(id)} + AllMarks([]);
  }
}
