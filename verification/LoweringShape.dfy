/** The shape of lowered code: temporaries are static single assignment and operands are basic. */
module LoweringShape {
  import opened Types
  import opened Expressions
  import opened Identifiers
  import opened Ir
  import opened Scopes
  import opened Temporaries
  import opened Lowering
  import opened LoweringMeaning

  /** How often a name is declared (`decl`) or assigned (otherwise) by the statements, with the code inside of
      conditionals. */
  function Writes(decl: bool, id: string, stmts: seq<Stmt>): nat
    decreases stmts
  {
    if stmts == [] then 0 else WritesOf(decl, id, stmts[0]) + Writes(decl, id, stmts[1..])
  }

  function WritesOf(decl: bool, id: string, s: Stmt): nat
    decreases s
  {
    match s
    case VarDecl(x, _) => if decl && x == id then 1 else 0
    case Assign(x, e, _) => (if !decl && x == id then 1 else 0) + WritesIn(decl, id, e)
    case Check(e) => WritesIn(decl, id, e)
  }

  function WritesIn(decl: bool, id: string, e: IExpr): nat
    decreases e
  {
    match e
    case IfThenElse(_, t, f, _) => WritesInside(decl, id, t) + WritesInside(decl, id, f)
    case _ => 0
  }

  function WritesInside(decl: bool, id: string, c: Complex): nat
    decreases c
  {
    Writes(decl, id, c.stmts) + WritesIn(decl, id, c.expr)
  }

  /** One for the temporaries with numbers from `lo` up to `hi`, zero for any other name. */
  function Once(id: string, lo: nat, hi: nat): nat {
    if lo <= TempIndex(id) < hi then 1 else 0
  }

  lemma OnceName(id: string, k: nat)
    ensures Once(id, k, k + 1) == if id == TempName(k) then 1 else 0
  {
    TempIndexOfName(k);
  }

  lemma {:induction false} WritesConcat(decl: bool, id: string, a: seq<Stmt>, b: seq<Stmt>)
    ensures Writes(decl, id, a + b) == Writes(decl, id, a) + Writes(decl, id, b)
  {
    if a == [] {
      assert a + b == b;
    } else {
      assert (a + b)[1..] == a[1..] + b;
      WritesConcat(decl, id, a[1..], b);
    }
  }

  /** Operands of every operation are basic, also in the code inside of conditionals. */
  predicate Flat(stmts: seq<Stmt>)
    decreases stmts
  {
    stmts == [] || (FlatStmt(stmts[0]) && Flat(stmts[1..]))
  }

  predicate FlatStmt(s: Stmt)
    decreases s
  {
    match s
    case VarDecl(_, _) => true
    case Assign(_, e, _) => FlatExpr(e)
    case Check(e) => FlatExpr(e)
  }

  predicate FlatExpr(e: IExpr)
    decreases e
  {
    match e
    case IntConversion(_, x) => Basic(x)
    case Minus1(x) => BasicInt(x)
    case Arith(_, l, r) => BasicInt(l) && BasicInt(r)
    case Not1(x) => BasicBool(x)
    case Logic(_, l, r) => BasicBool(l) && BasicBool(r)
    case Test(_, l, r) => Basic(l) && Basic(r)
    case IfThenElse(c, t, f, _) => BasicBool(c) && FlatComplex(t) && FlatComplex(f)
    case _ => true
  }

  predicate FlatComplex(c: Complex)
    decreases c
  {
    Flat(c.stmts) && FlatExpr(c.expr)
  }

  /** The code is in three-address form and mentions no temporary that is still to be generated. */
  predicate Formed(l: Low) {
    Flat(l.stmts) && FlatExpr(l.expr) && AllBelow(l.stmts, l.next) && Below(l.expr, l.next)
  }

  /** The temporaries from `n` up to the next number are written once, and nothing else is written. */
  predicate WritesOnce(decl: bool, id: string, l: Low, n: nat) {
    Writes(decl, id, l.stmts) + WritesIn(decl, id, l.expr) == Once(id, n, l.next)
  }

  /** Temporaries are declared before they are assigned and assigned before they are read, on every path. */
  predicate Scoped(l: Low, base: nat) {
    AllInScope(l.stmts, base, {}) && InScope(l.expr, base, AllMarks(l.stmts))
  }

  predicate WellShaped(decl: bool, id: string, l: Low, n: nat, base: nat) {
    n <= l.next && Formed(l) && Scoped(l, base) && WritesOnce(decl, id, l, n)
  }

  predicate UsesOperands(e: IExpr, l: IExpr, r: IExpr) {
    && (e.Arith? || e.Logic? || e.Test?) && e.left == l && e.right == r
    && FlatExpr(e)
  }

  // Composition, first of the form.

  lemma {:induction false} FormedConcat(a: seq<Stmt>, b: seq<Stmt>, n: nat)
    ensures AllBelow(a + b, n) == (AllBelow(a, n) && AllBelow(b, n))
    ensures Flat(a + b) == (Flat(a) && Flat(b))
  {
    if a == [] {
      assert a + b == b;
    } else {
      assert (a + b)[1..] == a[1..] + b;
      FormedConcat(a[1..], b, n);
    }
  }

  lemma FormedSingle(s: Stmt, n: nat)
    requires StmtBelow(s, n) && FlatStmt(s)
    ensures AllBelow([s], n) && Flat([s])
  {
    assert [s][1..] == [];
  }

  lemma FormedMonotone(l: Low, next: nat)
    requires Formed(l) && l.next <= next
    ensures Formed(l.(next := next))
  {
    AllMonotone(l.stmts, l.next, next);
    BelowMonotone(l.expr, l.next, next);
  }

  lemma TempFormed(l: Low, k: nat, x: IExpr, t: Ty, next: nat)
    requires Formed(l) && l.next <= next && k < next && IsVar(x, TempName(k))
    ensures Formed(Temp(l, TempName(k), x, t, next))
  {
    TempIndexOfName(k);
    FormedMonotone(l, next);
    var decl, assign := VarDecl(TempName(k), t), Assign(TempName(k), l.expr, t);
    FormedSingle(decl, next);
    FormedSingle(assign, next);
    FormedConcat([decl], [assign], next);
    FormedConcat(l.stmts, [decl] + [assign], next);
    assert [decl] + [assign] == [decl, assign];
  }

  lemma PairFormed(l: Low, r: Low, e: IExpr)
    requires Formed(l) && Formed(r) && l.next <= r.next && UsesOperands(e, l.expr, r.expr)
    ensures Formed(Low(l.stmts + r.stmts, e, r.next))
  {
    FormedMonotone(l, r.next);
    FormedConcat(l.stmts, r.stmts, r.next);
  }

  lemma NaryFormed(l: Low, r: Low, k: nat, x: IExpr, t: Ty, e: IExpr)
    requires Formed(l) && Formed(r) && l.next <= r.next && k < r.next && IsVar(x, TempName(k))
    requires UsesOperands(e, l.expr, x)
    ensures Formed(Low(Temp(r, TempName(k), x, t, r.next).stmts + l.stmts, e, r.next))
  {
    TempFormed(r, k, x, t, r.next);
    FormedMonotone(l, r.next);
    FormedConcat(Temp(r, TempName(k), x, t, r.next).stmts, l.stmts, r.next);
  }

  lemma IfFormed(c: Low, t: Low, f: Low, typ: Ty)
    requires Formed(c) && Formed(t) && Formed(f) && c.next <= t.next <= f.next && BasicBool(c.expr)
    ensures Formed(Low(c.stmts, IfThenElse(c.expr, Complex(t.stmts, t.expr), Complex(f.stmts, f.expr), typ), f.next))
  {
    FormedMonotone(c, f.next);
    FormedMonotone(t, f.next);
    var tc, fc := Complex(t.stmts, t.expr), Complex(f.stmts, f.expr);
    assert FlatComplex(tc) && FlatComplex(fc) && ComplexBelow(tc, f.next) && ComplexBelow(fc, f.next);
  }

  // Of the scopes.

  lemma TempScoped(l: Low, k: nat, x: IExpr, t: Ty, next: nat, base: nat)
    requires Scoped(l, base) && IsVar(x, TempName(k))
    ensures Scoped(Temp(l, TempName(k), x, t, next), base)
  {
    InScopeStore(l.stmts, TempName(k), l.expr, t, base);
  }

  lemma OperandsScoped(e: IExpr, l: IExpr, r: IExpr, base: nat, a: set<Mark>, b: set<Mark>, known: set<Mark>)
    requires UsesOperands(e, l, r) && InScope(l, base, a) && InScope(r, base, b) && a <= known && b <= known
    ensures InScope(e, base, known)
  {
    InScopeMonotone(l, base, a, known);
    InScopeMonotone(r, base, b, known);
  }

  lemma PairScoped(l: Low, r: Low, e: IExpr, base: nat)
    requires Scoped(l, base) && Scoped(r, base) && UsesOperands(e, l.expr, r.expr)
    ensures Scoped(Low(l.stmts + r.stmts, e, r.next), base)
  {
    InScopePair(l.stmts, r.stmts, base);
    OperandsScoped(e, l.expr, r.expr, base, AllMarks(l.stmts), AllMarks(r.stmts), AllMarks(l.stmts + r.stmts));
  }

  lemma NaryScoped(l: Low, r: Low, k: nat, x: IExpr, t: Ty, e: IExpr, base: nat)
    requires Scoped(l, base) && Scoped(r, base) && IsVar(x, TempName(k)) && UsesOperands(e, l.expr, x)
    ensures Scoped(Low(Temp(r, TempName(k), x, t, r.next).stmts + l.stmts, e, r.next), base)
  {
    TempScoped(r, k, x, t, r.next, base);
    var code := Temp(r, TempName(k), x, t, r.next).stmts;
    InScopePair(code, l.stmts, base);
    OperandsScoped(e, l.expr, x, base, AllMarks(l.stmts), AllMarks(code), AllMarks(code + l.stmts));
  }

  lemma IfScoped(c: Low, t: Low, f: Low, typ: Ty, base: nat)
    requires Scoped(c, base) && Scoped(t, base) && Scoped(f, base)
    ensures var e := IfThenElse(c.expr, Complex(t.stmts, t.expr), Complex(f.stmts, f.expr), typ);
            Scoped(Low(c.stmts, e, f.next), base)
  {
    var tc, fc := Complex(t.stmts, t.expr), Complex(f.stmts, f.expr);
    assert {} + AllMarks(t.stmts) == AllMarks(t.stmts) && {} + AllMarks(f.stmts) == AllMarks(f.stmts);
    ComplexInScopeMonotone(tc, base, {}, AllMarks(c.stmts));
    ComplexInScopeMonotone(fc, base, {}, AllMarks(c.stmts));
  }

  // Then of the number of writes.

  lemma WritesSingle(decl: bool, id: string, s: Stmt)
    ensures Writes(decl, id, [s]) == WritesOf(decl, id, s)
  {
    assert [s][1..] == [];
  }

  lemma TempWrites(decl: bool, id: string, l: Low, name: string, x: IExpr, t: Ty, next: nat)
    ensures Writes(decl, id, Temp(l, name, x, t, next).stmts) ==
            Writes(decl, id, l.stmts) + WritesIn(decl, id, l.expr) + if id == name then 1 else 0
  {
    var d, a := VarDecl(name, t), Assign(name, l.expr, t);
    WritesSingle(decl, id, d);
    WritesSingle(decl, id, a);
    WritesConcat(decl, id, [d], [a]);
    WritesConcat(decl, id, l.stmts, [d] + [a]);
    assert [d] + [a] == [d, a];
  }

  lemma TempLastShaped(decl: bool, id: string, l: Low, n: nat, base: nat, x: IExpr, t: Ty)
    requires WellShaped(decl, id, l, n, base) && IsVar(x, TempName(l.next))
    ensures WellShaped(decl, id, Temp(l, TempName(l.next), x, t, l.next + 1), n, base)
  {
    hide Formed, Scoped, Writes;
    TempFormed(l, l.next, x, t, l.next + 1);
    TempScoped(l, l.next, x, t, l.next + 1, base);
    TempWrites(decl, id, l, TempName(l.next), x, t, l.next + 1);
    OnceName(id, l.next);
  }

  /** Two pieces of code, one after the other, under an operation on their (basic) results. */
  lemma PairShaped(decl: bool, id: string, l: Low, r: Low, e: IExpr, n: nat, base: nat)
    requires WellShaped(decl, id, l, n, base) && WellShaped(decl, id, r, l.next, base) && Basic(l.expr) && Basic(r.expr)
    requires UsesOperands(e, l.expr, r.expr)
    ensures WellShaped(decl, id, Low(l.stmts + r.stmts, e, r.next), n, base)
  {
    hide Formed, Scoped, Writes;
    PairFormed(l, r, e);
    PairScoped(l, r, e, base);
    WritesConcat(decl, id, l.stmts, r.stmts);
  }

  /** The code of an operator with three or more operands. */
  lemma NaryShaped(decl: bool, id: string, l: Low, r: Low, k: nat, x: IExpr, t: Ty, e: IExpr, n: nat, lo: nat,
                   lr: nat, base: nat)
    requires WellShaped(decl, id, l, lo, base) && Basic(l.expr)
    requires WellShaped(decl, id, r, lr, base) && IsVar(x, TempName(k))
    requires UsesOperands(e, l.expr, x)
    requires (k == n && lo == n + 1 && lr == l.next) || (lo == n && k == l.next && lr == k + 1)
    ensures WellShaped(decl, id, Low(Temp(r, TempName(k), x, t, r.next).stmts + l.stmts, e, r.next), n, base)
  {
    hide Formed, Scoped, Writes;
    NaryFormed(l, r, k, x, t, e);
    NaryScoped(l, r, k, x, t, e, base);
    TempWrites(decl, id, r, TempName(k), x, t, r.next);
    OnceName(id, k);
    WritesConcat(decl, id, Temp(r, TempName(k), x, t, r.next).stmts, l.stmts);
  }

  lemma IfShaped(decl: bool, id: string, c: Low, t: Low, f: Low, typ: Ty, n: nat, base: nat)
    requires WellShaped(decl, id, c, n, base) && BasicBool(c.expr)
    requires WellShaped(decl, id, t, c.next, base) && WellShaped(decl, id, f, t.next, base)
    ensures var e := IfThenElse(c.expr, Complex(t.stmts, t.expr), Complex(f.stmts, f.expr), typ);
            WellShaped(decl, id, Low(c.stmts, e, f.next), n, base)
  {
    hide Formed, Scoped, Writes;
    IfFormed(c, t, f, typ);
    IfScoped(c, t, f, typ, base);
    var tc, fc := Complex(t.stmts, t.expr), Complex(f.stmts, f.expr);
    assert WritesInside(decl, id, tc) == Once(id, c.next, t.next);
    assert WritesInside(decl, id, fc) == Once(id, t.next, f.next);
  }

  // The translation, one lemma for each function.

  lemma UnaryShaped(decl: bool, id: string, l: Low, e: IExpr, n: nat, base: nat)
    requires WellShaped(decl, id, l, n, base)
    requires (BasicBool(l.expr) && e == Not1(l.expr)) || (BasicInt(l.expr) && e == Minus1(l.expr))
    ensures WellShaped(decl, id, Low(l.stmts, e, l.next), n, base)
  {
  }

  lemma LeafShaped(decl: bool, id: string, e: Expr, n: nat, base: nat)
    requires e.Number? || e.Literal? || e.Variable? || e.Selected?
    requires ToIr(e, n).Ok? && Source(e, n) && Source(e, base)
    ensures WellShaped(decl, id, ToIr(e, n).value, n, base)
  {
  }

  /** Static single assignment and three-address form, for every expression that can be translated and every
      name: each temporary of the lowering is declared once and assigned once, before it is read, and no other
      variable is written.  Variables of the expression are no temporaries from `base` on. */
  lemma {:induction false} ToIrShaped(decl: bool, id: string, e: Expr, n: nat, base: nat)
    requires ToIr(e, n).Ok? && Source(e, n) && Source(e, base)
    ensures WellShaped(decl, id, ToIr(e, n).value, n, base)
    decreases e, 0, 1
  {
    hide WellShaped;
    match e
    case Number(_) => LeafShaped(decl, id, e, n, base);
    case Literal(_) => LeafShaped(decl, id, e, n, base);
    case Variable(_, _) => LeafShaped(decl, id, e, n, base);
    case Selected(_, _, _) => LeafShaped(decl, id, e, n, base);
    case Not(x) =>
      ToBasicBoolShaped(decl, id, x, n, base);
      UnaryShaped(decl, id, ToBasicBool(x, n).value, ToIr(e, n).value.expr, n, base);
    case Neg(x) =>
      ToBasicIntShaped(decl, id, x, n, base);
      UnaryShaped(decl, id, ToBasicInt(x, n).value, ToIr(e, n).value.expr, n, base);
    case Ass(op, terms) =>
      if op.IsBool() {
        BoolToIrShaped(decl, id, op, terms, n, base);
      } else {
        MathToIrShaped(decl, id, op, terms, n, base);
      }
    case Bin(op, left, right) =>
      var l := ToBasicInt(left, n).value;
      ToBasicIntShaped(decl, id, left, n, base);
      SourceMonotone(right, n, l.next);
      ToBasicIntShaped(decl, id, right, l.next, base);
      PairShaped(decl, id, l, ToBasicInt(right, l.next).value, ToIr(e, n).value.expr, n, base);
    case Rel(rel, left, right) =>
      var l := ToBasic(left, n).value;
      ToBasicShaped(decl, id, left, n, base);
      SourceMonotone(right, n, l.next);
      ToBasicShaped(decl, id, right, l.next, base);
      PairShaped(decl, id, l, ToBasic(right, l.next).value, ToIr(e, n).value.expr, n, base);
    case If(cond, thn, rest) => IfToIrShaped(decl, id, cond, thn, rest, n, base);
  }

  lemma {:induction false} IfToIrShaped(decl: bool, id: string, cond: Expr, thn: Expr, rest: Else, n: nat, base: nat)
    requires IfToIr(cond, thn, rest, n).Ok? && Source(cond, n) && Source(thn, n) && ElseSource(rest, n)
    requires Source(cond, base) && Source(thn, base) && ElseSource(rest, base)
    ensures WellShaped(decl, id, IfToIr(cond, thn, rest, n).value, n, base)
    decreases If(cond, thn, rest), 0, 0
  {
    hide WellShaped;
    var c := ToBasicBool(cond, n).value;
    var t := ToIr(thn, c.next).value;
    var f := ToIr(rest.els, t.next).value;
    SourceMonotone(thn, n, c.next);
    SourceMonotone(rest.els, n, t.next);
    ToBasicBoolShaped(decl, id, cond, n, base);
    ToIrShaped(decl, id, thn, c.next, base);
    ToIrShaped(decl, id, rest.els, t.next, base);
    IfShaped(decl, id, c, t, f, ExprType(thn).CommonType(ExprType(rest.els)), n, base);
  }

  lemma {:induction false} ToBasicIntShaped(decl: bool, id: string, e: Expr, n: nat, base: nat)
    requires ToBasicInt(e, n).Ok? && Source(e, n) && Source(e, base)
    ensures WellShaped(decl, id, ToBasicInt(e, n).value, n, base) && BasicInt(ToBasicInt(e, n).value.expr)
    decreases e, 1
  {
    hide WellShaped;
    ToIrShaped(decl, id, e, n, base);
    var l := ToIr(e, n).value;
    TempLastShaped(decl, id, l, n, base, IntVar(TempName(l.next), ToInteger(ExprType(e))), ToInteger(ExprType(e)));
  }

  lemma {:induction false} ToBasicBoolShaped(decl: bool, id: string, e: Expr, n: nat, base: nat)
    requires ToBasicBool(e, n).Ok? && Source(e, n) && Source(e, base)
    ensures WellShaped(decl, id, ToBasicBool(e, n).value, n, base) && BasicBool(ToBasicBool(e, n).value.expr)
    decreases e, 1
  {
    hide WellShaped;
    ToIrShaped(decl, id, e, n, base);
    var l := ToIr(e, n).value;
    TempLastShaped(decl, id, l, n, base, BoolVar(TempName(l.next)), BOOLEAN);
  }

  lemma {:induction false} ToBasicShaped(decl: bool, id: string, e: Expr, n: nat, base: nat)
    requires ToBasic(e, n).Ok? && Source(e, n) && Source(e, base)
    ensures WellShaped(decl, id, ToBasic(e, n).value, n, base) && Basic(ToBasic(e, n).value.expr)
    decreases e, 1
  {
    hide WellShaped;
    ToIrShaped(decl, id, e, n, base);
    var l := ToIr(e, n).value;
    var name := TempName(l.next);
    TempLastShaped(decl, id, l, n, base, BoolVar(name), BOOLEAN);
    TempLastShaped(decl, id, l, n, base, IntVar(name, ToInteger(ExprType(e))), ToInteger(ExprType(e)));
    TempLastShaped(decl, id, l, n, base, ObjVar(name, ExprType(e)), ExprType(e));
  }

  lemma {:induction false} BoolToIrShaped(decl: bool, id: string, op: AssOp, terms: seq<Expr>, n: nat, base: nat)
    requires BoolToIr(op, terms, n).Ok? && AllSource(terms, n) && AllSource(terms, base)
    ensures WellShaped(decl, id, BoolToIr(op, terms, n).value, n, base)
    decreases terms, 1
  {
    hide WellShaped, Source;
    if terms == [] {
      EmptyShaped(decl, id, BoolVal(true), n, base);
    } else if |terms| == 1 {
      ToBasicBoolShaped(decl, id, terms[0], n, base);
    } else if |terms| == 2 {
      var l := ToBasicBool(terms[0], n).value;
      ToBasicBoolShaped(decl, id, terms[0], n, base);
      assert terms[1..][0] == terms[1];
      SourceMonotone(terms[1], n, l.next);
      ToBasicBoolShaped(decl, id, terms[1], l.next, base);
      PairShaped(decl, id, l, ToBasicBool(terms[1], l.next).value, BoolToIr(op, terms, n).value.expr, n, base);
    } else {
      var l := ToBasicBool(terms[0], n).value;
      var k := l.next;
      ToBasicBoolShaped(decl, id, terms[0], n, base);
      AllSourceMonotone(terms[1..], n, k + 1);
      BoolToIrShaped(decl, id, op, terms[1..], k + 1, base);
      NaryShaped(decl, id, l, BoolToIr(op, terms[1..], k + 1).value, k, BoolVar(TempName(k)), BOOLEAN,
                 BoolToIr(op, terms, n).value.expr, n, n, k + 1, base);
    }
  }

  lemma EmptyShaped(decl: bool, id: string, e: IExpr, n: nat, base: nat)
    requires e.BoolVal? || e.IntVal?
    ensures WellShaped(decl, id, Low([], e, n), n, base)
  {
  }

  lemma {:induction false} MathToIrShaped(decl: bool, id: string, op: AssOp, terms: seq<Expr>, n: nat, base: nat)
    requires MathToIr(op, terms, n).Ok? && AllSource(terms, n) && AllSource(terms, base)
    ensures WellShaped(decl, id, MathToIr(op, terms, n).value, n, base)
    decreases terms, 1
  {
    hide WellShaped, Source;
    if terms == [] {
      EmptyShaped(decl, id, IntVal(0), n, base);
    } else if |terms| == 1 {
      ToBasicIntShaped(decl, id, terms[0], n, base);
    } else if |terms| == 2 {
      var l := ToBasicInt(terms[0], n).value;
      ToBasicIntShaped(decl, id, terms[0], n, base);
      assert terms[1..][0] == terms[1];
      SourceMonotone(terms[1], n, l.next);
      ToBasicIntShaped(decl, id, terms[1], l.next, base);
      PairShaped(decl, id, l, ToBasicInt(terms[1], l.next).value, MathToIr(op, terms, n).value.expr, n, base);
    } else {
      var l := ToBasicInt(terms[0], n + 1).value;
      SourceMonotone(terms[0], n, n + 1);
      ToBasicIntShaped(decl, id, terms[0], n + 1, base);
      AllSourceMonotone(terms[1..], n, l.next);
      MathToIrShaped(decl, id, op, terms[1..], l.next, base);
      var e := MathToIr(op, terms, n).value.expr;
      NaryShaped(decl, id, l, MathToIr(op, terms[1..], l.next).value, n, e.right, ToInteger(ExprType(Ass(op, terms))),
                 e, n, n + 1, l.next, base);
    }
  }
}
