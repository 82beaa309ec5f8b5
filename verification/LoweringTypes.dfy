/** Lowered code is typed: integer temporaries hold integers, boolean ones booleans, and those of an enumeration its
    values; each is assigned with the type it was declared with and read as such. */
module LoweringTypes {
  import opened Types
  import opened Expressions
  import opened Identifiers
  import opened Ir
  import opened Lowering
  import opened LoweringMeaning
  import opened LoweringDomain
  import opened Typing

  /** The type of the code is the type of the source, but for the ranges of integers; a sum without terms has type `Any`
      in the source. */
  predicate TypeAgrees(x: IExpr, e: Expr) {
    || TypeOf(x) == ExprType(e)
    || (TypeOf(x).AnyInteger() && (ExprType(e).AnyInteger() || ExprType(e).Any?))
  }

  // Declarations.

  /** All declared names are temporaries with numbers from `lo` up to `hi`. */
  ghost predicate Declares(stmts: seq<Stmt>, lo: nat, hi: nat) {
    forall i :: 0 <= i < |stmts| && stmts[i].VarDecl? ==> lo <= TempIndex(stmts[i].id) < hi
  }

  ghost predicate Clear(known: Declarations, n: nat) {
    forall id :: id in known ==> TempIndex(id) < n
  }

  ghost predicate Unchanged(id: string, known: Declarations, more: Declarations) {
    (id in known <==> id in more) && (id in known ==> known[id] == more[id])
  }

  lemma {:induction false} DeclaredElsewhere(stmts: seq<Stmt>, lo: nat, hi: nat, known: Declarations)
    requires Declares(stmts, lo, hi)
    ensures forall id :: !(lo <= TempIndex(id) < hi) ==> Unchanged(id, known, DeclaredBy(stmts, known))
    decreases |stmts|
  {
    if stmts != [] {
      assert forall i :: 0 <= i < |stmts[1..]| ==> stmts[1..][i] == stmts[i + 1];
      DeclaredElsewhere(stmts[1..], lo, hi, Declare(stmts[0], known));
      forall id | !(lo <= TempIndex(id) < hi) ensures Unchanged(id, known, DeclaredBy(stmts, known)) {
        assert Unchanged(id, Declare(stmts[0], known), DeclaredBy(stmts, known));
      }
    }
  }

  /** Code with fresh temporaries adds to the declarations. */
  lemma DeclaredGrows(stmts: seq<Stmt>, lo: nat, hi: nat, known: Declarations)
    requires Declares(stmts, lo, hi) && Clear(known, lo) && lo <= hi
    ensures Extends(known, DeclaredBy(stmts, known)) && Clear(DeclaredBy(stmts, known), hi)
  {
    hide DeclaredBy;
    var more := DeclaredBy(stmts, known);
    DeclaredElsewhere(stmts, lo, hi, known);
    forall id | id in known ensures id in more && more[id] == known[id] {
      assert Unchanged(id, known, more);
    }
    forall id | id in more ensures TempIndex(id) < hi {
      assert lo <= TempIndex(id) < hi || Unchanged(id, known, more);
    }
  }

  ghost predicate TypedLow(l: Low, base: nat, known: Declarations, n: nat) {
    && n <= l.next && Declares(l.stmts, n, l.next) && TypedCode(l.stmts, base, known)
    && Typed(l.expr, base, DeclaredBy(l.stmts, known))
  }

  // Composition.

  lemma DeclaresConcat(a: seq<Stmt>, b: seq<Stmt>, lo: nat, mid: nat, more: nat, hi: nat, from: nat, to: nat)
    requires Declares(a, lo, mid) && Declares(b, more, hi) && from <= lo && mid <= to && from <= more && hi <= to
    ensures Declares(a + b, from, to)
  {
    forall i | 0 <= i < |a + b| && (a + b)[i].VarDecl? ensures from <= TempIndex((a + b)[i].id) < to {
      assert (a + b)[i] == if i < |a| then a[i] else b[i - |a|];
    }
  }

  predicate IsVar(v: IExpr, id: string, t: Ty) {
    || (v.IntVar? && v.id == id && v.typ.AnyInteger() && t.AnyInteger())
    || (v == BoolVar(id) && t == BOOLEAN)
    || v == ObjVar(id, t)
  }

  /** The value of some code is stored in a temporary. */
  lemma StoredTyped(l: Low, k: nat, v: IExpr, t: Ty, base: nat, known: Declarations, n: nat, next: nat)
    requires TypedLow(l, base, known, n) && TempName(k) !in DeclaredBy(l.stmts, known)
    requires t.IsCompatible(TypeOf(l.expr)) && IsVar(v, TempName(k), t)
    ensures var r := Temp(l, TempName(k), v, t, next); var more := DeclaredBy(l.stmts, known)[TempName(k) := t];
            TypedCode(r.stmts, base, known) && DeclaredBy(r.stmts, known) == more && Typed(v, base, more)
  {
    var id, d := TempName(k), DeclaredBy(l.stmts, known);
    var more := d[id := t];
    TypedExtends(l.expr, base, d, more);
    var decl, assign := VarDecl(id, t), Assign(id, l.expr, t);
    CodeSingle(decl, base, d);
    CodeSingle(assign, base, more);
    CodeConcat([decl], [assign], base, d);
    CodeConcat(l.stmts, [decl] + [assign], base, known);
    assert [decl] + [assign] == [decl, assign];
  }

  lemma TempTyped(l: Low, v: IExpr, t: Ty, base: nat, known: Declarations, n: nat)
    requires TypedLow(l, base, known, n) && Clear(known, n)
    requires t.IsCompatible(TypeOf(l.expr)) && IsVar(v, TempName(l.next), t)
    ensures TypedLow(Temp(l, TempName(l.next), v, t, l.next + 1), base, known, n)
  {
    hide TypedCode, Typed, DeclaredBy, TypeOf;
    TempIndexOfName(l.next);
    DeclaredGrows(l.stmts, n, l.next, known);
    StoredTyped(l, l.next, v, t, base, known, n, l.next + 1);
    DeclaresConcat(l.stmts, [VarDecl(TempName(l.next), t), Assign(TempName(l.next), l.expr, t)], n, l.next, l.next,
                   l.next + 1, n, l.next + 1);
  }

  /** An operation whose operands are typed. */
  ghost predicate Combines(e: IExpr, l: IExpr, r: IExpr) {
    forall base, known :: Typed(l, base, known) && Typed(r, base, known) ==> Typed(e, base, known)
  }

  lemma PairTyped(l: Low, r: Low, e: IExpr, base: nat, known: Declarations, n: nat)
    requires Clear(known, n) && TypedLow(l, base, known, n)
    requires TypedLow(r, base, DeclaredBy(l.stmts, known), l.next) && Combines(e, l.expr, r.expr)
    ensures TypedLow(Low(l.stmts + r.stmts, e, r.next), base, known, n)
  {
    hide TypedCode, Typed, DeclaredBy;
    var d := DeclaredBy(l.stmts, known);
    DeclaredGrows(l.stmts, n, l.next, known);
    DeclaredGrows(r.stmts, l.next, r.next, d);
    TypedExtends(l.expr, base, d, DeclaredBy(r.stmts, d));
    CodeConcat(l.stmts, r.stmts, base, known);
    DeclaresConcat(l.stmts, r.stmts, n, l.next, l.next, r.next, n, r.next);
  }

  lemma StoreDeclares(r: Low, k: nat, v: IExpr, t: Ty, lr: nat, from: nat, to: nat)
    requires Declares(r.stmts, lr, r.next) && from <= lr && r.next <= to && from <= k < to
    ensures Declares(Temp(r, TempName(k), v, t, to).stmts, from, to)
  {
    TempIndexOfName(k);
    DeclaresConcat(r.stmts, [VarDecl(TempName(k), t), Assign(TempName(k), r.expr, t)], lr, r.next, k, k + 1, from, to);
  }

  lemma StoreExtends(r: Low, k: nat, t: Ty, known: Declarations, n: nat, lr: nat)
    requires Declares(r.stmts, lr, r.next) && Clear(known, n) && n <= lr && n <= k && !(lr <= k < r.next)
    ensures var more := DeclaredBy(r.stmts, known)[TempName(k) := t];
            && TempName(k) !in DeclaredBy(r.stmts, known) && Extends(known, more)
            && forall id :: id in more ==> TempIndex(id) < n || TempIndex(id) == k || lr <= TempIndex(id) < r.next
  {
    hide DeclaredBy;
    var mid := DeclaredBy(r.stmts, known);
    TempIndexOfName(k);
    DeclaredElsewhere(r.stmts, lr, r.next, known);
    assert Unchanged(TempName(k), known, mid);
    forall id | id in known ensures id in mid && mid[id] == known[id] && id != TempName(k) {
      assert Unchanged(id, known, mid);
    }
    forall id | id in mid ensures TempIndex(id) < n || lr <= TempIndex(id) < r.next {
      assert lr <= TempIndex(id) < r.next || Unchanged(id, known, mid);
    }
  }

  lemma LeftExtends(stmts: seq<Stmt>, lo: nat, hi: nat, more: Declarations)
    requires Declares(stmts, lo, hi) && forall id :: id in more ==> !(lo <= TempIndex(id) < hi)
    ensures Extends(more, DeclaredBy(stmts, more))
  {
    hide DeclaredBy;
    DeclaredElsewhere(stmts, lo, hi, more);
    forall id | id in more ensures id in DeclaredBy(stmts, more) && DeclaredBy(stmts, more)[id] == more[id] {
      assert Unchanged(id, more, DeclaredBy(stmts, more));
    }
  }

  /** The code of an operator with three or more operands: the right part comes first. */
  lemma NaryTyped(l: Low, r: Low, k: nat, v: IExpr, t: Ty, e: IExpr, base: nat, known: Declarations, n: nat, lo: nat,
                  lr: nat)
    requires Clear(known, n) && TypedLow(l, base, known, lo) && TypedLow(r, base, known, lr)
    requires (k == n && lo == n + 1 && lr == l.next) || (lo == n && k == l.next && lr == k + 1)
    requires t.IsCompatible(TypeOf(r.expr)) && IsVar(v, TempName(k), t) && Combines(e, l.expr, v)
    ensures TypedLow(Low(Temp(r, TempName(k), v, t, r.next).stmts + l.stmts, e, r.next), base, known, n)
  {
    hide TypedCode, Typed, DeclaredBy, TypeOf, Declares, Clear, Extends, IsVar;
    var code := Temp(r, TempName(k), v, t, r.next).stmts;
    var more := DeclaredBy(r.stmts, known)[TempName(k) := t];
    StoreExtends(r, k, t, known, n, lr);
    StoredTyped(r, k, v, t, base, known, lr, r.next);
    CodeExtends(l.stmts, base, known, more);
    LeftExtends(l.stmts, lo, l.next, more);
    TypedExtends(v, base, more, DeclaredBy(l.stmts, more));
    TypedExtends(l.expr, base, DeclaredBy(l.stmts, known), DeclaredBy(l.stmts, more));
    CodeConcat(code, l.stmts, base, known);
    StoreDeclares(r, k, v, t, lr, n, r.next);
    DeclaresConcat(code, l.stmts, n, r.next, lo, l.next, n, r.next);
  }

  lemma IfTyped(c: Low, t: Low, f: Low, typ: Ty, base: nat, known: Declarations, n: nat)
    requires TypedLow(c, base, known, n) && BasicBool(c.expr)
    requires TypedLow(t, base, DeclaredBy(c.stmts, known), c.next)
    requires TypedLow(f, base, DeclaredBy(c.stmts, known), t.next)
    requires typ.IsCompatible(TypeOf(t.expr)) && typ.IsCompatible(TypeOf(f.expr))
    ensures var e := IfThenElse(c.expr, Complex(t.stmts, t.expr), Complex(f.stmts, f.expr), typ);
            TypedLow(Low(c.stmts, e, f.next), base, known, n)
  {
    hide DeclaredBy, TypedCode;
    DeclaresConcat(c.stmts, [], n, c.next, c.next, c.next, n, f.next);
    assert c.stmts + [] == c.stmts;
    var d := DeclaredBy(c.stmts, known);
    assert TypedComplex(Complex(t.stmts, t.expr), typ, base, d) && TypedComplex(Complex(f.stmts, f.expr), typ, base, d);
    assert TypeOf(c.expr) == BOOLEAN;
  }

  // The translation, one lemma for each function.

  lemma ArithCombines(op: ArithOp, l: IExpr, r: IExpr)
    requires TypeOf(l).AnyInteger() && TypeOf(r).AnyInteger()
    ensures Combines(Arith(op, l, r), l, r) && TypeOf(Arith(op, l, r)).AnyInteger()
  {
  }

  lemma LogicCombines(conj: bool, l: IExpr, r: IExpr)
    requires TypeOf(l) == BOOLEAN && TypeOf(r) == BOOLEAN
    ensures Combines(Logic(conj, l, r), l, r)
  {
  }

  lemma TestCombines(rel: RelOp, l: IExpr, r: IExpr)
    ensures Combines(Test(rel, l, r), l, r)
  {
  }

  lemma UnaryTyped(l: Low, e: IExpr, base: nat, known: Declarations, n: nat)
    requires TypedLow(l, base, known, n)
    requires (TypeOf(l.expr) == BOOLEAN && e == Not1(l.expr)) || (TypeOf(l.expr).AnyInteger() && e == Minus1(l.expr))
    ensures TypedLow(Low(l.stmts, e, l.next), base, known, n)
  {
  }

  lemma LeafTyped(e: Expr, n: nat, base: nat, known: Declarations)
    requires e.Number? || e.Literal? || e.Variable? || e.Selected?
    requires ToIr(e, n).Ok? && Source(e, base)
    ensures TypedLow(ToIr(e, n).value, base, known, n) && TypeAgrees(ToIr(e, n).value.expr, e)
  {
  }

  /** The type of the code is the type of the source. */
  lemma TypeIsKept(e: Expr, n: nat)
    requires ToIr(e, n).Ok?
    ensures TypeAgrees(ToIr(e, n).value.expr, e)
  {
    match e
    case Neg(x) => ToBasicIntSucceeds(x, n);
    case Ass(op, terms) =>
      if op.IsBool() {
        BoolToIrSucceeds(op, terms, n);
      } else {
        MathTypeIsKept(op, terms, n);
      }
    case Bin(op, l, r) =>
      ToBasicIntSucceeds(l, n);
      ToBasicIntSucceeds(r, ToBasicInt(l, n).value.next);
    case _ =>
  }

  lemma MathTypeIsKept(op: AssOp, terms: seq<Expr>, n: nat)
    requires !op.IsBool() && MathToIr(op, terms, n).Ok?
    ensures TypeAgrees(MathToIr(op, terms, n).value.expr, Ass(op, terms))
  {
    hide AllInteger, Translatable, ToBasicInt, ExprType, TypeOf;
    if terms == [] {
      EmptySum(op);
    } else if |terms| == 1 {
      ToBasicIntSucceeds(terms[0], n);
    } else if |terms| == 2 {
      ToBasicIntSucceeds(terms[0], n);
      ToBasicIntSucceeds(terms[1], ToBasicInt(terms[0], n).value.next);
      IntegerOperation(MathToIr(op, terms, n).value.expr);
    } else {
      var l := ToBasicInt(terms[0], n + 1).value;
      ToBasicIntSucceeds(terms[0], n + 1);
      RestIsInteger(op, terms[1..], l.next, TempName(n));
      IntegerOperation(MathToIr(op, terms, n).value.expr);
    }
  }

  lemma EmptySum(op: AssOp)
    requires !op.IsBool()
    ensures ExprType(Ass(op, [])) == Any && TypeOf(IntVal(0)).AnyInteger()
  {
    assert ExprTypes([]) == [];
  }

  /** The further terms of a sum or product are read as integers. */
  lemma RestIsInteger(op: AssOp, terms: seq<Expr>, n: nat, id: string)
    requires terms != [] && MathToIr(op, terms, n).Ok?
    ensures ExprType(Ass(op, terms)).AnyInteger()
    ensures TypeOf(IntVar(id, ExprType(Ass(op, terms)))) == ExprType(Ass(op, terms))
  {
    hide ExprType;
  }

  lemma BoolIsBoolean(x: IExpr)
    requires BasicBool(x)
    ensures TypeOf(x) == BOOLEAN
  {
  }

  /** Lowered code is typed, for every expression that can be translated: the declared types of the temporaries are
      those of their assignments and compatible with the assigned values, and every operand has the type that its
      operator needs.  Variables of the expression are no temporaries from `base` on. */
  lemma {:induction false} ToIrTyped(e: Expr, n: nat, base: nat, known: Declarations)
    requires ToIr(e, n).Ok? && Source(e, base) && Clear(known, n)
    ensures TypedLow(ToIr(e, n).value, base, known, n)
    decreases e, 0, 1
  {
    hide TypedLow, TypeOf, ExprType, Clear, Typed;
    match e
    case Number(_) => LeafTyped(e, n, base, known);
    case Literal(_) => LeafTyped(e, n, base, known);
    case Variable(_, _) => LeafTyped(e, n, base, known);
    case Selected(_, _, _) => LeafTyped(e, n, base, known);
    case Not(x) =>
      ToBasicBoolTyped(x, n, base, known);
      UnaryTyped(ToBasicBool(x, n).value, ToIr(e, n).value.expr, base, known, n);
    case Neg(x) =>
      ToBasicIntTyped(x, n, base, known);
      UnaryTyped(ToBasicInt(x, n).value, ToIr(e, n).value.expr, base, known, n);
    case Ass(op, terms) =>
      if op.IsBool() {
        BoolToIrTyped(op, terms, n, base, known);
      } else {
        MathToIrTyped(op, terms, n, base, known);
      }
    case Bin(op, left, right) => PairIntTyped(e, n, base, known);
    case Rel(rel, left, right) =>
      var l := ToBasic(left, n).value;
      ToBasicTyped(left, n, base, known);
      LowGrows(l, base, known, n);
      ToBasicTyped(right, l.next, base, DeclaredBy(l.stmts, known));
      var r := ToBasic(right, l.next).value;
      TestCombines(rel, l.expr, r.expr);
      PairTyped(l, r, Test(rel, l.expr, r.expr), base, known, n);
    case If(cond, thn, rest) => IfToIrTyped(cond, thn, rest, n, base, known);
  }

  lemma LowGrows(l: Low, base: nat, known: Declarations, n: nat)
    requires TypedLow(l, base, known, n) && Clear(known, n)
    ensures Clear(DeclaredBy(l.stmts, known), l.next) && n <= l.next
  {
    DeclaredGrows(l.stmts, n, l.next, known);
  }

  lemma ClearLater(known: Declarations, n: nat, m: nat)
    requires Clear(known, n) && n <= m
    ensures Clear(known, m)
  {
  }

  lemma {:induction false} PairIntTyped(e: Expr, n: nat, base: nat, known: Declarations)
    requires e.Bin? && ToIr(e, n).Ok? && Source(e, base) && Clear(known, n)
    ensures TypedLow(ToIr(e, n).value, base, known, n)
    decreases e, 0, 0
  {
    hide TypedLow, TypeOf, ExprType, Clear, Typed;
    var l := ToBasicInt(e.left, n).value;
    ToBasicIntTyped(e.left, n, base, known);
    LowGrows(l, base, known, n);
    ToBasicIntTyped(e.right, l.next, base, DeclaredBy(l.stmts, known));
    var r, op := ToBasicInt(e.right, l.next).value, ToArith(e.bin);
    ArithCombines(op, l.expr, r.expr);
    PairTyped(l, r, Arith(op, l.expr, r.expr), base, known, n);
  }

  lemma {:induction false} IfToIrTyped(cond: Expr, thn: Expr, rest: Else, n: nat, base: nat, known: Declarations)
    requires IfToIr(cond, thn, rest, n).Ok? && Clear(known, n)
    requires Source(cond, base) && Source(thn, base) && ElseSource(rest, base)
    ensures TypedLow(IfToIr(cond, thn, rest, n).value, base, known, n)
    decreases If(cond, thn, rest), 0, 0
  {
    hide TypedLow, TypeOf, ExprType, Clear, Typed;
    var c := ToBasicBool(cond, n).value;
    var t := ToIr(thn, c.next).value;
    var f := ToIr(rest.els, t.next).value;
    ToBasicBoolTyped(cond, n, base, known);
    LowGrows(c, base, known, n);
    var d := DeclaredBy(c.stmts, known);
    ClearLater(d, c.next, t.next);
    ToIrTyped(thn, c.next, base, d);
    ToIrTyped(rest.els, t.next, base, d);
    TypeIsKept(thn, c.next);
    TypeIsKept(rest.els, t.next);
    var typ := ExprType(thn).CommonType(ExprType(rest.els));
    BranchesCompatible(t.expr, f.expr, thn, rest.els);
    ToBasicBoolSucceeds(cond, n);
    IfTyped(c, t, f, typ, base, known, n);
  }

  lemma BranchesCompatible(x: IExpr, y: IExpr, a: Expr, b: Expr)
    requires TypeAgrees(x, a) && TypeAgrees(y, b)
    requires SameKind(ExprType(a), ExprType(b))
    ensures var t := ExprType(a).CommonType(ExprType(b)); t.IsCompatible(TypeOf(x)) && t.IsCompatible(TypeOf(y))
  {
    hide ExprType, TypeOf;
  }

  /** An operand of a declared integer type is kept in this type, whether it is stored in a temporary or not; a
      temporary for a computed constant is of type `Base_Integer`. */
  lemma {:induction false} OperandKeepsType(e: Expr, n: nat)
    requires ToBasicInt(e, n).Ok?
    ensures ExprType(e).Integer? ==> TypeOf(ToBasicInt(e, n).value.expr) == ExprType(e)
    ensures ExprType(e).UniversalInteger? && !BasicInt(ToIr(e, n).value.expr) ==>
              TypeOf(ToBasicInt(e, n).value.expr) == BASE_INTEGER
    decreases e
  {
    hide CommonTypeOf;
    if ExprType(e).UniversalInteger? {
    } else if e.Ass? && |e.terms| == 1 {
      SingleType(e);
      assert ToIr(e, n) == MathToIr(e.ass, e.terms, n) == ToBasicInt(e.terms[0], n);
      OperandKeepsType(e.terms[0], n);
    } else if e.Ass? && e.terms == [] {
      EmptySum(e.ass);
    } else if e.Ass? {
      assert ToIr(e, n) == MathToIr(e.ass, e.terms, n);
      assert ToIr(e, n).value.expr.Arith?;
    } else if e.If? {
      assert ToIr(e, n) == IfToIr(e.cond, e.thn, e.rest, n);
    } else {
      assert BasicInt(ToIr(e, n).value.expr) ==> e.Variable? && TypeOf(ToIr(e, n).value.expr) == ExprType(e);
    }
  }

  lemma SingleType(e: Expr)
    requires e.Ass? && !e.ass.IsBool() && |e.terms| == 1
    ensures ExprType(e) == Defined(ExprType(e.terms[0]))
  {
    var t := ExprType(e.terms[0]);
    assert e.terms[1..] == [] && ExprTypes(e.terms[1..]) == [];
    assert ExprTypes(e.terms) == [t] && [t][1..] == [];
    FirstMember([t]);
    NoMembers();
  }

  lemma IntegerStore(x: IExpr, e: Expr, k: nat)
    requires TypeAgrees(x, e) && ExprType(e).AnyInteger()
    ensures var t := ToInteger(ExprType(e)); t.IsCompatible(TypeOf(x)) && IsVar(IntVar(TempName(k), t), TempName(k), t)
  {
    hide ExprType, TypeOf;
  }

  lemma {:induction false} ToBasicIntTyped(e: Expr, n: nat, base: nat, known: Declarations)
    requires ToBasicInt(e, n).Ok? && Source(e, base) && Clear(known, n)
    ensures TypedLow(ToBasicInt(e, n).value, base, known, n) && TypeOf(ToBasicInt(e, n).value.expr).AnyInteger()
    decreases e, 1
  {
    hide TypedLow, TypeOf, ExprType, Clear, Typed;
    ToIrTyped(e, n, base, known);
    ToBasicIntSucceeds(e, n);
    TypeIsKept(e, n);
    var l := ToIr(e, n).value;
    var t := ToInteger(ExprType(e));
    IntegerStore(l.expr, e, l.next);
    TempTyped(l, IntVar(TempName(l.next), t), t, base, known, n);
  }

  lemma {:induction false} ToBasicBoolTyped(e: Expr, n: nat, base: nat, known: Declarations)
    requires ToBasicBool(e, n).Ok? && Source(e, base) && Clear(known, n)
    ensures TypedLow(ToBasicBool(e, n).value, base, known, n) && TypeOf(ToBasicBool(e, n).value.expr) == BOOLEAN
    decreases e, 1
  {
    hide TypedLow, TypeOf, ExprType, Clear, Typed;
    ToIrTyped(e, n, base, known);
    ToBasicBoolSucceeds(e, n);
    TypeIsKept(e, n);
    var l := ToIr(e, n).value;
    TempTyped(l, BoolVar(TempName(l.next)), BOOLEAN, base, known, n);
    BoolIsBoolean(ToBasicBool(e, n).value.expr);
  }

  /** The temporary for an operand of a relation has the type of the operand. */
  lemma {:induction false} ToBasicTyped(e: Expr, n: nat, base: nat, known: Declarations)
    requires ToBasic(e, n).Ok? && Source(e, base) && Clear(known, n)
    ensures TypedLow(ToBasic(e, n).value, base, known, n)
    decreases e, 1
  {
    hide TypedLow, TypeOf, ExprType, Clear, Typed;
    ToIrTyped(e, n, base, known);
    TypeIsKept(e, n);
    var l := ToIr(e, n).value;
    if Basic(l.expr) {
    } else if TypeOf(l.expr) == BOOLEAN {
      TempTyped(l, BoolVar(TempName(l.next)), BOOLEAN, base, known, n);
    } else if TypeOf(l.expr).AnyInteger() {
      var t := ToInteger(ExprType(e));
      IntegerStore(l.expr, e, l.next);
      TempTyped(l, IntVar(TempName(l.next), t), t, base, known, n);
    } else {
      TempTyped(l, ObjVar(TempName(l.next), ExprType(e)), ExprType(e), base, known, n);
    }
  }

  lemma {:induction false} BoolToIrTyped(op: AssOp, terms: seq<Expr>, n: nat, base: nat, known: Declarations)
    requires BoolToIr(op, terms, n).Ok? && AllSource(terms, base) && Clear(known, n)
    ensures TypedLow(BoolToIr(op, terms, n).value, base, known, n)
    ensures TypeOf(BoolToIr(op, terms, n).value.expr) == BOOLEAN
    decreases terms, 1
  {
    hide TypedLow, TypeOf, ExprType, Clear, Typed, Source;
    if terms == [] {
      ConstantTyped(BoolVal(true), n, base, known);
    } else if |terms| == 1 {
      ToBasicBoolTyped(terms[0], n, base, known);
    } else if |terms| == 2 {
      var l := ToBasicBool(terms[0], n).value;
      ToBasicBoolTyped(terms[0], n, base, known);
      LowGrows(l, base, known, n);
      assert terms[1..][0] == terms[1];
      ToBasicBoolTyped(terms[1], l.next, base, DeclaredBy(l.stmts, known));
      var r := ToBasicBool(terms[1], l.next).value;
      LogicIsBoolean(op == And, l.expr, r.expr);
      PairTyped(l, r, Logic(op == And, l.expr, r.expr), base, known, n);
    } else {
      var l := ToBasicBool(terms[0], n).value;
      var k := l.next;
      ToBasicBoolTyped(terms[0], n, base, known);
      ClearLater(known, n, k + 1);
      BoolToIrTyped(op, terms[1..], k + 1, base, known);
      var v := BoolVar(TempName(k));
      LogicIsBoolean(op == And, l.expr, v);
      NaryTyped(l, BoolToIr(op, terms[1..], k + 1).value, k, v, BOOLEAN, Logic(op == And, l.expr, v), base, known, n, n,
                k + 1);
    }
  }

  lemma LogicIsBoolean(conj: bool, l: IExpr, r: IExpr)
    requires TypeOf(l) == BOOLEAN && (TypeOf(r) == BOOLEAN || r.BoolVar?)
    ensures Combines(Logic(conj, l, r), l, r) && TypeOf(Logic(conj, l, r)) == BOOLEAN
  {
    LogicCombines(conj, l, r);
  }

  lemma ConstantTyped(x: IExpr, n: nat, base: nat, known: Declarations)
    requires x.BoolVal? || x.IntVal?
    ensures TypedLow(Low([], x, n), base, known, n) && (x.BoolVal? ==> TypeOf(x) == BOOLEAN)
  {
  }

  lemma {:induction false} MathToIrTyped(op: AssOp, terms: seq<Expr>, n: nat, base: nat, known: Declarations)
    requires !op.IsBool() && MathToIr(op, terms, n).Ok? && AllSource(terms, base) && Clear(known, n)
    ensures TypedLow(MathToIr(op, terms, n).value, base, known, n)
    decreases terms, 1
  {
    hide TypedLow, TypeOf, ExprType, Clear, Typed, Source;
    if terms == [] {
      ConstantTyped(IntVal(0), n, base, known);
    } else if |terms| == 1 {
      ToBasicIntTyped(terms[0], n, base, known);
    } else if |terms| == 2 {
      assert terms[1..][0] == terms[1];
      PairTermsTyped(op, terms, n, base, known);
    } else {
      var l := ToBasicInt(terms[0], n + 1).value;
      ClearLater(known, n, n + 1);
      ToBasicIntTyped(terms[0], n + 1, base, known);
      ClearLater(known, n, l.next);
      MathToIrTyped(op, terms[1..], l.next, base, known);
      var r := MathToIr(op, terms[1..], l.next).value;
      MathTypeIsKept(op, terms[1..], l.next);
      var v := IntVar(TempName(n), ExprType(Ass(op, terms[1..])));
      RestIsInteger(op, terms[1..], l.next, TempName(n));
      var t := ToInteger(ExprType(Ass(op, terms)));
      RestIsStored(r.expr, op, terms[1..], t, v);
      ArithCombines(AssArith(op), l.expr, v);
      NaryTyped(l, r, n, v, t, Arith(AssArith(op), l.expr, v), base, known, n, n + 1, l.next);
    }
  }

  lemma {:induction false} PairTermsTyped(op: AssOp, terms: seq<Expr>, n: nat, base: nat, known: Declarations)
    requires !op.IsBool() && |terms| == 2 && MathToIr(op, terms, n).Ok? && AllSource(terms, base) && Clear(known, n)
    requires terms[1..][0] == terms[1]
    ensures TypedLow(MathToIr(op, terms, n).value, base, known, n)
    decreases terms, 0, 0
  {
    hide TypedLow, TypeOf, ExprType, Clear, Typed, Source;
    var l := ToBasicInt(terms[0], n).value;
    ToBasicIntTyped(terms[0], n, base, known);
    LowGrows(l, base, known, n);
    ToBasicIntTyped(terms[1], l.next, base, DeclaredBy(l.stmts, known));
    var r := ToBasicInt(terms[1], l.next).value;
    ArithCombines(AssArith(op), l.expr, r.expr);
    PairTyped(l, r, Arith(AssArith(op), l.expr, r.expr), base, known, n);
  }

  lemma RestIsStored(x: IExpr, op: AssOp, terms: seq<Expr>, t: Ty, v: IExpr)
    requires TypeAgrees(x, Ass(op, terms)) && ExprType(Ass(op, terms)).AnyInteger() && t.AnyInteger()
    requires v.IntVar? && v.typ == ExprType(Ass(op, terms))
    ensures t.IsCompatible(TypeOf(x)) && IsVar(v, v.id, t)
  {
    hide ExprType, TypeOf;
  }
}
