/** The static types of three-address code: declarations, assignments and values agree, before and after the passes
    that convert operands and insert checks. */
module Typing {
  import opened Results
  import opened Types
  import opened Expressions
  import opened Identifiers
  import opened Temporaries
  import opened Ir
  import opened Checks
  import opened ChecksMeaning

  /** The declared types of temporaries. */
  type Declarations = map<string, Ty>

  /** Operands have the type that their operator needs, and temporaries are read as what they were declared. */
  predicate Typed(e: IExpr, base: nat, known: Declarations)
    decreases e
  {
    match e
    case IntVar(id, t) => t.AnyInteger() && (TempIndex(id) < base || (id in known && known[id].AnyInteger()))
    case BoolVar(id) => TempIndex(id) < base || (id in known && known[id] == BOOLEAN)
    case ObjVar(id, t) => TempIndex(id) < base || (id in known && known[id] == t)
    case IntConversion(t, x) => t.Integer? && TypeOf(x).AnyInteger() && Typed(x, base, known)
    case First(t) => t.Integer?
    case Last(t) => t.Integer?
    case Minus1(x) => TypeOf(x).AnyInteger() && Typed(x, base, known)
    case Arith(_, l, r) =>
      TypeOf(l).AnyInteger() && TypeOf(r).AnyInteger() && Typed(l, base, known) && Typed(r, base, known)
    case Not1(x) => TypeOf(x) == BOOLEAN && Typed(x, base, known)
    case Logic(_, l, r) =>
      TypeOf(l) == BOOLEAN && TypeOf(r) == BOOLEAN && Typed(l, base, known) && Typed(r, base, known)
    case Test(_, l, r) => Typed(l, base, known) && Typed(r, base, known)
    case IfThenElse(c, t, f, typ) =>
      && TypeOf(c) == BOOLEAN && Typed(c, base, known)
      && TypedComplex(t, typ, base, known) && TypedComplex(f, typ, base, known)
    case _ => true
  }

  predicate TypedComplex(c: Complex, typ: Ty, base: nat, known: Declarations)
    decreases c
  {
    && TypedCode(c.stmts, base, known) && typ.IsCompatible(TypeOf(c.expr))
    && Typed(c.expr, base, DeclaredBy(c.stmts, known))
  }

  /** A temporary is assigned with the type it was declared with, and this type is compatible with the value. */
  predicate TypedStmt(s: Stmt, base: nat, known: Declarations)
    decreases s
  {
    match s
    case VarDecl(_, _) => true
    case Assign(id, e, t) =>
      && Typed(e, base, known) && t.IsCompatible(TypeOf(e))
      && (TempIndex(id) < base || (id in known && known[id] == t))
    case Check(goal) => Typed(goal, base, known) && TypeOf(goal) == BOOLEAN
  }

  predicate TypedCode(stmts: seq<Stmt>, base: nat, known: Declarations)
    decreases stmts
  {
    stmts == [] || (TypedStmt(stmts[0], base, known) && TypedCode(stmts[1..], base, Declare(stmts[0], known)))
  }

  function Declare(s: Stmt, known: Declarations): Declarations {
    if s.VarDecl? then known[s.id := s.typ] else known
  }

  function DeclaredBy(stmts: seq<Stmt>, known: Declarations): Declarations
    decreases stmts
  {
    if stmts == [] then known else DeclaredBy(stmts[1..], Declare(stmts[0], known))
  }

  // More declarations.

  ghost predicate Extends(known: Declarations, more: Declarations) {
    forall id :: id in known ==> id in more && more[id] == known[id]
  }

  /** No temporary with a number from `lo` up to `hi` is declared. */
  ghost predicate Free(known: Declarations, lo: nat, hi: nat) {
    forall k: nat :: lo <= k < hi ==> TempName(k) !in known
  }

  lemma {:induction false} TypedExtends(e: IExpr, base: nat, known: Declarations, more: Declarations)
    requires Typed(e, base, known) && Extends(known, more)
    ensures Typed(e, base, more)
    decreases e
  {
    match e
    case IntConversion(_, x) => TypedExtends(x, base, known, more);
    case Minus1(x) => TypedExtends(x, base, known, more);
    case Arith(_, l, r) =>
      TypedExtends(l, base, known, more);
      TypedExtends(r, base, known, more);
    case Not1(x) => TypedExtends(x, base, known, more);
    case Logic(_, l, r) =>
      TypedExtends(l, base, known, more);
      TypedExtends(r, base, known, more);
    case Test(_, l, r) =>
      TypedExtends(l, base, known, more);
      TypedExtends(r, base, known, more);
    case IfThenElse(c, t, f, _) =>
      TypedExtends(c, base, known, more);
      CodeExtends(t.stmts, base, known, more);
      TypedExtends(t.expr, base, DeclaredBy(t.stmts, known), DeclaredBy(t.stmts, more));
      CodeExtends(f.stmts, base, known, more);
      TypedExtends(f.expr, base, DeclaredBy(f.stmts, known), DeclaredBy(f.stmts, more));
    case _ =>
  }

  lemma {:induction false} CodeExtends(stmts: seq<Stmt>, base: nat, known: Declarations, more: Declarations)
    requires TypedCode(stmts, base, known) && Extends(known, more)
    ensures TypedCode(stmts, base, more) && Extends(DeclaredBy(stmts, known), DeclaredBy(stmts, more))
    decreases stmts
  {
    if stmts != [] {
      StmtExtends(stmts[0], base, known, more);
      CodeExtends(stmts[1..], base, Declare(stmts[0], known), Declare(stmts[0], more));
    }
  }

  lemma {:induction false} StmtExtends(s: Stmt, base: nat, known: Declarations, more: Declarations)
    requires TypedStmt(s, base, known) && Extends(known, more)
    ensures TypedStmt(s, base, more)
    decreases s
  {
    match s
    case VarDecl(_, _) =>
    case Assign(_, e, _) => TypedExtends(e, base, known, more);
    case Check(e) => TypedExtends(e, base, known, more);
  }

  lemma {:induction false} CodeConcat(a: seq<Stmt>, b: seq<Stmt>, base: nat, known: Declarations)
    ensures TypedCode(a + b, base, known) <==> TypedCode(a, base, known) && TypedCode(b, base, DeclaredBy(a, known))
    ensures DeclaredBy(a + b, known) == DeclaredBy(b, DeclaredBy(a, known))
  {
    if a == [] {
      assert a + b == b;
    } else {
      assert (a + b)[1..] == a[1..] + b;
      CodeConcat(a[1..], b, base, Declare(a[0], known));
    }
  }

  lemma CodeSingle(s: Stmt, base: nat, known: Declarations)
    ensures TypedCode([s], base, known) <==> TypedStmt(s, base, known)
    ensures DeclaredBy([s], known) == Declare(s, known)
  {
    assert [s][1..] == [];
  }

  // Conversions.

  /** The operands of an operation, or the expression itself, need no conversion. */
  predicate Fitting(e: IExpr, target: Ty) {
    if e.Arith? then
      target.Integer? && target.IsCompatibleStrong(TypeOf(e.left)) && target.IsCompatibleStrong(TypeOf(e.right))
    else target.IsCompatibleStrong(TypeOf(e)) || !(target.Integer? || target.Enumeration?)
  }

  lemma OperandFits(x: IExpr, target: Ty)
    requires target.Integer?
    ensures target.IsCompatibleStrong(TypeOf(ConvertOperand(x, target)))
    ensures ConvertOperand(x, target) == x <==> target.IsCompatibleStrong(TypeOf(x))
  {
    hide TypeOf;
    assert TypeOf(IntConversion(target, x)) == target by { ConversionType(x, target); }
  }

  lemma ConversionType(x: IExpr, target: Ty)
    ensures TypeOf(IntConversion(target, x)) == target
  {
  }

  /** Conversion makes an expression fitting, and changes it exactly if it was not: it is the least conversion. */
  lemma ConversionIsLeast(e: IExpr, target: Ty)
    requires (e.Arith? || target.IsCompatible(TypeOf(e))) && Convert(e, target).Ok?
    ensures Fitting(Convert(e, target).value, target)
    ensures Convert(e, target).value == e <==> Fitting(e, target)
    ensures Convert(Convert(e, target).value, target) == Convert(e, target)
  {
    hide TypeOf;
    if e.Arith? {
      OperandFits(e.left, target);
      OperandFits(e.right, target);
      hide ConvertOperand;
      OperandFits(ConvertOperand(e.left, target), target);
      OperandFits(ConvertOperand(e.right, target), target);
    } else {
      ConversionType(e, target);
    }
  }

  lemma ConvertedIsTyped(s: Stmt, base: nat, known: Declarations)
    requires ConvertStmt(s).Ok? && TypedStmt(s, base, known)
    ensures TypedStmt(ConvertStmt(s).value, base, known)
    ensures Declare(ConvertStmt(s).value, known) == Declare(s, known)
  {
    if s.Assign? && s.expr.Arith? {
      var l, r := ConvertOperand(s.expr.left, s.typ), ConvertOperand(s.expr.right, s.typ);
      assert Typed(l, base, known) && Typed(r, base, known);
    }
  }

  /** Converted code is typed. */
  lemma {:induction false} ConversionsAreTyped(stmts: seq<Stmt>, base: nat, known: Declarations)
    requires AddConversions(stmts).Ok? && TypedCode(stmts, base, known)
    ensures TypedCode(AddConversions(stmts).value, base, known)
    decreases |stmts|
  {
    if stmts != [] {
      hide Convert, Typed;
      ConvertedIsTyped(stmts[0], base, known);
      ConversionsAreTyped(stmts[1..], base, Declare(stmts[0], known));
      var first, rest := ConvertStmt(stmts[0]).value, AddConversions(stmts[1..]).value;
      assert ([first] + rest)[1..] == rest;
    }
  }

  // Checks.

  /** A condition refers to what its own facts declare, and compares integers. */
  ghost predicate TypedCond(c: Cond, base: nat, known: Declarations) {
    && Extends(known, DeclaredBy(c.facts, known))
    && TypedCode(c.facts, base, known) && TypedStmt(Check(c.goal), base, DeclaredBy(c.facts, known))
    && (c.goal.Test? ==> TypeOf(c.goal.left).AnyInteger() && TypeOf(c.goal.right).AnyInteger())
  }

  /** The facts of a condition declare and assign one temporary of type `Base_Integer`. */
  ghost predicate BaseFacts(facts: seq<Stmt>, lo: nat, hi: nat) {
    || facts == []
    || (exists k: nat, e ::
          && lo <= k < hi
          && facts == [VarDecl(TempName(k), BASE_INTEGER), Assign(TempName(k), e, BASE_INTEGER)]
          && BASE_INTEGER.IsCompatible(TypeOf(e)))
  }

  lemma IntegersInCommon(l: IExpr, r: IExpr)
    requires TypeOf(l).AnyInteger() && TypeOf(r).AnyInteger()
    ensures TypeOf(l).CommonType(TypeOf(r)).AnyInteger()
  {
  }

  lemma StoreIsTyped(k: nat, e: IExpr, base: nat, known: Declarations)
    requires Typed(e, base, known) && TypeOf(e).AnyInteger() && TempName(k) !in known
    ensures var facts := Store(TempName(k), e);
            && TypedCode(facts, base, known) && BaseFacts(facts, k, k + 1)
            && DeclaredBy(facts, known) == known[TempName(k) := BASE_INTEGER]
  {
    var id, facts := TempName(k), Store(TempName(k), e);
    var more := known[id := BASE_INTEGER];
    TypedExtends(e, base, known, more);
    CodeSingle(facts[1], base, more);
    assert facts[1..] == [facts[1]] && Declare(facts[0], known) == more;
    assert DeclaredBy(facts, known) == DeclaredBy(facts[1..], more) && TypedStmt(facts[0], base, known);
    assert facts == [VarDecl(TempName(k), BASE_INTEGER), Assign(TempName(k), e, BASE_INTEGER)];
  }

  /** The value that the fact of an operation stores. */
  function FactOf(op: ArithOp, l: IExpr, r: IExpr, upper: int): IExpr
    requires NeedsTemp(op)
  {
    OperationCond(op, l, r, upper, "").facts[1].expr
  }

  lemma FactIsTyped(op: ArithOp, l: IExpr, r: IExpr, upper: int, base: nat, known: Declarations)
    requires NeedsTemp(op) && Typed(Arith(op, l, r), base, known)
    ensures var e := FactOf(op, l, r, upper); Typed(e, base, known) && TypeOf(e).AnyInteger()
    ensures forall id :: OperationCond(op, l, r, upper, id).facts == Store(id, FactOf(op, l, r, upper))
  {
    var e := FactOf(op, l, r, upper);
    assert Typed(e.left, base, known) && Typed(e.right, base, known);
    IntegersInCommon(e.left, e.right);
  }

  lemma DirectIsTyped(op: ArithOp, l: IExpr, r: IExpr, upper: int, id: string, base: nat, known: Declarations)
    requires Typed(Arith(op, l, r), base, known) && !NeedsTemp(op)
    ensures var c := OperationCond(op, l, r, upper, id); TypedCond(c, base, known) && c.facts == []
  {
  }

  lemma StoredIsTyped(op: ArithOp, l: IExpr, r: IExpr, upper: int, k: nat, base: nat, known: Declarations,
                      more: Declarations)
    requires NeedsTemp(op) && Typed(Arith(op, l, r), base, known) && Extends(known, more)
    requires TempName(k) in more && more[TempName(k)] == BASE_INTEGER
    ensures var goal := OperationCond(op, l, r, upper, TempName(k)).goal;
            TypedStmt(Check(goal), base, more)
            && (goal.Test? ==> TypeOf(goal.left).AnyInteger() && TypeOf(goal.right).AnyInteger())
  {
    TypedExtends(l, base, known, more);
    IntegersInCommon(l, r);
    var v := IntVar(TempName(k), if op == Raise then TypeOf(Arith(op, l, r)) else BASE_INTEGER);
    assert TypeOf(v) == v.typ && v.typ.AnyInteger() && Typed(v, base, more);
    ComparisonIsTyped(l, v, base, more);
    ComparisonIsTyped(v, IntVal(upper), base, more);
    hide Store, Typed, TypeOf;
  }

  lemma ComparisonIsTyped(l: IExpr, r: IExpr, base: nat, known: Declarations)
    requires Typed(l, base, known) && Typed(r, base, known) && TypeOf(l).AnyInteger()
    ensures TypedStmt(Check(Test(LessEqual, l, r)), base, known)
    ensures r.IntVal? ==> TypeOf(r).AnyInteger()
  {
  }

  /** The condition of an operation is typed, and its fact has type `Base_Integer`. */
  lemma OperationIsTyped(op: ArithOp, l: IExpr, r: IExpr, upper: int, k: nat, base: nat, known: Declarations)
    requires Typed(Arith(op, l, r), base, known) && (NeedsTemp(op) ==> TempName(k) !in known)
    ensures var c := OperationCond(op, l, r, upper, TempName(k));
            && TypedCond(c, base, known)
            && if NeedsTemp(op) then BaseFacts(c.facts, k, k + 1) else c.facts == []
  {
    var c := OperationCond(op, l, r, upper, TempName(k));
    if NeedsTemp(op) {
      FactIsTyped(op, l, r, upper, base, known);
      hide OperationCond, FactOf, Store, BaseFacts, Typed, TypeOf, TypedStmt;
      StoreIsTyped(k, FactOf(op, l, r, upper), base, known);
      StoredIsTyped(op, l, r, upper, k, base, known, DeclaredBy(c.facts, known));
    } else {
      hide OperationCond, Typed, TypeOf, TypedStmt;
      DirectIsTyped(op, l, r, upper, TempName(k), base, known);
    }
  }

  /** The declarations after the facts of all conditions. */
  function After(conds: seq<Cond>, known: Declarations): Declarations
    decreases |conds|
  {
    if conds == [] then known else After(conds[1..], DeclaredBy(conds[0].facts, known))
  }

  ghost predicate TypedConds(conds: seq<Cond>, base: nat, known: Declarations)
    decreases |conds|
  {
    conds == []
    || (TypedCond(conds[0], base, known) && TypedConds(conds[1..], base, DeclaredBy(conds[0].facts, known)))
  }

  ghost predicate BaseConds(conds: seq<Cond>, lo: nat, hi: nat) {
    forall i :: 0 <= i < |conds| ==> BaseFacts(conds[i].facts, lo, hi)
  }

  lemma {:induction false} CondsConcat(a: seq<Cond>, b: seq<Cond>, base: nat, known: Declarations)
    ensures TypedConds(a + b, base, known) <==> TypedConds(a, base, known) && TypedConds(b, base, After(a, known))
    ensures After(a + b, known) == After(b, After(a, known))
    decreases |a|
  {
    hide TypedCond;
    if a == [] {
      assert a + b == b;
    } else {
      assert (a + b)[1..] == a[1..] + b;
      CondsConcat(a[1..], b, base, DeclaredBy(a[0].facts, known));
    }
  }

  lemma BaseFactsDeclare(facts: seq<Stmt>, known: Declarations, lo: nat, hi: nat, k: nat)
    requires BaseFacts(facts, lo, hi) && TempName(k) in DeclaredBy(facts, known)
    ensures TempName(k) in known || lo <= k < hi
  {
    if facts != [] {
      var j: nat, e :| lo <= j < hi
        && facts == [VarDecl(TempName(j), BASE_INTEGER), Assign(TempName(j), e, BASE_INTEGER)];
      assert facts == [facts[0]] + [facts[1]];
      CodeConcat([facts[0]], [facts[1]], 0, known);
      CodeSingle(facts[0], 0, known);
      CodeSingle(facts[1], 0, known[TempName(j) := BASE_INTEGER]);
      TempIndexOfName(j);
      TempIndexOfName(k);
    }
  }

  lemma {:induction false} AfterDeclares(conds: seq<Cond>, base: nat, known: Declarations, lo: nat, hi: nat)
    requires BaseConds(conds, lo, hi) && TypedConds(conds, base, known)
    ensures Extends(known, After(conds, known))
    ensures forall k: nat :: TempName(k) in After(conds, known) ==> TempName(k) in known || lo <= k < hi
    decreases |conds|
  {
    if conds != [] {
      hide BaseFacts, TypedCode, TypedStmt;
      var more := DeclaredBy(conds[0].facts, known);
      AfterDeclares(conds[1..], base, more, lo, hi);
      forall k: nat | TempName(k) in more ensures TempName(k) in known || lo <= k < hi {
        BaseFactsDeclare(conds[0].facts, known, lo, hi, k);
      }
    }
  }

  lemma BaseFactsWiden(facts: seq<Stmt>, lo: nat, hi: nat, from: nat, to: nat)
    requires BaseFacts(facts, lo, hi) && from <= lo && hi <= to
    ensures BaseFacts(facts, from, to)
  {
    if facts != [] {
      var k: nat, e :| lo <= k < hi
        && facts == [VarDecl(TempName(k), BASE_INTEGER), Assign(TempName(k), e, BASE_INTEGER)]
        && BASE_INTEGER.IsCompatible(TypeOf(e));
      assert from <= k < to;
    }
  }

  lemma BaseCondsWiden(conds: seq<Cond>, lo: nat, hi: nat, from: nat, to: nat)
    requires BaseConds(conds, lo, hi) && from <= lo && hi <= to
    ensures BaseConds(conds, from, to)
  {
    hide BaseFacts;
    forall i | 0 <= i < |conds| ensures BaseFacts(conds[i].facts, from, to) {
      BaseFactsWiden(conds[i].facts, lo, hi, from, to);
    }
  }

  lemma BaseCondsConcat(a: seq<Cond>, b: seq<Cond>, lo: nat, hi: nat)
    requires BaseConds(a, lo, hi) && BaseConds(b, lo, hi)
    ensures BaseConds(a + b, lo, hi)
  {
    hide BaseFacts;
  }

  lemma GoalIsTyped(c: Cond, base: nat, known: Declarations)
    requires c.facts == [] && TypedStmt(Check(c.goal), base, known)
    requires c.goal.Test? ==> TypeOf(c.goal.left).AnyInteger() && TypeOf(c.goal.right).AnyInteger()
    ensures TypedCond(c, base, known)
  {
    assert DeclaredBy([], known) == known;
  }

  lemma AfterNothing(c: Cond, known: Declarations)
    requires c.facts == []
    ensures After([c], known) == known
  {
    assert [c][1..] == [];
    assert DeclaredBy([], known) == known;
  }

  lemma BoundIsTyped(l: IExpr, r: IExpr, base: nat, known: Declarations)
    requires Typed(l, base, known) && Typed(r, base, known) && TypeOf(l).AnyInteger() && TypeOf(r).AnyInteger()
    ensures TypedConds([Cond(Test(LessEqual, ToBase(l), ToBase(r)), [])], base, known)
    ensures TypeOf(ToBase(l)) == TypeOf(ToBase(r)) == BASE_INTEGER
  {
    var c := Cond(Test(LessEqual, ToBase(l), ToBase(r)), []);
    assert Typed(ToBase(l), base, known) && Typed(ToBase(r), base, known);
    GoalIsTyped(c, base, known);
    SingleCond(c, base, known);
  }

  /** Both sides of the range checks of a conversion have type `Base_Integer`. */
  lemma RangeIsTyped(t: Ty, x: IExpr, base: nat, known: Declarations)
    requires Typed(IntConversion(t, x), base, known)
    ensures TypedConds(RangeConds(t, x), base, known)
    ensures forall lo, hi :: BaseConds(RangeConds(t, x), lo, hi)
    ensures forall i :: 0 <= i < |RangeConds(t, x)| ==>
              var goal := RangeConds(t, x)[i].goal;
              goal.Test? && TypeOf(goal.left) == BASE_INTEGER && TypeOf(goal.right) == BASE_INTEGER
  {
    var conds := RangeConds(t, x);
    BoundIsTyped(First(t), x, base, known);
    BoundIsTyped(x, Last(t), base, known);
    assert conds == [conds[0]] + [conds[1]];
    hide Typed, TypeOf, TypedConds;
    CondsConcat([conds[0]], [conds[1]], base, known);
    AfterNothing(conds[0], known);
  }

  lemma SingleCond(c: Cond, base: nat, known: Declarations)
    ensures TypedConds([c], base, known) <==> TypedCond(c, base, known)
  {
    hide TypedCond;
    assert [c][1..] == [];
  }

  lemma ValidIsTyped(m: string, f: string, base: nat, known: Declarations)
    ensures TypedConds([Cond(FieldValid(m, f), [])], base, known)
    ensures forall lo, hi :: BaseConds([Cond(FieldValid(m, f), [])], lo, hi)
  {
    var c := Cond(FieldValid(m, f), []);
    GoalIsTyped(c, base, known);
    SingleCond(c, base, known);
  }

  lemma NoConds(base: nat, known: Declarations)
    ensures TypedConds([], base, known) && forall lo, hi :: BaseConds([], lo, hi)
  {
  }

  /** The conditions of an expression are typed, and their facts have type `Base_Integer`. */
  lemma {:induction false} PreconditionsAreTyped(e: IExpr, target: Option<Ty>, n: nat, base: nat, known: Declarations)
    requires Typed(e, base, known) && Free(known, n, Preconditions(e, target, n).next)
    ensures var r := Preconditions(e, target, n);
            TypedConds(r.conds, base, known) && BaseConds(r.conds, n, r.next)
    decreases e, 1
  {
    hide TypedConds, TypedCond, BaseFacts, OperationCond, RangeConds, BaseConds;
    match e
    case Arith(op, l, r) => ArithIsTyped(op, l, r, target, n, base, known);
    case IntConversion(t, x) =>
      var inner := Preconditions(x, None, n);
      PreconditionsAreTyped(x, None, n, base, known);
      AfterDeclares(inner.conds, base, known, n, inner.next);
      TypedExtends(e, base, known, After(inner.conds, known));
      RangeIsTyped(t, x, base, After(inner.conds, known));
      CondsConcat(inner.conds, RangeConds(t, x), base, known);
      BaseCondsConcat(inner.conds, RangeConds(t, x), n, inner.next);
    case FieldAccess(m, f, _) => ValidIsTyped(m, f, base, known);
    case _ => NoConds(base, known);
  }

  lemma {:induction false} ArithIsTyped(op: ArithOp, l: IExpr, r: IExpr, target: Option<Ty>, n: nat, base: nat,
                                        known: Declarations)
    requires Typed(Arith(op, l, r), base, known)
    requires Free(known, n, Preconditions(Arith(op, l, r), target, n).next)
    ensures var p := Preconditions(Arith(op, l, r), target, n);
            TypedConds(p.conds, base, known) && BaseConds(p.conds, n, p.next)
    decreases Arith(op, l, r), 0
  {
    var e := Arith(op, l, r);
    var upper := UpperBound(if target.Some? then target.value else TypeOf(e));
    var start := if NeedsTemp(op) then n + 1 else n;
    var left := Preconditions(l, None, start);
    var right := Preconditions(r, None, left.next);
    var own := OperationCond(op, l, r, upper, TempName(n));
    assert Preconditions(e, target, n) == Conds(left.conds + right.conds + [own], right.next);
    hide TypedConds, TypedCond, BaseFacts, OperationCond, BaseConds, Preconditions, TypeOf, UpperBound;
    PreconditionsAreTyped(l, None, start, base, known);
    AfterDeclares(left.conds, base, known, start, left.next);
    var mid := After(left.conds, known);
    TypedExtends(r, base, known, mid);
    PreconditionsAreTyped(r, None, left.next, base, mid);
    AfterDeclares(right.conds, base, mid, left.next, right.next);
    var end := After(right.conds, mid);
    TypedExtends(e, base, known, end);
    OperationIsTyped(op, l, r, upper, n, base, end);
    SingleCond(own, base, end);
    CondsConcat(left.conds, right.conds, base, known);
    CondsConcat(left.conds + right.conds, [own], base, known);
    JoinedAreBase(left.conds, right.conds, own, n, start, left.next, right.next);
  }

  lemma JoinedAreBase(a: seq<Cond>, b: seq<Cond>, c: Cond, n: nat, start: nat, mid: nat, next: nat)
    requires n <= start <= mid <= next && BaseConds(a, start, mid) && BaseConds(b, mid, next)
    requires if n < start then BaseFacts(c.facts, n, n + 1) else c.facts == []
    ensures BaseConds(a + b + [c], n, next)
  {
    BaseCondsWiden(a, start, mid, n, next);
    BaseCondsWiden(b, mid, next, n, next);
    BaseCondsConcat(a, b, n, next);
    if n < start {
      BaseFactsWiden(c.facts, n, n + 1, n, next);
    }
    BaseCondsConcat(a + b, [c], n, next);
  }

  lemma {:induction false} CheckCodeIsTyped(conds: seq<Cond>, base: nat, known: Declarations)
    requires TypedConds(conds, base, known)
    ensures TypedCode(CheckCode(conds), base, known) && DeclaredBy(CheckCode(conds), known) == After(conds, known)
    decreases |conds|
  {
    if conds != [] {
      var c, more := conds[0], DeclaredBy(conds[0].facts, known);
      var check, rest := Check(c.goal), CheckCode(conds[1..]);
      CheckCodeIsTyped(conds[1..], base, more);
      CodeSingle(check, base, more);
      hide TypedStmt, TypedCode, DeclaredBy;
      CodeConcat(c.facts, [check], base, known);
      CodeConcat(c.facts + [check], rest, base, known);
    }
  }

  /** Instrumented code is typed: declarations, assignments and values agree, also those of the facts. */
  lemma {:induction false} ChecksAreTyped(stmts: seq<Stmt>, n: nat, base: nat, known: Declarations, more: Declarations)
    requires TypedCode(stmts, base, known) && AllBelow(stmts, n)
    requires Extends(known, more) && Free(more, n, AddChecks(stmts, n).next)
    ensures TypedCode(AddChecks(stmts, n).stmts, base, more)
    decreases |stmts|
  {
    if stmts != [] {
      var s, pre := stmts[0], StmtPreconditions(stmts[0], n);
      var rest := AddChecks(stmts[1..], pre.next);
      hide Preconditions, TypedConds, BaseConds, StmtPreconditions;
      StmtExtends(s, base, known, more);
      StatementIsTyped(s, n, base, more);
      var mid := After(pre.conds, more);
      AfterDeclares(pre.conds, base, more, n, pre.next);
      StmtExtends(s, base, known, mid);
      CheckCodeIsTyped(pre.conds, base, more);
      StaysFree(s, n, pre.next, rest.next, more, mid);
      AllMonotone(stmts[1..], n, pre.next);
      ChecksAreTyped(stmts[1..], pre.next, base, Declare(s, known), Declare(s, mid));
      CodeSingle(s, base, mid);
      hide TypedStmt, TypedCode, DeclaredBy;
      CodeConcat(CheckCode(pre.conds), [s], base, more);
      CodeConcat(CheckCode(pre.conds) + [s], rest.stmts, base, more);
    }
  }

  lemma StaysFree(s: Stmt, n: nat, next: nat, end: nat, more: Declarations, mid: Declarations)
    requires StmtBelow(s, n) && Free(more, n, end) && n <= next
    requires forall k: nat :: TempName(k) in mid ==> TempName(k) in more || n <= k < next
    ensures Free(Declare(s, mid), next, end)
  {
    forall k: nat | next <= k < end ensures TempName(k) !in Declare(s, mid) {
      TempIndexOfName(k);
    }
  }

  lemma StatementIsTyped(s: Stmt, n: nat, base: nat, known: Declarations)
    requires TypedStmt(s, base, known) && Free(known, n, StmtPreconditions(s, n).next)
    ensures var p := StmtPreconditions(s, n); TypedConds(p.conds, base, known) && BaseConds(p.conds, n, p.next)
  {
    hide Preconditions, TypedConds, BaseConds;
    match s
    case VarDecl(_, _) => NoConds(base, known);
    case Assign(_, e, t) => PreconditionsAreTyped(e, if e.Arith? then Some(t) else None, n, base, known);
    case Check(e) => PreconditionsAreTyped(e, None, n, base, known);
  }

  // The whole pass.

  /** A temporary with number `n` or above is declared and assigned with type `Base_Integer`. */
  predicate BaseStmt(s: Stmt, n: nat) {
    match s
    case VarDecl(id, t) => TempIndex(id) >= n ==> t == BASE_INTEGER
    case Assign(id, e, t) => TempIndex(id) >= n ==> t == BASE_INTEGER && BASE_INTEGER.IsCompatible(TypeOf(e))
    case Check(_) => true
  }

  predicate AllBase(stmts: seq<Stmt>, n: nat) {
    forall i :: 0 <= i < |stmts| ==> BaseStmt(stmts[i], n)
  }

  lemma AllBaseConcat(a: seq<Stmt>, b: seq<Stmt>, n: nat)
    requires AllBase(a, n) && AllBase(b, n)
    ensures AllBase(a + b, n)
  {
    hide BaseStmt;
  }

  lemma BaseFactsAreBase(facts: seq<Stmt>, goal: IExpr, lo: nat, hi: nat, n: nat)
    requires BaseFacts(facts, lo, hi)
    ensures AllBase(facts + [Check(goal)], n)
  {
  }

  lemma {:induction false} CheckCodeIsBase(conds: seq<Cond>, lo: nat, hi: nat, n: nat)
    requires BaseConds(conds, lo, hi)
    ensures AllBase(CheckCode(conds), n)
    decreases |conds|
  {
    if conds != [] {
      hide BaseFacts, BaseStmt, AllBase;
      assert BaseFacts(conds[0].facts, lo, hi);
      BaseFactsAreBase(conds[0].facts, conds[0].goal, lo, hi, n);
      CheckCodeIsBase(conds[1..], lo, hi, n);
      AllBaseConcat(conds[0].facts + [Check(conds[0].goal)], CheckCode(conds[1..]), n);
    }
  }

  lemma {:induction false} ChecksAreBase(stmts: seq<Stmt>, n: nat, base: nat, known: Declarations, lo: nat)
    requires TypedCode(stmts, base, known) && AllBelow(stmts, lo) && lo <= n
    requires Free(known, n, AddChecks(stmts, n).next)
    ensures AllBase(AddChecks(stmts, n).stmts, lo)
    decreases |stmts|
  {
    if stmts != [] {
      var s, pre := stmts[0], StmtPreconditions(stmts[0], n);
      hide Preconditions, TypedConds, BaseConds, StmtPreconditions, AllBase, CheckCode;
      StatementIsTyped(s, n, base, known);
      CheckCodeIsBase(pre.conds, n, pre.next, lo);
      BelowIsBase(s, lo);
      AllBaseConcat(CheckCode(pre.conds), [s], lo);
      FreeAfter(s, lo, n, pre.next, AddChecks(stmts[1..], pre.next).next, known);
      ChecksAreBase(stmts[1..], pre.next, base, Declare(s, known), lo);
      AllBaseConcat(CheckCode(pre.conds) + [s], AddChecks(stmts[1..], pre.next).stmts, lo);
    } else {
      NothingIsBase(lo);
    }
  }

  lemma NothingIsBase(n: nat)
    ensures AllBase([], n)
  {
  }

  lemma BelowIsBase(s: Stmt, n: nat)
    requires StmtBelow(s, n)
    ensures AllBase([s], n)
  {
  }

  lemma FreeAfter(s: Stmt, lo: nat, n: nat, next: nat, end: nat, known: Declarations)
    requires StmtBelow(s, lo) && lo <= n <= next && Free(known, n, end)
    ensures Free(Declare(s, known), next, end)
  {
    forall k: nat | next <= k < end ensures TempName(k) !in Declare(s, known) {
      TempIndexOfName(k);
    }
  }

  /** The output of both passes, if the input is typed: declarations, assignments and values agree, and every
      temporary of the checks is declared and assigned with type `Base_Integer`. */
  lemma RequiredChecksAreTyped(stmts: seq<Stmt>, n: nat, base: nat, known: Declarations)
    requires TypedCode(stmts, base, known) && AllBelow(stmts, n) && AddRequiredChecks(stmts, n).Ok?
    requires Free(known, n, AddRequiredChecks(stmts, n).value.next)
    ensures TypedCode(AddRequiredChecks(stmts, n).value.stmts, base, known)
    ensures AllBase(AddRequiredChecks(stmts, n).value.stmts, n)
  {
    hide TypedCode, AllBase, AllBelow, AddChecks, AddConversions;
    var converted := AddConversions(stmts).value;
    ConversionsAreTyped(stmts, base, known);
    ConvertedBelow(stmts, n);
    ChecksAreTyped(converted, n, base, known, known);
    ChecksAreBase(converted, n, base, known, n);
  }
}
