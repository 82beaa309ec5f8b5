/** How many temporaries a lowering draws: one for each operand that is not basic already, and one for each operand of
    a list beyond the second. */
module LoweringCost {
  import opened Types
  import opened Expressions
  import opened Ir
  import opened Lowering
  import opened LoweringDomain

  /** What an operand has to be: an integer, a boolean, or of any scalar type. */
  datatype Need = IntNeed | BoolNeed | AnyNeed

  /** Operands that are translated to basic expressions. */
  predicate IsBasic(e: Expr, need: Need) {
    match e
    case Number(_) => true
    case Literal(lit) => need == AnyNeed || (need == BoolNeed && !lit.EnumLit?)
    case Variable(_, t) => need == AnyNeed || (if need == IntNeed then t.Integer? else t == BOOLEAN)
    case Ass(_, terms) => |terms| <= 1
    case _ => false
  }

  function Operand(e: Expr, need: Need): nat
    decreases e, 1
  {
    Temporaries(e) + if IsBasic(e, need) then 0 else 1
  }

  function Temporaries(e: Expr): nat
    decreases e, 0
  {
    match e
    case Not(x) => Operand(x, BoolNeed)
    case Neg(x) => Operand(x, IntNeed)
    case Ass(op, terms) => Operands(terms, if op.IsBool() then BoolNeed else IntNeed) + Further(terms)
    case Bin(_, l, r) => Operand(l, IntNeed) + Operand(r, IntNeed)
    case Rel(_, l, r) => Operand(l, AnyNeed) + Operand(r, AnyNeed)
    case If(c, t, ElsePart(f)) => Operand(c, BoolNeed) + Temporaries(t) + Temporaries(f)
    case _ => 0
  }

  /** The operands beyond the second. */
  function Further(terms: seq<Expr>): nat {
    if |terms| > 2 then |terms| - 2 else 0
  }

  function Operands(terms: seq<Expr>, need: Need): nat
    decreases terms
  {
    if terms == [] then 0 else Operand(terms[0], need) + Operands(terms[1..], need)
  }

  lemma FirstOperands(terms: seq<Expr>, need: Need)
    ensures |terms| == 1 ==> Operands(terms, need) == Operand(terms[0], need)
    ensures |terms| == 2 ==> Operands(terms, need) == Operand(terms[0], need) + Operand(terms[1], need)
  {
    hide Operand;
    if |terms| == 1 {
      assert terms[1..] == [];
    } else if |terms| == 2 {
      assert terms[1..][0] == terms[1] && terms[1..][1..] == [];
    }
  }

  /** The translation draws exactly these temporaries. */
  lemma {:induction false} ToIrCost(e: Expr, n: nat)
    requires ToIr(e, n).Ok?
    ensures ToIr(e, n).value.next == n + Temporaries(e)
    decreases e, 0, 1
  {
    match e
    case Number(_) =>
    case Literal(_) =>
    case Variable(_, _) =>
    case Selected(_, _, _) =>
    case Not(x) => ToBasicBoolCost(x, n);
    case Neg(x) => ToBasicIntCost(x, n);
    case Ass(op, terms) =>
      if op.IsBool() {
        BoolToIrCost(op, terms, n);
      } else {
        MathToIrCost(op, terms, n);
      }
    case Bin(_, l, r) =>
      ToBasicIntCost(l, n);
      ToBasicIntCost(r, ToBasicInt(l, n).value.next);
    case Rel(_, l, r) =>
      ToBasicCost(l, n);
      ToBasicCost(r, ToBasic(l, n).value.next);
    case If(c, t, rest) =>
      ToBasicBoolCost(c, n);
      var m := ToBasicBool(c, n).value.next;
      ToIrCost(t, m);
      ToIrCost(rest.els, ToIr(t, m).value.next);
  }

  /** The code of an operand is basic exactly if the operand is. */
  lemma BasicCode(e: Expr, n: nat)
    requires ToIr(e, n).Ok?
    ensures ExprType(e).AnyInteger() ==> (BasicInt(ToIr(e, n).value.expr) <==> IsBasic(e, IntNeed))
    ensures ExprType(e) == BOOLEAN ==> (BasicBool(ToIr(e, n).value.expr) <==> IsBasic(e, BoolNeed))
    ensures Basic(ToIr(e, n).value.expr) <==> IsBasic(e, AnyNeed)
  {
    if e.Ass? && e.ass.IsBool() {
      BoolCode(e.ass, e.terms, n);
    } else if e.Ass? {
      MathCode(e.ass, e.terms, n);
    }
  }

  lemma BoolCode(op: AssOp, terms: seq<Expr>, n: nat)
    requires op.IsBool() && BoolToIr(op, terms, n).Ok?
    ensures BasicBool(BoolToIr(op, terms, n).value.expr) <==> |terms| <= 1
    ensures |terms| > 1 ==> BoolToIr(op, terms, n).value.expr.Logic?
  {
    if |terms| == 1 {
      ToBasicBoolSucceeds(terms[0], n);
    }
  }

  lemma MathCode(op: AssOp, terms: seq<Expr>, n: nat)
    requires !op.IsBool() && MathToIr(op, terms, n).Ok?
    ensures BasicInt(MathToIr(op, terms, n).value.expr) <==> |terms| <= 1
    ensures |terms| > 1 ==> MathToIr(op, terms, n).value.expr.Arith?
  {
    if |terms| == 1 {
      ToBasicIntSucceeds(terms[0], n);
    }
  }

  lemma {:induction false} ToBasicIntCost(e: Expr, n: nat)
    requires ToBasicInt(e, n).Ok?
    ensures ToBasicInt(e, n).value.next == n + Operand(e, IntNeed)
    decreases e, 1
  {
    hide Temporaries, IsBasic, ExprType, ToIr;
    ToIrCost(e, n);
    BasicCode(e, n);
  }

  lemma {:induction false} ToBasicBoolCost(e: Expr, n: nat)
    requires ToBasicBool(e, n).Ok?
    ensures ToBasicBool(e, n).value.next == n + Operand(e, BoolNeed)
    decreases e, 1
  {
    hide Temporaries, IsBasic, ExprType, ToIr;
    ToIrCost(e, n);
    BasicCode(e, n);
  }

  lemma {:induction false} ToBasicCost(e: Expr, n: nat)
    requires ToBasic(e, n).Ok?
    ensures ToBasic(e, n).value.next == n + Operand(e, AnyNeed)
    decreases e, 1
  {
    hide Temporaries, IsBasic, ExprType, ToIr;
    ToIrCost(e, n);
    BasicCode(e, n);
  }

  lemma {:induction false} BoolToIrCost(op: AssOp, terms: seq<Expr>, n: nat)
    requires op.IsBool() && BoolToIr(op, terms, n).Ok?
    ensures BoolToIr(op, terms, n).value.next == n + Operands(terms, BoolNeed) + Further(terms)
    decreases terms, 1
  {
    hide Operand, ToBasicBool;
    FirstOperands(terms, BoolNeed);
    if terms != [] {
      ToBasicBoolCost(terms[0], n);
      var m := ToBasicBool(terms[0], n).value.next;
      if |terms| == 2 {
        ToBasicBoolCost(terms[1], m);
      } else if |terms| > 2 {
        BoolToIrCost(op, terms[1..], m + 1);
      }
    }
  }

  lemma {:induction false} MathToIrCost(op: AssOp, terms: seq<Expr>, n: nat)
    requires !op.IsBool() && MathToIr(op, terms, n).Ok?
    ensures MathToIr(op, terms, n).value.next == n + Operands(terms, IntNeed) + Further(terms)
    decreases terms, 1
  {
    hide Operand, ToBasicInt, ExprType;
    FirstOperands(terms, IntNeed);
    if |terms| == 1 {
      ToBasicIntCost(terms[0], n);
    } else if |terms| == 2 {
      ToBasicIntCost(terms[0], n);
      ToBasicIntCost(terms[1], ToBasicInt(terms[0], n).value.next);
    } else if |terms| > 2 {
      ToBasicIntCost(terms[0], n + 1);
      MathToIrCost(op, terms[1..], ToBasicInt(terms[0], n + 1).value.next);
    }
  }
}
