/** Which expressions are translated: a condition on the expression alone, whatever the state of the generator. */
module LoweringDomain {
  import opened Types
  import opened Expressions
  import opened Identifiers
  import opened Ir
  import opened IntEval
  import opened Lowering
  import opened LoweringMeaning

  /** Operands have the kind that their operator needs, lists of boolean operands with more than one member are
      joined by `and` or `or`, conditionals have one condition and an else part, and fields have scalar types. */
  predicate Translatable(e: Expr)
    decreases e
  {
    match e
    case Number(_) | Literal(_) | Variable(_, _) => true
    case Selected(_, _, t) => t.Integer? || t.Enumeration?
    case Not(x) => ExprType(x) == BOOLEAN && Translatable(x)
    case Neg(x) => ExprType(x).AnyInteger() && Translatable(x)
    case Ass(op, terms) =>
      if op.IsBool() then AllBoolean(terms) && (|terms| > 1 ==> op == And || op == Or) else AllInteger(terms)
    case Bin(_, l, r) =>
      ExprType(l).AnyInteger() && ExprType(r).AnyInteger() && Translatable(l) && Translatable(r)
    case Rel(_, l, r) => Translatable(l) && Translatable(r)
    case If(c, t, rest) =>
      && rest.ElsePart? && ExprType(c) == BOOLEAN && SameKind(ExprType(t), ExprType(rest.els))
      && Translatable(c) && Translatable(t) && Translatable(rest.els)
  }

  predicate SameKind(a: Ty, b: Ty) {
    (a == BOOLEAN && b == BOOLEAN) || (a.AnyInteger() && b.AnyInteger())
  }

  predicate AllBoolean(terms: seq<Expr>)
    decreases terms
  {
    terms == [] || (ExprType(terms[0]) == BOOLEAN && Translatable(terms[0]) && AllBoolean(terms[1..]))
  }

  predicate AllInteger(terms: seq<Expr>)
    decreases terms
  {
    terms == [] || (ExprType(terms[0]).AnyInteger() && Translatable(terms[0]) && AllInteger(terms[1..]))
  }

  /** Integer types have an integer type in common. */
  lemma {:induction false} IntegersInCommon(start: Ty, terms: seq<Expr>)
    requires AllInteger(terms) && (start.AnyInteger() || (start == Any && terms != []))
    ensures CommonTypeFrom(start, ExprTypes(terms)).AnyInteger()
    decreases terms
  {
    if terms != [] {
      assert ExprTypes(terms)[0] == ExprType(terms[0]) && ExprTypes(terms)[1..] == ExprTypes(terms[1..]);
      IntegersInCommon(start.CommonType(ExprType(terms[0])), terms[1..]);
    }
  }

  /** An operand whose code is no basic expression is of the kind of its source, so that it can be stored. */
  predicate KindKept(e: Expr, x: IExpr) {
    && (BasicInt(x) ==> TypeOf(x).AnyInteger())
    && (Basic(x) || TypeOf(x) == BOOLEAN
        || (if TypeOf(x).AnyInteger() then ExprType(e).AnyInteger() else ExprType(e).Enumeration?))
  }

  /** The translation succeeds exactly for translatable expressions. */
  lemma {:induction false} ToIrSucceeds(e: Expr, n: nat)
    ensures ToIr(e, n).Ok? <==> Translatable(e)
    ensures ToIr(e, n).Ok? ==> KindKept(e, ToIr(e, n).value.expr)
    decreases e, 0, 1
  {
    match e
    case Number(_) =>
    case Literal(_) =>
    case Variable(_, _) =>
    case Selected(_, _, _) =>
    case Not(x) => ToBasicBoolSucceeds(x, n);
    case Neg(x) => ToBasicIntSucceeds(x, n);
    case Ass(op, terms) =>
      if op.IsBool() {
        BoolToIrSucceeds(op, terms, n);
      } else {
        MathToIrSucceeds(op, terms, n);
      }
    case Bin(op, l, r) =>
      ToBasicIntSucceeds(l, n);
      if ToBasicInt(l, n).Ok? {
        ToBasicIntSucceeds(r, ToBasicInt(l, n).value.next);
      }
    case Rel(_, l, r) =>
      ToBasicSucceeds(l, n);
      if ToBasic(l, n).Ok? {
        ToBasicSucceeds(r, ToBasic(l, n).value.next);
      }
    case If(c, t, rest) => IfToIrSucceeds(c, t, rest, n);
  }

  lemma {:induction false} IfToIrSucceeds(cond: Expr, thn: Expr, rest: Else, n: nat)
    ensures IfToIr(cond, thn, rest, n).Ok? <==> Translatable(If(cond, thn, rest))
    ensures IfToIr(cond, thn, rest, n).Ok? ==>
              KindKept(If(cond, thn, rest), IfToIr(cond, thn, rest, n).value.expr)
    decreases If(cond, thn, rest), 0, 0
  {
    if rest.ElsePart? {
      ToBasicBoolSucceeds(cond, n);
      if ToBasicBool(cond, n).Ok? {
        var m := ToBasicBool(cond, n).value.next;
        ToIrSucceeds(thn, m);
        if ToIr(thn, m).Ok? {
          ToIrSucceeds(rest.els, ToIr(thn, m).value.next);
        }
      }
    }
  }

  lemma {:induction false} ToBasicIntSucceeds(e: Expr, n: nat)
    ensures ToBasicInt(e, n).Ok? <==> ExprType(e).AnyInteger() && Translatable(e)
    ensures ToBasicInt(e, n).Ok? ==>
              BasicInt(ToBasicInt(e, n).value.expr) && TypeOf(ToBasicInt(e, n).value.expr).AnyInteger()
    decreases e, 1
  {
    ToIrSucceeds(e, n);
  }

  lemma {:induction false} ToBasicBoolSucceeds(e: Expr, n: nat)
    ensures ToBasicBool(e, n).Ok? <==> ExprType(e) == BOOLEAN && Translatable(e)
    ensures ToBasicBool(e, n).Ok? ==> BasicBool(ToBasicBool(e, n).value.expr)
    decreases e, 1
  {
    ToIrSucceeds(e, n);
  }

  lemma {:induction false} ToBasicSucceeds(e: Expr, n: nat)
    ensures ToBasic(e, n).Ok? <==> Translatable(e)
    decreases e, 1
  {
    ToIrSucceeds(e, n);
  }

  lemma SmallLists(terms: seq<Expr>)
    ensures |terms| == 1 ==> (AllBoolean(terms) <==> ExprType(terms[0]) == BOOLEAN && Translatable(terms[0]))
    ensures |terms| == 1 ==> (AllInteger(terms) <==> ExprType(terms[0]).AnyInteger() && Translatable(terms[0]))
    ensures |terms| > 1 ==>
            (AllBoolean(terms) <==> ExprType(terms[0]) == BOOLEAN && Translatable(terms[0]) && AllBoolean(terms[1..]))
    ensures |terms| > 1 ==>
            (AllInteger(terms) <==>
             ExprType(terms[0]).AnyInteger() && Translatable(terms[0]) && AllInteger(terms[1..]))
    ensures |terms| == 2 ==> terms[1..][0] == terms[1] && |terms[1..]| == 1
  {
    if |terms| == 1 {
      assert terms[1..] == [];
    }
  }

  lemma {:induction false} BoolToIrSucceeds(op: AssOp, terms: seq<Expr>, n: nat)
    ensures BoolToIr(op, terms, n).Ok? <==> AllBoolean(terms) && (|terms| > 1 ==> op == And || op == Or)
    ensures BoolToIr(op, terms, n).Ok? ==>
              BasicBool(BoolToIr(op, terms, n).value.expr) || BoolToIr(op, terms, n).value.expr.Logic?
    decreases terms, 1
  {
    hide AllBoolean, ToBasicBool, ExprType, Translatable;
    SmallLists(terms);
    if terms == [] {
      assert AllBoolean(terms) by { EmptyLists(terms); }
    } else {
      ToBasicBoolSucceeds(terms[0], n);
      if |terms| == 2 {
        SmallLists(terms[1..]);
        if ToBasicBool(terms[0], n).Ok? {
          ToBasicBoolSucceeds(terms[1], ToBasicBool(terms[0], n).value.next);
        }
      } else if |terms| > 2 && ToBasicBool(terms[0], n).Ok? {
        BoolToIrSucceeds(op, terms[1..], ToBasicBool(terms[0], n).value.next + 1);
      }
    }
  }

  lemma EmptyLists(terms: seq<Expr>)
    requires terms == []
    ensures AllBoolean(terms) && AllInteger(terms)
  {
  }

  /** A sum or product of integers has an integer type. */
  lemma MathType(op: AssOp, terms: seq<Expr>)
    requires !op.IsBool() && terms != [] && AllInteger(terms)
    ensures ExprType(Ass(op, terms)).AnyInteger()
  {
    IntegersInCommon(Any, terms);
  }

  lemma IntegerOperation(x: IExpr)
    requires x.Arith? && TypeOf(x.left).AnyInteger() && TypeOf(x.right).AnyInteger()
    ensures TypeOf(x).AnyInteger()
  {
  }

  lemma {:induction false} MathToIrSucceeds(op: AssOp, terms: seq<Expr>, n: nat)
    requires !op.IsBool()
    ensures MathToIr(op, terms, n).Ok? <==> AllInteger(terms)
    ensures MathToIr(op, terms, n).Ok? ==> KindKept(Ass(op, terms), MathToIr(op, terms, n).value.expr)
    decreases terms, 1
  {
    hide AllInteger, ToBasicInt, ExprType, Translatable;
    SmallLists(terms);
    if terms == [] {
      assert AllInteger(terms) by { EmptyLists(terms); }
    } else {
      if AllInteger(terms) {
        MathType(op, terms);
      }
      ToBasicIntSucceeds(terms[0], n);
      if |terms| == 2 {
        SmallLists(terms[1..]);
        if ToBasicInt(terms[0], n).Ok? {
          ToBasicIntSucceeds(terms[1], ToBasicInt(terms[0], n).value.next);
        }
      } else if |terms| > 2 {
        ToBasicIntSucceeds(terms[0], n + 1);
        if ToBasicInt(terms[0], n + 1).Ok? {
          if AllInteger(terms) {
            MathType(op, terms[1..]);
          }
          var l := ToBasicInt(terms[0], n + 1).value;
          MathToIrSucceeds(op, terms[1..], l.next);
          if MathToIr(op, terms, n).Ok? {
            var x := MathToIr(op, terms, n).value.expr;
            assert x == Arith(AssArith(op), l.expr, IntVar(TempName(n), ExprType(Ass(op, terms[1..]))));
            IntegerOperation(x);
          }
        }
      }
    }
  }

  /** Compiler correctness with the conditions on the source alone. */
  lemma TranslatableIsCorrect(e: Expr, n: nat, env: Env)
    requires Translatable(e) && Source(e, n) && Meaning(e, env).Some?
    ensures ToIr(e, n).Ok? && Correct(ToIr(e, n).value, n, env, Meaning(e, env))
  {
    hide Correct, ToIr;
    ToIrSucceeds(e, n);
    ToIrCorrect(e, n, env);
  }
}
