/** Simplification keeps the exact value of a defined expression. */
module SimplifierMeaning {
  import opened Arithmetic
  import opened Results
  import opened Types
  import opened Expressions
  import opened ExactEval
  import opened Simplifier
  import opened Rounding

  /** The condition for the merge of two conditionals with conditions `a` and `b`, the common value `v`,
      the value `w` of what follows in the first one and the value `z` of the else part they share
      (`w` is `z` unless the first one has an elsif part, which the merge drops). */
  predicate Harmless(op: AssOp, a: bool, b: bool, v: Option<Exact>, w: Option<Exact>, z: Option<Exact>) {
    match op
    case Add =>
      if a && b then v == Some(Num(0.0)) else if a then z == Some(Num(0.0)) else w == Some(Num(0.0))
    case Mul =>
      if a && b then v == Some(Num(0.0)) || v == Some(Num(1.0))
      else if a then v == Some(Num(0.0)) || z == Some(Num(1.0))
      else if b then v == Some(Num(0.0)) || w == Some(Num(1.0))
      else z == Some(Num(0.0)) || w == Some(Num(1.0))
    case And | AndThen =>
      if a && b then true
      else if a then v == Some(Truth(false)) || z == Some(Truth(true))
      else if b then v == Some(Truth(false)) || w == Some(Truth(true))
      else z == Some(Truth(false)) || w == Some(Truth(true))
    case Or | OrElse =>
      if a && b then true
      else if a then v == Some(Truth(true)) || z == Some(Truth(false))
      else if b then v == Some(Truth(true)) || w == Some(Truth(false))
      else z == Some(Truth(true)) || w == Some(Truth(false))
  }

  /** A merge is harmless, and so is the comparison of constant quotients if quotients are rounded. */
  predicate RewriteSound(r: Rewrite, env: Setting) {
    match r
    case Merge(op, first, second, _) =>
      first.If? && second.If? &&
      (match (Eval(first.cond, env), Eval(second.cond, env))
       case (Some(Truth(a)), Some(Truth(b))) =>
         Harmless(op, a, b, Eval(first.thn, env), EvalElse(first.rest, env), EvalElse(second.rest, env))
       case _ => true)
    case Comparison(rel, l, r) =>
      ConstantQuotient(l) && ConstantQuotient(r) && env.rounded ==>
        RoundingIsHarmless(rel, l.left.n, l.right.n, r.left.n, r.right.n)
  }

  predicate Sound(log: seq<Rewrite>, env: Setting) {
    forall i :: 0 <= i < |log| ==> RewriteSound(log[i], env)
  }

  lemma TimesFixed(x: real, y: real)
    ensures Times(x, y) == x <==> x == 0.0 || y == 1.0
  {
    if y != 1.0 && x != 0.0 {
      assert x * y - x == x * (y - 1.0);
    }
  }

  /** The merged conditional has the value of the two it replaces exactly if the merge is harmless. */
  lemma MergeIsExact(op: AssOp, a: bool, b: bool, v: Option<Exact>, w: Option<Exact>, z: Option<Exact>)
    requires Combine(op, if a then v else w, if b then v else z).Some?
    ensures Harmless(op, a, b, v, w, z) <==>
            Combine(op, if a then v else w, if b then v else z) == (if a || b then v else z)
  {
    var x, y := (if a then v else w).value, (if b then v else z).value;
    if op == Mul {
      TimesFixed(x.r, y.r);
      TimesFixed(y.r, x.r);
      ProductLaws(x.r, y.r, 0.0);
    }
  }

  /** The usual reason: exclusive conditions and the neutral element as else part. */
  lemma ExclusiveNeutralIsHarmless(op: AssOp, a: bool, b: bool, v: Option<Exact>)
    requires !(a && b)
    ensures Harmless(op, a, b, v, Some(Neutral(op)), Some(Neutral(op)))
  {
  }

  /** A term that is in its simplest form and has no special role in the loop is kept. */
  lemma CollectTerm(op: AssOp, t: Expr, pending: seq<Expr>, total: int, kept: seq<Expr>, c: Collected)
    requires Simplify(t) == Ok(Simp(t, [])) && !IsConstant(t) && !t.Ass?
    requires Collect(op, pending, total, kept + [t]) == Ok(c)
    ensures Collect(op, [t] + pending, total, kept) == Ok(c)
  {
    hide Simplify;
    var all, none := [t] + pending, c.log[..0];
    assert all[0] == t && all[1..] == pending;
    assert none + c.log == c.log;
    assert c == Collected(c.total, c.terms, none + c.log);
  }

  lemma CollectTwice(op: AssOp, t: Expr)
    requires Simplify(t) == Ok(Simp(t, [])) && !IsConstant(t) && !t.Ass?
    ensures Collect(op, [t, t], NeutralElement(op), []) == Ok(Collected(NeutralElement(op), [t, t], []))
  {
    var n := NeutralElement(op);
    var c := Collected(n, [t, t], []);
    assert Collect(op, [], n, [t, t]) == Ok(c);
    assert [t] + [t] == [t, t] && [] + [t] == [t] && [t] + [] == [t];
    hide Simplify, Collect;
    CollectTerm(op, t, [], n, [t], c);
    CollectTerm(op, t, [t], n, [], c);
  }

  lemma UniqueTwice(x: Expr)
    ensures Unique([x, x]) == [x]
  {
    assert [x, x][..1] == [x] && [x][..0] == [];
    assert Unique([]) == [] && Unique([x]) == [] + [x];
  }

  lemma OrOfSameVariable(x: Expr)
    requires x.Variable?
    ensures Simplify(Ass(Or, [x, x])) == Ok(Simp(x, []))
  {
    hide Collect, FinishAss, Unique;
    assert Simplify(x) == Ok(Simp(x, []));
    CollectTwice(Or, x);
    UniqueTwice(x);
    assert AllTerms(Or, Collected(0, [x, x], [])) == [x];
    FinishVariable(x);
    SimplifyCollected(Or, [x, x], Collected(0, [x, x], []), Simp(x, []));
  }

  lemma SimplifyCollected(op: AssOp, terms: seq<Expr>, c: Collected, r: Simp)
    requires Collect(op, terms, NeutralElement(op), []) == Ok(c) && c.terms != [] && c.log == []
    requires FinishAss(op, AllTerms(op, c)) == Ok(r)
    ensures Simplify(Ass(op, terms)) == Ok(r)
  {
    hide Collect, FinishAss, AllTerms;
    assert c.log + r.log == r.log;
  }

  lemma FinishVariable(x: Expr)
    requires x.Variable?
    ensures FinishAss(Or, [x]) == Ok(Simp(x, []))
  {
    hide Simplify, Cancel, Collect;
    assert MergeIfs(Or, [x]) == Ok(SimpTerms([x], []));
  }

  /** Without it the value is lost: `(if A then 1 else 0) + (if A then 1 else 0)` becomes `if A then 1 else 0`. */
  lemma OverlappingMergeLosesValue()
    ensures var t := If(Variable("A", BOOLEAN), Number(1), ElsePart(Number(0)));
            var env := Setting(map[Var("A") := Bool(true)], false);
            && Simplify(Ass(Add, [t, t])) == Ok(Simp(t, [Merge(Add, t, t, t)]))
            && Eval(Ass(Add, [t, t]), env) == Some(Num(2.0))
            && Eval(t, env) == Some(Num(1.0))
  {
    var t := If(Variable("A", BOOLEAN), Number(1), ElsePart(Number(0)));
    var env := Setting(map[Var("A") := Bool(true)], false);
    IfIsSimple(t);
    assert Eval(t, env) == Some(Num(1.0));
    SumOfSameIf(t);
    hide Simplify, Eval, EvalAll;
    EvalAllPair(Add, t, t, env);
    assert Eval(Ass(Add, [t, t]), env) == EvalAll(Add, [t, t], env) by { SumValue([t, t], env); }
  }

  lemma SumValue(terms: seq<Expr>, env: Setting)
    ensures Eval(Ass(Add, terms), env) == EvalAll(Add, terms, env)
  {
  }

  lemma IfIsSimple(t: Expr)
    requires t.If? && t.cond.Variable? && t.thn.Number? && t.rest.ElsePart? && t.rest.els.Number? && t.rest.els != t.thn
    ensures Simplify(t) == Ok(Simp(t, []))
  {
    var none: seq<Rewrite> := [];
    assert none + none + none == none;
    assert Simplify(t.cond) == Ok(Simp(t.cond, none)) && Simplify(t.thn) == Ok(Simp(t.thn, none));
    assert Simplify(t.rest.els) == Ok(Simp(t.rest.els, none));
    assert SimplifyElse(t.rest) == Ok(SimpElse(t.rest, none));
  }

  lemma MergeOfSame(t: Expr)
    requires t.If? && t.cond.Variable? && t.rest.ElsePart?
    ensures MergeIfs(Add, [t, t]) == Ok(SimpTerms([t], [Merge(Add, t, t, t)]))
  {
    var none: seq<Rewrite> := [];
    var m := [Merge(Add, t, t, t)];
    assert MergeIfs(Add, []) == Ok(SimpTerms([], none));
    OrOfSameVariable(t.cond);
    hide Simplify;
    assert none + m == m && m + none == m;
    assert [t, t][1..] == [t] && [t] + [] == [t] && [t][..0] + [t][1..] == [];
    assert FirstMergeable(t, [t]) == 0;
  }

  lemma SumOfSameIf(t: Expr)
    requires t.If? && t.cond.Variable? && t.rest.ElsePart? && Simplify(t) == Ok(Simp(t, []))
    ensures Simplify(Ass(Add, [t, t])) == Ok(Simp(t, [Merge(Add, t, t, t)]))
  {
    hide Collect, FinishAss, Simplify;
    FinishSame(t);
    CollectTwice(Add, t);
    assert AllTerms(Add, Collected(0, [t, t], [])) == [t, t];
    SimplifyCollected(Add, [t, t], Collected(0, [t, t], []), Simp(t, [Merge(Add, t, t, t)]));
  }

  lemma FinishSame(t: Expr)
    requires t.If? && t.cond.Variable? && t.rest.ElsePart?
    ensures FinishAss(Add, [t, t]) == Ok(Simp(t, [Merge(Add, t, t, t)]))
  {
    hide MergeIfs, Cancel, Simplify;
    MergeOfSame(t);
  }

  lemma SoundParts(a: seq<Rewrite>, b: seq<Rewrite>, env: Setting)
    requires Sound(a + b, env)
    ensures Sound(a, env) && Sound(b, env)
  {
    forall i | 0 <= i < |a| ensures RewriteSound(a[i], env) {
      assert (a + b)[i] == a[i];
    }
    forall i | 0 <= i < |b| ensures RewriteSound(b[i], env) {
      assert (a + b)[|a| + i] == b[i];
    }
  }

  // Helpers on lists of terms.

  function TotalValue(op: AssOp, total: int): Option<Exact> {
    Some(if op.IsBool() then Truth(total != 0) else Num(total as real))
  }

  lemma TotalNeutral(op: AssOp)
    ensures TotalValue(op, NeutralElement(op)) == Some(Neutral(op))
  {
  }

  lemma TimesInt(x: int, y: int)
    ensures Times(x as real, y as real) == (x * y) as real
  {
  }

  lemma FoldConstant(op: AssOp, total: int, t: Expr, env: Setting)
    requires IsConstant(t) && Combine(op, Eval(t, env), Some(Neutral(op))).Some?
    ensures Combine(op, Eval(t, env), TotalValue(op, total)) == TotalValue(op, Operation(op, total, ConstantOf(t)))
  {
    if t.Number? {
      TimesInt(t.n, total);
    }
  }

  lemma CombineShuffle(op: AssOp, a: Option<Exact>, b: Option<Exact>, c: Option<Exact>, d: Option<Exact>)
    ensures Combine(op, Combine(op, a, b), Combine(op, c, d)) == Combine(op, b, Combine(op, Combine(op, a, c), d))
    ensures Combine(op, Combine(op, a, b), Combine(op, c, d)) == Combine(op, b, Combine(op, c, Combine(op, d, a)))
  {
    CombineLaws(op, a, b, Combine(op, c, d));
    CombineLaws(op, b, a, Combine(op, c, d));
    CombineLaws(op, a, c, d);
    CombineLaws(op, c, d, a);
    CombineLaws(op, Combine(op, c, d), a, a);
  }

  /** Removing a term takes its value out of the combination. */
  lemma EvalAllRemove(op: AssOp, terms: seq<Expr>, i: nat, env: Setting)
    requires i < |terms|
    ensures EvalAll(op, terms, env) ==
            Combine(op, Eval(terms[i], env), EvalAll(op, terms[..i] + terms[i + 1..], env))
  {
    var front, back := terms[..i], terms[i..];
    assert terms == front + back && back[0] == terms[i] && back[1..] == terms[i + 1..];
    EvalAllConcat(op, front, back, env);
    EvalAllConcat(op, front, terms[i + 1..], env);
    var f, t, b := EvalAll(op, front, env), Eval(terms[i], env), EvalAll(op, terms[i + 1..], env);
    CombineLaws(op, f, t, b);
    CombineLaws(op, t, f, b);
  }

  lemma EvalAllSnoc(op: AssOp, terms: seq<Expr>, t: Expr, env: Setting)
    ensures EvalAll(op, terms + [t], env) == Combine(op, EvalAll(op, terms, env), Eval(t, env))
  {
    EvalAllConcat(op, terms, [t], env);
    assert [t][1..] == [];
    var a, b := EvalAll(op, terms, env), Eval(t, env);
    CombineLaws(op, a, b, Some(Neutral(op)));
    EvalAllNeutral(op, terms, env);
    CombineLaws(op, b, Some(Neutral(op)), a);
    CombineLaws(op, Some(Neutral(op)), a, b);
  }

  /** `and then` combines values as `and` does, and `or else` as `or`. */
  lemma {:induction false} SameClassValue(op: AssOp, other: AssOp, terms: seq<Expr>, env: Setting)
    requires op.HasInstance(other)
    ensures EvalAll(op, terms, env) == EvalAll(other, terms, env)
  {
    if terms != [] {
      SameClassValue(op, other, terms[1..], env);
    }
  }

  // The steps that do not recurse.

  lemma {:induction false} UniqueKeeps(op: AssOp, terms: seq<Expr>, env: Setting)
    requires op.IsBool() && EvalAll(op, terms, env).Some?
    ensures EvalAll(op, Unique(terms), env) == EvalAll(op, terms, env)
  {
    if terms != [] {
      var front, last := terms[..|terms| - 1], terms[|terms| - 1];
      assert terms == front + [last];
      EvalAllSnoc(op, front, last, env);
      UniqueKeeps(op, front, env);
      var kept := Unique(front);
      if last in kept {
        var i := IndexOf(last, kept);
        EvalAllRemove(op, kept, i, env);
        var x, y := Eval(last, env), EvalAll(op, kept[..i] + kept[i + 1..], env);
        CombineLaws(op, x, y, x);
      } else {
        EvalAllSnoc(op, kept, last, env);
      }
    }
  }

  lemma InverseValue(rel: RelOp, a: Option<Exact>, b: Option<Exact>)
    ensures ExactRel(rel.Inverse(), a, b) == ExactNot(ExactRel(rel, a, b))
  {
  }

  /** A relation and its inverse in one list decide the value of the list. */
  lemma InverseDecides(op: AssOp, terms: seq<Expr>, env: Setting)
    requires op.IsBool() && HasInverse(terms) && EvalAll(op, terms, env).Some?
    ensures EvalAll(op, terms, env) == Some(Truth(!op.IsAnd()))
  {
    var i :| 0 <= i < |terms| && terms[i].Rel? &&
      Rel(terms[i].rel.Inverse(), terms[i].left, terms[i].right) in terms;
    var t := terms[i];
    var u := Rel(t.rel.Inverse(), t.left, t.right);
    InverseValue(t.rel, Eval(t.left, env), Eval(t.right, env));
    MemberDecides(op, terms, i, env);
    MemberDecides(op, terms, IndexOf(u, terms), env);
  }

  /** A false term of a conjunction, or a true term of a disjunction, decides its value. */
  lemma MemberDecides(op: AssOp, terms: seq<Expr>, i: nat, env: Setting)
    requires op.IsBool() && i < |terms| && EvalAll(op, terms, env).Some?
    ensures exists b :: Eval(terms[i], env) == Some(Truth(b))
    ensures Eval(terms[i], env) == Some(Truth(!op.IsAnd())) ==>
              EvalAll(op, terms, env) == Some(Truth(!op.IsAnd()))
  {
    EvalAllRemove(op, terms, i, env);
    assert Eval(terms[i], env).Some?;
    assert Eval(terms[i], env).value.Truth?;
    assert Eval(terms[i], env) == Some(Truth(Eval(terms[i], env).value.b));
  }

  lemma BoolTermsKeeps(op: AssOp, terms: seq<Expr>, total: int, env: Setting)
    requires op.IsBool()
    requires Combine(op, TotalValue(op, total), EvalAll(op, terms, env)).Some?
    ensures EvalAll(op, BoolTerms(op, terms, total), env) ==
            Combine(op, TotalValue(op, total), EvalAll(op, terms, env))
  {
    var c := BoolLit(total != 0);
    assert Eval(c, env) == TotalValue(op, total);
    CombineLaws(op, TotalValue(op, total), EvalAll(op, terms, env), None);
    if terms == [] {
      EvalAllSingle(op, c, env);
    } else {
      UniqueKeeps(op, terms, env);
      var distinct := Unique(terms);
      if HasInverse(distinct) {
        InverseDecides(op, distinct, env);
        EvalAllSingle(op, BoolLit(!op.IsAnd()), env);
      } else if total != NeutralElement(op) {
        EvalAllSnoc(op, distinct, c, env);
      }
    }
  }

  lemma AllTermsKeep(op: AssOp, c: Collected, env: Setting)
    requires Combine(op, TotalValue(op, c.total), EvalAll(op, c.terms, env)).Some?
    ensures EvalAll(op, AllTerms(op, c), env) ==
            Combine(op, TotalValue(op, c.total), EvalAll(op, c.terms, env))
  {
    CombineLaws(op, TotalValue(op, c.total), EvalAll(op, c.terms, env), None);
    if op.IsBool() {
      BoolTermsKeeps(op, c.terms, c.total, env);
    } else if c.total != NeutralElement(op) {
      EvalAllSnoc(op, c.terms, Number(c.total), env);
    }
  }

  lemma MakeAssKeeps(op: AssOp, terms: seq<Expr>, env: Setting)
    requires EvalAll(op, terms, env).Some?
    ensures Eval(MakeAss(op, terms), env) == EvalAll(op, terms, env)
  {
    if |terms| == 1 {
      EvalAllMember(op, terms, env, 0);
      assert terms == [terms[0]];
      EvalAllSingle(op, terms[0], env);
    }
  }

  lemma AbsorbKeeps(op: AssOp, e: Expr, env: Setting)
    requires Eval(e, env).Some?
    ensures Eval(Absorb(op, e), env) == Eval(e, env)
  {
    if op.IsAnd() && e.Ass? && e.ass.IsAnd() && FALSE in e.terms {
      MemberDecides(e.ass, e.terms, IndexOf(FALSE, e.terms), env);
    } else if op.IsOr() && e.Ass? && e.ass.IsOr() && TRUE in e.terms {
      MemberDecides(e.ass, e.terms, IndexOf(TRUE, e.terms), env);
    }
  }

  lemma IfForms(c: Expr, t: Expr, rest: Else, env: Setting)
    ensures Eval(If(c, t, rest), env) == Choose(Eval(c, env), Eval(t, env), EvalElse(rest, env))
    ensures rest.ElsePart? ==> EvalElse(rest, env) == Eval(rest.els, env)
    ensures Eval(TRUE, env) == Some(Truth(true)) && Eval(FALSE, env) == Some(Truth(false))
  {
    hide Choose;
  }

  lemma IfKeeps(c: Expr, t: Expr, rest: Else, env: Setting)
    requires Choose(Eval(c, env), Eval(t, env), EvalElse(rest, env)).Some?
    ensures Eval(SimplifyIf(c, t, rest), env) == Choose(Eval(c, env), Eval(t, env), EvalElse(rest, env))
  {
    hide Weight, WeightElse, Eval, EvalElse;
    IfForms(c, t, rest, env);
  }

  lemma FractionOrder(a: int, b: int, c: int, d: int)
    requires b > 0 && d > 0
    ensures (a as real / b as real < c as real / d as real) <==> a * d < c * b
    ensures (a as real / b as real == c as real / d as real) <==> a * d == c * b
  {
    var p, q, x, y := b as real, d as real, a as real / b as real, c as real / d as real;
    assert a as real == x * p && c as real == y * q;
    assert (a * d) as real == (x * p) * q == x * (p * q);
    assert (c * b) as real == (y * q) * p == y * (p * q);
    assert p * q > 0.0;
    if x < y {
      assert x * (p * q) < y * (p * q);
    } else if y < x {
      assert y * (p * q) < x * (p * q);
    }
  }

  lemma QuotientSign(a: int, b: int)
    requires b != 0
    ensures a as real / b as real == (if b > 0 then a else -a) as real / (if b > 0 then b else -b) as real
  {
  }

  lemma RoundedQuotient(a: int, b: int, env: Setting)
    requires b != 0 && env.rounded
    ensures Eval(Bin(Div, Number(a), Number(b)), env) == Some(Num(TruncDiv(a, b) as real))
  {
    assert (a as real).Floor == a && (b as real).Floor == b;
  }

  lemma RoundedQuotientsKeep(rel: RelOp, l: Expr, r: Expr, env: Setting)
    requires ConstantQuotient(l) && ConstantQuotient(r) && env.rounded
    requires RoundingIsHarmless(rel, l.left.n, l.right.n, r.left.n, r.right.n)
    ensures ExactRel(rel, Eval(l, env), Eval(r, env)) ==
            Some(Truth(CompareFractions(rel, l.left.n, l.right.n, r.left.n, r.right.n)))
  {
    hide TruncDiv, CompareFractions, RoundingIsHarmless;
    var a, b, c, d := l.left.n, l.right.n, r.left.n, r.right.n;
    RoundedQuotient(a, b, env);
    RoundedQuotient(c, d, env);
    RoundedComparisonIsExact(rel, a, b, c, d);
    assert l == Bin(Div, Number(a), Number(b)) && r == Bin(Div, Number(c), Number(d));
  }

  lemma QuotientsKeep(rel: RelOp, l: Expr, r: Expr, env: Setting)
    requires ConstantQuotient(l) && ConstantQuotient(r) && !env.rounded
    ensures ExactRel(rel, Eval(l, env), Eval(r, env)) ==
            Some(Truth(CompareFractions(rel, l.left.n, l.right.n, r.left.n, r.right.n)))
  {
    var a, b, c, d := l.left.n, l.right.n, r.left.n, r.right.n;
    QuotientSign(a, b);
    QuotientSign(c, d);
    FractionOrder(if b > 0 then a else -a, if b > 0 then b else -b,
                  if d > 0 then c else -c, if d > 0 then d else -d);
    FractionOrder(if d > 0 then c else -c, if d > 0 then d else -d,
                  if b > 0 then a else -a, if b > 0 then b else -b);
  }

  lemma SameOperandsKeep(rel: RelOp, v: Option<Exact>)
    requires ExactRel(rel, v, v).Some?
    ensures rel in {Equal, LessEqual, GreaterEqual} ==> ExactRel(rel, v, v) == Some(Truth(true))
    ensures rel == NotEqual ==> ExactRel(rel, v, v) == Some(Truth(false))
  {
  }

  lemma LiteralsKeep(rel: RelOp, l: Expr, r: Expr, env: Setting)
    requires l.Literal? && r.Literal? && l != r
    requires ExactRel(rel, Eval(l, env), Eval(r, env)).Some?
    ensures ExactRel(rel, Eval(l, env), Eval(r, env)) == Some(Truth(CompareNames(rel, l.lit, r.lit)))
  {
  }

  /** A comparison with a boolean constant is the other side or its negation. */
  lemma TruthKeeps(rel: RelOp, v: Option<Exact>, b: bool)
    requires !rel.IsOrdering()
    requires ExactRel(rel, Some(Truth(b)), v).Some? || ExactRel(rel, v, Some(Truth(b))).Some?
    ensures ExactRel(rel, Some(Truth(b)), v) == ExactRel(rel, v, Some(Truth(b)))
    ensures ExactRel(rel, v, Some(Truth(b))) == if b == (rel == NotEqual) then ExactNot(v) else v
  {
  }

  lemma FoldRelKeeps(rel: RelOp, l: Expr, r: Expr, env: Setting)
    requires ExactRel(rel, Eval(l, env), Eval(r, env)).Some? && FoldRel(rel, l, r).Some?
    requires RewriteSound(Comparison(rel, l, r), env)
    ensures ExactRel(rel, Eval(l, env), Eval(r, env)) == Some(Truth(FoldRel(rel, l, r).value))
  {
    if l == r {
      SameOperandsKeep(rel, Eval(l, env));
    } else if l.Literal? && r.Literal? {
      LiteralsKeep(rel, l, r, env);
    } else if ConstantQuotient(l) && ConstantQuotient(r) {
      if env.rounded {
        RoundedQuotientsKeep(rel, l, r, env);
      } else {
        QuotientsKeep(rel, l, r, env);
      }
    }
  }

  lemma EvalForms(rel: RelOp, l: Expr, r: Expr, env: Setting)
    ensures Eval(Rel(rel, l, r), env) == ExactRel(rel, Eval(l, env), Eval(r, env))
    ensures Eval(Not(l), env) == ExactNot(Eval(l, env)) && Eval(Not(r), env) == ExactNot(Eval(r, env))
    ensures Eval(TRUE, env) == Some(Truth(true)) && Eval(FALSE, env) == Some(Truth(false))
  {
    hide ExactRel, ExactNot;
  }

  lemma EliminateTruthKeeps(rel: RelOp, l: Expr, r: Expr, env: Setting)
    requires ExactRel(rel, Eval(l, env), Eval(r, env)).Some?
    ensures Eval(EliminateTruth(rel, l, r), env) == ExactRel(rel, Eval(l, env), Eval(r, env))
  {
    hide Eval, ExactRel, ExactNot, Weight;
    EvalForms(rel, l, r, env);
    if !rel.IsOrdering() {
      if l == TRUE || l == FALSE {
        TruthKeeps(rel, Eval(r, env), l == TRUE);
      } else if r == TRUE || r == FALSE {
        TruthKeeps(rel, Eval(l, env), r == TRUE);
      }
    }
  }

  lemma RelKeeps(rel: RelOp, l: Expr, r: Expr, env: Setting)
    requires ExactRel(rel, Eval(l, env), Eval(r, env)).Some? && Sound(Compared(rel, l, r), env)
    ensures Eval(SimplifyRel(rel, l, r), env) == ExactRel(rel, Eval(l, env), Eval(r, env))
  {
    hide ExactRel, FoldRel, EliminateTruth, Weight;
    assert ConstantQuotient(l) && ConstantQuotient(r) ==> RewriteSound(Compared(rel, l, r)[0], env);
    if FoldRel(rel, l, r).Some? {
      FoldRelKeeps(rel, l, r, env);
    } else {
      EliminateTruthKeeps(rel, l, r, env);
    }
  }

  lemma RealPowerInt(b: int, e: nat)
    ensures RealPower(b as real, e) == Power(b, e) as real
  {
  }

  lemma ExactQuotient(l: int, r: int)
    requires r != 0 && FloorMod(l, r) == 0
    ensures TruncDiv(l, r) as real == l as real / r as real
  {
    TruncDivExact(l, r);
    var q, d := TruncDiv(l, r) as real, r as real;
    assert (TruncDiv(l, r) * r) as real == q * d;
    assert l as real == q * d;
  }

  lemma FoldBinKeeps(op: BinOp, l: int, r: int, env: Setting)
    requires BinNum(op, l as real, r as real, env.rounded).Some? && FoldBin(op, l, r).Ok?
    ensures Eval(FoldBin(op, l, r).value, env) == BinNum(op, l as real, r as real, env.rounded)
  {
    match op
    case Sub =>
    case Div => if FloorMod(l, r) == 0 { ExactQuotient(l, r); }
    case Pow => RealPowerInt(l, r);
    case Mod =>
  }

  // The group of functions, one lemma each.

  /** Simplification keeps the value of every expression in every environment where the expression is
      defined and the merged conditionals are sound. */
  lemma {:induction false} SimplifyKeeps(e: Expr, env: Setting)
    requires Eval(e, env).Some? && Simplify(e).Ok? && Sound(Simplify(e).value.log, env)
    ensures Eval(Simplify(e).value.e, env) == Eval(e, env)
    decreases Weight(e), 1
  {
    match e
    case Number(_) =>
    case Literal(_) =>
    case Variable(_, _) =>
    case Selected(_, _, _) =>
    case Not(x) => NotKeeps(x, env);
    case Neg(x) =>
      var y := Simplify(x).value;
      SoundParts(y.log, Negate(y.e).value.log, env);
      SimplifyKeeps(x, env);
      NegateKeeps(y.e, env);
    case Ass(op, terms) => AssKeeps(op, terms, env);
    case Bin(op, l, r) => BinKeeps(op, l, r, env);
    case Rel(rel, l, r) =>
      var x, y := Simplify(l).value, Simplify(r).value;
      SoundParts(x.log + y.log, Compared(rel, x.e, y.e), env);
      SoundParts(x.log, y.log, env);
      SimplifyKeeps(l, env);
      SimplifyKeeps(r, env);
      RelKeeps(rel, x.e, y.e, env);
    case If(c, t, rest) =>
      IfPartsKeep(c, t, rest, env);
      IfKeeps(Simplify(c).value.e, Simplify(t).value.e, SimplifyElse(rest).value.rest, env);
  }

  lemma {:induction false} IfPartsKeep(c: Expr, t: Expr, rest: Else, env: Setting)
    requires Choose(Eval(c, env), Eval(t, env), EvalElse(rest, env)).Some?
    requires Simplify(c).Ok? && Simplify(t).Ok? && SimplifyElse(rest).Ok?
    requires Sound(Simplify(c).value.log + Simplify(t).value.log + SimplifyElse(rest).value.log, env)
    ensures Choose(Eval(Simplify(c).value.e, env), Eval(Simplify(t).value.e, env),
                   EvalElse(SimplifyElse(rest).value.rest, env)) ==
            Choose(Eval(c, env), Eval(t, env), EvalElse(rest, env))
    decreases Weight(c) + Weight(t) + WeightElse(rest), 4
  {
    var x, y, z := Simplify(c).value, Simplify(t).value, SimplifyElse(rest).value;
    SoundParts(x.log + y.log, z.log, env);
    SoundParts(x.log, y.log, env);
    SimplifyKeeps(c, env);
    if Eval(c, env) == Some(Truth(true)) {
      SimplifyKeeps(t, env);
    } else {
      ElseKeeps(rest, env);
    }
  }

  lemma {:induction false} ElseKeeps(rest: Else, env: Setting)
    requires EvalElse(rest, env).Some? && SimplifyElse(rest).Ok? && Sound(SimplifyElse(rest).value.log, env)
    ensures EvalElse(SimplifyElse(rest).value.rest, env) == EvalElse(rest, env)
    decreases WeightElse(rest), 5
  {
    match rest
    case NoElse =>
    case ElsePart(e) => SimplifyKeeps(e, env);
    case Elsif(c, t, more) => IfPartsKeep(c, t, more, env);
  }

  lemma {:induction false} NotKeeps(x: Expr, env: Setting)
    requires ExactNot(Eval(x, env)).Some?
    requires SimplifyNot(x).Ok? && Sound(SimplifyNot(x).value.log, env)
    ensures Eval(SimplifyNot(x).value.e, env) == ExactNot(Eval(x, env))
    decreases 2 * Weight(x), 0
  {
    if x == TRUE || x == FALSE {
    } else if x.Ass? && x.ass.IsBool() {
      var ts := NegateAll(x.terms).value;
      var dual := if x.ass.IsAnd() then Or else And;
      SoundParts(ts.log, Simplify(Ass(dual, ts.terms)).value.log, env);
      NegateAllKeeps(x.ass, x.terms, env);
      SimplifyKeeps(Ass(dual, ts.terms), env);
    } else if x.Rel? {
      var l, r := Simplify(x.left).value, Simplify(x.right).value;
      SoundParts(l.log, r.log, env);
      SimplifyKeeps(x.left, env);
      SimplifyKeeps(x.right, env);
      InverseValue(x.rel, Eval(x.left, env), Eval(x.right, env));
    } else {
      SimplifyKeeps(x, env);
    }
  }

  /** De Morgan's law for a list of terms. */
  lemma {:induction false} NegateAllKeeps(op: AssOp, terms: seq<Expr>, env: Setting)
    requires op.IsBool() && EvalAll(op, terms, env).Some?
    requires NegateAll(terms).Ok? && Sound(NegateAll(terms).value.log, env)
    ensures EvalAll(if op.IsAnd() then Or else And, NegateAll(terms).value.terms, env) ==
            ExactNot(EvalAll(op, terms, env))
    decreases 2 * WeightAll(terms) + 1, 0
  {
    if terms != [] {
      var t := Simplify(terms[0]).value;
      var n := Simplify(Not(t.e)).value;
      var ts := NegateAll(terms[1..]).value;
      SoundParts(t.log + n.log, ts.log, env);
      SoundParts(t.log, n.log, env);
      SimplifyKeeps(terms[0], env);
      SimplifyKeeps(Not(t.e), env);
      NegateAllKeeps(op, terms[1..], env);
      DeMorganStep(op, Eval(terms[0], env), EvalAll(op, terms[1..], env));
      EvalAllCons(if op.IsAnd() then Or else And, n.e, ts.terms, env);
    }
  }

  lemma DeMorganStep(op: AssOp, a: Option<Exact>, b: Option<Exact>)
    requires op.IsBool() && Combine(op, a, b).Some?
    ensures Combine(if op.IsAnd() then Or else And, ExactNot(a), ExactNot(b)) == ExactNot(Combine(op, a, b))
  {
  }

  lemma {:induction false} AssKeeps(op: AssOp, terms: seq<Expr>, env: Setting)
    requires EvalAll(op, terms, env).Some?
    requires SimplifyAss(op, terms).Ok? && Sound(SimplifyAss(op, terms).value.log, env)
    ensures Eval(SimplifyAss(op, terms).value.e, env) == EvalAll(op, terms, env)
    decreases 2 + WeightAll(terms), 0
  {
    hide Collect, FinishAss, AllTerms, Sound;
    var c := Collect(op, terms, NeutralElement(op), []).value;
    TotalNeutral(op);
    EvalAllNeutral(op, terms, env);
    CombineLaws(op, Some(Neutral(op)), Some(Neutral(op)), None);
    if c.terms == [] && !op.IsBool() {
      CollectKeeps(op, terms, NeutralElement(op), [], env);
      CombineLaws(op, TotalValue(op, c.total), Some(Neutral(op)), None);
    } else {
      SoundParts(c.log, FinishAss(op, AllTerms(op, c)).value.log, env);
      CollectKeeps(op, terms, NeutralElement(op), [], env);
      AllTermsKeep(op, c, env);
      FinishKeeps(op, AllTerms(op, c), env);
    }
  }

  lemma {:induction false} CollectKeeps(op: AssOp, pending: seq<Expr>, total: int, terms: seq<Expr>, env: Setting)
    requires Combine(op, EvalAll(op, pending, env), Combine(op, TotalValue(op, total), EvalAll(op, terms, env))).Some?
    requires Collect(op, pending, total, terms).Ok? && Sound(Collect(op, pending, total, terms).value.log, env)
    ensures var c := Collect(op, pending, total, terms).value;
            Combine(op, TotalValue(op, c.total), EvalAll(op, c.terms, env)) ==
            Combine(op, EvalAll(op, pending, env), Combine(op, TotalValue(op, total), EvalAll(op, terms, env)))
    decreases WeightAll(pending) + 1, 0
  {
    var sum, acc := TotalValue(op, total), EvalAll(op, terms, env);
    CombineLaws(op, Combine(op, sum, acc), EvalAll(op, pending, env), None);
    if pending != [] {
      var head, rest := Eval(pending[0], env), EvalAll(op, pending[1..], env);
      var t := Simplify(pending[0]).value;
      CombineShuffle(op, head, rest, sum, acc);
      EvalAllMember(op, pending, env, 0);
      if IsConstant(t.e) {
        var next := Operation(op, total, ConstantOf(t.e));
        SoundParts(t.log, Collect(op, pending[1..], next, terms).value.log, env);
        SimplifyKeeps(pending[0], env);
        FoldConstant(op, total, t.e, env);
        CollectKeeps(op, pending[1..], next, terms, env);
      } else if t.e.Ass? && op.HasInstance(t.e.ass) {
        SoundParts(t.log, Collect(op, pending[1..] + t.e.terms, total, terms).value.log, env);
        SimplifyKeeps(pending[0], env);
        WeightConcat(pending[1..], t.e.terms);
        SameClassValue(op, t.e.ass, t.e.terms, env);
        EvalAllConcat(op, pending[1..], t.e.terms, env);
        CombineLaws(op, rest, head, None);
        CollectKeeps(op, pending[1..] + t.e.terms, total, terms, env);
      } else {
        SoundParts(t.log, Collect(op, pending[1..], total, terms + [t.e]).value.log, env);
        SimplifyKeeps(pending[0], env);
        EvalAllSnoc(op, terms, t.e, env);
        CollectKeeps(op, pending[1..], total, terms + [t.e], env);
      }
    }
  }

  lemma {:induction false} FinishKeeps(op: AssOp, terms: seq<Expr>, env: Setting)
    requires EvalAll(op, terms, env).Some?
    requires FinishAss(op, terms).Ok? && Sound(FinishAss(op, terms).value.log, env)
    ensures Eval(FinishAss(op, terms).value.e, env) == EvalAll(op, terms, env)
    decreases WeightAll(terms) + (if op == Add then 1 else 0), 4
  {
    var m := MergeIfs(op, terms).value;
    var e := Absorb(op, MakeAss(op, m.terms));
    var cancels := op == Add && e.Ass? && e.ass == Add;
    SoundParts(m.log, if cancels then Cancel(e.terms).value.log else [], env);
    MergeIfsKeep(op, terms, env);
    MakeAssKeeps(op, m.terms, env);
    AbsorbKeeps(op, MakeAss(op, m.terms), env);
    if cancels {
      CancelKeeps(e.terms, env);
      MakeAssKeeps(Add, Cancel(e.terms).value.terms, env);
    }
  }

  lemma OrValue(a: Expr, b: Expr, x: bool, y: bool, env: Setting)
    requires Eval(a, env) == Some(Truth(x)) && Eval(b, env) == Some(Truth(y))
    ensures Eval(Ass(Or, [a, b]), env) == Some(Truth(x || y))
  {
    EvalAllPair(Or, a, b, env);
  }

  lemma {:induction false} MergeKeeps(op: AssOp, t: Expr, u: Expr, env: Setting)
    requires Mergeable(t, u) && Combine(op, Eval(t, env), Eval(u, env)).Some?
    requires Simplify(Ass(Or, [t.cond, u.cond])).Ok?
    requires var c := Simplify(Ass(Or, [t.cond, u.cond])).value;
             Sound(c.log, env) && RewriteSound(Merge(op, t, u, If(c.e, t.thn, t.rest.Final())), env)
    ensures var c := Simplify(Ass(Or, [t.cond, u.cond])).value;
            Eval(If(c.e, t.thn, t.rest.Final()), env) == Combine(op, Eval(t, env), Eval(u, env))
    decreases Weight(Ass(Or, [t.cond, u.cond])), 2
  {
    var a, b := Eval(t.cond, env).value.b, Eval(u.cond, env).value.b;
    OrValue(t.cond, u.cond, a, b, env);
    SimplifyKeeps(Ass(Or, [t.cond, u.cond]), env);
    MergeIsExact(op, a, b, Eval(t.thn, env), EvalElse(t.rest, env), EvalElse(u.rest, env));
  }

  lemma {:induction false} MergeIfsKeep(op: AssOp, terms: seq<Expr>, env: Setting)
    requires EvalAll(op, terms, env).Some?
    requires MergeIfs(op, terms).Ok? && Sound(MergeIfs(op, terms).value.log, env)
    ensures EvalAll(op, MergeIfs(op, terms).value.terms, env) == EvalAll(op, terms, env)
    decreases WeightAll(terms), 0, 1
  {
    if terms != [] && terms[0].If? {
      var t, others := terms[0], terms[1..];
      var i := FirstMergeable(t, others);
      CombineLaws(op, Eval(t, env), EvalAll(op, others, env), None);
      assert terms == [t] + others;
      if i == |others| {
        var ts := MergeIfs(op, others).value.terms;
        MergeIfsKeep(op, others, env);
        assert ([t] + ts)[1..] == ts;
      } else {
        MergeOneKeeps(op, t, others, i, env);
      }
    }
  }

  lemma {:induction false} MergeOneKeeps(op: AssOp, t: Expr, others: seq<Expr>, i: nat, env: Setting)
    requires t.If? && i < |others| && i == FirstMergeable(t, others)
    requires Combine(op, Eval(t, env), EvalAll(op, others, env)).Some?
    requires MergeIfs(op, [t] + others).Ok? && Sound(MergeIfs(op, [t] + others).value.log, env)
    ensures EvalAll(op, MergeIfs(op, [t] + others).value.terms, env) ==
            Combine(op, Eval(t, env), EvalAll(op, others, env))
    decreases Weight(t) + WeightAll(others), 0, 0
  {
    hide Simplify, Sound;
    assert ([t] + others)[1..] == others;
    var u := others[i];
    var c := Simplify(Ass(Or, [t.cond, u.cond])).value;
    var m := If(c.e, t.thn, t.rest.Final());
    var less := others[..i] + others[i + 1..];
    var ts := MergeIfs(op, less).value;
    var logs := c.log + [Merge(op, t, u, m)];
    assert MergeIfs(op, [t] + others).value == SimpTerms([m] + ts.terms, logs + ts.log);
    SoundParts(logs, ts.log, env);
    SoundParts(c.log, [Merge(op, t, u, m)], env);
    assert RewriteSound([Merge(op, t, u, m)][0], env);
    EvalAllRemove(op, others, i, env);
    CombineLaws(op, Eval(t, env), Eval(u, env), EvalAll(op, less, env));
    CombineLaws(op, Combine(op, Eval(t, env), Eval(u, env)), EvalAll(op, less, env), None);
    WeightRemove(others, i);
    WeightPair(t.cond, u.cond);
    MergeKeeps(op, t, u, env);
    MergeIfsKeep(op, less, env);
    assert ([m] + ts.terms)[1..] == ts.terms;
  }

  /** Cancelling complementary terms conserves the sum. */
  lemma {:induction false} CancelKeeps(terms: seq<Expr>, env: Setting)
    requires EvalAll(Add, terms, env).Some?
    requires Cancel(terms).Ok? && Sound(Cancel(terms).value.log, env)
    ensures EvalAll(Add, Cancel(terms).value.terms, env) == EvalAll(Add, terms, env)
    decreases WeightAll(terms) + 1, 3
  {
    if terms != [] {
      var kept := Cancel(terms[1..]).value;
      CombineLaws(Add, Eval(terms[0], env), EvalAll(Add, terms[1..], env), None);
      SoundParts(kept.log, if kept.terms == [] then [] else Negate(terms[0]).value.log, env);
      CancelKeeps(terms[1..], env);
      if kept.terms == [] {
        EvalAllSingle(Add, terms[0], env);
      } else {
        NegateKeeps(terms[0], env);
        CancelOneKeeps(terms[0], Negate(terms[0]).value.e, kept.terms, env);
      }
    }
  }

  lemma OppositesCancel(x: Option<Exact>, rest: Option<Exact>)
    requires Combine(Add, x, Combine(Add, ExactNeg(x), rest)).Some?
    ensures Combine(Add, x, Combine(Add, ExactNeg(x), rest)) == rest
  {
  }

  lemma CancelOneKeeps(term: Expr, negation: Expr, kept: seq<Expr>, env: Setting)
    requires Combine(Add, Eval(term, env), EvalAll(Add, kept, env)).Some?
    requires Eval(negation, env) == ExactNeg(Eval(term, env))
    ensures EvalAll(Add, CancelOne(term, negation, kept), env) ==
            Combine(Add, Eval(term, env), EvalAll(Add, kept, env))
  {
    if negation in kept {
      var i := IndexOf(negation, kept);
      EvalAllRemove(Add, kept, i, env);
      OppositesCancel(Eval(term, env), EvalAll(Add, kept[..i] + kept[i + 1..], env));
    } else {
      EvalAllCons(Add, term, kept, env);
    }
  }

  lemma SubKeeps(l: Expr, r: Expr, n: Expr, env: Setting)
    requires ExactBin(Sub, Eval(l, env), Eval(r, env), env.rounded).Some? && Eval(n, env) == ExactNeg(Eval(r, env))
    ensures Eval(Ass(Add, [l, n]), env) == ExactBin(Sub, Eval(l, env), Eval(r, env), env.rounded)
  {
    EvalAllPair(Add, l, n, env);
  }

  lemma {:induction false} BinKeeps(op: BinOp, left: Expr, right: Expr, env: Setting)
    requires ExactBin(op, Eval(left, env), Eval(right, env), env.rounded).Some?
    requires SimplifyBin(op, left, right).Ok? && Sound(SimplifyBin(op, left, right).value.log, env)
    ensures Eval(SimplifyBin(op, left, right).value.e, env) ==
            ExactBin(op, Eval(left, env), Eval(right, env), env.rounded)
    decreases Weight(Bin(op, left, right)), 0
  {
    hide Simplify, Negate, FoldBin, Sound;
    var l, r := Simplify(left).value, Simplify(right).value;
    if l.e.Number? && r.e.Number? {
      SoundParts(l.log, r.log, env);
      SimplifyKeeps(left, env);
      SimplifyKeeps(right, env);
      FoldBinKeeps(op, l.e.n, r.e.n, env);
    } else if op == Sub {
      var n := Negate(r.e).value;
      SoundParts(l.log + r.log, n.log, env);
      SoundParts(l.log, r.log, env);
      SimplifyKeeps(left, env);
      SimplifyKeeps(right, env);
      NegateKeeps(r.e, env);
      SubKeeps(l.e, r.e, n.e, env);
    } else {
      SoundParts(l.log, r.log, env);
      SimplifyKeeps(left, env);
      SimplifyKeeps(right, env);
    }
  }

  lemma NegateQuotient(x: real, y: real)
    requires y != 0.0
    ensures (-x) / y == -(x / y)
  {
  }

  lemma NegatedQuotient(a: Option<Exact>, b: Option<Exact>, rounded: bool)
    requires ExactBin(Div, a, b, rounded).Some?
    ensures ExactNeg(a).Some? && ExactBin(Div, ExactNeg(a), b, rounded) == ExactNeg(ExactBin(Div, a, b, rounded))
  {
    var x, y := a.value.r, b.value.r;
    if rounded {
      assert (-x).Floor == -x.Floor;
      QuotientOfNegation(x.Floor, y.Floor);
    } else {
      NegateQuotient(x, y);
    }
  }

  lemma NegatedDifference(a: Option<Exact>, b: Option<Exact>, rounded: bool)
    ensures ExactBin(Sub, b, a, rounded) == ExactNeg(ExactBin(Sub, a, b, rounded))
  {
  }

  lemma TimesMinusOne(x: real)
    ensures Times(x, -1.0) == -x && Times(-1.0, x) == -x
  {
  }

  lemma NegatedProduct(a: Option<Exact>)
    requires ExactNeg(a).Some?
    ensures Combine(Mul, a, Some(Num(-1.0))) == ExactNeg(a)
    ensures Combine(Mul, Some(Num(-1.0)), a) == ExactNeg(a)
  {
    TimesMinusOne(a.value.r);
  }

  /** Unary minus of a numeric expression denotes arithmetic negation. */
  lemma {:induction false} NegateKeeps(e: Expr, env: Setting)
    requires ExactNeg(Eval(e, env)).Some?
    requires Negate(e).Ok? && Sound(Negate(e).value.log, env)
    ensures Eval(Negate(e).value.e, env) == ExactNeg(Eval(e, env))
    decreases Weight(e) + (if e.Ass? && e.ass == Mul then 1 else 0), 2
  {
    match e
    case If(_, _, _) =>
      NegatedProduct(Eval(e, env));
      EvalAllPair(Mul, Number(-1), e, env);
    case Bin(op, l, r) =>
      if op == Div {
        NegatedQuotient(Eval(l, env), Eval(r, env), env.rounded);
        NegateKeeps(l, env);
      } else if op == Sub {
        NegatedDifference(Eval(l, env), Eval(r, env), env.rounded);
      }
    case Ass(op, terms) =>
      if op == Add {
        NegateSumKeeps(terms, env);
      } else if op == Mul {
        WeightSnoc(terms, Number(-1));
        EvalAllSnoc(Mul, terms, Number(-1), env);
        NegatedProduct(EvalAll(Mul, terms, env));
        SimplifyKeeps(Ass(Mul, terms + [Number(-1)]), env);
      }
    case _ =>
  }

  lemma NegatedSum(a: Option<Exact>, b: Option<Exact>)
    requires Combine(Add, a, b).Some?
    ensures ExactNeg(a).Some? && ExactNeg(b).Some?
    ensures Combine(Add, ExactNeg(a), ExactNeg(b)) == ExactNeg(Combine(Add, a, b))
  {
  }

  lemma {:induction false} NegateSumKeeps(terms: seq<Expr>, env: Setting)
    requires EvalAll(Add, terms, env).Some?
    requires NegateSum(terms).Ok? && Sound(NegateSum(terms).value.log, env)
    ensures EvalAll(Add, NegateSum(terms).value.terms, env) == ExactNeg(EvalAll(Add, terms, env))
    decreases WeightAll(terms) + 1, 3
  {
    if terms != [] {
      var t, ts := Negate(terms[0]).value, NegateSum(terms[1..]).value;
      SoundParts(t.log, ts.log, env);
      NegatedSum(Eval(terms[0], env), EvalAll(Add, terms[1..], env));
      NegateKeeps(terms[0], env);
      NegateSumKeeps(terms[1..], env);
      EvalAllCons(Add, t.e, ts.terms, env);
    }
  }
}
