/** Simplification stays inside of fragments of the language: it introduces no division, no conditional, no variable
    and no empty disjunction or product. */
module SimplifierShape {
  import opened Results
  import opened Expressions
  import opened Identifiers
  import opened ExactEval
  import opened Simplifier
  import opened SimplifierMeaning

  /** What the expressions of a fragment may contain: divisions, conditionals, relations, empty disjunctions and
      products, and temporaries with numbers from a bound on. */
  datatype Fragment = Fragment(divisions: bool, conditionals: bool, relations: bool, empties: bool, below: Option<nat>)

  predicate Plain(e: Expr, f: Fragment)
    decreases e
  {
    match e
    case Variable(id, _) => f.below.Some? ==> TempIndex(id) < f.below.value
    case Not(x) => Plain(x, f)
    case Neg(x) => Plain(x, f)
    case Ass(op, terms) => AllPlain(terms, f) && (terms == [] ==> f.empties || op.IsAnd() || op == Add)
    case Bin(op, l, r) => (op == Div ==> f.divisions) && Plain(l, f) && Plain(r, f)
    case Rel(_, l, r) => f.relations && Plain(l, f) && Plain(r, f)
    case If(c, t, rest) => f.conditionals && Plain(c, f) && Plain(t, f) && ElsePlain(rest, f)
    case _ => true
  }

  predicate AllPlain(terms: seq<Expr>, f: Fragment)
    decreases terms
  {
    terms == [] || (Plain(terms[0], f) && AllPlain(terms[1..], f))
  }

  predicate ElsePlain(rest: Else, f: Fragment)
    decreases rest
  {
    match rest
    case NoElse => true
    case ElsePart(e) => Plain(e, f)
    case Elsif(c, t, r) => Plain(c, f) && Plain(t, f) && ElsePlain(r, f)
  }

  lemma {:induction false} AllPlainConcat(a: seq<Expr>, b: seq<Expr>, f: Fragment)
    ensures AllPlain(a + b, f) == (AllPlain(a, f) && AllPlain(b, f))
  {
    if a == [] {
      assert a + b == b;
    } else {
      assert (a + b)[1..] == a[1..] + b;
      AllPlainConcat(a[1..], b, f);
    }
  }

  lemma AllPlainSnoc(a: seq<Expr>, t: Expr, f: Fragment)
    ensures AllPlain(a + [t], f) == (AllPlain(a, f) && Plain(t, f))
  {
    AllPlainConcat(a, [t], f);
    assert [t][1..] == [];
  }

  lemma AllPlainRemove(a: seq<Expr>, i: nat, f: Fragment)
    requires i < |a|
    ensures AllPlain(a, f) == (AllPlain(a[..i] + a[i + 1..], f) && Plain(a[i], f))
  {
    var back := a[i..];
    assert a == a[..i] + back && back[0] == a[i] && back[1..] == a[i + 1..];
    AllPlainConcat(a[..i], back, f);
    AllPlainConcat(a[..i], a[i + 1..], f);
  }

  lemma {:induction false} UniquePlain(terms: seq<Expr>, f: Fragment)
    requires AllPlain(terms, f)
    ensures AllPlain(Unique(terms), f) && (terms != [] ==> Unique(terms) != [])
  {
    if terms != [] {
      var front, last := terms[..|terms| - 1], terms[|terms| - 1];
      assert terms == front + [last];
      AllPlainSnoc(front, last, f);
      UniquePlain(front, f);
      AllPlainSnoc(Unique(front), last, f);
    }
  }

  lemma AllTermsPlain(op: AssOp, c: Collected, f: Fragment)
    requires AllPlain(c.terms, f) && (c.terms != [] || op.IsBool())
    ensures AllPlain(AllTerms(op, c), f) && AllTerms(op, c) != []
  {
    UniquePlain(c.terms, f);
    AllPlainSnoc(Unique(c.terms), BoolLit(c.total != 0), f);
    AllPlainSnoc(c.terms, Number(c.total), f);
    AllPlainSnoc([], BoolLit(c.total != 0), f);
    AllPlainSnoc([], BoolLit(!op.IsAnd()), f);
    assert [] + [BoolLit(c.total != 0)] == [BoolLit(c.total != 0)];
    assert [] + [BoolLit(!op.IsAnd())] == [BoolLit(!op.IsAnd())];
  }

  lemma {:induction false} FinalPlain(rest: Else, f: Fragment)
    requires ElsePlain(rest, f)
    ensures ElsePlain(rest.Final(), f)
  {
    if rest.Elsif? {
      FinalPlain(rest.rest, f);
    }
  }

  /** Conditionals are the only reason for merges; comparisons of quotients need relations and divisions. */
  predicate Reasons(log: seq<Rewrite>, f: Fragment) {
    forall i :: 0 <= i < |log| ==> if log[i].Merge? then f.conditionals else f.divisions && f.relations
  }

  lemma NothingToMerge(op: AssOp, terms: seq<Expr>)
    requires terms == [] || !terms[0].If?
    ensures MergeIfs(op, terms) == Ok(SimpTerms(terms, []))
  {
  }

  lemma ReasonsConcat(a: seq<Rewrite>, b: seq<Rewrite>, f: Fragment)
    requires Reasons(a, f) && Reasons(b, f)
    ensures Reasons(a + b, f)
  {
  }

  /** Simplification, one lemma for each function. */
  lemma {:induction false} SimplifyPlain(e: Expr, f: Fragment)
    requires Plain(e, f) && Simplify(e).Ok?
    ensures Plain(Simplify(e).value.e, f)
    ensures Reasons(Simplify(e).value.log, f)
    decreases Weight(e), 1
  {
    match e
    case Number(_) =>
    case Literal(_) =>
    case Variable(_, _) =>
    case Selected(_, _, _) =>
    case Not(x) => NotPlain(x, f);
    case Neg(x) =>
      SimplifyPlain(x, f);
      NegatePlain(Simplify(x).value.e, f);
    case Ass(op, terms) => AssPlain(op, terms, f);
    case Bin(op, l, r) => BinPlain(op, l, r, f);
    case Rel(rel, l, r) =>
      SimplifyPlain(l, f);
      SimplifyPlain(r, f);
      RelPlain(rel, Simplify(l).value.e, Simplify(r).value.e, f);
    case If(c, t, rest) =>
      SimplifyPlain(c, f);
      SimplifyPlain(t, f);
      SimplifyElsePlain(rest, f);
  }

  lemma {:induction false} BinPlain(op: BinOp, l: Expr, r: Expr, f: Fragment)
    requires Plain(Bin(op, l, r), f) && SimplifyBin(op, l, r).Ok?
    ensures Plain(SimplifyBin(op, l, r).value.e, f)
    ensures Reasons(SimplifyBin(op, l, r).value.log, f)
    decreases Weight(Bin(op, l, r)), 0
  {
    hide Simplify, Negate;
    SimplifyPlain(l, f);
    SimplifyPlain(r, f);
    var x, y := Simplify(l).value.e, Simplify(r).value.e;
    if op == Sub && !(x.Number? && y.Number?) {
      NegatePlain(y, f);
      AllPlainSnoc([x], Negate(y).value.e, f);
      AllPlainSnoc([], x, f);
      assert [] + [x] == [x] && [x] + [Negate(y).value.e] == [x, Negate(y).value.e];
    }
  }

  lemma RelPlain(rel: RelOp, l: Expr, r: Expr, f: Fragment)
    requires Plain(l, f) && Plain(r, f) && f.relations
    ensures Plain(SimplifyRel(rel, l, r), f)
  {
    hide FoldRel, EliminateTruth, Weight;
    EliminatePlain(rel, l, r, f);
  }

  lemma EliminatePlain(rel: RelOp, l: Expr, r: Expr, f: Fragment)
    requires Plain(l, f) && Plain(r, f) && f.relations
    ensures Plain(EliminateTruth(rel, l, r), f)
  {
    hide Weight;
    assert Plain(Rel(rel, l, r), f) && Plain(Not(l), f) && Plain(Not(r), f);
    hide Plain;
  }

  lemma {:induction false} SimplifyElsePlain(rest: Else, f: Fragment)
    requires ElsePlain(rest, f) && SimplifyElse(rest).Ok?
    ensures ElsePlain(SimplifyElse(rest).value.rest, f)
    ensures Reasons(SimplifyElse(rest).value.log, f)
    decreases WeightElse(rest), 2
  {
    match rest
    case NoElse =>
    case ElsePart(e) => SimplifyPlain(e, f);
    case Elsif(c, t, more) =>
      SimplifyPlain(c, f);
      SimplifyPlain(t, f);
      SimplifyElsePlain(more, f);
  }

  lemma {:induction false} NotPlain(x: Expr, f: Fragment)
    requires Plain(x, f) && SimplifyNot(x).Ok?
    ensures Plain(SimplifyNot(x).value.e, f)
    ensures Reasons(SimplifyNot(x).value.log, f)
    decreases 2 * Weight(x), 0
  {
    if x == TRUE || x == FALSE {
    } else if x.Ass? && x.ass.IsBool() {
      NegateAllPlain(x.terms, f);
      AssPlain(if x.ass.IsAnd() then Or else And, NegateAll(x.terms).value.terms, f);
    } else if x.Rel? {
      SimplifyPlain(x.left, f);
      SimplifyPlain(x.right, f);
    } else {
      SimplifyPlain(x, f);
    }
  }

  lemma {:induction false} NegateAllPlain(terms: seq<Expr>, f: Fragment)
    requires AllPlain(terms, f) && NegateAll(terms).Ok?
    ensures AllPlain(NegateAll(terms).value.terms, f)
    ensures Reasons(NegateAll(terms).value.log, f)
    decreases 2 * WeightAll(terms) + 1, 0
  {
    if terms != [] {
      var t := Simplify(terms[0]).value.e;
      SimplifyPlain(terms[0], f);
      SimplifyPlain(Not(t), f);
      NegateAllPlain(terms[1..], f);
      var r := Simplify(Not(t)).value.e;
      var ts := NegateAll(terms[1..]).value.terms;
      assert ([r] + ts)[1..] == ts;
    }
  }

  lemma {:induction false} AssPlain(op: AssOp, terms: seq<Expr>, f: Fragment)
    requires AllPlain(terms, f) && SimplifyAss(op, terms).Ok?
    ensures Plain(SimplifyAss(op, terms).value.e, f)
    ensures Reasons(SimplifyAss(op, terms).value.log, f)
    decreases 2 + WeightAll(terms), 0
  {
    var c := Collect(op, terms, NeutralElement(op), []).value;
    CollectPlain(op, terms, NeutralElement(op), [], f);
    if !(c.terms == [] && !op.IsBool()) {
      AllTermsPlain(op, c, f);
      FinishPlain(op, AllTerms(op, c), f);
    }
  }

  lemma {:induction false} CollectPlain(op: AssOp, pending: seq<Expr>, total: int, terms: seq<Expr>, f: Fragment)
    requires AllPlain(pending, f) && AllPlain(terms, f) && Collect(op, pending, total, terms).Ok?
    ensures AllPlain(Collect(op, pending, total, terms).value.terms, f)
    ensures Reasons(Collect(op, pending, total, terms).value.log, f)
    decreases WeightAll(pending) + 1, 0
  {
    if pending != [] {
      hide Reasons, Simplify;
      var first := Simplify(pending[0]).value;
      var t := first.e;
      SimplifyPlain(pending[0], f);
      if IsConstant(t) {
        var total' := Operation(op, total, ConstantOf(t));
        CollectPlain(op, pending[1..], total', terms, f);
        ReasonsConcat(first.log, Collect(op, pending[1..], total', terms).value.log, f);
      } else if t.Ass? && op.HasInstance(t.ass) {
        WeightConcat(pending[1..], t.terms);
        AllPlainConcat(pending[1..], t.terms, f);
        CollectPlain(op, pending[1..] + t.terms, total, terms, f);
        ReasonsConcat(first.log, Collect(op, pending[1..] + t.terms, total, terms).value.log, f);
      } else {
        AllPlainSnoc(terms, t, f);
        CollectPlain(op, pending[1..], total, terms + [t], f);
        ReasonsConcat(first.log, Collect(op, pending[1..], total, terms + [t]).value.log, f);
      }
    }
  }

  lemma {:induction false} FinishPlain(op: AssOp, terms: seq<Expr>, f: Fragment)
    requires AllPlain(terms, f) && terms != [] && FinishAss(op, terms).Ok?
    ensures Plain(FinishAss(op, terms).value.e, f)
    ensures Reasons(FinishAss(op, terms).value.log, f)
    decreases WeightAll(terms) + (if op == Add then 1 else 0), 4
  {
    MergeIfsPlain(op, terms, f);
    var e := Absorb(op, MakeAss(op, MergeIfs(op, terms).value.terms));
    if op == Add && e.Ass? && e.ass == Add {
      CancelPlain(e.terms, f);
    }
  }

  lemma {:induction false} MergeIfsPlain(op: AssOp, terms: seq<Expr>, f: Fragment)
    requires AllPlain(terms, f) && MergeIfs(op, terms).Ok?
    ensures AllPlain(MergeIfs(op, terms).value.terms, f)
    ensures Reasons(MergeIfs(op, terms).value.log, f)
    ensures terms != [] ==> MergeIfs(op, terms).value.terms != []
    decreases WeightAll(terms), 0, 1
  {
    if terms != [] && terms[0].If? {
      var t, others := terms[0], terms[1..];
      var i := FirstMergeable(t, others);
      assert terms == [t] + others;
      if i == |others| {
        MergeIfsPlain(op, others, f);
        var ts := MergeIfs(op, others).value.terms;
        assert ([t] + ts)[1..] == ts;
      } else {
        MergeOnePlain(op, t, others, i, f);
      }
    }
  }

  lemma {:induction false} MergeOnePlain(op: AssOp, t: Expr, others: seq<Expr>, i: nat, f: Fragment)
    requires t.If? && i < |others| && i == FirstMergeable(t, others)
    requires Plain(t, f) && AllPlain(others, f) && MergeIfs(op, [t] + others).Ok?
    ensures AllPlain(MergeIfs(op, [t] + others).value.terms, f)
    ensures Reasons(MergeIfs(op, [t] + others).value.log, f)
    ensures MergeIfs(op, [t] + others).value.terms != []
    decreases Weight(t) + WeightAll(others), 0, 0
  {
    hide Simplify, Reasons, Weight, WeightAll;
    assert ([t] + others)[1..] == others;
    var u := others[i];
    AllPlainRemove(others, i, f);
    WeightRemove(others, i);
    MergeIsLighter(t, u);
    MergedConditionPlain(t, u, f);
    FinalPlain(t.rest, f);
    var less := others[..i] + others[i + 1..];
    MergeIfsPlain(op, less, f);
    var c := Simplify(Ass(Or, [t.cond, u.cond])).value;
    var m, ts := If(c.e, t.thn, t.rest.Final()), MergeIfs(op, less).value;
    assert MergeIfs(op, [t] + others).value == SimpTerms([m] + ts.terms, c.log + [Merge(op, t, u, m)] + ts.log);
    MergeReasons(op, t, u, m, f);
    ReasonsConcat(c.log, [Merge(op, t, u, m)], f);
    ReasonsConcat(c.log + [Merge(op, t, u, m)], ts.log, f);
    assert ([m] + ts.terms)[1..] == ts.terms;
  }

  lemma MergeReasons(op: AssOp, t: Expr, u: Expr, m: Expr, f: Fragment)
    requires f.conditionals
    ensures Reasons([Merge(op, t, u, m)], f)
  {
  }

  lemma {:induction false} MergedConditionPlain(t: Expr, u: Expr, f: Fragment)
    requires t.If? && u.If? && Plain(t, f) && Plain(u, f) && Simplify(Ass(Or, [t.cond, u.cond])).Ok?
    ensures Plain(Simplify(Ass(Or, [t.cond, u.cond])).value.e, f)
    ensures Reasons(Simplify(Ass(Or, [t.cond, u.cond])).value.log, f)
    decreases Weight(Ass(Or, [t.cond, u.cond])), 2
  {
    AllPlainSnoc([t.cond], u.cond, f);
    AllPlainSnoc([], t.cond, f);
    assert [] + [t.cond] == [t.cond] && [t.cond] + [u.cond] == [t.cond, u.cond];
    SimplifyPlain(Ass(Or, [t.cond, u.cond]), f);
  }

  lemma {:induction false} CancelPlain(terms: seq<Expr>, f: Fragment)
    requires AllPlain(terms, f) && Cancel(terms).Ok?
    ensures AllPlain(Cancel(terms).value.terms, f)
    ensures Reasons(Cancel(terms).value.log, f)
    decreases WeightAll(terms) + 1, 3
  {
    if terms != [] {
      hide Negate, Plain;
      CancelPlain(terms[1..], f);
      var kept := Cancel(terms[1..]).value.terms;
      if kept == [] {
        assert [terms[0]][1..] == [];
      } else {
        var negation := Negate(terms[0]).value.e;
        NegatePlain(terms[0], f);
        if negation in kept {
          AllPlainRemove(kept, IndexOf(negation, kept), f);
        } else {
          assert ([terms[0]] + kept)[1..] == kept;
        }
      }
    }
  }

  lemma {:induction false} NegatePlain(e: Expr, f: Fragment)
    requires Plain(e, f) && Negate(e).Ok?
    ensures Plain(Negate(e).value.e, f)
    ensures Reasons(Negate(e).value.log, f)
    decreases Weight(e) + (if e.Ass? && e.ass == Mul then 1 else 0), 2
  {
    match e
    case Bin(op, l, r) =>
      if op == Div {
        NegatePlain(l, f);
      }
    case If(_, _, _) =>
      AllPlainSnoc([Number(-1)], e, f);
      AllPlainSnoc([], Number(-1), f);
      assert [] + [Number(-1)] == [Number(-1)] && [Number(-1)] + [e] == [Number(-1), e];
    case Ass(op, terms) =>
      if op == Add {
        NegateSumPlain(terms, f);
      } else if op == Mul {
        WeightSnoc(terms, Number(-1));
        AllPlainSnoc(terms, Number(-1), f);
        SimplifyPlain(Ass(Mul, terms + [Number(-1)]), f);
      }
    case _ =>
  }

  lemma {:induction false} NegateSumPlain(terms: seq<Expr>, f: Fragment)
    requires AllPlain(terms, f) && NegateSum(terms).Ok?
    ensures AllPlain(NegateSum(terms).value.terms, f)
    ensures Reasons(NegateSum(terms).value.log, f)
    decreases WeightAll(terms) + 1, 3
  {
    if terms != [] {
      NegatePlain(terms[0], f);
      NegateSumPlain(terms[1..], f);
      var t, ts := Negate(terms[0]).value.e, NegateSum(terms[1..]).value.terms;
      assert ([t] + ts)[1..] == ts;
    }
  }

  const WITHOUT_CONDITIONALS := Fragment(true, false, true, true, None)

  lemma ReasonsSuffice(log: seq<Rewrite>, f: Fragment, env: Setting)
    requires Reasons(log, f) && !f.conditionals && (f.divisions && f.relations ==> !env.rounded)
    ensures Sound(log, env)
  {
  }

  /** Without conditionals there is nothing to merge, and simplification keeps the exact value unconditionally. */
  lemma SimplifyKeepsWithoutConditionals(e: Expr, env: Setting)
    requires Plain(e, WITHOUT_CONDITIONALS) && Eval(e, env).Some? && Simplify(e).Ok? && !env.rounded
    ensures Eval(Simplify(e).value.e, env) == Eval(e, env)
  {
    hide Simplify, Eval, Plain;
    SimplifyPlain(e, WITHOUT_CONDITIONALS);
    ReasonsSuffice(Simplify(e).value.log, WITHOUT_CONDITIONALS, env);
    SimplifyKeeps(e, env);
  }
}
