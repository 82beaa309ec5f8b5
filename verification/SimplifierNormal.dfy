/** The normal form of simplified conditions, at every depth: by De Morgan's laws and the inversion of relations,
    negations stand only before variables, fields and literals, and every list of terms is reduced. */
module SimplifierNormal {
  import opened Results
  import opened Expressions
  import opened Simplifier
  import opened SimplifierReduced
  import opened SimplifierClean

  predicate Atom(e: Expr) {
    e.Variable? || e.Selected? || e.Literal?
  }

  /** Negations before an atom. */
  predicate NegatedAtom(e: Expr) {
    Atom(e) || (e.Not? && NegatedAtom(e.expr))
  }

  /** Both operands are numeric, or both are atoms. */
  predicate Operands(l: Expr, r: Expr) {
    (Numeric(l, false) && Numeric(r, false)) || (Atom(l) && Atom(r))
  }

  /** A condition: a boolean formula over relations, in which a double negation stands only before an atom. */
  predicate Condition(e: Expr)
    decreases e
  {
    match e
    case Not(x) => Condition(x) && (x.Not? ==> NegatedAtom(x))
    case Ass(op, terms) => op.IsBool() && AllConditions(terms)
    case Rel(_, l, r) => Operands(l, r)
    case _ => Atom(e)
  }

  predicate AllConditions(terms: seq<Expr>)
    decreases terms
  {
    terms == [] || (Condition(terms[0]) && AllConditions(terms[1..]))
  }

  /** A condition in normal form. */
  ghost predicate Normal(e: Expr)
    decreases e
  {
    match e
    case Not(x) => NegatedAtom(x)
    case Ass(op, terms) => op.IsBool() && AllNormal(terms) && Reduced(op, terms) && TRUE !in terms && FALSE !in terms
    case Rel(_, l, r) => Operands(l, r)
    case _ => Atom(e)
  }

  ghost predicate AllNormal(terms: seq<Expr>)
    decreases terms
  {
    terms == [] || (Normal(terms[0]) && AllNormal(terms[1..]))
  }

  lemma {:induction false} NormalIsCondition(e: Expr)
    requires Normal(e)
    ensures Condition(e) && !e.If? && !e.Number?
    decreases e
  {
    match e
    case Not(x) => NegatedAtomIsCondition(x);
    case Ass(_, terms) => AllNormalAreConditions(terms);
    case _ =>
  }

  lemma {:induction false} AllNormalAreConditions(terms: seq<Expr>)
    requires AllNormal(terms)
    ensures AllConditions(terms)
    decreases terms
  {
    if terms != [] {
      NormalIsCondition(terms[0]);
      AllNormalAreConditions(terms[1..]);
    }
  }

  lemma {:induction false} NegatedAtomIsCondition(e: Expr)
    requires NegatedAtom(e)
    ensures Condition(e) && Normal(e)
  {
    if e.Not? {
      NegatedAtomIsCondition(e.expr);
    }
  }

  lemma {:induction false} AllConditionsConcat(a: seq<Expr>, b: seq<Expr>)
    ensures AllConditions(a + b) == (AllConditions(a) && AllConditions(b))
  {
    if a == [] {
      assert a + b == b;
    } else {
      assert (a + b)[1..] == a[1..] + b;
      AllConditionsConcat(a[1..], b);
    }
  }

  lemma {:induction false} AllNormalMembers(terms: seq<Expr>)
    ensures AllNormal(terms) <==> forall t :: t in terms ==> Normal(t)
  {
    if terms != [] {
      var rest := terms[1..];
      AllNormalMembers(rest);
      assert AllNormal(terms) == (Normal(terms[0]) && AllNormal(rest));
      hide Normal, AllNormal;
      if AllNormal(terms) {
        forall t | t in terms ensures Normal(t) {
          assert t == terms[0] || t in rest;
        }
      }
      assert terms[0] in terms && forall t :: t in rest ==> t in terms;
    }
  }

  /** Simplification makes conditions normal, one lemma for each function. */
  lemma {:induction false} SimplifyIsNormal(e: Expr)
    requires Condition(e) && Simplify(e).Ok?
    ensures Normal(Simplify(e).value.e)
    decreases Weight(e), 1
  {
    match e
    case Literal(_) =>
    case Variable(_, _) =>
    case Selected(_, _, _) =>
    case Not(x) => NotIsNormal(x);
    case Ass(op, terms) => AssIsNormal(op, terms);
    case Rel(op, l, r) => RelIsNormal(op, l, r);
  }

  lemma OperandsStay(l: Expr, r: Expr)
    requires Operands(l, r) && Simplify(l).Ok? && Simplify(r).Ok?
    ensures Operands(Simplify(l).value.e, Simplify(r).value.e)
  {
    if Atom(l) && Atom(r) {
    } else {
      hide Simplify;
      SimplifyIsClean(l);
      SimplifyIsClean(r);
      CleanIsNumeric(Simplify(l).value.e);
      CleanIsNumeric(Simplify(r).value.e);
    }
  }

  lemma RelIsNormal(rel: RelOp, l: Expr, r: Expr)
    requires Operands(l, r) && Simplify(l).Ok? && Simplify(r).Ok?
    ensures Normal(SimplifyRel(rel, Simplify(l).value.e, Simplify(r).value.e))
  {
    OperandsStay(l, r);
    hide Simplify;
    EliminateIsNormal(rel, Simplify(l).value.e, Simplify(r).value.e);
  }

  lemma EliminateIsNormal(rel: RelOp, l: Expr, r: Expr)
    requires Operands(l, r)
    ensures Normal(EliminateTruth(rel, l, r))
  {
    hide Weight;
    assert Atom(l) ==> Normal(Not(l)) && Normal(l);
    assert Atom(r) ==> Normal(Not(r)) && Normal(r);
    assert !Numeric(TRUE, false) && !Numeric(FALSE, false);
  }

  lemma {:induction false} NotIsNormal(x: Expr)
    requires Condition(Not(x)) && SimplifyNot(x).Ok?
    ensures Normal(SimplifyNot(x).value.e)
    decreases 2 * Weight(x), 0
  {
    if x == TRUE || x == FALSE {
    } else if x.Ass? {
      NegateAllIsNormal(x.terms);
      var ts := NegateAll(x.terms).value.terms;
      AllNormalAreConditions(ts);
      AssIsNormal(if x.ass.IsAnd() then Or else And, ts);
    } else if x.Rel? {
      OperandsStay(x.left, x.right);
    } else {
      NegatedAtomStays(x);
    }
  }

  lemma {:induction false} NegatedAtomStays(x: Expr)
    requires NegatedAtom(x) && Simplify(x).Ok?
    ensures NegatedAtom(Simplify(x).value.e)
  {
    if x.Not? && x.expr != TRUE && x.expr != FALSE {
      NegatedAtomStays(x.expr);
    }
  }

  lemma {:induction false} NegateAllIsNormal(terms: seq<Expr>)
    requires AllConditions(terms) && NegateAll(terms).Ok?
    ensures AllNormal(NegateAll(terms).value.terms)
    decreases 2 * WeightAll(terms) + 1, 0
  {
    if terms != [] {
      hide Normal, Condition;
      var t := Simplify(terms[0]).value.e;
      SimplifyIsNormal(terms[0]);
      NotOfNormal(t);
      SimplifyIsNormal(Not(t));
      NegateAllIsNormal(terms[1..]);
      var r, ts := Simplify(Not(t)).value.e, NegateAll(terms[1..]).value.terms;
      assert ([r] + ts)[1..] == ts;
    }
  }

  lemma NotOfNormal(t: Expr)
    requires Normal(t)
    ensures Condition(Not(t))
  {
    NormalIsCondition(t);
  }

  lemma {:induction false} AssIsNormal(op: AssOp, terms: seq<Expr>)
    requires op.IsBool() && AllConditions(terms) && SimplifyAss(op, terms).Ok?
    ensures Normal(SimplifyAss(op, terms).value.e)
    decreases 2 + WeightAll(terms), 0
  {
    hide Normal, Reduced, Weight;
    CollectIsNormal(op, terms, NeutralElement(op), []);
    FinishIsNormal(op, terms);
  }

  lemma {:induction false} CollectIsNormal(op: AssOp, pending: seq<Expr>, total: int, terms: seq<Expr>)
    requires op.IsBool() && AllConditions(pending) && AllNormal(terms) && 0 <= total <= 1
    requires Collect(op, pending, total, terms).Ok?
    ensures var c := Collect(op, pending, total, terms).value; AllNormal(c.terms) && 0 <= c.total <= 1
    decreases WeightAll(pending) + 1, 0
  {
    if pending != [] {
      hide Simplify;
      var t := Simplify(pending[0]).value.e;
      SimplifyIsNormal(pending[0]);
      NormalIsCondition(t);
      if IsConstant(t) {
        CollectIsNormal(op, pending[1..], Operation(op, total, ConstantOf(t)), terms);
      } else if t.Ass? && op.HasInstance(t.ass) {
        WeightConcat(pending[1..], t.terms);
        AllConditionsConcat(pending[1..], t.terms);
        CollectIsNormal(op, pending[1..] + t.terms, total, terms);
      } else {
        AllNormalMembers(terms);
        AllNormalMembers(terms + [t]);
        CollectIsNormal(op, pending[1..], total, terms + [t]);
      }
    }
  }

  lemma BoolTermsNormal(op: AssOp, terms: seq<Expr>, total: int)
    requires op.IsBool() && AllNormal(terms) && Flat(op, terms) && 0 <= total <= 1
    ensures forall t :: t in BoolTerms(op, terms, total) ==> Normal(t)
    ensures var r := BoolTerms(op, terms, total);
            |r| == 1 || BoolLit(!op.IsAnd()) in r || (TRUE !in r && FALSE !in r)
  {
    hide Weight, WeightAll, HasInverse, NoRepeats;
    AllNormalMembers(terms);
    UniqueIsDistinct(terms);
    assert Normal(TRUE) && Normal(FALSE);
    hide Normal;
    var r := BoolTerms(op, terms, total);
    if |r| != 1 && total != NeutralElement(op) {
      assert r[|r| - 1] == BoolLit(!op.IsAnd());
    } else if |r| != 1 {
      assert Flat(op, r);
      assert IsConstant(TRUE) && IsConstant(FALSE);
    }
  }

  lemma NormalIsNoIf(terms: seq<Expr>)
    requires forall t :: t in terms ==> Normal(t)
    ensures terms == [] || !terms[0].If?
  {
    if terms != [] {
      NormalIsCondition(terms[0]);
    }
  }

  lemma FinishIsNormal(op: AssOp, terms: seq<Expr>)
    requires op.IsBool() && SimplifyAss(op, terms).Ok?
    requires var c := Collect(op, terms, NeutralElement(op), []).value; AllNormal(c.terms) && 0 <= c.total <= 1
    ensures Normal(SimplifyAss(op, terms).value.e)
  {
    assert Simplify(Ass(op, terms)) == SimplifyAss(op, terms);
    hide Collect, Normal, Reduced, Weight, WeightAll, BoolTerms, Simplify, HasInverse;
    var c := Collect(op, terms, NeutralElement(op), []).value;
    var e := SimplifyAss(op, terms).value.e;
    CollectIsFlat(op, terms, NeutralElement(op), []);
    var all := BoolTerms(op, c.terms, c.total);
    BoolTermsNormal(op, c.terms, c.total);
    NormalIsNoIf(all);
    assert MergeIfs(op, all) == Ok(SimpTerms(all, []));
    assert e == Absorb(op, MakeAss(op, all));
    AbsorbIsNormal(op, all);
    if e.Ass? && |all| != 1 {
      ListIsReduced(op, terms);
      ListIsNormal(op, all);
    }
  }

  lemma AbsorbIsNormal(op: AssOp, all: seq<Expr>)
    requires op.IsBool() && forall t :: t in all ==> Normal(t)
    ensures var e := Absorb(op, MakeAss(op, all)); |all| == 1 || !e.Ass? ==> Normal(e)
  {
  }

  lemma ListIsNormal(op: AssOp, all: seq<Expr>)
    requires op.IsBool() && (forall t :: t in all ==> Normal(t)) && Reduced(op, all)
    requires |all| == 1 || BoolLit(!op.IsAnd()) in all || (TRUE !in all && FALSE !in all)
    ensures Normal(Ass(op, all))
  {
    AllNormalMembers(all);
  }

  // Relations and conditionals.

  /** The relations that are decided without knowing the values of variables. */
  predicate Known(rel: RelOp, l: Expr, r: Expr) {
    || (l.Number? && r.Number?)
    || (l.Literal? && r.Literal?)
    || (ConstantQuotient(l) && ConstantQuotient(r))
    || (l == r && rel != Less && rel != Greater)
  }

  predicate Truth(e: Expr) {
    e == TRUE || e == FALSE
  }

  /** A relation becomes a literal exactly if it is known, and stays a relation exactly if it is neither known nor a
      comparison with True or False; in the latter case the other operand is left, negated if need be. */
  lemma RelationIsSettled(rel: RelOp, left: Expr, right: Expr)
    requires Simplify(Rel(rel, left, right)).Ok?
    ensures var e := Simplify(Rel(rel, left, right)).value.e;
            var l, r := Simplify(left).value.e, Simplify(right).value.e;
            && (Truth(e) <==> Known(rel, l, r))
            && (e == Rel(rel, l, r) <==> !Known(rel, l, r) && (rel.IsOrdering() || (!Truth(l) && !Truth(r))))
            && (!Known(rel, l, r) && !rel.IsOrdering() && Truth(l) ==>
                  e == if (l == TRUE) == (rel == Equal) then r else Not(r))
            && (!Known(rel, l, r) && !rel.IsOrdering() && Truth(r) ==>
                  e == if (r == TRUE) == (rel == Equal) then l else Not(l))
  {
    var l, r := Simplify(left).value.e, Simplify(right).value.e;
    assert Simplify(Rel(rel, left, right)).value.e == SimplifyRel(rel, l, r);
    hide Simplify, Weight, CompareNames, CompareFractions, Compare;
  }

  /** A conditional without an elsif part stays one exactly if its condition is open and its branches differ. */
  lemma ConditionalIsSettled(cond: Expr, thn: Expr, rest: Else)
    requires Simplify(If(cond, thn, rest)).Ok?
    ensures var e := Simplify(If(cond, thn, rest)).value.e;
            var c, t, r := Simplify(cond).value.e, Simplify(thn).value.e, SimplifyElse(rest).value.rest;
            && (e == If(c, t, r) <==>
                r.Elsif? || (c != TRUE && (c == FALSE ==> r == NoElse) && r != ElsePart(t)))
            && (e != If(c, t, r) ==> e == if c == FALSE && r.ElsePart? then r.els else t)
  {
    var c, t, r := Simplify(cond).value.e, Simplify(thn).value.e, SimplifyElse(rest).value.rest;
    assert Simplify(If(cond, thn, rest)).value.e == SimplifyIf(c, t, r);
    hide Simplify, SimplifyElse, Weight, WeightElse;
  }

  lemma ConstantIsNegated(b: bool)
    ensures Simplify(Not(BoolLit(b))) == Ok(Simp(BoolLit(!b), []))
  {
  }
}
