/** The normal form of simplified numeric expressions, at every depth: differences are sums, minus signs stand only
    before variables, fields, powers and moduli, and powers and moduli of constants are folded. */
module SimplifierClean {
  import opened Expressions
  import opened Simplifier

  /** What can be negated only by a minus sign. */
  predicate Signed(e: Expr) {
    e.Variable? || e.Selected? || (e.Bin? && e.bin in {Pow, Mod})
  }

  /** Numeric expressions, with conditionals over any conditions.  The clean ones are in normal form. */
  predicate Numeric(e: Expr, clean: bool)
    decreases e
  {
    match e
    case Number(_) => true
    case Variable(_, _) => true
    case Selected(_, _, _) => true
    case Neg(x) => Numeric(x, clean) && (clean ==> Signed(x))
    case Ass(op, terms) => !op.IsBool() && AllNumeric(terms, clean) && (clean ==> |terms| != 1)
    case Bin(op, l, r) =>
      && Numeric(l, clean) && Numeric(r, clean)
      && (clean ==> op != Sub && (op == Div || !l.Number? || !r.Number?))
    case If(_, t, rest) => Numeric(t, clean) && ElseNumeric(rest, clean)
    case _ => false
  }

  predicate AllNumeric(terms: seq<Expr>, clean: bool)
    decreases terms
  {
    terms == [] || (Numeric(terms[0], clean) && AllNumeric(terms[1..], clean))
  }

  predicate ElseNumeric(rest: Else, clean: bool)
    decreases rest
  {
    match rest
    case NoElse => true
    case ElsePart(e) => Numeric(e, clean)
    case Elsif(_, t, r) => Numeric(t, clean) && ElseNumeric(r, clean)
  }

  lemma {:induction false} CleanIsNumeric(e: Expr)
    requires Numeric(e, true)
    ensures Numeric(e, false)
    decreases e
  {
    match e
    case Neg(x) => CleanIsNumeric(x);
    case Ass(_, terms) => AllCleanAreNumeric(terms);
    case Bin(_, l, r) =>
      CleanIsNumeric(l);
      CleanIsNumeric(r);
    case If(_, t, rest) =>
      CleanIsNumeric(t);
      ElseCleanIsNumeric(rest);
    case _ =>
  }

  lemma {:induction false} AllCleanAreNumeric(terms: seq<Expr>)
    requires AllNumeric(terms, true)
    ensures AllNumeric(terms, false)
    decreases terms
  {
    if terms != [] {
      CleanIsNumeric(terms[0]);
      AllCleanAreNumeric(terms[1..]);
    }
  }

  lemma {:induction false} ElseCleanIsNumeric(rest: Else)
    requires ElseNumeric(rest, true)
    ensures ElseNumeric(rest, false)
    decreases rest
  {
    match rest
    case NoElse =>
    case ElsePart(e) => CleanIsNumeric(e);
    case Elsif(_, t, r) =>
      CleanIsNumeric(t);
      ElseCleanIsNumeric(r);
  }

  lemma {:induction false} AllNumericConcat(a: seq<Expr>, b: seq<Expr>, clean: bool)
    ensures AllNumeric(a + b, clean) == (AllNumeric(a, clean) && AllNumeric(b, clean))
  {
    if a == [] {
      assert a + b == b;
    } else {
      assert (a + b)[1..] == a[1..] + b;
      AllNumericConcat(a[1..], b, clean);
    }
  }

  lemma AllNumericSnoc(a: seq<Expr>, t: Expr, clean: bool)
    ensures AllNumeric(a + [t], clean) == (AllNumeric(a, clean) && Numeric(t, clean))
  {
    AllNumericConcat(a, [t], clean);
    assert [t][1..] == [];
  }

  lemma AllNumericPair(a: Expr, b: Expr, clean: bool)
    ensures AllNumeric([a, b], clean) == (Numeric(a, clean) && Numeric(b, clean))
  {
    assert [a, b][1..] == [b] && [b][1..] == [];
    assert AllNumeric([b], clean) == Numeric(b, clean);
  }

  lemma AllNumericRemove(a: seq<Expr>, i: nat, clean: bool)
    requires i < |a|
    ensures AllNumeric(a, clean) == (AllNumeric(a[..i] + a[i + 1..], clean) && Numeric(a[i], clean))
  {
    var back := a[i..];
    assert a == a[..i] + back && back[0] == a[i] && back[1..] == a[i + 1..];
    AllNumericConcat(a[..i], back, clean);
    AllNumericConcat(a[..i], a[i + 1..], clean);
  }

  lemma {:induction false} FinalNumeric(rest: Else, clean: bool)
    requires ElseNumeric(rest, clean)
    ensures ElseNumeric(rest.Final(), clean)
  {
    if rest.Elsif? {
      FinalNumeric(rest.rest, clean);
    }
  }

  /** Simplification makes numeric expressions clean, one lemma for each function. */
  lemma {:induction false} SimplifyIsClean(e: Expr)
    requires Numeric(e, false) && Simplify(e).Ok?
    ensures Numeric(Simplify(e).value.e, true)
    decreases Weight(e), 1
  {
    match e
    case Number(_) =>
    case Variable(_, _) =>
    case Selected(_, _, _) =>
    case Neg(x) =>
      SimplifyIsClean(x);
      NegateIsClean(Simplify(x).value.e);
    case Ass(op, terms) => AssIsClean(op, terms);
    case Bin(op, l, r) => BinIsClean(op, l, r);
    case If(c, t, rest) =>
      SimplifyIsClean(t);
      ElseIsClean(rest);
  }

  lemma {:induction false} BinIsClean(op: BinOp, l: Expr, r: Expr)
    requires Numeric(Bin(op, l, r), false) && SimplifyBin(op, l, r).Ok?
    ensures Numeric(SimplifyBin(op, l, r).value.e, true)
    decreases Weight(Bin(op, l, r)), 0
  {
    hide Simplify, Negate;
    SimplifyIsClean(l);
    SimplifyIsClean(r);
    var x, y := Simplify(l).value.e, Simplify(r).value.e;
    if op == Sub && !(x.Number? && y.Number?) {
      NegateIsClean(y);
      AllNumericPair(x, Negate(y).value.e, true);
    }
  }

  lemma {:induction false} ElseIsClean(rest: Else)
    requires ElseNumeric(rest, false) && SimplifyElse(rest).Ok?
    ensures ElseNumeric(SimplifyElse(rest).value.rest, true)
    decreases WeightElse(rest), 2
  {
    match rest
    case NoElse =>
    case ElsePart(e) => SimplifyIsClean(e);
    case Elsif(c, t, more) =>
      SimplifyIsClean(t);
      ElseIsClean(more);
  }

  lemma {:induction false} AssIsClean(op: AssOp, terms: seq<Expr>)
    requires !op.IsBool() && AllNumeric(terms, false) && SimplifyAss(op, terms).Ok?
    ensures Numeric(SimplifyAss(op, terms).value.e, true)
    decreases 2 + WeightAll(terms), 0
  {
    hide Simplify, FinishAss, Collect;
    var c := Collect(op, terms, NeutralElement(op), []).value;
    CollectIsClean(op, terms, NeutralElement(op), []);
    if c.terms != [] {
      AllNumericSnoc(c.terms, Number(c.total), true);
      FinishIsClean(op, AllTerms(op, c));
    }
  }

  lemma {:induction false} CollectIsClean(op: AssOp, pending: seq<Expr>, total: int, terms: seq<Expr>)
    requires !op.IsBool() && AllNumeric(pending, false) && AllNumeric(terms, true)
    requires Collect(op, pending, total, terms).Ok?
    ensures AllNumeric(Collect(op, pending, total, terms).value.terms, true)
    decreases WeightAll(pending) + 1, 0
  {
    if pending != [] {
      hide Simplify;
      var t := Simplify(pending[0]).value.e;
      SimplifyIsClean(pending[0]);
      if IsConstant(t) {
        CollectIsClean(op, pending[1..], Operation(op, total, ConstantOf(t)), terms);
      } else if t.Ass? && op.HasInstance(t.ass) {
        WeightConcat(pending[1..], t.terms);
        AllCleanAreNumeric(t.terms);
        AllNumericConcat(pending[1..], t.terms, false);
        CollectIsClean(op, pending[1..] + t.terms, total, terms);
      } else {
        AllNumericSnoc(terms, t, true);
        CollectIsClean(op, pending[1..], total, terms + [t]);
      }
    }
  }

  lemma {:induction false} FinishIsClean(op: AssOp, terms: seq<Expr>)
    requires !op.IsBool() && AllNumeric(terms, true) && terms != [] && FinishAss(op, terms).Ok?
    ensures Numeric(FinishAss(op, terms).value.e, true)
    decreases WeightAll(terms) + (if op == Add then 1 else 0), 4
  {
    hide MergeIfs, Cancel;
    MergeIfsIsClean(op, terms);
    var e := MakeAss(op, MergeIfs(op, terms).value.terms);
    if op == Add && e.Ass? && e.ass == Add {
      CancelIsClean(e.terms);
    }
  }

  lemma {:induction false} MergeIfsIsClean(op: AssOp, terms: seq<Expr>)
    requires AllNumeric(terms, true) && MergeIfs(op, terms).Ok?
    ensures AllNumeric(MergeIfs(op, terms).value.terms, true)
    decreases |terms|
  {
    if terms != [] && terms[0].If? {
      hide Simplify, Weight, WeightAll;
      var t, others := terms[0], terms[1..];
      var i := FirstMergeable(t, others);
      if i == |others| {
        MergeIfsIsClean(op, others);
        var ts := MergeIfs(op, others).value.terms;
        assert ([t] + ts)[1..] == ts;
      } else {
        var u, less := others[i], others[..i] + others[i + 1..];
        AllNumericRemove(others, i, true);
        MergeIfsIsClean(op, less);
        FinalNumeric(t.rest, true);
        var ts := MergeIfs(op, less).value.terms;
        var m := If(Simplify(Ass(Or, [t.cond, u.cond])).value.e, t.thn, t.rest.Final());
        assert MergeIfs(op, terms).value.terms == [m] + ts && ([m] + ts)[1..] == ts;
      }
    }
  }

  lemma {:induction false} CancelIsClean(terms: seq<Expr>)
    requires AllNumeric(terms, true) && Cancel(terms).Ok?
    ensures AllNumeric(Cancel(terms).value.terms, true)
    decreases |terms|
  {
    if terms != [] {
      hide Negate, Numeric, Weight, WeightAll;
      CancelIsClean(terms[1..]);
      var kept := Cancel(terms[1..]).value.terms;
      if kept == [] {
        assert [terms[0]][1..] == [];
      } else {
        var negation := Negate(terms[0]).value.e;
        if negation in kept {
          AllNumericRemove(kept, IndexOf(negation, kept), true);
        } else {
          assert ([terms[0]] + kept)[1..] == kept;
        }
      }
    }
  }

  /** Unary minus keeps the normal form. */
  lemma {:induction false} NegateIsClean(e: Expr)
    requires Numeric(e, true) && Negate(e).Ok?
    ensures Numeric(Negate(e).value.e, true)
    decreases Weight(e) + (if e.Ass? && e.ass == Mul then 1 else 0), 2
  {
    match e
    case Bin(op, l, r) =>
      if op == Div {
        NegateIsClean(l);
      }
    case If(_, _, _) => AllNumericPair(Number(-1), e, true);
    case Ass(op, terms) =>
      if op == Add {
        NegateSumIsClean(terms);
      } else {
        WeightSnoc(terms, Number(-1));
        AllCleanAreNumeric(terms);
        AllNumericSnoc(terms, Number(-1), false);
        SimplifyIsClean(Ass(Mul, terms + [Number(-1)]));
      }
    case _ =>
  }

  lemma {:induction false} NegateSumIsClean(terms: seq<Expr>)
    requires AllNumeric(terms, true) && NegateSum(terms).Ok?
    ensures AllNumeric(NegateSum(terms).value.terms, true) && |NegateSum(terms).value.terms| == |terms|
    decreases WeightAll(terms) + 1, 3
  {
    if terms != [] {
      NegateIsClean(terms[0]);
      NegateSumIsClean(terms[1..]);
      var t, ts := Negate(terms[0]).value.e, NegateSum(terms[1..]).value.terms;
      assert ([t] + ts)[1..] == ts;
    }
  }
}
