/** What is left of a list of terms: a simplified list has no complements, no repeated terms, no relation beside its
    inverse, no term of its own class and at most one constant. */
module SimplifierReduced {
  import opened Expressions
  import opened Simplifier
  import opened SimplifierLoops

  function Constants(terms: seq<Expr>): seq<Expr> {
    if terms == [] then [] else (if IsConstant(terms[0]) then [terms[0]] else []) + Constants(terms[1..])
  }

  /** The terms that are not conditionals. */
  function Others(terms: seq<Expr>): seq<Expr> {
    if terms == [] then [] else (if terms[0].If? then [] else [terms[0]]) + Others(terms[1..])
  }

  predicate NoRepeats(terms: seq<Expr>) {
    forall i, j :: 0 <= i < j < |terms| ==> terms[i] != terms[j]
  }

  predicate OwnClass(op: AssOp, t: Expr) {
    t.Ass? && op.HasInstance(t.ass)
  }

  ghost predicate OwnFree(op: AssOp, terms: seq<Expr>) {
    forall t :: t in terms ==> !OwnClass(op, t)
  }

  /** The constant of a sum or product is a number that makes a difference. */
  ghost predicate ProperConstants(op: AssOp, terms: seq<Expr>) {
    forall t :: t in terms && IsConstant(t) ==> t.Number? && t.n != NeutralElement(op)
  }

  /** The list of a simplified operation.  Conditionals that were merged may be equal to each other. */
  ghost predicate Reduced(op: AssOp, terms: seq<Expr>) {
    && |terms| != 1 && OwnFree(op, terms) && |Constants(terms)| <= 1
    && (!op.IsBool() ==> ProperConstants(op, terms))
    && (op == Add ==> NoComplements(terms))
    && (op.IsBool() ==> NoRepeats(Others(terms)) && !HasInverse(terms) && BoolLit(!op.IsAnd()) !in terms)
  }

  lemma ConstantsCons(t: Expr, terms: seq<Expr>)
    ensures Constants([t] + terms) == (if IsConstant(t) then [t] else []) + Constants(terms)
    ensures Others([t] + terms) == (if t.If? then [] else [t]) + Others(terms)
  {
    assert ([t] + terms)[1..] == terms;
  }

  lemma {:induction false} ConstantsConcat(a: seq<Expr>, b: seq<Expr>)
    ensures Constants(a + b) == Constants(a) + Constants(b)
  {
    if a == [] {
      assert a + b == b;
    } else {
      assert (a + b)[1..] == a[1..] + b;
      ConstantsConcat(a[1..], b);
    }
  }

  lemma {:induction false} OthersConcat(a: seq<Expr>, b: seq<Expr>)
    ensures Others(a + b) == Others(a) + Others(b)
  {
    if a == [] {
      assert a + b == b;
    } else {
      assert (a + b)[1..] == a[1..] + b;
      OthersConcat(a[1..], b);
    }
  }

  lemma {:induction false} InOthers(terms: seq<Expr>, t: Expr)
    ensures t in Others(terms) <==> t in terms && !t.If?
  {
    if terms != [] {
      InOthers(terms[1..], t);
    }
  }

  // The collected terms.

  ghost predicate Flat(op: AssOp, terms: seq<Expr>) {
    forall t :: t in terms ==> !IsConstant(t) && !OwnClass(op, t)
  }

  lemma {:induction false} CollectIsFlat(op: AssOp, pending: seq<Expr>, total: int, terms: seq<Expr>)
    requires Flat(op, terms) && Collect(op, pending, total, terms).Ok?
    ensures Flat(op, Collect(op, pending, total, terms).value.terms)
    decreases WeightAll(pending)
  {
    if pending != [] {
      hide Simplify, Weight;
      var t := Simplify(pending[0]).value.e;
      CollectTurn(op, pending, total, terms, []);
      CollectIsFlat(op, NextPending(op, pending[1..], t), NextTotal(op, total, t), NextKept(op, terms, t));
    }
  }

  lemma {:induction false} UniqueIsDistinct(terms: seq<Expr>)
    ensures NoRepeats(Unique(terms)) && forall t :: t in Unique(terms) <==> t in terms
  {
    if terms != [] {
      var front, last := terms[..|terms| - 1], terms[|terms| - 1];
      UniqueIsDistinct(front);
      assert terms == front + [last];
    }
  }

  lemma {:induction false} ConstantsFlat(op: AssOp, terms: seq<Expr>)
    requires Flat(op, terms)
    ensures Constants(terms) == []
  {
    if terms != [] {
      ConstantsFlat(op, terms[1..]);
    }
  }

  lemma AppendConstant(op: AssOp, terms: seq<Expr>, c: Expr)
    requires Flat(op, terms) && IsConstant(c)
    ensures Constants(terms + [c]) == [c]
    ensures NoRepeats(terms) ==> NoRepeats(terms + [c])
    ensures HasInverse(terms + [c]) ==> HasInverse(terms)
  {
    ConstantsFlat(op, terms);
    ConstantsConcat(terms, [c]);
    assert [c][1..] == [];
    var all := terms + [c];
    if HasInverse(all) {
      var i :| 0 <= i < |all| && all[i].Rel? && Rel(all[i].rel.Inverse(), all[i].left, all[i].right) in all;
      assert all[i] == terms[i];
    }
  }

  /** The terms before conditionals are merged. */
  ghost predicate Prepared(op: AssOp, terms: seq<Expr>) {
    && OwnFree(op, terms) && |Constants(terms)| <= 1
    && (!op.IsBool() ==> ProperConstants(op, terms))
    && (op.IsBool() ==> NoRepeats(Others(terms)) && !HasInverse(terms))
  }

  lemma BoolTermsPrepared(op: AssOp, terms: seq<Expr>, total: int)
    requires op.IsBool() && Flat(op, terms)
    ensures Prepared(op, BoolTerms(op, terms, total))
  {
    hide Weight, WeightAll, HasInverse, NoRepeats, Constants, Others;
    var lit, distinct := BoolLit(total != 0), Unique(terms);
    UniqueIsDistinct(terms);
    ConstantsFlat(op, distinct);
    AppendConstant(op, distinct, lit);
    OthersDistinct(distinct);
    OthersDistinct(distinct + [lit]);
    SingleConstant(op, lit);
    SingleConstant(op, BoolLit(!op.IsAnd()));
  }

  lemma AllTermsPrepared(op: AssOp, c: Collected)
    requires Flat(op, c.terms)
    ensures Prepared(op, AllTerms(op, c))
  {
    if op.IsBool() {
      BoolTermsPrepared(op, c.terms, c.total);
    } else {
      MathTermsPrepared(op, c);
    }
  }

  lemma MathTermsPrepared(op: AssOp, c: Collected)
    requires !op.IsBool() && Flat(op, c.terms)
    ensures Prepared(op, AllTerms(op, c))
  {
    hide Weight, WeightAll, HasInverse, NoRepeats, Constants, Others;
    ConstantsFlat(op, c.terms);
    AppendConstant(op, c.terms, Number(c.total));
  }

  lemma SingleConstant(op: AssOp, c: Expr)
    requires IsConstant(c)
    ensures Constants([c]) == [c] && NoRepeats([c]) && NoRepeats(Others([c])) && !HasInverse([c])
  {
    assert [c][1..] == [];
  }

  lemma {:induction false} OthersDistinct(terms: seq<Expr>)
    requires NoRepeats(terms)
    ensures NoRepeats(Others(terms))
  {
    if terms != [] {
      var rest := terms[1..];
      assert forall i, j :: 0 <= i < j < |rest| ==> rest[i] == terms[i + 1] && rest[j] == terms[j + 1];
      OthersDistinct(terms[1..]);
      InOthers(terms[1..], terms[0]);
    }
  }

  // Merging.

  lemma {:induction false} MergeKeepsOthers(op: AssOp, terms: seq<Expr>)
    requires MergeIfs(op, terms).Ok?
    ensures Others(MergeIfs(op, terms).value.terms) == Others(terms)
    decreases |terms|
  {
    if terms != [] && terms[0].If? {
      hide Simplify, Weight, WeightAll, Others, Constants, Mergeable;
      var t, others := terms[0], terms[1..];
      var i := FirstMergeable(t, others);
      assert terms == [t] + others;
      ConstantsCons(t, others);
      if i == |others| {
        MergeKeepsOthers(op, others);
        ConstantsCons(t, MergeIfs(op, others).value.terms);
      } else {
        var u, less := others[i], others[..i] + others[i + 1..];
        MergeableIsIf(t, u);
        RestOthers(others[..i], u, others[i + 1..]);
        assert others == others[..i] + ([u] + others[i + 1..]);
        MergeKeepsOthers(op, less);
        var c := Simplify(Ass(Or, [t.cond, u.cond])).value.e;
        ConstantsCons(If(c, t.thn, t.rest.Final()), MergeIfs(op, less).value.terms);
      }
    }
  }

  lemma MergeableIsIf(t: Expr, u: Expr)
    requires Mergeable(t, u)
    ensures t.If? && u.If?
  {
  }

  lemma RestOthers(front: seq<Expr>, u: Expr, back: seq<Expr>)
    requires u.If?
    ensures Others(front + back) == Others(front + ([u] + back))
  {
    hide Others, Constants;
    OthersConcat(front, [u] + back);
    OthersConcat(front, back);
    ConstantsCons(u, back);
    assert [] + Others(back) == Others(back);
  }

  lemma {:induction false} ConstantsOfOthers(terms: seq<Expr>)
    ensures Constants(terms) == Constants(Others(terms))
  {
    if terms != [] {
      var rest := Others(terms[1..]);
      ConstantsOfOthers(terms[1..]);
      assert terms == [terms[0]] + terms[1..];
      ConstantsCons(terms[0], terms[1..]);
      ConstantsCons(terms[0], rest);
      hide Constants, Others;
      assert [] + rest == rest;
    }
  }

  lemma SameOthers(a: seq<Expr>, b: seq<Expr>)
    requires Others(a) == Others(b)
    ensures forall t: Expr :: !t.If? ==> (t in a <==> t in b)
    ensures Constants(a) == Constants(b)
  {
    ConstantsOfOthers(a);
    ConstantsOfOthers(b);
    hide Constants;
    forall t: Expr | !t.If? ensures t in a <==> t in b {
      InOthers(a, t);
      InOthers(b, t);
    }
  }

  lemma SameInverse(a: seq<Expr>, b: seq<Expr>)
    requires HasInverse(a) && forall t: Expr :: !t.If? ==> (t in a <==> t in b)
    ensures HasInverse(b)
  {
    var i :| 0 <= i < |a| && a[i].Rel? && Rel(a[i].rel.Inverse(), a[i].left, a[i].right) in a;
    assert a[i] in a && a[i] in b;
    var k :| 0 <= k < |b| && b[k] == a[i];
  }

  lemma MergeKeepsPrepared(op: AssOp, terms: seq<Expr>)
    requires MergeIfs(op, terms).Ok? && Prepared(op, terms)
    ensures Prepared(op, MergeIfs(op, terms).value.terms)
  {
    hide MergeIfs, Weight, WeightAll, Constants, Others, NoRepeats, HasInverse;
    var r := MergeIfs(op, terms).value.terms;
    MergeKeepsOthers(op, terms);
    SameOthers(terms, r);
    if op.IsBool() && HasInverse(r) {
      SameInverse(r, terms);
    }
  }

  // Cancellation.

  lemma CancelOneSubset(term: Expr, negation: Expr, kept: seq<Expr>)
    ensures |Constants(CancelOne(term, negation, kept))| <= |Constants([term] + kept)|
    ensures forall t :: t in CancelOne(term, negation, kept) ==> t == term || t in kept
  {
    ConstantsCons(term, kept);
    if negation in kept {
      var i := IndexOf(negation, kept);
      var front, back := kept[..i], kept[i + 1..];
      assert kept == front + ([negation] + back);
      ConstantsConcat(front, [negation] + back);
      ConstantsCons(negation, back);
      ConstantsConcat(front, back);
    }
  }

  lemma {:induction false} CancelIsSubset(terms: seq<Expr>)
    requires Cancel(terms).Ok?
    ensures |Constants(Cancel(terms).value.terms)| <= |Constants(terms)|
    ensures forall t :: t in Cancel(terms).value.terms ==> t in terms
  {
    if terms != [] {
      hide Negate, Weight, WeightAll, CancelOne, Constants;
      CancelIsSubset(terms[1..]);
      var kept := Cancel(terms[1..]).value.terms;
      assert terms == [terms[0]] + terms[1..];
      ConstantsCons(terms[0], terms[1..]);
      ConstantsCons(terms[0], kept);
      if kept == [] {
        assert [terms[0]] + kept == [terms[0]];
      } else {
        CancelOneSubset(terms[0], Negate(terms[0]).value.e, kept);
      }
    }
  }

  lemma OwnList(op: AssOp, terms: seq<Expr>)
    requires OwnFree(op, terms) && MakeAss(op, terms).Ass? && MakeAss(op, terms).ass == op
    ensures |terms| != 1 && MakeAss(op, terms).terms == terms
  {
    assert |terms| == 1 ==> !OwnClass(op, terms[0]);
  }

  lemma FinishIsReduced(op: AssOp, terms: seq<Expr>)
    requires Prepared(op, terms) && FinishAss(op, terms).Ok?
    requires FinishAss(op, terms).value.e.Ass? && FinishAss(op, terms).value.e.ass == op
    ensures Reduced(op, FinishAss(op, terms).value.e.terms)
  {
    hide MergeIfs, Weight, WeightAll, Cancel, NoComplements, HasInverse, Negate, Constants, Others, NoRepeats;
    var merged := MergeIfs(op, terms).value.terms;
    MergeKeepsPrepared(op, terms);
    if op == Add && |merged| != 1 {
      CancelIsSubset(merged);
      CancelLeavesNoComplements(merged);
      OwnList(op, Cancel(merged).value.terms);
    } else {
      OwnList(op, merged);
    }
  }

  /** If the simplification of a list of terms is such a list again, it is reduced. */
  lemma ListIsReduced(op: AssOp, terms: seq<Expr>)
    requires Simplify(Ass(op, terms)).Ok?
    requires Simplify(Ass(op, terms)).value.e.Ass? && Simplify(Ass(op, terms)).value.e.ass == op
    ensures Reduced(op, Simplify(Ass(op, terms)).value.e.terms)
  {
    assert Simplify(Ass(op, terms)) == SimplifyAss(op, terms);
    hide Collect, AllTerms, FinishAss, Simplify, Reduced;
    CollectIsFlat(op, terms, NeutralElement(op), []);
    var c := Collect(op, terms, NeutralElement(op), []).value;
    AllTermsPrepared(op, c);
    FinishIsReduced(op, AllTerms(op, c));
  }
}
