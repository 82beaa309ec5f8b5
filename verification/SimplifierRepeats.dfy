/** Which lists simplification leaves as they are, and what merging does to a list: conditionals are merged in pairs,
    after repeated terms were dropped. */
module SimplifierRepeats {
  import opened Results
  import opened Types
  import opened Expressions
  import opened Simplifier
  import opened SimplifierLoops
  import opened SimplifierMeaning
  import opened SimplifierReduced

  function Ifs(conds: seq<Expr>, t: Expr, rest: Else): seq<Expr> {
    if conds == [] then [] else [If(conds[0], t, rest)] + Ifs(conds[1..], t, rest)
  }

  lemma {:induction false} IfsAt(conds: seq<Expr>, t: Expr, rest: Else)
    ensures |Ifs(conds, t, rest)| == |conds|
    ensures forall i :: 0 <= i < |conds| ==> Ifs(conds, t, rest)[i] == If(conds[i], t, rest)
  {
    if conds != [] {
      IfsAt(conds[1..], t, rest);
    }
  }

  predicate IsMergedPair(r: seq<Expr>, conds: seq<Expr>, t: Expr, rest: Else, j: nat)
    requires 2 * j + 1 < |conds|
  {
    var s := Simplify(Ass(Or, [conds[2 * j], conds[2 * j + 1]]));
    j < |r| && s.Ok? && r[j] == If(s.value.e, t, rest)
  }

  /** Conditionals that differ only in the condition are merged in pairs, not all at once: a pair gets the simplified
      disjunction of its conditions, and the last one of an odd number is left. */
  lemma {:induction false} MergedInPairs(op: AssOp, conds: seq<Expr>, t: Expr, rest: Else)
    requires !rest.Elsif? && MergeIfs(op, Ifs(conds, t, rest)).Ok?
    ensures var r := MergeIfs(op, Ifs(conds, t, rest)).value.terms;
            && |r| == (|conds| + 1) / 2
            && (forall j: nat :: j < |conds| / 2 ==> IsMergedPair(r, conds, t, rest, j))
            && (|conds| % 2 == 1 ==> r[|r| - 1] == If(conds[|conds| - 1], t, rest))
  {
    hide Simplify, Weight, WeightAll, MergeIfs, Ifs;
    if |conds| == 1 {
      SingleIf(op, conds[0], t, rest);
      assert conds == [conds[0]];
    } else if |conds| >= 2 {
      PairStep(op, conds, t, rest);
      MergedInPairs(op, conds[2..], t, rest);
      var more, r := conds[2..], MergeIfs(op, Ifs(conds[2..], t, rest)).value.terms;
      var all := MergeIfs(op, Ifs(conds, t, rest)).value.terms;
      forall j: nat | j < |conds| / 2 ensures IsMergedPair(all, conds, t, rest, j) {
        if j > 0 {
          assert IsMergedPair(r, more, t, rest, j - 1);
        }
      }
    } else {
      NoIfs(op, t, rest);
    }
  }

  lemma NoIfs(op: AssOp, t: Expr, rest: Else)
    ensures MergeIfs(op, Ifs([], t, rest)) == Ok(SimpTerms([], []))
  {
  }

  lemma SingleIf(op: AssOp, c: Expr, t: Expr, rest: Else)
    ensures MergeIfs(op, Ifs([c], t, rest)) == Ok(SimpTerms([If(c, t, rest)], []))
  {
    hide Simplify, Weight, WeightAll;
    assert [c][1..] == [] && Ifs([c], t, rest) == [If(c, t, rest)];
    assert [If(c, t, rest)][1..] == [];
    assert MergeIfs(op, []) == Ok(SimpTerms([], []));
  }

  lemma PairStep(op: AssOp, conds: seq<Expr>, t: Expr, rest: Else)
    requires !rest.Elsif? && |conds| >= 2
    ensures var s, more := Simplify(Ass(Or, [conds[0], conds[1]])), MergeIfs(op, Ifs(conds[2..], t, rest));
            var r := MergeIfs(op, Ifs(conds, t, rest));
            && (r.Ok? <==> s.Ok? && more.Ok?)
            && (r.Ok? ==> r.value.terms == [If(s.value.e, t, rest)] + more.value.terms)
  {
    hide Simplify, Weight, WeightAll;
    var tail := Ifs(conds[2..], t, rest);
    var a, b := If(conds[0], t, rest), If(conds[1], t, rest);
    assert conds[1..][1..] == conds[2..] && conds[1..][0] == conds[1];
    assert Ifs(conds[1..], t, rest) == [b] + tail;
    var all := Ifs(conds, t, rest);
    assert all[0] == a && all[1..] == [b] + tail;
    assert FirstMergeable(a, all[1..]) == 0;
    assert all[1..][..0] + all[1..][0 + 1..] == tail;
  }

  // Repeated terms.

  predicate NoMerges(log: seq<Rewrite>) {
    forall i :: 0 <= i < |log| ==> !log[i].Merge?
  }

  lemma {:induction false} UnmergedStay(op: AssOp, terms: seq<Expr>)
    requires MergeIfs(op, terms).Ok? && NoMerges(MergeIfs(op, terms).value.log)
    ensures MergeIfs(op, terms).value.terms == terms
    decreases |terms|
  {
    if terms != [] && terms[0].If? {
      hide Simplify, Weight, WeightAll;
      var t, others := terms[0], terms[1..];
      var i := FirstMergeable(t, others);
      if i == |others| {
        UnmergedStay(op, others);
      } else {
        var u, less := others[i], MergeIfs(op, others[..i] + others[i + 1..]).value;
        var c := Simplify(Ass(Or, [t.cond, u.cond])).value;
        var m := Merge(op, t, u, If(c.e, t.thn, t.rest.Final()));
        MergeIsLogged(c.log, m, less.log);
      }
    }
  }

  lemma MergeIsLogged(a: seq<Rewrite>, m: Rewrite, b: seq<Rewrite>)
    requires m.Merge?
    ensures !NoMerges(a + [m] + b)
  {
    assert (a + [m] + b)[|a|] == m;
  }

  /** The parts of the simplification of a boolean list. */
  lemma BoolListParts(op: AssOp, terms: seq<Expr>) returns (c: Collected, m: SimpTerms)
    requires op.IsBool() && Simplify(Ass(op, terms)).Ok?
    ensures Collect(op, terms, NeutralElement(op), []) == Ok(c)
    ensures MergeIfs(op, BoolTerms(op, c.terms, c.total)) == Ok(m)
    ensures Simplify(Ass(op, terms)) == Ok(Simp(Absorb(op, MakeAss(op, m.terms)), c.log + m.log))
  {
    assert Simplify(Ass(op, terms)) == SimplifyAss(op, terms);
    hide Simplify, Collect, MergeIfs, BoolTerms, Weight, WeightAll, Absorb, Cancel;
    c := Collect(op, terms, NeutralElement(op), []).value;
    var all := BoolTerms(op, c.terms, c.total);
    assert FinishAss(op, all).Ok? && SimplifyAss(op, terms).value.log == c.log + FinishAss(op, all).value.log;
    m := MergeIfs(op, all).value;
  }

  /** A simplified boolean list has a repeated term only if conditionals were merged: repeated terms are dropped
      before that. */
  lemma RepeatsNeedMerges(op: AssOp, terms: seq<Expr>)
    requires op.IsBool() && Simplify(Ass(op, terms)).Ok? && NoMerges(Simplify(Ass(op, terms)).value.log)
    requires Simplify(Ass(op, terms)).value.e.Ass? && Simplify(Ass(op, terms)).value.e.ass == op
    ensures NoRepeats(Simplify(Ass(op, terms)).value.e.terms)
  {
    hide Collect, MergeIfs, Simplify, BoolTerms, HasInverse, NoRepeats, NoMerges, Weight, WeightAll;
    var c, m := BoolListParts(op, terms);
    var all := BoolTerms(op, c.terms, c.total);
    CollectIsFlat(op, terms, NeutralElement(op), []);
    BoolTermsDistinct(op, c.terms, c.total);
    BoolTermsPrepared(op, c.terms, c.total);
    LogTail(c.log, m.log);
    UnmergedStay(op, all);
    assert MakeAss(op, all).Ass? && MakeAss(op, all).ass == op;
    OwnList(op, all);
  }

  lemma LogTail(a: seq<Rewrite>, b: seq<Rewrite>)
    requires NoMerges(a + b)
    ensures NoMerges(b)
  {
    forall i | 0 <= i < |b| ensures !b[i].Merge? {
      assert (a + b)[|a| + i] == b[i];
    }
  }

  lemma BoolTermsDistinct(op: AssOp, terms: seq<Expr>, total: int)
    requires op.IsBool() && Flat(op, terms)
    ensures NoRepeats(BoolTerms(op, terms, total))
  {
    hide Weight, WeightAll, HasInverse, NoRepeats, Constants;
    UniqueIsDistinct(terms);
    AppendConstant(op, Unique(terms), BoolLit(total != 0));
    SingleConstant(op, BoolLit(total != 0));
    SingleConstant(op, BoolLit(!op.IsAnd()));
  }

  lemma {:induction false} UniqueStays(terms: seq<Expr>)
    requires NoRepeats(terms)
    ensures Unique(terms) == terms
  {
    if terms != [] {
      var front := terms[..|terms| - 1];
      assert terms == front + [terms[|terms| - 1]];
      UniqueStays(front);
    }
  }

  /** A term that simplifies to itself and is kept by the loop. */
  ghost predicate Stays(op: AssOp, t: Expr) {
    Simplify(t) == Ok(Simp(t, [])) && !IsConstant(t) && !OwnClass(op, t)
  }

  lemma CollectStep(op: AssOp, pending: seq<Expr>, total: int, terms: seq<Expr>)
    requires pending != [] && Stays(op, pending[0])
    ensures Collect(op, pending, total, terms) == Collect(op, pending[1..], total, terms + [pending[0]])
  {
    hide Weight, WeightAll;
    CollectTurn(op, pending, total, terms, []);
    hide Collect, Simplify;
    var none: seq<Rewrite> := [];
    assert none + none == none;
    LogStarts(Collect(op, pending, total, terms));
    LogStarts(Collect(op, pending[1..], total, terms + [pending[0]]));
  }

  lemma {:induction false} CollectStays(op: AssOp, pending: seq<Expr>, total: int, terms: seq<Expr>)
    requires forall t :: t in pending ==> Stays(op, t)
    ensures Collect(op, pending, total, terms) == Ok(Collected(total, terms + pending, []))
  {
    hide Stays, Weight, WeightAll;
    if pending == [] {
      assert terms + [] == terms;
    } else {
      hide Collect;
      assert pending[0] in pending;
      CollectStep(op, pending, total, terms);
      CollectStays(op, pending[1..], total, terms + [pending[0]]);
      assert (terms + [pending[0]]) + pending[1..] == terms + pending;
    }
  }

  /** The terms of a list that the loop keeps as it is. */
  ghost predicate Settled(op: AssOp, terms: seq<Expr>) {
    (op.IsBool() ==> NoRepeats(terms) && !HasInverse(terms)) && forall t :: t in terms ==> Stays(op, t)
  }

  lemma SettledTerms(op: AssOp, terms: seq<Expr>)
    requires op.IsBool() && terms != [] && Settled(op, terms)
    ensures BoolTerms(op, terms, NeutralElement(op)) == terms
  {
    hide Weight, WeightAll, Stays, HasInverse;
    UniqueStays(terms);
  }

  lemma SettledList(op: AssOp, terms: seq<Expr>)
    requires terms != [] && Settled(op, terms)
    ensures var c := Collected(NeutralElement(op), terms, []);
            Collect(op, terms, NeutralElement(op), []) == Ok(c) && AllTerms(op, c) == terms
  {
    hide Collect, BoolTerms, Weight, WeightAll, Stays;
    CollectStays(op, terms, NeutralElement(op), []);
    assert [] + terms == terms;
    if op.IsBool() {
      SettledTerms(op, terms);
    }
  }

  lemma FinishUnmerged(op: AssOp, terms: seq<Expr>)
    requires |terms| >= 2 && op != Add && !terms[0].If? && (op.IsBool() ==> BoolLit(!op.IsAnd()) !in terms)
    ensures FinishAss(op, terms) == Ok(Simp(Ass(op, terms), []))
  {
    hide Weight, WeightAll, Cancel, Collect, Simplify;
    assert MergeIfs(op, terms) == Ok(SimpTerms(terms, []));
    hide MergeIfs;
  }

  lemma FinishSum(terms: seq<Expr>)
    requires |terms| >= 2 && !terms[0].If? && Cancel(terms).Ok? && Cancel(terms).value.terms == terms
    ensures FinishAss(Add, terms).Ok? && FinishAss(Add, terms).value.e == Ass(Add, terms)
  {
    hide Weight, WeightAll, Cancel, Collect, Simplify;
    assert MergeIfs(Add, terms) == Ok(SimpTerms(terms, []));
    hide MergeIfs;
  }

  lemma {:induction false} CancelStays(terms: seq<Expr>)
    requires NoComplements(terms) && forall t :: t in terms ==> Negate(t).Ok?
    ensures Cancel(terms).Ok? && Cancel(terms).value.terms == terms
  {
    if terms != [] {
      hide Negate, Weight, WeightAll;
      var rest := terms[1..];
      assert forall i :: 0 <= i < |rest| ==> rest[i] == terms[i + 1];
      CancelStays(rest);
      var n := Negate(terms[0]).value.e;
      forall j | 0 <= j < |rest| ensures rest[j] != n {
        assert terms[j + 1] != Negate(terms[0]).value.e;
      }
      assert [terms[0]] + rest == terms;
    }
  }

  /** A list that is in its simplest form: its terms are, nothing is to be merged, and nothing repeats or cancels. */
  ghost predicate Irreducible(op: AssOp, terms: seq<Expr>) {
    && |terms| >= 2 && !terms[0].If? && Settled(op, terms)
    && (op == Add ==> NoComplements(terms) && forall t :: t in terms ==> Negate(t).Ok?)
  }

  /** Such a list is left as it is, in the same order. */
  lemma IrreducibleStays(op: AssOp, terms: seq<Expr>)
    requires Irreducible(op, terms)
    ensures Simplify(Ass(op, terms)).Ok? && Simplify(Ass(op, terms)).value.e == Ass(op, terms)
  {
    assert BoolLit(!op.IsAnd()) !in terms by {
      hide Simplify, HasInverse, NoRepeats, NoComplements;
    }
    hide Stays, HasInverse, NoRepeats, NoComplements, Negate, FinishAss, Cancel, Collect, AllTerms, Weight, WeightAll;
    SettledList(op, terms);
    if op == Add {
      CancelStays(terms);
      FinishSum(terms);
    } else {
      FinishUnmerged(op, terms);
    }
    SimplifyCollected(op, terms, Collected(NeutralElement(op), terms, []), FinishAss(op, terms).value);
  }

  lemma PairSettled(op: AssOp, s: Expr, t: Expr)
    requires s != t && Stays(op, s) && Stays(op, t) && !s.Rel? && !t.Rel?
    ensures Settled(op, [s, t])
  {
    hide Stays;
  }

  lemma VariableStays(op: AssOp, v: Expr)
    requires v.Variable?
    ensures Stays(op, v) && Simplify(v) == Ok(Simp(v, []))
  {
  }

  lemma VariablesStay(a: Expr, b: Expr)
    requires a.Variable? && b.Variable? && a != b
    ensures Simplify(Ass(Or, [a, b])) == Ok(Simp(Ass(Or, [a, b]), []))
  {
    var op, all := Or, [a, b];
    assert BoolLit(!op.IsAnd()) !in all && op.IsBool();
    hide *;
    VariableStays(op, a);
    VariableStays(op, b);
    PairSettled(op, a, b);
    SettledList(op, all);
    FinishUnmerged(op, all);
    SimplifyCollected(op, all, Collected(NeutralElement(op), all, []), Simp(Ass(op, all), []));
  }

  lemma IfStays(op: AssOp, c: Expr, t: Expr, e: Expr)
    requires Simplify(c) == Ok(Simp(c, [])) && Simplify(t) == Ok(Simp(t, [])) && Simplify(e) == Ok(Simp(e, []))
    requires !c.Literal? && t != e
    ensures Stays(op, If(c, t, ElsePart(e)))
  {
    hide *;
    IfUnfolds(c, t, e);
    IfIsKept(c, t, e);
    KeptIfStays(op, If(c, t, ElsePart(e)));
  }

  lemma IfIsKept(c: Expr, t: Expr, e: Expr)
    requires !c.Literal? && t != e
    ensures SimplifyIf(c, t, ElsePart(e)) == If(c, t, ElsePart(e))
  {
  }

  lemma KeptIfStays(op: AssOp, t: Expr)
    requires t.If? && Simplify(t) == Ok(Simp(t, []))
    ensures Stays(op, t)
  {
    hide Simplify;
  }

  lemma IfUnfolds(c: Expr, t: Expr, e: Expr)
    requires Simplify(c) == Ok(Simp(c, [])) && Simplify(t) == Ok(Simp(t, [])) && Simplify(e) == Ok(Simp(e, []))
    ensures Simplify(If(c, t, ElsePart(e))) == Ok(Simp(SimplifyIf(c, t, ElsePart(e)), []))
  {
    hide SimplifyNot, SimplifyAss, SimplifyBin, SimplifyRel, Negate, SimplifyIf, Compared;
    var none: seq<Rewrite> := [];
    assert none + none + none == none;
    assert SimplifyElse(ElsePart(e)) == Ok(SimpElse(ElsePart(e), none));
  }

  lemma MergedTwice(op: AssOp, a: Expr, b: Expr, c: Expr, x: Expr, e: Else)
    requires !e.Elsif? && Simplify(Ass(Or, [a, b])) == Ok(Simp(c, []))
    ensures var r := MergeIfs(op, [If(a, x, e), If(b, x, e), If(c, x, e)]);
            r.Ok? && r.value.terms == [If(c, x, e), If(c, x, e)]
  {
    hide *;
    var conds := [a, b, c];
    IfsAt(conds, x, e);
    assert Ifs(conds, x, e) == [If(a, x, e), If(b, x, e), If(c, x, e)];
    PairStep(op, conds, x, e);
    assert conds[2..] == [c];
    SingleIf(op, c, x, e);
  }

  lemma ThreeSettled(op: AssOp, s: Expr, t: Expr, u: Expr)
    requires s != t && s != u && t != u && Stays(op, s) && Stays(op, t) && Stays(op, u)
    requires !s.Rel? && !t.Rel? && !u.Rel?
    ensures Settled(op, [s, t, u])
  {
    hide Stays;
  }

  lemma FinishMerged(op: AssOp, terms: seq<Expr>, m: Expr)
    requires op.IsBool() && m.If? && MergeIfs(op, terms).Ok? && MergeIfs(op, terms).value.terms == [m, m]
    ensures FinishAss(op, terms).Ok? && FinishAss(op, terms).value.e == Ass(op, [m, m])
  {
    hide MergeIfs, Cancel, Weight, WeightAll;
    assert Absorb(op, MakeAss(op, [m, m])) == Ass(op, [m, m]);
  }

  /** Merging may repeat a term: `(if A then X else Y) and (if B then X else Y) and (if A or B then X else Y)`. */
  lemma MergingRepeatsTerm()
    ensures var a, b := Variable("A", BOOLEAN), Variable("B", BOOLEAN);
            var x, y := Variable("X", BOOLEAN), ElsePart(Variable("Y", BOOLEAN));
            var m := If(Ass(Or, [a, b]), x, y);
            var r := Simplify(Ass(And, [If(a, x, y), If(b, x, y), m]));
            r.Ok? && r.value.e == Ass(And, [m, m])
  {
    hide *;
    var a, b := Variable("A", BOOLEAN), Variable("B", BOOLEAN);
    assert a.id != b.id;
    RepeatedTerm(a, b, Variable("X", BOOLEAN), Variable("Y", BOOLEAN));
  }

  lemma RepeatedTerm(a: Expr, b: Expr, x: Expr, y: Expr)
    requires a.Variable? && b.Variable? && a != b && x.Variable? && y.Variable? && x != y
    ensures var e, c := ElsePart(y), Ass(Or, [a, b]);
            var r := Simplify(Ass(And, [If(a, x, e), If(b, x, e), If(c, x, e)]));
            r.Ok? && r.value.e == Ass(And, [If(c, x, e), If(c, x, e)])
  {
    assert And.IsBool();
    hide *;
    var e, c, op := ElsePart(y), Ass(Or, [a, b]), And;
    VariableStays(op, a);
    VariableStays(op, b);
    VariableStays(op, x);
    VariableStays(op, y);
    VariablesStay(a, b);
    MergedTwice(op, a, b, c, x, e);
    IfStays(op, a, x, y);
    IfStays(op, b, x, y);
    IfStays(op, c, x, y);
    var all := [If(a, x, e), If(b, x, e), If(c, x, e)];
    ThreeSettled(op, If(a, x, e), If(b, x, e), If(c, x, e));
    SettledList(op, all);
    FinishMerged(op, all, If(c, x, e));
    SimplifyCollected(op, all, Collected(NeutralElement(op), all, []), FinishAss(op, all).value);
  }
}
