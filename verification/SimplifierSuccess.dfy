/** Where simplification raises no exception: every part of the expression has a value, also the branches that are not
    chosen, and no list holds two conditionals that could be merged. */
module SimplifierSuccess {
  import opened Results
  import opened Types
  import opened Expressions
  import opened ExactEval
  import opened Simplifier
  import opened SimplifierMeaning
  import opened SimplifierLoops
  import opened SimplifierShape

  // The condition.

  /** How many conditionals an expression may contribute to a list that it becomes a part of: a nested list hands over
      its terms, a comparison with True or False hands over its other side. */
  function Heads(e: Expr, env: Setting): nat
    decreases e
  {
    match e
    case Not(x) => Heads(x, env)
    case Neg(x) => Heads(x, env)
    case Ass(_, terms) => ListHeads(terms, env)
    case Bin(op, l, r) => if op == Sub then Heads(l, env) + Heads(r, env) else 0
    case Rel(_, l, r) =>
      if IsTruth(Eval(l, env)) then Max(Heads(l, env), Heads(r, env)) else 0
    case If(_, _, _) => 1
    case _ => 0
  }

  function Max(a: nat, b: nat): nat {
    if a < b then b else a
  }

  function ListHeads(terms: seq<Expr>, env: Setting): nat
    decreases terms
  {
    if terms == [] then 0 else Heads(terms[0], env) + ListHeads(terms[1..], env)
  }

  /** Every part is defined, and a list holds at most one conditional. */
  predicate Defined(e: Expr, env: Setting)
    decreases e
  {
    Eval(e, env).Some? &&
    match e
    case Not(x) => Defined(x, env)
    case Neg(x) => Defined(x, env)
    case Ass(_, terms) => AllDefined(terms, env) && ListHeads(terms, env) <= 1
    case Bin(op, l, r) =>
      Defined(l, env) && Defined(r, env) && (op == Sub ==> Heads(l, env) + Heads(r, env) <= 1)
    case Rel(_, l, r) => Defined(l, env) && Defined(r, env)
    case If(c, t, rest) => Defined(c, env) && Defined(t, env) && ElseDefined(rest, env)
    case _ => true
  }

  predicate AllDefined(terms: seq<Expr>, env: Setting)
    decreases terms
  {
    terms == [] || (Defined(terms[0], env) && AllDefined(terms[1..], env))
  }

  predicate ElseDefined(rest: Else, env: Setting)
    decreases rest
  {
    match rest
    case NoElse => true
    case ElsePart(e) => Defined(e, env)
    case Elsif(c, t, r) => Defined(c, env) && Defined(t, env) && ElseDefined(r, env)
  }

  lemma {:induction false} FewHeads(e: Expr, env: Setting)
    requires Defined(e, env)
    ensures Heads(e, env) <= 1
    decreases e
  {
    match e
    case Not(x) => FewHeads(x, env);
    case Neg(x) => FewHeads(x, env);
    case Rel(_, l, r) =>
      FewHeads(l, env);
      FewHeads(r, env);
    case _ =>
  }

  // Lists.

  lemma {:induction false} HeadsConcat(a: seq<Expr>, b: seq<Expr>, env: Setting)
    ensures ListHeads(a + b, env) == ListHeads(a, env) + ListHeads(b, env)
    ensures AllDefined(a + b, env) == (AllDefined(a, env) && AllDefined(b, env))
  {
    if a == [] {
      assert a + b == b;
    } else {
      assert (a + b)[1..] == a[1..] + b;
      HeadsConcat(a[1..], b, env);
    }
  }

  lemma HeadsSnoc(a: seq<Expr>, t: Expr, env: Setting)
    ensures ListHeads(a + [t], env) == ListHeads(a, env) + Heads(t, env)
    ensures AllDefined(a + [t], env) == (AllDefined(a, env) && Defined(t, env))
  {
    HeadsConcat(a, [t], env);
    assert [t][1..] == [];
  }

  lemma HeadsRemove(a: seq<Expr>, i: nat, env: Setting)
    requires i < |a|
    ensures ListHeads(a[..i] + a[i + 1..], env) + Heads(a[i], env) == ListHeads(a, env)
    ensures AllDefined(a, env) ==> AllDefined(a[..i] + a[i + 1..], env) && Defined(a[i], env)
  {
    var back := a[i..];
    assert a == a[..i] + back && back[0] == a[i] && back[1..] == a[i + 1..];
    HeadsConcat(a[..i], back, env);
    HeadsConcat(a[..i], a[i + 1..], env);
  }

  lemma {:induction false} UniqueHeads(terms: seq<Expr>, env: Setting)
    requires AllDefined(terms, env)
    ensures AllDefined(Unique(terms), env) && ListHeads(Unique(terms), env) <= ListHeads(terms, env)
  {
    if terms != [] {
      var front, last := terms[..|terms| - 1], terms[|terms| - 1];
      assert terms == front + [last];
      HeadsSnoc(front, last, env);
      UniqueHeads(front, env);
      HeadsSnoc(Unique(front), last, env);
    }
  }

  lemma AllTermsHeads(op: AssOp, c: Collected, env: Setting)
    requires AllDefined(c.terms, env)
    ensures AllDefined(AllTerms(op, c), env) && ListHeads(AllTerms(op, c), env) <= ListHeads(c.terms, env)
  {
    UniqueHeads(c.terms, env);
    HeadsSnoc(Unique(c.terms), BoolLit(c.total != 0), env);
    HeadsSnoc(c.terms, Number(c.total), env);
    HeadsSnoc([], BoolLit(c.total != 0), env);
    HeadsSnoc([], BoolLit(!op.IsAnd()), env);
    assert [] + [BoolLit(c.total != 0)] == [BoolLit(c.total != 0)];
    assert [] + [BoolLit(!op.IsAnd())] == [BoolLit(!op.IsAnd())];
  }

  lemma {:induction false} NoHeads(t: Expr, terms: seq<Expr>, env: Setting)
    requires ListHeads(terms, env) == 0
    ensures FirstMergeable(t, terms) == |terms| && (terms != [] ==> !terms[0].If?)
  {
    if terms != [] {
      NoHeads(t, terms[1..], env);
    }
  }

  /** Nothing is merged in a list with at most one conditional. */
  lemma FewToMerge(op: AssOp, terms: seq<Expr>, env: Setting)
    requires ListHeads(terms, env) <= 1
    ensures MergeIfs(op, terms) == Ok(SimpTerms(terms, []))
  {
    if terms != [] && terms[0].If? {
      NoHeads(terms[0], terms[1..], env);
      assert MergeIfs(op, terms[1..]) == Ok(SimpTerms(terms[1..], []));
      assert [terms[0]] + terms[1..] == terms;
    }
  }

  // Results.

  /** No conditionals were merged. */
  predicate Quiet(log: seq<Rewrite>) {
    forall i :: 0 <= i < |log| ==> log[i].Comparison?
  }

  lemma QuietConcat(a: seq<Rewrite>, b: seq<Rewrite>)
    requires Quiet(a) && Quiet(b)
    ensures Quiet(a + b)
  {
  }

  lemma QuietIsSound(log: seq<Rewrite>, env: Setting)
    requires Quiet(log) && !env.rounded
    ensures Sound(log, env)
  {
  }

  predicate Fine(r: Result<Simp>, heads: nat, env: Setting) {
    r.Ok? && Defined(r.value.e, env) && Heads(r.value.e, env) <= heads && Quiet(r.value.log)
  }

  predicate AllFine(r: Result<SimpTerms>, heads: nat, env: Setting) {
    r.Ok? && AllDefined(r.value.terms, env) && ListHeads(r.value.terms, env) <= heads && Quiet(r.value.log)
  }

  lemma ResultKeeps(e: Expr, env: Setting)
    requires Eval(e, env).Some? && Fine(Simplify(e), Heads(e, env), env) && !env.rounded
    ensures Eval(Simplify(e).value.e, env) == Eval(e, env)
  {
    hide Simplify, Eval, Defined, Heads;
    QuietIsSound(Simplify(e).value.log, env);
    SimplifyKeeps(e, env);
  }

  lemma MemberDefined(op: AssOp, terms: seq<Expr>, env: Setting)
    requires terms != [] && EvalAll(op, terms, env).Some?
    ensures Eval(terms[0], env).Some? && EvalAll(op, terms[1..], env).Some?
    ensures op == Add ==> ExactNeg(Eval(terms[0], env)).Some?
    ensures op.IsBool() ==> ExactNot(Eval(terms[0], env)).Some?
  {
    CombineLaws(op, Eval(terms[0], env), EvalAll(op, terms[1..], env), None);
  }

  // One lemma for each function.

  /** The simplification of such an expression raises no exception, merges nothing, and its result is such an expression
      again. */
  lemma {:induction false} SimplifySucceeds(e: Expr, env: Setting)
    requires Defined(e, env) && !env.rounded
    ensures Fine(Simplify(e), Heads(e, env), env)
    decreases Weight(e), 1
  {
    match e
    case Number(_) =>
    case Literal(_) =>
    case Variable(_, _) =>
    case Selected(_, _, _) =>
    case Not(x) => NotSucceeds(x, env);
    case Neg(x) => MinusSucceeds(x, env);
    case Ass(op, terms) => AssSucceeds(op, terms, env);
    case Bin(op, l, r) => BinSucceeds(op, l, r, env);
    case Rel(rel, l, r) => RelationSucceeds(rel, l, r, env);
    case If(c, t, rest) => IfSucceeds(c, t, rest, env);
  }

  lemma {:induction false} MinusSucceeds(x: Expr, env: Setting)
    requires Defined(Neg(x), env) && !env.rounded
    ensures Fine(Simplify(Neg(x)), Heads(x, env), env)
    decreases 2 * Weight(x), 0
  {
    hide Negate, Quiet, Defined, Heads;
    ArgumentDefined(x, env);
    SimplifySucceeds(x, env);
    ResultKeeps(x, env);
    NegateSucceeds(Simplify(x).value.e, env);
    QuietConcat(Simplify(x).value.log, Negate(Simplify(x).value.e).value.log);
  }

  lemma ArgumentDefined(x: Expr, env: Setting)
    requires Defined(Neg(x), env)
    ensures Defined(x, env) && ExactNeg(Eval(x, env)).Some?
  {
  }

  lemma {:induction false} RelationSucceeds(rel: RelOp, l: Expr, r: Expr, env: Setting)
    requires Defined(Rel(rel, l, r), env) && !env.rounded
    ensures Fine(Simplify(Rel(rel, l, r)), Heads(Rel(rel, l, r), env), env)
    decreases Weight(Rel(rel, l, r)), 0
  {
    hide Quiet, SimplifyRel;
    SimplifySucceeds(l, env);
    SimplifySucceeds(r, env);
    ResultKeeps(l, env);
    ResultKeeps(r, env);
    var x, y := Simplify(l).value, Simplify(r).value;
    RelSucceeds(rel, x.e, y.e, env);
    QuietConcat(x.log, y.log);
    QuietConcat(x.log + y.log, Compared(rel, x.e, y.e)) by { ComparedIsQuiet(rel, x.e, y.e); }
  }

  lemma ComparedIsQuiet(rel: RelOp, l: Expr, r: Expr)
    ensures Quiet(Compared(rel, l, r))
  {
  }

  lemma RelSucceeds(rel: RelOp, l: Expr, r: Expr, env: Setting)
    requires Defined(l, env) && Defined(r, env) && ExactRel(rel, Eval(l, env), Eval(r, env)).Some? && !env.rounded
    ensures Defined(SimplifyRel(rel, l, r), env)
    ensures Heads(SimplifyRel(rel, l, r), env) <= Heads(Rel(rel, l, r), env)
  {
    hide FoldRel, EliminateTruth, ExactRel;
    if FoldRel(rel, l, r).None? {
      EliminateDefined(rel, l, r, env);
    }
  }

  lemma EliminateDefined(rel: RelOp, l: Expr, r: Expr, env: Setting)
    requires Defined(l, env) && Defined(r, env) && ExactRel(rel, Eval(l, env), Eval(r, env)).Some?
    ensures Defined(EliminateTruth(rel, l, r), env)
    ensures Heads(EliminateTruth(rel, l, r), env) <= Heads(Rel(rel, l, r), env)
  {
    hide Weight;
    EliminateTruthKeeps(rel, l, r, env);
    EvalForms(rel, l, r, env);
    if l == TRUE || l == FALSE || r == TRUE || r == FALSE {
      BooleanSides(rel, l, r, env);
    }
    assert Defined(Rel(rel, l, r), env);
    assert IsTruth(Eval(l, env)) ==> Defined(Not(l), env) && Heads(Not(l), env) == Heads(l, env);
    assert IsTruth(Eval(r, env)) ==> Defined(Not(r), env) && Heads(Not(r), env) == Heads(r, env);
    assert IsTruth(Eval(l, env)) ==> Heads(Rel(rel, l, r), env) == Max(Heads(l, env), Heads(r, env));
    hide Defined, Heads, Eval, ExactRel;
  }

  lemma BooleanSides(rel: RelOp, l: Expr, r: Expr, env: Setting)
    requires ExactRel(rel, Eval(l, env), Eval(r, env)).Some?
    requires l == TRUE || l == FALSE || r == TRUE || r == FALSE
    ensures IsTruth(Eval(l, env)) && IsTruth(Eval(r, env))
  {
  }

  lemma {:induction false} IfSucceeds(c: Expr, t: Expr, rest: Else, env: Setting)
    requires Defined(If(c, t, rest), env) && !env.rounded
    ensures Fine(Simplify(If(c, t, rest)), 1, env)
    decreases Weight(If(c, t, rest)), 0
  {
    SimplifySucceeds(c, env);
    SimplifySucceeds(t, env);
    ElseSucceeds(rest, env);
    QuietIsSound(Simplify(If(c, t, rest)).value.log, env);
    SimplifyKeeps(If(c, t, rest), env);
    FewHeads(Simplify(t).value.e, env);
    var r := SimplifyElse(rest).value.rest;
    if r.ElsePart? {
      FewHeads(r.els, env);
    }
  }

  lemma {:induction false} ElseSucceeds(rest: Else, env: Setting)
    requires ElseDefined(rest, env) && !env.rounded
    ensures SimplifyElse(rest).Ok? && ElseDefined(SimplifyElse(rest).value.rest, env)
    ensures Quiet(SimplifyElse(rest).value.log)
    decreases WeightElse(rest), 2
  {
    match rest
    case NoElse =>
    case ElsePart(e) => SimplifySucceeds(e, env);
    case Elsif(c, t, more) =>
      SimplifySucceeds(c, env);
      SimplifySucceeds(t, env);
      ElseSucceeds(more, env);
  }

  lemma {:induction false} NotSucceeds(x: Expr, env: Setting)
    requires Defined(x, env) && ExactNot(Eval(x, env)).Some? && !env.rounded
    ensures Fine(SimplifyNot(x), Heads(x, env), env)
    decreases 2 * Weight(x), 0
  {
    if x == TRUE || x == FALSE {
    } else if x.Ass? && x.ass.IsBool() {
      var dual := if x.ass.IsAnd() then Or else And;
      NegateAllSucceeds(x.ass, x.terms, env);
      AssSucceeds(dual, NegateAll(x.terms).value.terms, env);
    } else if x.Rel? {
      SimplifySucceeds(x.left, env);
      SimplifySucceeds(x.right, env);
      ResultKeeps(x.left, env);
      ResultKeeps(x.right, env);
      InverseValue(x.rel, Eval(x.left, env), Eval(x.right, env));
    } else {
      SimplifySucceeds(x, env);
      ResultKeeps(x, env);
    }
  }

  lemma {:induction false} NegateAllSucceeds(op: AssOp, terms: seq<Expr>, env: Setting)
    requires op.IsBool() && AllDefined(terms, env) && EvalAll(op, terms, env).Some? && !env.rounded
    ensures AllFine(NegateAll(terms), ListHeads(terms, env), env)
    ensures EvalAll(if op.IsAnd() then Or else And, NegateAll(terms).value.terms, env).Some?
    decreases 2 * WeightAll(terms) + 1, 0
  {
    if terms != [] {
      MemberDefined(op, terms, env);
      SimplifySucceeds(terms[0], env);
      ResultKeeps(terms[0], env);
      var t := Simplify(terms[0]).value.e;
      SimplifySucceeds(Not(t), env);
      NegateAllSucceeds(op, terms[1..], env);
      HeadsConcat([Simplify(Not(t)).value.e], NegateAll(terms[1..]).value.terms, env);
      HeadsSnoc([], Simplify(Not(t)).value.e, env);
      assert [] + [Simplify(Not(t)).value.e] == [Simplify(Not(t)).value.e];
    }
    QuietIsSound(NegateAll(terms).value.log, env);
    NegateAllKeeps(op, terms, env);
    EvalAllNeutral(op, terms, env);
  }

  lemma {:induction false} AssSucceeds(op: AssOp, terms: seq<Expr>, env: Setting)
    requires AllDefined(terms, env) && ListHeads(terms, env) <= 1 && EvalAll(op, terms, env).Some? && !env.rounded
    ensures Fine(SimplifyAss(op, terms), ListHeads(terms, env), env)
    decreases 2 + WeightAll(terms), 0
  {
    hide Collect, FinishAss, AllTerms, Quiet, Defined, Heads, Eval, EvalAll, AllDefined;
    assert AllDefined([], env) && ListHeads([], env) == 0 by { NothingDefined(env); }
    CollectSucceeds(op, terms, NeutralElement(op), [], env);
    var c := Collect(op, terms, NeutralElement(op), []).value;
    if c.terms == [] && !op.IsBool() {
      NumberDefined(c.total, env);
    } else {
      AllTermsHeads(op, c, env);
      CollectedValue(op, terms, env);
      FinishSucceeds(op, AllTerms(op, c), env);
      QuietConcat(c.log, FinishAss(op, AllTerms(op, c)).value.log);
    }
  }

  lemma NothingDefined(env: Setting)
    ensures AllDefined([], env) && ListHeads([], env) == 0
  {
  }

  lemma NumberDefined(n: int, env: Setting)
    ensures Defined(Number(n), env) && Heads(Number(n), env) == 0
  {
  }

  lemma CollectedValue(op: AssOp, terms: seq<Expr>, env: Setting)
    requires EvalAll(op, terms, env).Some? && Collect(op, terms, NeutralElement(op), []).Ok? && !env.rounded
    requires Quiet(Collect(op, terms, NeutralElement(op), []).value.log)
    ensures EvalAll(op, AllTerms(op, Collect(op, terms, NeutralElement(op), []).value), env).Some?
  {
    hide Collect, AllTerms;
    var n := NeutralElement(op);
    var c := Collect(op, terms, n, []).value;
    QuietIsSound(c.log, env);
    TotalNeutral(op);
    EvalAllNeutral(op, terms, env);
    CombineLaws(op, Some(Neutral(op)), Some(Neutral(op)), None);
    CollectKeeps(op, terms, n, [], env);
    AllTermsKeep(op, c, env);
  }

  predicate CollectFine(r: Result<Collected>, heads: nat, env: Setting) {
    r.Ok? && AllDefined(r.value.terms, env) && ListHeads(r.value.terms, env) <= heads && Quiet(r.value.log)
  }

  lemma {:induction false} CollectSucceeds(op: AssOp, pending: seq<Expr>, total: int, terms: seq<Expr>, env: Setting)
    requires AllDefined(pending, env) && AllDefined(terms, env) && EvalAll(op, pending, env).Some? && !env.rounded
    ensures CollectFine(Collect(op, pending, total, terms), ListHeads(pending, env) + ListHeads(terms, env), env)
    decreases WeightAll(pending) + 1, 0
  {
    hide Simplify, Collect, Defined, Heads, Eval, EvalAll, Quiet, ListHeads;
    if pending == [] {
      CollectNothing(op, total, terms, env);
    } else {
      MemberDefined(op, pending, env);
      SimplifySucceeds(pending[0], env);
      ResultKeeps(pending[0], env);
      var t, more := Simplify(pending[0]).value.e, Simplify(pending[0]).value.log;
      CollectTurn(op, pending, total, terms, []);
      NextDefined(op, pending, t, terms, env);
      var p, sum, kept := NextPending(op, pending[1..], t), NextTotal(op, total, t), NextKept(op, terms, t);
      CollectSucceeds(op, p, sum, kept, env);
      LogsJoin(Collect(op, pending, total, terms), Collect(op, p, sum, kept), more);
    }
  }

  lemma CollectNothing(op: AssOp, total: int, terms: seq<Expr>, env: Setting)
    ensures Collect(op, [], total, terms) == Ok(Collected(total, terms, [])) && Quiet([]) && ListHeads([], env) == 0
  {
  }

  lemma LogsJoin(r: Result<Collected>, next: Result<Collected>, more: seq<Rewrite>)
    requires WithLog([], r) == WithLog([] + more, next) && next.Ok? && Quiet(next.value.log) && Quiet(more)
    ensures r.Ok? && Quiet(r.value.log) && r.value.terms == next.value.terms
  {
    assert [] + more == more;
    assert r.Ok?;
    assert [] + r.value.log == r.value.log;
  }

  /** One turn of the loop keeps the condition. */
  lemma NextDefined(op: AssOp, pending: seq<Expr>, t: Expr, terms: seq<Expr>, env: Setting)
    requires pending != [] && AllDefined(pending, env) && AllDefined(terms, env) && EvalAll(op, pending, env).Some?
    requires Defined(t, env) && Eval(t, env) == Eval(pending[0], env) && Heads(t, env) <= Heads(pending[0], env)
    ensures var p, kept := NextPending(op, pending[1..], t), NextKept(op, terms, t);
            && AllDefined(p, env) && AllDefined(kept, env) && EvalAll(op, p, env).Some?
            && ListHeads(p, env) + ListHeads(kept, env) <= ListHeads(pending, env) + ListHeads(terms, env)
  {
    MemberDefined(op, pending, env);
    HeadsSnoc(terms, t, env);
    if t.Ass? && op.HasInstance(t.ass) {
      NestedDefined(op, pending, t, env);
      HeadsConcat(pending[1..], t.terms, env);
    }
  }

  lemma NestedDefined(op: AssOp, pending: seq<Expr>, t: Expr, env: Setting)
    requires pending != [] && EvalAll(op, pending, env).Some?
    requires t.Ass? && op.HasInstance(t.ass) && Eval(t, env) == Eval(pending[0], env)
    ensures EvalAll(op, pending[1..] + t.terms, env).Some?
  {
    EvalAllConcat(op, pending[1..], t.terms, env);
    SameClassValue(op, t.ass, t.terms, env);
    CombineLaws(op, Eval(pending[0], env), EvalAll(op, pending[1..], env), None);
  }

  lemma MakeAssDefined(op: AssOp, terms: seq<Expr>, env: Setting)
    requires AllDefined(terms, env) && EvalAll(op, terms, env).Some? && ListHeads(terms, env) <= 1
    ensures Defined(MakeAss(op, terms), env) && Heads(MakeAss(op, terms), env) == ListHeads(terms, env)
    ensures Eval(MakeAss(op, terms), env) == EvalAll(op, terms, env)
  {
    MakeAssKeeps(op, terms, env);
    if |terms| == 1 {
      assert terms[1..] == [];
    }
  }

  lemma {:induction false} FinishSucceeds(op: AssOp, terms: seq<Expr>, env: Setting)
    requires AllDefined(terms, env) && EvalAll(op, terms, env).Some? && ListHeads(terms, env) <= 1 && !env.rounded
    ensures Fine(FinishAss(op, terms), ListHeads(terms, env), env)
    decreases WeightAll(terms) + (if op == Add then 1 else 0), 4
  {
    hide MergeIfs, Cancel, AllDefined, ListHeads;
    FewToMerge(op, terms, env);
    MakeAssDefined(op, terms, env);
    var e := MakeAss(op, terms);
    if op == Add && e.Ass? && e.ass == Add {
      CancelSucceeds(e.terms, env);
      CancelledValue(e.terms, env);
      MakeAssDefined(Add, Cancel(e.terms).value.terms, env);
    }
  }

  lemma CancelledValue(terms: seq<Expr>, env: Setting)
    requires EvalAll(Add, terms, env).Some? && Cancel(terms).Ok? && Quiet(Cancel(terms).value.log) && !env.rounded
    ensures EvalAll(Add, Cancel(terms).value.terms, env) == EvalAll(Add, terms, env)
  {
    QuietIsSound(Cancel(terms).value.log, env);
    CancelKeeps(terms, env);
  }

  lemma {:induction false} CancelSucceeds(terms: seq<Expr>, env: Setting)
    requires AllDefined(terms, env) && EvalAll(Add, terms, env).Some? && !env.rounded
    ensures AllFine(Cancel(terms), ListHeads(terms, env), env)
    decreases WeightAll(terms) + 1, 3
  {
    hide Negate, Defined, Heads, Eval, EvalAll, Quiet;
    if terms == [] {
      QuietNothing();
    } else {
      MemberDefined(Add, terms, env);
      CancelSucceeds(terms[1..], env);
      NegateSucceeds(terms[0], env);
      CancelOneHeads(terms[0], Negate(terms[0]).value.e, Cancel(terms[1..]).value.terms, env);
      QuietConcat(Cancel(terms[1..]).value.log, Negate(terms[0]).value.log);
      SingleHeads(terms[0], env);
    }
  }

  lemma QuietNothing()
    ensures Quiet([])
  {
  }

  lemma SingleHeads(t: Expr, env: Setting)
    ensures ListHeads([t], env) == Heads(t, env) && AllDefined([t], env) == Defined(t, env)
  {
    assert [t][1..] == [];
  }

  lemma CancelOneHeads(t: Expr, negation: Expr, kept: seq<Expr>, env: Setting)
    requires Defined(t, env) && AllDefined(kept, env)
    ensures AllDefined(CancelOne(t, negation, kept), env)
    ensures ListHeads(CancelOne(t, negation, kept), env) <= Heads(t, env) + ListHeads(kept, env)
  {
    hide Defined, Heads;
    if negation in kept {
      HeadsRemove(kept, IndexOf(negation, kept), env);
    } else {
      HeadsConcat([t], kept, env);
      SingleHeads(t, env);
    }
  }

  /** A constant operation is folded exactly if it is defined. */
  lemma FoldIsExact(op: BinOp, l: int, r: int)
    ensures FoldBin(op, l, r).Ok? <==> BinNum(op, l as real, r as real, false).Some?
  {
    assert (l as real).Floor == l && (r as real).Floor == r;
  }

  lemma {:induction false} BinSucceeds(op: BinOp, l: Expr, r: Expr, env: Setting)
    requires Defined(Bin(op, l, r), env) && !env.rounded
    ensures Fine(SimplifyBin(op, l, r), Heads(Bin(op, l, r), env), env)
    decreases Weight(Bin(op, l, r)), 0
  {
    hide Simplify, Negate, FoldBin;
    SimplifySucceeds(l, env);
    SimplifySucceeds(r, env);
    ResultKeeps(l, env);
    ResultKeeps(r, env);
    var x, y := Simplify(l).value.e, Simplify(r).value.e;
    if x.Number? && y.Number? {
      FoldIsExact(op, x.n, y.n);
      FoldBinKeeps(op, x.n, y.n, env);
      FoldDefined(op, x.n, y.n, env);
    } else if op == Sub {
      NegateSucceeds(y, env);
      PairDefined(x, Negate(y).value.e, env);
      QuietIsSound(Negate(y).value.log, env);
      NegateKeeps(y, env);
      SubKeeps(x, y, Negate(y).value.e, env);
    }
  }

  lemma FoldDefined(op: BinOp, l: int, r: int, env: Setting)
    requires FoldBin(op, l, r).Ok? && Eval(FoldBin(op, l, r).value, env).Some?
    ensures Defined(FoldBin(op, l, r).value, env) && Heads(FoldBin(op, l, r).value, env) == 0
  {
  }

  lemma PairDefined(x: Expr, y: Expr, env: Setting)
    requires Defined(x, env) && Defined(y, env)
    ensures AllDefined([x, y], env) && ListHeads([x, y], env) == Heads(x, env) + Heads(y, env)
  {
    HeadsSnoc([x], y, env);
    HeadsSnoc([], x, env);
    assert [] + [x] == [x] && [x] + [y] == [x, y];
  }

  lemma NegationValue(e: Expr, env: Setting)
    requires ExactNeg(Eval(e, env)).Some? && Negate(e).Ok? && Quiet(Negate(e).value.log) && !env.rounded
    ensures Eval(Negate(e).value.e, env) == ExactNeg(Eval(e, env))
  {
    QuietIsSound(Negate(e).value.log, env);
    NegateKeeps(e, env);
  }

  /** The negation of a defined number raises no exception. */
  lemma {:induction false} NegateSucceeds(e: Expr, env: Setting)
    requires Defined(e, env) && ExactNeg(Eval(e, env)).Some? && !env.rounded
    ensures Fine(Negate(e), Heads(e, env), env)
    decreases Weight(e) + (if e.Ass? && e.ass == Mul then 1 else 0), 2
  {
    match e
    case If(_, _, _) =>
      PairDefined(Number(-1), e, env);
      NegationValue(e, env);
    case Bin(op, l, r) =>
      if op == Div {
        NegateSucceeds(l, env);
      }
      NegationValue(e, env);
    case Ass(op, terms) =>
      if op == Add {
        NegateSumSucceeds(terms, env);
        NegationValue(e, env);
      } else if op == Mul {
        NegatedProductSucceeds(terms, env);
      }
    case _ =>
  }

  lemma {:induction false} NegatedProductSucceeds(terms: seq<Expr>, env: Setting)
    requires Defined(Ass(Mul, terms), env) && !env.rounded
    ensures Fine(Negate(Ass(Mul, terms)), ListHeads(terms, env), env)
    decreases WeightAll(terms) + 3, 2, 0
  {
    WeightSnoc(terms, Number(-1));
    HeadsSnoc(terms, Number(-1), env);
    EvalAllNeutral(Mul, terms, env);
    EvalAllSnoc(Mul, terms, Number(-1), env);
    NegatedProduct(EvalAll(Mul, terms, env));
    SimplifySucceeds(Ass(Mul, terms + [Number(-1)]), env);
  }

  lemma {:induction false} NegateSumSucceeds(terms: seq<Expr>, env: Setting)
    requires AllDefined(terms, env) && EvalAll(Add, terms, env).Some? && !env.rounded
    ensures AllFine(NegateSum(terms), ListHeads(terms, env), env)
    decreases WeightAll(terms) + 1, 3
  {
    if terms != [] {
      MemberDefined(Add, terms, env);
      NegateSucceeds(terms[0], env);
      NegateSumSucceeds(terms[1..], env);
      HeadsConcat([Negate(terms[0]).value.e], NegateSum(terms[1..]).value.terms, env);
      HeadsSnoc([], Negate(terms[0]).value.e, env);
      assert [] + [Negate(terms[0]).value.e] == [Negate(terms[0]).value.e];
    }
  }

  // Expressions without conditionals.

  lemma {:induction false} PlainIsDefined(e: Expr, env: Setting)
    requires Plain(e, WITHOUT_CONDITIONALS) && Eval(e, env).Some?
    ensures Defined(e, env) && Heads(e, env) == 0
    decreases e
  {
    match e
    case Not(x) => PlainIsDefined(x, env);
    case Neg(x) => PlainIsDefined(x, env);
    case Ass(op, terms) => AllPlainIsDefined(op, terms, env);
    case Bin(_, l, r) =>
      PlainIsDefined(l, env);
      PlainIsDefined(r, env);
    case Rel(_, l, r) =>
      PlainIsDefined(l, env);
      PlainIsDefined(r, env);
    case _ =>
  }

  lemma {:induction false} AllPlainIsDefined(op: AssOp, terms: seq<Expr>, env: Setting)
    requires AllPlain(terms, WITHOUT_CONDITIONALS) && EvalAll(op, terms, env).Some?
    ensures AllDefined(terms, env) && ListHeads(terms, env) == 0
    decreases terms
  {
    if terms != [] {
      MemberDefined(op, terms, env);
      PlainIsDefined(terms[0], env);
      AllPlainIsDefined(op, terms[1..], env);
    }
  }

  /** Without conditionals it is enough that the whole expression has a value. */
  lemma PlainSucceeds(e: Expr, env: Setting)
    requires Plain(e, WITHOUT_CONDITIONALS) && Eval(e, env).Some? && !env.rounded
    ensures Simplify(e).Ok? && Eval(Simplify(e).value.e, env) == Eval(e, env)
  {
    hide Simplify, Eval, Plain, Heads;
    PlainIsDefined(e, env);
    SimplifySucceeds(e, env);
    ResultKeeps(e, env);
  }

  // Without the condition.

  /** A branch that is not chosen is simplified all the same: the value is 1, but the division is folded. */
  lemma UnchosenBranchRaises()
    ensures var e := If(Variable("A", BOOLEAN), Number(1), ElsePart(Bin(Div, Number(1), Number(0))));
            Eval(e, Setting(map[Var("A") := Bool(true)], false)) == Some(Num(1.0)) && Simplify(e) == Error
  {
  }
}
