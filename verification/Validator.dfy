/** The expansion of a condition into a list of alternatives.  The prover is a parameter: it says whether it could
    show that two expressions are equal. */
module Validator {
  import opened Results
  import opened Expressions
  import opened ExactEval
  import opened Simplifier
  import opened SimplifierMeaning

  datatype Parts = Parts(atoms: seq<Expr>, disjunctions: seq<seq<Expr>>)

  function Split(terms: seq<Expr>): Parts {
    if terms == [] then Parts([], [])
    else
      var before, last := Split(terms[..|terms| - 1]), terms[|terms| - 1];
      if last.Ass? && last.ass.IsOr() then Parts(before.atoms, before.disjunctions + [last.terms])
      else Parts(before.atoms + [last], before.disjunctions)
  }

  function Prepend(heads: seq<Expr>, tails: seq<seq<Expr>>): seq<seq<Expr>> {
    if heads == [] then [] else EachPrepended(heads[0], tails) + Prepend(heads[1..], tails)
  }

  function EachPrepended(head: Expr, tails: seq<seq<Expr>>): seq<seq<Expr>> {
    if tails == [] then [] else [[head] + tails[0]] + EachPrepended(head, tails[1..])
  }

  /** All choices of one expression from each list. */
  function Product(lists: seq<seq<Expr>>): seq<seq<Expr>> {
    if lists == [] then [[]] else Prepend(lists[0], Product(lists[1..]))
  }

  function Choices(terms: seq<Expr>): seq<seq<Expr>> {
    var parts := Split(terms);
    Product(parts.disjunctions + [[Ass(And, parts.atoms)]])
  }

  /** The conjunction of a choice. */
  function Conjunction(choice: seq<Expr>): Result<Simp> {
    Simplify(Ass(And, Unique(choice)))
  }

  predicate ProvedEqual(prover: (Expr, Expr) -> bool, value: Expr, seen: seq<Expr>) {
    exists i :: 0 <= i < |seen| && prover(value, seen[i])
  }

  /** The conjunctions of the choices, without those that were shown to equal an earlier one. */
  function Distinct(prover: (Expr, Expr) -> bool, choices: seq<seq<Expr>>, seen: seq<Expr>): Result<seq<Expr>> {
    if choices == [] then Ok(seen)
    else
      var value :- Conjunction(choices[0]);
      Distinct(prover, choices[1..], if ProvedEqual(prover, value.e, seen) then seen else seen + [value.e])
  }

  function Expand(prover: (Expr, Expr) -> bool, e: Expr): Result<seq<Expr>> {
    if e.Ass? && e.ass.IsOr() then Ok(e.terms)
    else if !(e.Ass? && e.ass.IsAnd()) then Ok([e])
    else Distinct(prover, Choices(e.terms), [])
  }

  method ExpandExpression(prover: (Expr, Expr) -> bool, e: Expr) returns (r: Result<seq<Expr>>)
    ensures r == Expand(prover, e)
  {
    if e.Ass? && e.ass.IsOr() {
      return Ok(e.terms);
    }
    if !(e.Ass? && e.ass.IsAnd()) {
      return Ok([e]);
    }
    var atoms: seq<Expr>, disjunctions: seq<seq<Expr>> := [], [];
    for i := 0 to |e.terms|
      invariant Parts(atoms, disjunctions) == Split(e.terms[..i])
    {
      var t := e.terms[i];
      assert e.terms[..i + 1][..i] == e.terms[..i];
      if t.Ass? && t.ass.IsOr() {
        disjunctions := disjunctions + [t.terms];
      } else {
        atoms := atoms + [t];
      }
    }
    assert e.terms[..|e.terms|] == e.terms;
    disjunctions := disjunctions + [[Ass(And, atoms)]];
    var choices := Product(disjunctions);
    assert choices == Choices(e.terms);
    var result: seq<Expr> := [];
    assert choices[0..] == choices;
    for i := 0 to |choices|
      invariant Distinct(prover, choices[i..], result) == Distinct(prover, choices, [])
    {
      assert choices[i..][0] == choices[i] && choices[i..][1..] == choices[i + 1..];
      var value := Conjunction(choices[i]);
      if value.Error? {
        return Error;
      }
      var found := SeenBefore(prover, value.value.e, result);
      if !found {
        result := result + [value.value.e];
      }
    }
    return Ok(result);
  }

  method SeenBefore(prover: (Expr, Expr) -> bool, value: Expr, seen: seq<Expr>) returns (found: bool)
    ensures found == ProvedEqual(prover, value, seen)
  {
    found := false;
    for i := 0 to |seen|
      invariant forall j :: 0 <= j < i ==> !prover(value, seen[j])
    {
      if prover(value, seen[i]) {
        return true;
      }
    }
  }

  // Truth.

  predicate Holds(e: Expr, env: Setting) {
    Eval(e, env) == Some(Truth(true))
  }

  predicate AllTruths(terms: seq<Expr>, env: Setting) {
    forall i :: 0 <= i < |terms| ==> IsTruth(Eval(terms[i], env))
  }

  predicate AllHold(terms: seq<Expr>, env: Setting) {
    forall i :: 0 <= i < |terms| ==> Holds(terms[i], env)
  }

  predicate AnyHolds(terms: seq<Expr>, env: Setting) {
    exists i :: 0 <= i < |terms| && Holds(terms[i], env)
  }

  lemma Head(terms: seq<Expr>, env: Setting)
    requires terms != []
    ensures AllTruths(terms, env) <==> IsTruth(Eval(terms[0], env)) && AllTruths(terms[1..], env)
    ensures AllHold(terms, env) <==> Holds(terms[0], env) && AllHold(terms[1..], env)
    ensures AnyHolds(terms, env) <==> Holds(terms[0], env) || AnyHolds(terms[1..], env)
  {
    var rest := terms[1..];
    assert forall i :: 1 <= i < |terms| ==> terms[i] == rest[i - 1];
    assert forall i :: 0 <= i < |rest| ==> rest[i] == terms[i + 1];
  }

  lemma Last(terms: seq<Expr>, t: Expr, env: Setting)
    ensures AllTruths(terms + [t], env) <==> AllTruths(terms, env) && IsTruth(Eval(t, env))
    ensures AllHold(terms + [t], env) <==> AllHold(terms, env) && Holds(t, env)
    ensures AnyHolds(terms + [t], env) <==> AnyHolds(terms, env) || Holds(t, env)
  {
    var all := terms + [t];
    assert all[|terms|] == t;
    assert forall i :: 0 <= i < |terms| ==> all[i] == terms[i];
  }

  /** A conjunction or disjunction of truths. */
  lemma {:induction false} ListTruth(op: AssOp, terms: seq<Expr>, env: Setting)
    requires op.IsBool()
    ensures EvalAll(op, terms, env).Some? <==> AllTruths(terms, env)
    ensures AllTruths(terms, env) ==>
            EvalAll(op, terms, env) == Some(Truth(if op.IsAnd() then AllHold(terms, env) else AnyHolds(terms, env)))
  {
    if terms != [] {
      Head(terms, env);
      ListTruth(op, terms[1..], env);
    }
  }

  // The choices.

  predicate AnyChoice(choices: seq<seq<Expr>>, env: Setting) {
    exists i :: 0 <= i < |choices| && AllHold(choices[i], env)
  }

  predicate EachAny(lists: seq<seq<Expr>>, env: Setting) {
    forall i :: 0 <= i < |lists| ==> AnyHolds(lists[i], env)
  }

  predicate TruthLists(lists: seq<seq<Expr>>, env: Setting) {
    forall i :: 0 <= i < |lists| ==> AllTruths(lists[i], env)
  }

  lemma ChoiceConcat(a: seq<seq<Expr>>, b: seq<seq<Expr>>, env: Setting)
    ensures AnyChoice(a + b, env) <==> AnyChoice(a, env) || AnyChoice(b, env)
    ensures TruthLists(a + b, env) <==> TruthLists(a, env) && TruthLists(b, env)
    ensures EachAny(a + b, env) <==> EachAny(a, env) && EachAny(b, env)
  {
    var c := a + b;
    assert forall i :: 0 <= i < |a| ==> c[i] == a[i];
    assert forall i :: 0 <= i < |b| ==> b[i] == c[|a| + i];
  }

  lemma {:induction false} EachPrependedHolds(head: Expr, tails: seq<seq<Expr>>, env: Setting)
    ensures AnyChoice(EachPrepended(head, tails), env) <==> Holds(head, env) && AnyChoice(tails, env)
    ensures IsTruth(Eval(head, env)) && TruthLists(tails, env) ==> TruthLists(EachPrepended(head, tails), env)
  {
    if tails != [] {
      var first := [head] + tails[0];
      assert first[0] == head && first[1..] == tails[0];
      Head(first, env);
      EachPrependedHolds(head, tails[1..], env);
      ChoiceConcat([first], EachPrepended(head, tails[1..]), env);
      ChoiceConcat([tails[0]], tails[1..], env);
      assert [tails[0]] + tails[1..] == tails;
      ChoiceOf(first, env);
      ChoiceOf(tails[0], env);
    }
  }

  lemma ChoiceOf(list: seq<Expr>, env: Setting)
    ensures AnyChoice([list], env) <==> AllHold(list, env)
    ensures TruthLists([list], env) <==> AllTruths(list, env)
    ensures EachAny([list], env) <==> AnyHolds(list, env)
  {
    assert [list][0] == list;
  }

  lemma {:induction false} PrependHolds(heads: seq<Expr>, tails: seq<seq<Expr>>, env: Setting)
    ensures AnyChoice(Prepend(heads, tails), env) <==> AnyHolds(heads, env) && AnyChoice(tails, env)
    ensures AllTruths(heads, env) && TruthLists(tails, env) ==> TruthLists(Prepend(heads, tails), env)
  {
    if heads != [] {
      EachPrependedHolds(heads[0], tails, env);
      PrependHolds(heads[1..], tails, env);
      ChoiceConcat(EachPrepended(heads[0], tails), Prepend(heads[1..], tails), env);
      Head(heads, env);
    }
  }

  /** A choice from the lists holds exactly if something in each list holds. */
  lemma {:induction false} ProductHolds(lists: seq<seq<Expr>>, env: Setting)
    ensures AnyChoice(Product(lists), env) <==> EachAny(lists, env)
    ensures TruthLists(lists, env) ==> TruthLists(Product(lists), env)
  {
    if lists == [] {
      ChoiceOf([], env);
      assert Product(lists) == [[]];
    } else {
      ProductHolds(lists[1..], env);
      PrependHolds(lists[0], Product(lists[1..]), env);
      assert [lists[0]] + lists[1..] == lists;
      ChoiceConcat([lists[0]], lists[1..], env);
      ChoiceOf(lists[0], env);
    }
  }

  lemma {:induction false} SplitHolds(terms: seq<Expr>, env: Setting)
    requires AllTruths(terms, env)
    ensures var parts := Split(terms);
            && AllTruths(parts.atoms, env) && TruthLists(parts.disjunctions, env)
            && (AllHold(terms, env) <==> AllHold(parts.atoms, env) && EachAny(parts.disjunctions, env))
  {
    if terms != [] {
      var front, last := terms[..|terms| - 1], terms[|terms| - 1];
      assert terms == front + [last];
      Last(front, last, env);
      SplitHolds(front, env);
      var before := Split(front);
      if last.Ass? && last.ass.IsOr() {
        ListTruth(last.ass, last.terms, env);
        ChoiceConcat(before.disjunctions, [last.terms], env);
        ChoiceOf(last.terms, env);
      } else {
        Last(before.atoms, last, env);
      }
    }
  }

  lemma ChoicesHold(terms: seq<Expr>, env: Setting)
    requires AllTruths(terms, env)
    ensures AnyChoice(Choices(terms), env) <==> AllHold(terms, env)
    ensures TruthLists(Choices(terms), env)
  {
    var parts := Split(terms);
    var rest := Ass(And, parts.atoms);
    SplitHolds(terms, env);
    ListTruth(And, parts.atoms, env);
    ChoiceConcat(parts.disjunctions, [[rest]], env);
    ChoiceOf([rest], env);
    Last([], rest, env);
    assert [] + [rest] == [rest];
    ProductHolds(parts.disjunctions + [[rest]], env);
  }

  // The conjunctions and the removal of equal ones.

  lemma ConjunctionHolds(choice: seq<Expr>, env: Setting)
    requires AllTruths(choice, env) && Conjunction(choice).Ok? && Sound(Conjunction(choice).value.log, env)
    ensures IsTruth(Eval(Conjunction(choice).value.e, env))
    ensures Holds(Conjunction(choice).value.e, env) <==> AllHold(choice, env)
  {
    hide Simplify, Unique, Sound;
    ListTruth(And, choice, env);
    UniqueKeeps(And, choice, env);
    SimplifyKeeps(Ass(And, Unique(choice)), env);
  }

  /** Whatever the prover shows to be equal has the same value. */
  ghost predicate SoundProver(prover: (Expr, Expr) -> bool) {
    forall v, s, env :: prover(v, s) && Eval(v, env).Some? && Eval(s, env).Some? ==> Eval(v, env) == Eval(s, env)
  }

  ghost predicate SoundConjunctions(choices: seq<seq<Expr>>, env: Setting) {
    forall i :: 0 <= i < |choices| && Conjunction(choices[i]).Ok? ==> Sound(Conjunction(choices[i]).value.log, env)
  }

  lemma {:induction false} DistinctHolds(prover: (Expr, Expr) -> bool, choices: seq<seq<Expr>>, seen: seq<Expr>,
                                         env: Setting)
    requires Distinct(prover, choices, seen).Ok? && AllTruths(seen, env)
    requires SoundProver(prover) && TruthLists(choices, env) && SoundConjunctions(choices, env)
    ensures AllTruths(Distinct(prover, choices, seen).value, env)
    ensures AnyHolds(Distinct(prover, choices, seen).value, env) <==> AnyHolds(seen, env) || AnyChoice(choices, env)
    decreases choices
  {
    if choices != [] {
      hide Conjunction, Sound, SoundProver, ProvedEqual, AnyHolds, AllTruths, IsTruth, Holds, AllHold;
      var value := Conjunction(choices[0]).value.e;
      ConjunctionHolds(choices[0], env);
      AddDistinct(prover, value, seen, env);
      FirstChoice(choices, env);
      DistinctHolds(prover, choices[1..], if ProvedEqual(prover, value, seen) then seen else seen + [value], env);
    }
  }

  lemma FirstChoice(choices: seq<seq<Expr>>, env: Setting)
    requires choices != []
    ensures AnyChoice(choices, env) <==> AllHold(choices[0], env) || AnyChoice(choices[1..], env)
  {
    assert [choices[0]] + choices[1..] == choices;
    ChoiceConcat([choices[0]], choices[1..], env);
    ChoiceOf(choices[0], env);
  }

  lemma AddDistinct(prover: (Expr, Expr) -> bool, value: Expr, seen: seq<Expr>, env: Setting)
    requires SoundProver(prover) && AllTruths(seen, env) && IsTruth(Eval(value, env))
    ensures var kept := if ProvedEqual(prover, value, seen) then seen else seen + [value];
            AllTruths(kept, env) && (AnyHolds(kept, env) <==> AnyHolds(seen, env) || Holds(value, env))
  {
    Last(seen, value, env);
    if ProvedEqual(prover, value, seen) {
      var i :| 0 <= i < |seen| && prover(value, seen[i]);
      assert Eval(value, env) == Eval(seen[i], env);
    }
  }

  /** Splitting is exact: the disjunction of the alternatives has the value of the condition. */
  lemma ExpandIsEquivalent(prover: (Expr, Expr) -> bool, e: Expr, env: Setting)
    requires SoundProver(prover) && IsTruth(Eval(e, env)) && Expand(prover, e).Ok?
    requires e.Ass? && e.ass.IsAnd() ==> SoundConjunctions(Choices(e.terms), env)
    ensures EvalAll(Or, Expand(prover, e).value, env) == Eval(e, env)
  {
    if e.Ass? && e.ass.IsOr() {
      ListTruth(Or, e.terms, env);
      ListTruth(e.ass, e.terms, env);
    } else if !(e.Ass? && e.ass.IsAnd()) {
      EvalAllSingle(Or, e, env);
    } else {
      hide Distinct, Choices, SoundProver, SoundConjunctions, Conjunction;
      var choices := Choices(e.terms);
      ListTruth(e.ass, e.terms, env);
      ChoicesHold(e.terms, env);
      DistinctHolds(prover, choices, [], env);
      ListTruth(Or, Expand(prover, e).value, env);
    }
  }

  /** No alternative was shown to equal an earlier one. */
  ghost predicate PairwiseDistinct(prover: (Expr, Expr) -> bool, seen: seq<Expr>) {
    forall i, j :: 0 <= i < j < |seen| ==> !prover(seen[j], seen[i])
  }

  lemma {:induction false} DistinctIsDistinct(prover: (Expr, Expr) -> bool, choices: seq<seq<Expr>>, seen: seq<Expr>)
    requires Distinct(prover, choices, seen).Ok? && PairwiseDistinct(prover, seen)
    ensures PairwiseDistinct(prover, Distinct(prover, choices, seen).value)
    decreases choices
  {
    if choices != [] {
      hide Conjunction;
      var value := Conjunction(choices[0]).value.e;
      DistinctIsDistinct(prover, choices[1..], if ProvedEqual(prover, value, seen) then seen else seen + [value]);
    }
  }
}
