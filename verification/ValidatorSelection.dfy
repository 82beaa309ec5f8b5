/** Which alternatives the expansion of a conjunction returns: the selections of one member of each disjunction. */
module ValidatorSelection {
  import opened Expressions
  import opened ExactEval
  import opened SimplifierMeaning
  import opened Validator

  predicate IsDisjunction(e: Expr) {
    e.Ass? && e.ass.IsOr()
  }

  /** One index for each term; only those of the disjunctions matter. */
  ghost predicate Picks(terms: seq<Expr>, picks: seq<nat>) {
    && |picks| == |terms|
    && forall i :: 0 <= i < |terms| && IsDisjunction(terms[i]) ==> picks[i] < |terms[i].terms|
  }

  /** The term itself, or the member that is picked from a disjunction. */
  ghost function PickedTerm(terms: seq<Expr>, picks: seq<nat>, i: nat): Expr
    requires Picks(terms, picks) && i < |terms|
  {
    if IsDisjunction(terms[i]) then terms[i].terms[picks[i]] else terms[i]
  }

  /** The picked members, in the order of the disjunctions. */
  ghost function Picked(terms: seq<Expr>, picks: seq<nat>): seq<Expr>
    requires Picks(terms, picks)
  {
    var n := |terms|;
    if n == 0 then []
    else
      Picked(terms[..n - 1], picks[..n - 1]) +
      if IsDisjunction(terms[n - 1]) then [PickedTerm(terms, picks, n - 1)] else []
  }

  /** The picked members beside the conjunction of all other terms. */
  ghost function Selection(terms: seq<Expr>, picks: seq<nat>): seq<Expr>
    requires Picks(terms, picks)
  {
    Picked(terms, picks) + [Ass(And, Split(terms).atoms)]
  }

  // The product.

  /** One member of each list. */
  ghost predicate FromEach(lists: seq<seq<Expr>>, choice: seq<Expr>) {
    |choice| == |lists| && forall i :: 0 <= i < |lists| ==> choice[i] in lists[i]
  }

  lemma {:induction false} InEachPrepended(head: Expr, tails: seq<seq<Expr>>, choice: seq<Expr>)
    ensures choice in EachPrepended(head, tails) <==> choice != [] && choice[0] == head && choice[1..] in tails
  {
    if tails != [] {
      InEachPrepended(head, tails[1..], choice);
      assert choice in tails <==> choice == tails[0] || choice in tails[1..];
      assert choice != [] ==> choice == [choice[0]] + choice[1..];
    }
  }

  lemma {:induction false} InPrepend(heads: seq<Expr>, tails: seq<seq<Expr>>, choice: seq<Expr>)
    ensures choice in Prepend(heads, tails) <==> choice != [] && choice[0] in heads && choice[1..] in tails
  {
    if heads != [] {
      InEachPrepended(heads[0], tails, choice);
      InPrepend(heads[1..], tails, choice);
      assert choice != [] ==> (choice[0] in heads <==> choice[0] == heads[0] || choice[0] in heads[1..]);
    }
  }

  /** The product holds every way of taking one member of each list, and nothing else. */
  lemma {:induction false} InProduct(lists: seq<seq<Expr>>, choice: seq<Expr>)
    ensures choice in Product(lists) <==> FromEach(lists, choice)
  {
    if lists != [] {
      InPrepend(lists[0], Product(lists[1..]), choice);
      if choice != [] {
        InProduct(lists[1..], choice[1..]);
        FirstOfEach(lists, choice);
      }
    }
  }

  // The order of the product.

  lemma {:induction false} EachPrependedAt(head: Expr, tails: seq<seq<Expr>>, k: nat)
    ensures |EachPrepended(head, tails)| == |tails|
    ensures k < |tails| ==> EachPrepended(head, tails)[k] == [head] + tails[k]
  {
    if tails != [] {
      EachPrependedAt(head, tails[1..], if k == 0 then 0 else k - 1);
    }
  }

  /** The product of two numbers, by repeated addition. */
  function Offset(i: nat, n: nat): nat {
    if i == 0 then 0 else n + Offset(i - 1, n)
  }

  lemma {:induction false} OffsetIsProduct(i: nat, n: nat)
    ensures Offset(i, n) == i * n
  {
    if i > 0 {
      OffsetIsProduct(i - 1, n);
    }
  }

  lemma {:induction false} PrependAt(heads: seq<Expr>, tails: seq<seq<Expr>>, i: nat, j: nat)
    ensures |Prepend(heads, tails)| == Offset(|heads|, |tails|)
    ensures i < |heads| && j < |tails| ==>
              var k := Offset(i, |tails|) + j;
              k < |Prepend(heads, tails)| && Prepend(heads, tails)[k] == [heads[i]] + tails[j]
  {
    if heads != [] {
      EachPrependedAt(heads[0], tails, j);
      PrependAt(heads[1..], tails, if i == 0 then 0 else i - 1, j);
    }
  }

  /** The product is in lexicographic order: for each member of the first list in turn come all choices from the
      others. */
  lemma ProductAt(lists: seq<seq<Expr>>, i: nat, j: nat)
    requires lists != []
    ensures var rest := Product(lists[1..]);
            && |Product(lists)| == Offset(|lists[0]|, |rest|)
            && (i < |lists[0]| && j < |rest| ==>
                  var k := Offset(i, |rest|) + j;
                  k < |Product(lists)| && Product(lists)[k] == [lists[0][i]] + rest[j])
  {
    assert Product(lists) == Prepend(lists[0], Product(lists[1..]));
    hide *;
    PrependAt(lists[0], Product(lists[1..]), i, j);
  }

  lemma FirstOfEach(lists: seq<seq<Expr>>, choice: seq<Expr>)
    requires lists != [] && choice != []
    ensures FromEach(lists, choice) <==> choice[0] in lists[0] && FromEach(lists[1..], choice[1..])
  {
    if choice[0] in lists[0] && FromEach(lists[1..], choice[1..]) {
      forall i | 0 <= i < |lists| ensures choice[i] in lists[i] {
        assert i > 0 ==> choice[1..][i - 1] in lists[1..][i - 1];
      }
    }
  }

  lemma LastOfEach(lists: seq<seq<Expr>>, l: seq<Expr>, choice: seq<Expr>)
    requires choice != []
    ensures var n := |choice| - 1;
            FromEach(lists + [l], choice) <==> FromEach(lists, choice[..n]) && choice[n] in l
  {
    var n := |choice| - 1;
    if FromEach(lists + [l], choice) {
      forall i | 0 <= i < n ensures choice[..n][i] in lists[i] {
        assert choice[i] in (lists + [l])[i];
      }
    }
  }

  // The selections.

  lemma {:induction false} PickedIsFromEach(terms: seq<Expr>, picks: seq<nat>)
    requires Picks(terms, picks)
    ensures FromEach(Split(terms).disjunctions, Picked(terms, picks))
  {
    var n := |terms|;
    if n > 0 {
      PickedIsFromEach(terms[..n - 1], picks[..n - 1]);
      if IsDisjunction(terms[n - 1]) {
        LastOfEach(Split(terms[..n - 1]).disjunctions, terms[n - 1].terms, Picked(terms, picks));
      }
    }
  }

  lemma {:induction false} EachIsPicked(terms: seq<Expr>, choice: seq<Expr>) returns (picks: seq<nat>)
    requires FromEach(Split(terms).disjunctions, choice)
    ensures Picks(terms, picks) && Picked(terms, picks) == choice
  {
    var n := |terms|;
    if n == 0 {
      picks := [];
    } else {
      var last, m := terms[n - 1], |choice|;
      if IsDisjunction(last) {
        LastOfEach(Split(terms[..n - 1]).disjunctions, last.terms, choice);
        var front := EachIsPicked(terms[..n - 1], choice[..m - 1]);
        var k: nat :| k < |last.terms| && last.terms[k] == choice[m - 1];
        picks := front + [k];
      } else {
        var front := EachIsPicked(terms[..n - 1], choice);
        picks := front + [0];
      }
      assert picks[..n - 1] + [picks[n - 1]] == picks;
    }
  }

  lemma ChoicesAreSelections(terms: seq<Expr>, choice: seq<Expr>) returns (picks: seq<nat>)
    requires choice in Choices(terms)
    ensures Picks(terms, picks) && choice == Selection(terms, picks)
  {
    var parts := Split(terms);
    var rest, n := Ass(And, parts.atoms), |choice| - 1;
    InProduct(parts.disjunctions + [[rest]], choice);
    LastOfEach(parts.disjunctions, [rest], choice);
    picks := EachIsPicked(terms, choice[..n]);
    assert choice == choice[..n] + [choice[n]];
  }

  lemma SelectionsAreChoices(terms: seq<Expr>, picks: seq<nat>)
    requires Picks(terms, picks)
    ensures Selection(terms, picks) in Choices(terms)
  {
    var parts := Split(terms);
    var rest, choice := Ass(And, parts.atoms), Selection(terms, picks);
    PickedIsFromEach(terms, picks);
    assert choice[..|choice| - 1] == Picked(terms, picks);
    LastOfEach(parts.disjunctions, [rest], choice);
    InProduct(parts.disjunctions + [[rest]], choice);
  }

  // The removal of equal conjunctions.

  ghost predicate IsConjunction(v: Expr, choice: seq<Expr>) {
    Conjunction(choice).Ok? && Conjunction(choice).value.e == v
  }

  /** The expression is in the list, or was shown to equal a member of it. */
  ghost predicate Represented(prover: (Expr, Expr) -> bool, v: Expr, seen: seq<Expr>) {
    exists s :: s in seen && (v == s || prover(v, s))
  }

  lemma {:induction false} DistinctOnly(prover: (Expr, Expr) -> bool, choices: seq<seq<Expr>>, seen: seq<Expr>, v: Expr)
    requires Distinct(prover, choices, seen).Ok? && v in Distinct(prover, choices, seen).value && v !in seen
    ensures exists c :: c in choices && IsConjunction(v, c)
    decreases choices
  {
    hide Conjunction;
    var value := Conjunction(choices[0]).value.e;
    if v == value {
      assert IsConjunction(v, choices[0]);
    } else {
      DistinctOnly(prover, choices[1..], if ProvedEqual(prover, value, seen) then seen else seen + [value], v);
      var c :| c in choices[1..] && IsConjunction(v, c);
      assert c in choices;
    }
  }

  lemma {:induction false} DistinctAll(prover: (Expr, Expr) -> bool, choices: seq<seq<Expr>>, seen: seq<Expr>)
    requires Distinct(prover, choices, seen).Ok?
    ensures forall s :: s in seen ==> s in Distinct(prover, choices, seen).value
    ensures forall c :: c in choices ==>
              Conjunction(c).Ok? && Represented(prover, Conjunction(c).value.e, Distinct(prover, choices, seen).value)
    decreases choices
  {
    if choices != [] {
      hide Conjunction;
      var value := Conjunction(choices[0]).value.e;
      var kept := if ProvedEqual(prover, value, seen) then seen else seen + [value];
      DistinctAll(prover, choices[1..], kept);
      assert Represented(prover, value, kept) by {
        if ProvedEqual(prover, value, seen) {
          var i :| 0 <= i < |seen| && prover(value, seen[i]);
          assert seen[i] in kept;
        } else {
          assert value in kept;
        }
      }
      assert forall c :: c in choices ==> c == choices[0] || c in choices[1..];
    }
  }

  ghost predicate Comes(v: Expr, choices: seq<seq<Expr>>, k: nat) {
    k < |choices| && IsConjunction(v, choices[k])
  }

  /** What was added to `seen` are conjunctions of choices, in the order of the choices. */
  ghost predicate InOrder(r: seq<Expr>, seen: seq<Expr>, choices: seq<seq<Expr>>, from: seq<nat>) {
    && |r| == |seen| + |from| && r[..|seen|] == seen
    && (forall i :: 0 <= i < |from| ==> Comes(r[|seen| + i], choices, from[i]))
    && (forall i, j :: 0 <= i < j < |from| ==> from[i] < from[j])
  }

  function Later(from: seq<nat>): (r: seq<nat>)
    ensures |r| == |from| && forall i :: 0 <= i < |from| ==> r[i] == from[i] + 1
  {
    if from == [] then [] else [from[0] + 1] + Later(from[1..])
  }

  lemma OneDropped(r: seq<Expr>, seen: seq<Expr>, choices: seq<seq<Expr>>, from: seq<nat>)
    requires choices != [] && InOrder(r, seen, choices[1..], from)
    ensures InOrder(r, seen, choices, Later(from))
  {
    hide IsConjunction;
    forall i | 0 <= i < |from| ensures Comes(r[|seen| + i], choices, Later(from)[i]) {
      assert Comes(r[|seen| + i], choices[1..], from[i]);
    }
  }

  lemma OneAdded(r: seq<Expr>, seen: seq<Expr>, v: Expr, choices: seq<seq<Expr>>, from: seq<nat>)
    requires choices != [] && IsConjunction(v, choices[0]) && InOrder(r, seen + [v], choices[1..], from)
    ensures InOrder(r, seen, choices, [0] + Later(from))
  {
    hide IsConjunction;
    assert r[..|seen|] == r[..|seen| + 1][..|seen|] && r[|seen|] == r[..|seen| + 1][|seen|];
    forall i | 0 <= i < |from| + 1 ensures Comes(r[|seen| + i], choices, ([0] + Later(from))[i]) {
      assert i > 0 ==> Comes(r[|seen + [v]| + (i - 1)], choices[1..], from[i - 1]);
    }
  }

  /** The alternatives are in the order of the choices. */
  lemma {:induction false} DistinctInOrder(prover: (Expr, Expr) -> bool, choices: seq<seq<Expr>>, seen: seq<Expr>)
    returns (from: seq<nat>)
    requires Distinct(prover, choices, seen).Ok?
    ensures InOrder(Distinct(prover, choices, seen).value, seen, choices, from)
    decreases choices
  {
    if choices == [] {
      from := [];
    } else {
      hide Conjunction, InOrder;
      var value, r := Conjunction(choices[0]).value.e, Distinct(prover, choices, seen).value;
      if ProvedEqual(prover, value, seen) {
        var rest := DistinctInOrder(prover, choices[1..], seen);
        OneDropped(r, seen, choices, rest);
        from := Later(rest);
      } else {
        var rest := DistinctInOrder(prover, choices[1..], seen + [value]);
        OneAdded(r, seen, value, choices, rest);
        from := [0] + Later(rest);
      }
    }
  }

  lemma {:induction false} DistinctFails(prover: (Expr, Expr) -> bool, choices: seq<seq<Expr>>, seen: seq<Expr>)
    requires Distinct(prover, choices, seen).Error?
    ensures exists c :: c in choices && Conjunction(c).Error?
    decreases choices
  {
    hide Conjunction;
    if Conjunction(choices[0]).Ok? {
      var value := Conjunction(choices[0]).value.e;
      DistinctFails(prover, choices[1..], if ProvedEqual(prover, value, seen) then seen else seen + [value]);
      var c :| c in choices[1..] && Conjunction(c).Error?;
      assert c in choices;
    }
  }

  // The alternatives.

  ghost predicate Expands(prover: (Expr, Expr) -> bool, e: Expr) {
    e.Ass? && e.ass.IsAnd() && Expand(prover, e).Ok?
  }

  /** Every alternative of a conjunction is the conjunction of a selection of one member of each disjunction. */
  lemma AlternativeIsSelection(prover: (Expr, Expr) -> bool, e: Expr, v: Expr) returns (picks: seq<nat>)
    requires Expands(prover, e) && v in Expand(prover, e).value
    ensures Picks(e.terms, picks) && IsConjunction(v, Selection(e.terms, picks))
  {
    hide Choices, Distinct, Conjunction;
    DistinctOnly(prover, Choices(e.terms), [], v);
    var c :| c in Choices(e.terms) && IsConjunction(v, c);
    picks := ChoicesAreSelections(e.terms, c);
  }

  /** Every selection is represented: its conjunction is an alternative, or was shown to equal one. */
  lemma SelectionIsRepresented(prover: (Expr, Expr) -> bool, e: Expr, picks: seq<nat>) returns (v: Expr)
    requires Expands(prover, e) && Picks(e.terms, picks)
    ensures IsConjunction(v, Selection(e.terms, picks)) && Represented(prover, v, Expand(prover, e).value)
  {
    hide Choices, Distinct, Conjunction;
    SelectionsAreChoices(e.terms, picks);
    DistinctAll(prover, Choices(e.terms), []);
    v := Conjunction(Selection(e.terms, picks)).value.e;
  }

  ghost predicate FailsFor(terms: seq<Expr>, picks: seq<nat>) {
    Picks(terms, picks) && Conjunction(Selection(terms, picks)).Error?
  }

  /** The expansion of a conjunction fails exactly if the simplification of some selection does. */
  lemma ExpansionFails(prover: (Expr, Expr) -> bool, e: Expr)
    requires e.Ass? && e.ass.IsAnd()
    ensures Expand(prover, e).Error? <==> exists picks :: FailsFor(e.terms, picks)
  {
    hide Choices, Distinct, Conjunction;
    if Expand(prover, e).Error? {
      DistinctFails(prover, Choices(e.terms), []);
      var c :| c in Choices(e.terms) && Conjunction(c).Error?;
      var picks := ChoicesAreSelections(e.terms, c);
      assert FailsFor(e.terms, picks);
    } else {
      forall picks ensures !FailsFor(e.terms, picks) {
        if Picks(e.terms, picks) {
          var v := SelectionIsRepresented(prover, e, picks);
        }
      }
    }
  }

  // What an alternative means.

  ghost predicate PickedHold(terms: seq<Expr>, picks: seq<nat>, env: Setting)
    requires Picks(terms, picks)
  {
    forall i :: 0 <= i < |terms| ==> Holds(PickedTerm(terms, picks, i), env)
  }

  lemma PickedHoldLast(terms: seq<Expr>, picks: seq<nat>, env: Setting)
    requires Picks(terms, picks) && terms != []
    ensures var n := |terms| - 1;
            && Picks(terms[..n], picks[..n])
            && (PickedHold(terms, picks, env) <==>
                PickedHold(terms[..n], picks[..n], env) && Holds(PickedTerm(terms, picks, n), env))
  {
    var n := |terms| - 1;
    assert forall i :: 0 <= i < n ==> PickedTerm(terms, picks, i) == PickedTerm(terms[..n], picks[..n], i);
  }

  lemma {:induction false} PickedSplit(terms: seq<Expr>, picks: seq<nat>, env: Setting)
    requires Picks(terms, picks) && AllTruths(terms, env)
    ensures AllTruths(Picked(terms, picks), env) && AllTruths(Split(terms).atoms, env)
    ensures AllHold(Picked(terms, picks), env) && AllHold(Split(terms).atoms, env) <==> PickedHold(terms, picks, env)
  {
    hide AllTruths, AllHold, IsTruth, Holds, PickedHold;
    var n := |terms| - 1;
    if n < 0 {
      NothingHolds(terms, picks, env);
    } else {
      var last := PickedTerm(terms, picks, n);
      PickedHoldLast(terms, picks, env);
      assert terms == terms[..n] + [terms[n]];
      Last(terms[..n], terms[n], env);
      PickedSplit(terms[..n], picks[..n], env);
      Last(Picked(terms[..n], picks[..n]), last, env);
      Last(Split(terms[..n]).atoms, last, env);
      if IsDisjunction(terms[n]) {
        MemberIsTruth(terms[n], picks[n], env);
      } else {
        assert Picked(terms, picks) == Picked(terms[..n], picks[..n]);
      }
    }
  }

  lemma NothingHolds(terms: seq<Expr>, picks: seq<nat>, env: Setting)
    requires terms == [] && picks == []
    ensures PickedHold(terms, picks, env) && AllHold([], env) && AllTruths([], env)
  {
  }

  lemma MemberIsTruth(e: Expr, k: nat, env: Setting)
    requires IsDisjunction(e) && IsTruth(Eval(e, env)) && k < |e.terms|
    ensures IsTruth(Eval(e.terms[k], env))
  {
    ListTruth(e.ass, e.terms, env);
  }

  lemma SelectionHolds(terms: seq<Expr>, picks: seq<nat>, env: Setting)
    requires Picks(terms, picks) && AllTruths(terms, env)
    ensures AllTruths(Selection(terms, picks), env)
    ensures AllHold(Selection(terms, picks), env) <==> PickedHold(terms, picks, env)
  {
    var atoms := Split(terms).atoms;
    PickedSplit(terms, picks, env);
    ListTruth(And, atoms, env);
    Last(Picked(terms, picks), Ass(And, atoms), env);
  }

  /** Where a selection decides: all terms have a truth value, and the simplification of the conjunction is sound. */
  ghost predicate Decides(terms: seq<Expr>, picks: seq<nat>, env: Setting)
    requires Picks(terms, picks)
  {
    var r := Conjunction(Selection(terms, picks));
    AllTruths(terms, env) && r.Ok? && Sound(r.value.log, env)
  }

  /** Each alternative stands for fixed members of the disjunctions: it holds exactly if all of them hold and all other
      terms do, whatever the values of the variables are. */
  lemma AlternativeMeansItsMembers(prover: (Expr, Expr) -> bool, e: Expr, v: Expr) returns (picks: seq<nat>)
    requires Expands(prover, e) && v in Expand(prover, e).value
    ensures Picks(e.terms, picks)
    ensures forall env :: Decides(e.terms, picks, env) ==> (Holds(v, env) <==> PickedHold(e.terms, picks, env))
  {
    hide Holds, PickedHold, AllTruths, Sound, Conjunction;
    picks := AlternativeIsSelection(prover, e, v);
    forall env | Decides(e.terms, picks, env) ensures Holds(v, env) <==> PickedHold(e.terms, picks, env) {
      SelectionHolds(e.terms, picks, env);
      ConjunctionHolds(Selection(e.terms, picks), env);
    }
  }

  /** Conversely, all members of every selection hold exactly where one fixed alternative holds, if the prover is right
      and the alternative has a value. */
  lemma SelectionHasAlternative(prover: (Expr, Expr) -> bool, e: Expr, picks: seq<nat>) returns (v: Expr)
    requires SoundProver(prover) && Expands(prover, e) && Picks(e.terms, picks)
    ensures v in Expand(prover, e).value
    ensures forall env :: Decides(e.terms, picks, env) && Eval(v, env).Some? ==>
                      (Holds(v, env) <==> PickedHold(e.terms, picks, env))
  {
    hide PickedHold, AllTruths, Sound, Conjunction, Expand;
    var w := SelectionIsRepresented(prover, e, picks);
    v :| v in Expand(prover, e).value && (w == v || prover(w, v));
    forall env | Decides(e.terms, picks, env) && Eval(v, env).Some?
      ensures Holds(v, env) <==> PickedHold(e.terms, picks, env)
    {
      SelectionHolds(e.terms, picks, env);
      ConjunctionHolds(Selection(e.terms, picks), env);
      assert Eval(w, env) == Eval(v, env);
    }
  }
}
