/** The normal form of a tree has the value of the tree. */
module AdaMeaning {
  import opened Results
  import opened Expressions
  import opened AdaSyntax
  import opened AdaRoundTrip
  import Ir

  type Store = map<string, Value>

  /** The value of an operator with lists of terms on two operands.  The operators `and then` and `or else`
      evaluate the second operand only if it is needed, unless the evaluation is strict. */
  function Join(strict: bool, op: ListOp, a: Option<Value>, b: Option<Value>): Option<Value> {
    match op
    case Plus => Ir.ArithValue(Ir.Plus, a, b)
    case Star => Ir.ArithValue(Ir.Times, a, b)
    case Amp => None
    case Conj => Ir.LogicValue(true, a, b)
    case Disj => Ir.LogicValue(false, a, b)
    case ConjThen => if !strict && a == Some(Bool(false)) then a else Ir.LogicValue(true, a, b)
    case DisjElse => if !strict && a == Some(Bool(true)) then a else Ir.LogicValue(false, a, b)
  }

  function PairValue(op: PairOp, a: Option<Value>, b: Option<Value>): Option<Value> {
    match op
    case Minus => Ir.ArithValue(Ir.Minus, a, b)
    case Slash => Ir.ArithValue(Ir.Quotient, a, b)
    case Modulo => Ir.ArithValue(Ir.Modulus, a, b)
    case Remainder => Ir.ArithValue(Ir.Minus, a, Ir.ArithValue(Ir.Times, Ir.ArithValue(Ir.Quotient, a, b), b))
  }

  function ValueOf(strict: bool, e: Tree, env: Store): Option<Value>
    decreases e
  {
    match e
    case Name(id) => if id in env then Some(env[id]) else None
    case Truth(b) => Some(Bool(b))
    case Numeral(n) => Some(Int(n))
    case Inverse(x) => Ir.NotValue(ValueOf(strict, x, env))
    case Raised(l, r) => Ir.ArithValue(Ir.Raise, ValueOf(strict, l, env), ValueOf(strict, r, env))
    case Related(rel, l, r) => Ir.TestValue(rel, ValueOf(strict, l, env), ValueOf(strict, r, env))
    case Pair(op, l, r) => PairValue(op, ValueOf(strict, l, env), ValueOf(strict, r, env))
    case Chain(op, terms) => ListValue(strict, op, terms, env)
    case Cond(c, t, rest) =>
      Ir.ChooseValue(ValueOf(strict, c, env), ValueOf(strict, t, env), RestValue(strict, rest, env))
  }

  function ListValue(strict: bool, op: ListOp, terms: seq<Tree>, env: Store): Option<Value>
    decreases terms
  {
    if terms == [] then Some(Bool(Conj.HasInstance(op)))
    else if |terms| == 1 then ValueOf(strict, terms[0], env)
    else Join(strict, op, ValueOf(strict, terms[0], env), ListValue(strict, op, terms[1..], env))
  }

  function RestValue(strict: bool, rest: Rest, env: Store): Option<Value>
    decreases rest
  {
    match rest
    case NoRest => None
    case ElseRest(e) => ValueOf(strict, e, env)
    case ElsifRest(c, t, r) =>
      Ir.ChooseValue(ValueOf(strict, c, env), ValueOf(strict, t, env), RestValue(strict, r, env))
  }

  lemma ProductAssociative(x: int, y: int, z: int)
    ensures Ir.Product(Ir.Product(x, y), z) == Ir.Product(x, Ir.Product(y, z))
  {
  }

  lemma JoinAssociative(strict: bool, op: ListOp, a: Option<Value>, b: Option<Value>, c: Option<Value>)
    ensures Join(strict, op, Join(strict, op, a, b), c) == Join(strict, op, a, Join(strict, op, b, c))
  {
    match (a, b, c)
    case (Some(Int(x)), Some(Int(y)), Some(Int(z))) => ProductAssociative(x, y, z);
    case _ =>
  }

  lemma {:induction false} ListValueConcat(strict: bool, op: ListOp, a: seq<Tree>, b: seq<Tree>, env: Store)
    requires a != [] && b != []
    ensures ListValue(strict, op, a + b, env) ==
            Join(strict, op, ListValue(strict, op, a, env), ListValue(strict, op, b, env))
  {
    assert (a + b)[1..] == a[1..] + b;
    if |a| == 1 {
      assert a[1..] + b == b;
    } else {
      ListValueConcat(strict, op, a[1..], b, env);
      JoinAssociative(strict, op, ValueOf(strict, a[0], env), ListValue(strict, op, a[1..], env),
                      ListValue(strict, op, b, env));
    }
  }

  /** `n` has no other value than `v`; it may be undefined where `v` is not, but not if evaluation is strict. */
  predicate Refines(strict: bool, v: Option<Value>, n: Option<Value>) {
    (n.Some? || strict) ==> v == n
  }

  lemma JoinRefines(strict: bool, op: ListOp, v: Option<Value>, n: Option<Value>, w: Option<Value>, m: Option<Value>)
    requires Refines(strict, v, n) && Refines(strict, w, m)
    ensures Refines(strict, Join(strict, op, v, w), Join(strict, op, n, m))
  {
  }

  /** The operators that evaluate all operands have no other value than their short-circuit forms. */
  lemma {:induction false} ClassRefines(strict: bool, op: ListOp, other: ListOp, terms: seq<Tree>, env: Store)
    requires op.HasInstance(other)
    ensures Refines(strict, ListValue(strict, other, terms, env), ListValue(strict, op, terms, env))
  {
    if |terms| > 1 {
      ClassRefines(strict, op, other, terms[1..], env);
      var v, w, m := ValueOf(strict, terms[0], env), ListValue(strict, other, terms[1..], env),
                     ListValue(strict, op, terms[1..], env);
      JoinRefines(strict, op, v, v, w, m);
    }
  }

  /** The normal form never has another value, and it has the same value if all operands are evaluated. */
  lemma {:induction false} NormKeepsValue(strict: bool, e: Tree, env: Store)
    requires Headed(e)
    ensures Refines(strict, ValueOf(strict, e, env), ValueOf(strict, Norm(e), env))
    decreases e
  {
    match e
    case Name(_) =>
    case Truth(_) =>
    case Numeral(_) =>
    case Inverse(x) => NormKeepsValue(strict, x, env);
    case Raised(l, r) => NormKeepsValue(strict, l, env); NormKeepsValue(strict, r, env);
    case Related(_, l, r) => NormKeepsValue(strict, l, env); NormKeepsValue(strict, r, env);
    case Pair(_, l, r) => NormKeepsValue(strict, l, env); NormKeepsValue(strict, r, env);
    case Chain(op, terms) =>
      if terms != [] {
        NormKeepsValue(strict, terms[0], env);
        if |terms| > 1 {
          ListKeepsValue(strict, op, terms[1..], env);
          FlattenedKeepsValue(strict, op, Norm(terms[0]), terms, env);
        }
      }
    case Cond(c, t, rest) =>
      NormKeepsValue(strict, c, env);
      NormKeepsValue(strict, t, env);
      RestKeepsValue(strict, rest, env);
  }

  lemma FlattenedKeepsValue(strict: bool, op: ListOp, first: Tree, terms: seq<Tree>, env: Store)
    requires |terms| > 1 && first == Norm(terms[0])
    requires Refines(strict, ValueOf(strict, terms[0], env), ValueOf(strict, first, env))
    requires Refines(strict, ListValue(strict, op, terms[1..], env), ListValue(strict, op, NormAll(terms[1..]), env))
    ensures Refines(strict, ListValue(strict, op, terms, env),
                    ListValue(strict, op, Flattened(op, first) + NormAll(terms[1..]), env))
  {
    var head, tail := Flattened(op, first), NormAll(terms[1..]);
    ListValueConcat(strict, op, head, tail, env);
    if first.Chain? && op.HasInstance(first.op) {
      ClassRefines(strict, op, first.op, first.terms, env);
    }
    JoinRefines(strict, op, ValueOf(strict, terms[0], env), ListValue(strict, op, head, env),
                ListValue(strict, op, terms[1..], env), ListValue(strict, op, tail, env));
  }

  lemma {:induction false} ListKeepsValue(strict: bool, op: ListOp, terms: seq<Tree>, env: Store)
    requires AllHeaded(terms)
    ensures Refines(strict, ListValue(strict, op, terms, env), ListValue(strict, op, NormAll(terms), env))
    decreases terms
  {
    if terms != [] {
      NormKeepsValue(strict, terms[0], env);
      ListKeepsValue(strict, op, terms[1..], env);
      assert NormAll(terms)[1..] == NormAll(terms[1..]);
      JoinRefines(strict, op, ValueOf(strict, terms[0], env), ValueOf(strict, Norm(terms[0]), env),
                  ListValue(strict, op, terms[1..], env), ListValue(strict, op, NormAll(terms[1..]), env));
    }
  }

  lemma {:induction false} RestKeepsValue(strict: bool, rest: Rest, env: Store)
    requires RestHeaded(rest)
    ensures Refines(strict, RestValue(strict, rest, env), RestValue(strict, NormRest(rest), env))
    decreases rest
  {
    match rest
    case NoRest =>
    case ElseRest(e) => NormKeepsValue(strict, e, env);
    case ElsifRest(c, t, r) =>
      NormKeepsValue(strict, c, env);
      NormKeepsValue(strict, t, env);
      RestKeepsValue(strict, r, env);
  }

  /** The text of a tree is parsed to a tree with the same value. */
  lemma ParsedTextHasValue(e: Tree, env: Store)
    requires Headed(e)
    ensures Parse(Print(e)).Ok? && ValueOf(true, Parse(Print(e)).value, env) == ValueOf(true, e, env)
  {
    PrintThenParse(e);
    NormKeepsValue(true, e, env);
  }

  // Short-circuit evaluation.

  /** No list takes over the terms of a first term with the other form of its operator. */
  predicate Unmixed(e: Tree)
    decreases e
  {
    match e
    case Inverse(x) => Unmixed(x)
    case Raised(l, r) => Unmixed(l) && Unmixed(r)
    case Related(_, l, r) => Unmixed(l) && Unmixed(r)
    case Pair(_, l, r) => Unmixed(l) && Unmixed(r)
    case Chain(op, terms) =>
      && AllUnmixed(terms)
      && (|terms| > 1 && Norm(terms[0]).Chain? && op.HasInstance(Norm(terms[0]).op) ==> Norm(terms[0]).op == op)
    case Cond(c, t, rest) => Unmixed(c) && Unmixed(t) && RestUnmixed(rest)
    case _ => true
  }

  predicate AllUnmixed(terms: seq<Tree>)
    decreases terms
  {
    terms == [] || (Unmixed(terms[0]) && AllUnmixed(terms[1..]))
  }

  predicate RestUnmixed(rest: Rest)
    decreases rest
  {
    match rest
    case NoRest => true
    case ElseRest(e) => Unmixed(e)
    case ElsifRest(c, t, r) => Unmixed(c) && Unmixed(t) && RestUnmixed(r)
  }

  /** Where no forms are mixed, the normal form has the same value under short-circuit evaluation too. */
  lemma {:induction false} UnmixedKeepsValue(strict: bool, e: Tree, env: Store)
    requires Headed(e) && Unmixed(e)
    ensures ValueOf(strict, Norm(e), env) == ValueOf(strict, e, env)
    decreases e
  {
    match e
    case Name(_) =>
    case Truth(_) =>
    case Numeral(_) =>
    case Inverse(x) => UnmixedKeepsValue(strict, x, env);
    case Raised(l, r) => UnmixedKeepsValue(strict, l, env); UnmixedKeepsValue(strict, r, env);
    case Related(_, l, r) => UnmixedKeepsValue(strict, l, env); UnmixedKeepsValue(strict, r, env);
    case Pair(_, l, r) => UnmixedKeepsValue(strict, l, env); UnmixedKeepsValue(strict, r, env);
    case Chain(op, terms) =>
      if terms != [] {
        UnmixedKeepsValue(strict, terms[0], env);
        if |terms| > 1 {
          ListUnmixedKeepsValue(strict, op, terms[1..], env);
          var head, tail := Flattened(op, Norm(terms[0])), NormAll(terms[1..]);
          ListValueConcat(strict, op, head, tail, env);
        }
      }
    case Cond(c, t, rest) =>
      UnmixedKeepsValue(strict, c, env);
      UnmixedKeepsValue(strict, t, env);
      RestUnmixedKeepsValue(strict, rest, env);
  }

  lemma {:induction false} ListUnmixedKeepsValue(strict: bool, op: ListOp, terms: seq<Tree>, env: Store)
    requires AllHeaded(terms) && AllUnmixed(terms)
    ensures ListValue(strict, op, NormAll(terms), env) == ListValue(strict, op, terms, env)
    decreases terms
  {
    if terms != [] {
      UnmixedKeepsValue(strict, terms[0], env);
      ListUnmixedKeepsValue(strict, op, terms[1..], env);
      assert NormAll(terms)[1..] == NormAll(terms[1..]);
    }
  }

  lemma {:induction false} RestUnmixedKeepsValue(strict: bool, rest: Rest, env: Store)
    requires RestHeaded(rest) && RestUnmixed(rest)
    ensures RestValue(strict, NormRest(rest), env) == RestValue(strict, rest, env)
    decreases rest
  {
    match rest
    case NoRest =>
    case ElseRest(e) => UnmixedKeepsValue(strict, e, env);
    case ElsifRest(c, t, r) =>
      UnmixedKeepsValue(strict, c, env);
      UnmixedKeepsValue(strict, t, env);
      RestUnmixedKeepsValue(strict, r, env);
  }

  predicate HasTruth(v: Option<Value>) {
    v.Some? && v.value.Bool?
  }

  lemma PairValues(op: ListOp, x: Tree, y: Tree, env: Store)
    ensures ListValue(false, op, [x, y], env) == Join(false, op, ValueOf(false, x, env), ValueOf(false, y, env))
  {
    assert [x, y][1..] == [y];
    assert ListValue(false, op, [y], env) == ValueOf(false, y, env);
  }

  /** The failing step: the terms of a short-circuit list are taken over into a list of the other form.  The value
      changes exactly if the short-circuit list decides early, with an operand that is not a truth value behind
      the deciding one, and everything behind it is a truth value. */
  lemma TakingOverLosesValue(op: ListOp, other: ListOp, first: seq<Tree>, more: seq<Tree>, env: Store)
    requires op.HasInstance(other) && op != other && |first| > 1 && more != []
    ensures ListValue(false, op, first + more, env) != ListValue(false, op, [Chain(other, first)] + more, env) <==>
            && HasTruth(ListValue(false, other, first, env))
            && !HasTruth(ListValue(false, op, first, env))
            && HasTruth(ListValue(false, op, more, env))
  {
    ListValueConcat(false, op, first, more, env);
    var nested := [Chain(other, first)] + more;
    assert nested[1..] == more;
    ClassRefines(false, op, other, first, env);
  }

  /** For three operands: the first one decides, the second one is not a truth value, and the third one is. */
  lemma TakingOverPairLosesValue(op: ListOp, other: ListOp, a: Tree, b: Tree, c: Tree, env: Store)
    requires op.HasInstance(other) && op != other
    ensures ListValue(false, op, [a, b, c], env) != ListValue(false, op, [Chain(other, [a, b]), c], env) <==>
            && ValueOf(false, a, env) == Some(Bool(op == Disj))
            && !HasTruth(ValueOf(false, b, env))
            && HasTruth(ValueOf(false, c, env))
  {
    TakingOverLosesValue(op, other, [a, b], [c], env);
    PairValues(op, a, b, env);
    PairValues(other, a, b, env);
    assert [a, b] + [c] == [a, b, c] && [Chain(other, [a, b])] + [c] == [Chain(other, [a, b]), c];
    assert ListValue(false, op, [c], env) == ValueOf(false, c, env);
  }

  /** `(A and then B) and C` is parsed to `A and B and C`, which is undefined if B is, even where A is False. */
  lemma FlatteningLosesShortCircuit()
    ensures var a, b, c := Name("A"), Name("B"), Name("C");
            var e := Chain(Conj, [Chain(ConjThen, [a, b]), c]);
            var env: Store := map["A" := Bool(false), "C" := Bool(true)];
            && Parse(Print(e)) == Ok(Chain(Conj, [a, b, c]))
            && ValueOf(false, e, env) == Some(Bool(false))
            && ValueOf(false, Chain(Conj, [a, b, c]), env) == None
  {
    var a, b, c := Name("A"), Name("B"), Name("C");
    var inner := Chain(ConjThen, [a, b]);
    var e := Chain(Conj, [inner, c]);
    PairHeaded(a, b);
    PairHeaded(inner, c);
    PairNorm(ConjThen, a, b);
    PairNorm(Conj, inner, c);
    assert [a] + [b] == [a, b] && [a, b] + [c] == [a, b, c];
    PrintThenParse(e);
    var env: Store := map["A" := Bool(false), "C" := Bool(true)];
    PairValues(ConjThen, a, b, env);
    PairValues(Conj, inner, c, env);
    PairValues(Conj, b, c, env);
    assert [a, b, c][1..] == [b, c];
  }

  /** A disjunction without terms is printed as True. */
  lemma EmptyDisjunctionPrintsTrue(env: Store)
    ensures Print(Chain(Disj, [])) == Print(Truth(true))
    ensures ValueOf(true, Chain(Disj, []), env) == Some(Bool(false))
  {
  }

  /** The text of a boolean operation without terms has its value exactly if it is a conjunction. */
  lemma EmptyListKeepsValue(strict: bool, op: ListOp, env: Store)
    requires op.IsBool()
    ensures Parse(Print(Chain(op, []))) == Ok(Truth(true))
    ensures ValueOf(strict, Truth(true), env) == ValueOf(strict, Chain(op, []), env) <==> Conj.HasInstance(op)
  {
    PrintThenParse(Truth(true));
  }
}
