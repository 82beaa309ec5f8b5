/** Which trees the parser builds, which of them are their own normal form, and which sums cannot be read back. */
module AdaImage {
  import opened Results
  import opened Expressions
  import opened AdaSyntax
  import opened AdaRoundTrip

  /** Every list of terms has at least two. */
  predicate Built(e: Tree)
    decreases e
  {
    match e
    case Inverse(x) => Built(x)
    case Raised(l, r) => Built(l) && Built(r)
    case Related(_, l, r) => Built(l) && Built(r)
    case Pair(_, l, r) => Built(l) && Built(r)
    case Chain(_, terms) => |terms| >= 2 && AllBuilt(terms)
    case Cond(c, t, rest) => Built(c) && Built(t) && RestBuilt(rest)
    case _ => true
  }

  predicate AllBuilt(terms: seq<Tree>)
    decreases terms
  {
    terms == [] || (Built(terms[0]) && AllBuilt(terms[1..]))
  }

  predicate RestBuilt(rest: Rest)
    decreases rest
  {
    match rest
    case NoRest => true
    case ElseRest(e) => Built(e)
    case ElsifRest(c, t, r) => Built(c) && Built(t) && RestBuilt(r)
  }

  lemma {:induction false} AllBuiltSnoc(terms: seq<Tree>, t: Tree)
    requires AllBuilt(terms) && Built(t)
    ensures AllBuilt(terms + [t])
  {
    if terms == [] {
      assert [t][1..] == [];
    } else {
      assert (terms + [t])[1..] == terms[1..] + [t];
      AllBuiltSnoc(terms[1..], t);
    }
  }

  lemma AppendBuilt(op: ListOp, left: Tree, right: Tree)
    requires Built(left) && Built(right)
    ensures Built(Append(op, left, right))
  {
    if left.Chain? {
      AllBuiltSnoc(left.terms, right);
    }
    assert [left, right][1..] == [right] && [right][1..] == [];
    assert AllBuilt([right]);
  }

  lemma {:induction false} ParsedIsBuilt(level: nat, ts: seq<Token>)
    requires IsLevel(level) && ParseAt(level, ts).Ok?
    ensures Built(ParseAt(level, ts).value.tree)
    decreases |ts|, 7 - level, 1
  {
    if IsListLevel(level) {
      var p := ParseAt(Up(level), ts).value;
      ParsedIsBuilt(Up(level), ts);
      MoreIsBuilt(level, p.tree, p.rest);
    } else if level == RELATION_LEVEL {
      var l := ParseAt(SIMPLE_LEVEL, ts).value;
      ParsedIsBuilt(SIMPLE_LEVEL, ts);
      if l.rest != [] && l.rest[0].TRel? {
        ParsedIsBuilt(SIMPLE_LEVEL, l.rest[1..]);
      }
    } else if level == FACTOR_LEVEL {
      if Starts(ts, TNot) {
        ParsedIsBuilt(PRIMARY_LEVEL, ts[1..]);
      } else {
        var l := ParseAt(PRIMARY_LEVEL, ts).value;
        ParsedIsBuilt(PRIMARY_LEVEL, ts);
        if Starts(l.rest, TRaise) {
          ParsedIsBuilt(PRIMARY_LEVEL, l.rest[1..]);
        }
      }
    } else if ts[0] == LPar {
      ParsedIsBuilt(BOOLEAN_LEVEL, ts[1..]);
    } else if ts[0] == TIf {
      var c := ParseAt(BOOLEAN_LEVEL, ts[1..]).value;
      var t := ParseAt(BOOLEAN_LEVEL, c.rest[1..]).value;
      ParsedIsBuilt(BOOLEAN_LEVEL, ts[1..]);
      ParsedIsBuilt(BOOLEAN_LEVEL, c.rest[1..]);
      RestIsBuilt(t.rest);
    }
  }

  lemma {:induction false} MoreIsBuilt(level: nat, left: Tree, ts: seq<Token>)
    requires IsListLevel(level) && Built(left) && ParseMore(level, left, ts).Ok?
    ensures Built(ParseMore(level, left, ts).value.tree)
    decreases |ts|, 0, 0
  {
    if ts != [] && ts[0].TList? && ts[0].op.Level() == level {
      var x := ParseAt(Up(level), ts[1..]).value;
      ParsedIsBuilt(Up(level), ts[1..]);
      AppendBuilt(ts[0].op, left, x.tree);
      MoreIsBuilt(level, Append(ts[0].op, left, x.tree), x.rest);
    } else if ts != [] && ts[0].TPair? && ts[0].pair.Level() == level {
      var x := ParseAt(Up(level), ts[1..]).value;
      ParsedIsBuilt(Up(level), ts[1..]);
      MoreIsBuilt(level, Pair(ts[0].pair, left, x.tree), x.rest);
    }
  }

  lemma {:induction false} RestIsBuilt(ts: seq<Token>)
    requires ParseRest(ts).Ok?
    ensures RestBuilt(ParseRest(ts).value.part)
    decreases |ts|, 0, 0
  {
    if Starts(ts, TElsif) {
      var c := ParseAt(BOOLEAN_LEVEL, ts[1..]).value;
      var t := ParseAt(BOOLEAN_LEVEL, c.rest[1..]).value;
      ParsedIsBuilt(BOOLEAN_LEVEL, ts[1..]);
      ParsedIsBuilt(BOOLEAN_LEVEL, c.rest[1..]);
      RestIsBuilt(t.rest);
    } else if Starts(ts, TElse) {
      ParsedIsBuilt(BOOLEAN_LEVEL, ts[1..]);
    }
  }

  // Fixed points.

  /** No list starts with an operation of its own class. */
  predicate Settled(e: Tree)
    decreases e
  {
    match e
    case Inverse(x) => Settled(x)
    case Raised(l, r) => Settled(l) && Settled(r)
    case Related(_, l, r) => Settled(l) && Settled(r)
    case Pair(_, l, r) => Settled(l) && Settled(r)
    case Chain(op, terms) =>
      AllSettled(terms) && (terms != [] && terms[0].Chain? ==> !op.HasInstance(terms[0].op))
    case Cond(c, t, rest) => Settled(c) && Settled(t) && RestSettled(rest)
    case _ => true
  }

  predicate AllSettled(terms: seq<Tree>)
    decreases terms
  {
    terms == [] || (Settled(terms[0]) && AllSettled(terms[1..]))
  }

  predicate RestSettled(rest: Rest)
    decreases rest
  {
    match rest
    case NoRest => true
    case ElseRest(e) => Settled(e)
    case ElsifRest(c, t, r) => Settled(c) && Settled(t) && RestSettled(r)
  }

  function Nodes(e: Tree): nat
    decreases e
  {
    match e
    case Inverse(x) => 1 + Nodes(x)
    case Raised(l, r) => 1 + Nodes(l) + Nodes(r)
    case Related(_, l, r) => 1 + Nodes(l) + Nodes(r)
    case Pair(_, l, r) => 1 + Nodes(l) + Nodes(r)
    case Chain(_, terms) => 1 + AllNodes(terms)
    case Cond(c, t, rest) => 1 + Nodes(c) + Nodes(t) + RestNodes(rest)
    case _ => 1
  }

  function AllNodes(terms: seq<Tree>): nat
    decreases terms
  {
    if terms == [] then 0 else Nodes(terms[0]) + AllNodes(terms[1..])
  }

  function RestNodes(rest: Rest): nat
    decreases rest
  {
    match rest
    case NoRest => 0
    case ElseRest(e) => Nodes(e)
    case ElsifRest(c, t, r) => Nodes(c) + Nodes(t) + RestNodes(r)
  }

  lemma {:induction false} AllNodesConcat(a: seq<Tree>, b: seq<Tree>)
    ensures AllNodes(a + b) == AllNodes(a) + AllNodes(b)
  {
    if a == [] {
      assert a + b == b;
    } else {
      assert (a + b)[1..] == a[1..] + b;
      AllNodesConcat(a[1..], b);
    }
  }

  /** The normal form of a settled tree is the tree itself; any other one loses nodes. */
  lemma {:induction false} NormLosesNodes(e: Tree)
    requires Built(e)
    ensures if Settled(e) then Norm(e) == e else Nodes(Norm(e)) < Nodes(e)
    decreases e
  {
    match e
    case Name(_) =>
    case Truth(_) =>
    case Numeral(_) =>
    case Inverse(x) => NormLosesNodes(x);
    case Raised(l, r) => NormLosesNodes(l); NormLosesNodes(r);
    case Related(_, l, r) => NormLosesNodes(l); NormLosesNodes(r);
    case Pair(_, l, r) => NormLosesNodes(l); NormLosesNodes(r);
    case Chain(op, terms) =>
      NormLosesNodes(terms[0]);
      AllLoseNodes(terms[1..]);
      ChainLosesNodes(op, terms);
    case Cond(c, t, rest) => NormLosesNodes(c); NormLosesNodes(t); RestLosesNodes(rest);
  }

  lemma ChainLosesNodes(op: ListOp, terms: seq<Tree>)
    requires |terms| >= 2
    requires if Settled(terms[0]) then Norm(terms[0]) == terms[0] else Nodes(Norm(terms[0])) < Nodes(terms[0])
    requires if AllSettled(terms[1..]) then NormAll(terms[1..]) == terms[1..]
             else AllNodes(NormAll(terms[1..])) < AllNodes(terms[1..])
    ensures var e := Chain(op, terms); if Settled(e) then Norm(e) == e else Nodes(Norm(e)) < Nodes(e)
  {
    var first, rest := Norm(terms[0]), NormAll(terms[1..]);
    AllNodesConcat(Flattened(op, first), rest);
    HeadNodes(op, first);
    assert [terms[0]] + terms[1..] == terms;
    assert AllNodes(terms) == Nodes(terms[0]) + AllNodes(terms[1..]);
    assert Settled(Chain(op, terms)) <==>
           Settled(terms[0]) && AllSettled(terms[1..]) && !(terms[0].Chain? && op.HasInstance(terms[0].op));
    assert Nodes(Chain(op, Flattened(op, first) + rest)) == 1 + AllNodes(Flattened(op, first)) + AllNodes(rest);
  }

  lemma HeadNodes(op: ListOp, first: Tree)
    ensures AllNodes(Flattened(op, first)) == Nodes(first) - if first.Chain? && op.HasInstance(first.op) then 1 else 0
  {
    assert [first][1..] == [];
    assert AllNodes([first]) == Nodes(first);
  }

  lemma {:induction false} AllLoseNodes(terms: seq<Tree>)
    requires AllBuilt(terms)
    ensures if AllSettled(terms) then NormAll(terms) == terms else AllNodes(NormAll(terms)) < AllNodes(terms)
    decreases terms
  {
    if terms != [] {
      NormLosesNodes(terms[0]);
      AllLoseNodes(terms[1..]);
      assert [terms[0]] + terms[1..] == terms;
      assert NormAll(terms)[1..] == NormAll(terms[1..]);
    }
  }

  lemma {:induction false} RestLosesNodes(rest: Rest)
    requires RestBuilt(rest)
    ensures if RestSettled(rest) then NormRest(rest) == rest else RestNodes(NormRest(rest)) < RestNodes(rest)
    decreases rest
  {
    match rest
    case NoRest =>
    case ElseRest(e) => NormLosesNodes(e);
    case ElsifRest(c, t, r) => NormLosesNodes(c); NormLosesNodes(t); RestLosesNodes(r);
  }

  /** The parser does build others: the text of `((A and B) and then C) and D` is read as
      `(A and B) and C and D`, whose text is read as `A and B and C and D`. */
  lemma MixedConjunctionIsNotSettled()
    ensures var a, b, c, d := Name("A"), Name("B"), Name("C"), Name("D");
            var e := Chain(Conj, [Chain(ConjThen, [Chain(Conj, [a, b]), c]), d]);
            var t := Chain(Conj, [Chain(Conj, [a, b]), c, d]);
            && Parse(Print(e)) == Ok(t)
            && Parse(Print(t)) == Ok(Chain(Conj, [a, b, c, d]))
  {
    var a, b, c, d := Name("A"), Name("B"), Name("C"), Name("D");
    var ab := Chain(Conj, [a, b]);
    var abc := Chain(ConjThen, [ab, c]);
    var e, t := Chain(Conj, [abc, d]), Chain(Conj, [ab, c, d]);
    PairHeaded(a, b);
    PairHeaded(ab, c);
    PairHeaded(abc, d);
    PairNorm(Conj, a, b);
    PairNorm(ConjThen, ab, c);
    PairNorm(Conj, abc, d);
    assert [a] + [b] == [a, b] && [ab] + [c] == [ab, c] && [ab, c] + [d] == [ab, c, d];
    PrintThenParse(e);
    TripleNorm(ab, c, d);
    assert [a, b] + [c, d] == [a, b, c, d];
    PrintThenParse(t);
  }

  lemma TripleNorm(x: Tree, c: Tree, d: Tree)
    requires Headed(x) && c.Name? && d.Name?
    ensures Headed(Chain(Conj, [x, c, d]))
    ensures Norm(Chain(Conj, [x, c, d])) == Chain(Conj, Flattened(Conj, Norm(x)) + [c, d])
  {
    assert [x, c, d][1..] == [c, d] && [c, d][1..] == [d] && [d][1..] == [];
    PairHeaded(c, d);
    assert NormAll([d]) == [d] + NormAll([]);
    assert NormAll([c, d]) == [c] + [d];
  }

  // Sums that start with a relation or a boolean operation.

  /** `(A < B) + C` is printed without parentheses and read as `A < B + C`. */
  lemma RelationInSumIsMisread()
    ensures var a, b, c := Name("A"), Name("B"), Name("C");
            Parse(Print(Chain(Plus, [Related(Less, a, b), c]))) == Ok(Related(Less, a, Chain(Plus, [b, c])))
  {
    var a, b, c := Name("A"), Name("B"), Name("C");
    var sum := Chain(Plus, [b, c]);
    var e, f := Chain(Plus, [Related(Less, a, b), c]), Related(Less, a, sum);
    PairHeaded(b, c);
    PairNorm(Plus, b, c);
    assert [b] + [c] == [b, c] && [b, c][1..] == [c] && e.terms[1..] == [c];
    var more := PrintMore(Plus, [c]);
    assert Print(e) == ([TName("A")] + [TRel(Less)] + [TName("B")]) + more;
    assert Print(sum) == [TName("B")] + more;
    assert Print(f) == [TName("A")] + [TRel(Less)] + ([TName("B")] + more) == Print(e);
    PrintThenParse(f);
  }
}
