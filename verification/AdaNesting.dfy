/** How deep the tokens of a text are nested in parentheses, and what that says about the tree it is parsed to.  A
    sum whose first term needs parentheses can only be parsed from a text that has them; the printer leaves them
    out, so the text of such a sum is parsed to something else. */
module AdaNesting {
  import opened Results
  import opened Expressions
  import opened AdaSyntax
  import opened AdaRoundTrip
  import opened AdaImage

  /** The depth of each token that is not a parenthesis. */
  function Depths(ts: seq<Token>, d: int): seq<int> {
    if ts == [] then []
    else if ts[0] == LPar then Depths(ts[1..], d + 1)
    else if ts[0] == RPar then Depths(ts[1..], d - 1)
    else [d] + Depths(ts[1..], d)
  }

  /** The number of tokens of a tree without parentheses. */
  function Tokens(e: Tree): (n: nat)
    ensures n > 0
    decreases e
  {
    match e
    case Inverse(x) => 1 + Tokens(x)
    case Raised(l, r) => Tokens(l) + 1 + Tokens(r)
    case Related(_, l, r) => Tokens(l) + 1 + Tokens(r)
    case Pair(_, l, r) => Tokens(l) + 1 + Tokens(r)
    case Chain(_, terms) => if terms == [] then 1 else ListTokens(terms)
    case Cond(c, t, rest) => 1 + Tokens(c) + 1 + Tokens(t) + RestTokens(rest)
    case _ => 1
  }

  /** The terms with an operator between each two. */
  function ListTokens(terms: seq<Tree>): (n: nat)
    ensures terms != [] ==> n >= Tokens(terms[0])
    decreases terms
  {
    if terms == [] then 0
    else if |terms| == 1 then Tokens(terms[0])
    else Tokens(terms[0]) + 1 + ListTokens(terms[1..])
  }

  function RestTokens(rest: Rest): nat
    decreases rest
  {
    match rest
    case NoRest => 0
    case ElseRest(e) => 1 + Tokens(e)
    case ElsifRest(c, t, r) => 1 + Tokens(c) + 1 + Tokens(t) + RestTokens(r)
  }

  lemma {:induction false} ListTokensConcat(a: seq<Tree>, b: seq<Tree>)
    requires a != [] && b != []
    ensures ListTokens(a + b) == ListTokens(a) + 1 + ListTokens(b)
  {
    assert (a + b)[1..] == a[1..] + b;
    if |a| > 1 {
      ListTokensConcat(a[1..], b);
    } else {
      assert a[1..] + b == b;
    }
  }

  /** The place of the operator that is applied last, among the tokens of a tree. */
  function RootIndex(e: Tree): (i: nat)
    ensures i < Tokens(e)
  {
    match e
    case Raised(l, _) => Tokens(l)
    case Related(_, l, _) => Tokens(l)
    case Pair(_, l, _) => Tokens(l)
    case Chain(_, terms) =>
      if |terms| < 2 then 0
      else
        var front, last := terms[..|terms| - 1], terms[|terms| - 1];
        assert terms == front + [last];
        ListTokensConcat(front, [last]);
        ListTokens(front)
    case _ => 0
  }

  /** The depths can be those of a text from which the tree is parsed: a first term of a sum or a side of a relation
      that is of a weaker level than sums, and a further term of a boolean list that is a boolean operation itself,
      are nested deeper than the operator next to them. */
  predicate Nests(e: Tree, m: seq<int>)
    decreases e
  {
    |m| == Tokens(e) &&
    match e
    case Inverse(x) => Nests(x, m[1..])
    case Raised(l, r) => Nests(l, m[..Tokens(l)]) && Nests(r, m[Tokens(l) + 1..])
    case Related(_, l, r) =>
      var n := Tokens(l);
      && Nests(l, m[..n]) && Nests(r, m[n + 1..])
      && Deeper(SIMPLE_LEVEL, l, m[..n], m[n]) && Deeper(SIMPLE_LEVEL, r, m[n + 1..], m[n])
    case Pair(_, l, r) => Nests(l, m[..Tokens(l)]) && Nests(r, m[Tokens(l) + 1..])
    case Chain(op, terms) => |terms| > 1 && NestsList(op, terms, m) && NestsHead(op, terms, m)
    case Cond(c, t, rest) =>
      && Nests(c, m[1..][..Tokens(c)]) && Nests(t, m[1..][Tokens(c) + 1..][..Tokens(t)])
      && NestsRest(rest, m[1..][Tokens(c) + 1..][Tokens(t)..])
    case _ => true
  }

  /** A tree of a weaker level has its root below the given depth. */
  predicate Deeper(level: nat, e: Tree, m: seq<int>, o: int)
    requires |m| >= Tokens(e)
  {
    Precedence(e) < level ==> m[RootIndex(e)] > o
  }

  predicate NestsHead(op: ListOp, terms: seq<Tree>, m: seq<int>)
    requires |terms| > 1 && |m| == ListTokens(terms)
  {
    op == Plus ==> Deeper(SIMPLE_LEVEL, terms[0], m, m[Tokens(terms[0])])
  }

  /** A further term of a list, with the depth of the operator before it. */
  predicate NestsTerm(op: ListOp, t: Tree, m: seq<int>, o: int)
    requires |m| >= Tokens(t)
  {
    op.IsBool() ==> Deeper(RELATION_LEVEL, t, m, o)
  }

  predicate NestsList(op: ListOp, terms: seq<Tree>, m: seq<int>)
    decreases terms
  {
    && |m| == ListTokens(terms)
    && (terms == [] ||
        if |terms| == 1 then Nests(terms[0], m)
        else
          var n := Tokens(terms[0]);
          Nests(terms[0], m[..n]) && NestsList(op, terms[1..], m[n + 1..]) && NestsTerm(op, terms[1], m[n + 1..], m[n]))
  }

  predicate NestsRest(rest: Rest, m: seq<int>)
    decreases rest
  {
    |m| == RestTokens(rest) &&
    match rest
    case NoRest => true
    case ElseRest(e) => Nests(e, m[1..])
    case ElsifRest(c, t, r) =>
      && Nests(c, m[1..][..Tokens(c)]) && Nests(t, m[1..][Tokens(c) + 1..][..Tokens(t)])
      && NestsRest(r, m[1..][Tokens(c) + 1..][Tokens(t)..])
  }

  lemma TermPrefix(op: ListOp, t: Tree, x: seq<int>, y: seq<int>, o: int)
    requires Tokens(t) <= |x| && x <= y
    ensures NestsTerm(op, t, x, o) == NestsTerm(op, t, y, o)
  {
    assert y[RootIndex(t)] == x[RootIndex(t)];
  }

  /** The depths of two lists of terms with an operator between them. */
  lemma {:induction false} NestsConcat(op: ListOp, a: seq<Tree>, b: seq<Tree>, p: seq<int>, o: int, q: seq<int>)
    requires a != [] && b != [] && |p| == ListTokens(a) && |q| == ListTokens(b)
    ensures NestsList(op, a + b, p + [o] + q) <==>
            NestsList(op, a, p) && NestsList(op, b, q) && NestsTerm(op, b[0], q, o)
  {
    hide Nests, NestsTerm;
    ListTokensConcat(a, b);
    var m := p + [o] + q;
    assert (a + b)[1..] == a[1..] + b;
    var n := Tokens(a[0]);
    if |a| == 1 {
      assert a[1..] + b == b;
      SplitPair(p, o, q);
    } else {
      assert m[..n] == p[..n] && m[n + 1..] == p[n + 1..] + [o] + q && m[n] == p[n];
      TermPrefix(op, a[1], p[n + 1..], m[n + 1..], p[n]);
      NestsConcat(op, a[1..], b, p[n + 1..], o, q);
    }
  }

  lemma {:induction false} SameClassNests(op: ListOp, other: ListOp, terms: seq<Tree>, m: seq<int>)
    requires op.IsBool() == other.IsBool()
    ensures NestsList(op, terms, m) == NestsList(other, terms, m)
    decreases terms
  {
    if |terms| > 1 && |m| == ListTokens(terms) {
      SameClassNests(op, other, terms[1..], m[Tokens(terms[0]) + 1..]);
    }
  }

  // What the parser reads.

  /** The depths of the tokens of a tree that is recognised on a level, from a place at depth `d`: no token is above
      that depth, and the root of a tree of a weaker level is below it. */
  predicate Recognised(level: nat, e: Tree, m: seq<int>, d: int) {
    && Nests(e, m)
    && (forall i :: 0 <= i < |m| ==> m[i] >= d)
    && (Precedence(e) < level ==> m[RootIndex(e)] > d)
  }

  lemma JoinDepths(p: seq<int>, o: int, q: seq<int>, rest: seq<int>, all: seq<int>, tail: seq<int>)
    requires all == p + tail && tail == [o] + (q + rest)
    ensures all == (p + [o] + q) + rest
  {
  }

  lemma SplitPair(p: seq<int>, o: int, q: seq<int>)
    ensures (p + [o] + q)[..|p|] == p && (p + [o] + q)[|p| + 1..] == q && (p + [o] + q)[|p|] == o
  {
  }

  /** One more operand of a list level: it joins the list to its left. */
  lemma JoinRecognised(op: ListOp, left: Tree, right: Tree, p: seq<int>, q: seq<int>, d: int)
    requires Recognised(op.Level(), left, p, d) && Nests(right, q) && forall i :: 0 <= i < |q| ==> q[i] >= d
    requires left.Chain? && op.HasInstance(left.op) && NestsTerm(op, right, q, d)
    ensures Recognised(op.Level(), Chain(op, left.terms + [right]), p + [d] + q, d)
  {
    assert NestsList(op, [right], q);
    SameClassNests(op, left.op, left.terms, p);
    NestsConcat(op, left.terms, [right], p, d, q);
    ListTokensConcat(left.terms, [right]);
    NestsHeadLonger(op, left, left.terms + [right], p, p + [d] + q);
  }

  /** Or it makes a new list with the operand to its left. */
  lemma NewRecognised(op: ListOp, left: Tree, right: Tree, p: seq<int>, q: seq<int>, d: int)
    requires Recognised(op.Level(), left, p, d) && Nests(right, q) && forall i :: 0 <= i < |q| ==> q[i] >= d
    requires NestsTerm(op, right, q, d)
    ensures Recognised(op.Level(), Chain(op, [left, right]), p + [d] + q, d)
  {
    NewNests(op, left, right, p, q, d);
    hide Nests;
  }

  lemma NewNests(op: ListOp, left: Tree, right: Tree, p: seq<int>, q: seq<int>, d: int)
    requires Nests(left, p) && Nests(right, q) && NestsTerm(op, right, q, d)
    requires Precedence(left) < op.Level() ==> p[RootIndex(left)] > d
    ensures Nests(Chain(op, [left, right]), p + [d] + q)
  {
    assert NestsList(op, [right], q) && NestsList(op, [left], p);
    NestsConcat(op, [left], [right], p, d, q);
    ListTokensConcat([left], [right]);
    assert [left] + [right] == [left, right];
    hide NestsList;
    NewHeadNests(op, left, right, p, q, d);
  }

  lemma NewHeadNests(op: ListOp, left: Tree, right: Tree, p: seq<int>, q: seq<int>, d: int)
    requires |p| == Tokens(left) && |q| == Tokens(right) && ListTokens([left, right]) == |p| + 1 + |q|
    requires Precedence(left) < op.Level() ==> p[RootIndex(left)] > d
    ensures NestsHead(op, [left, right], p + [d] + q)
  {
    SplitPair(p, d, q);
    assert (p + [d] + q)[RootIndex(left)] == p[RootIndex(left)];
  }

  lemma AppendRecognised(op: ListOp, left: Tree, right: Tree, p: seq<int>, q: seq<int>, d: int)
    requires Recognised(op.Level(), left, p, d) && Recognised(Up(op.Level()), right, q, d)
    ensures Recognised(op.Level(), Append(op, left, right), p + [d] + q, d)
  {
    hide Nests;
    if left.Chain? && op.HasInstance(left.op) {
      JoinRecognised(op, left, right, p, q, d);
    } else {
      NewRecognised(op, left, right, p, q, d);
    }
  }

  lemma NestsHeadLonger(op: ListOp, left: Tree, terms: seq<Tree>, p: seq<int>, m: seq<int>)
    requires left.Chain? && op.HasInstance(left.op) && Nests(left, p) && |terms| > 1 && terms[0] == left.terms[0]
    requires |m| == ListTokens(terms) && |p| <= |m| && m[..|p|] == p
    ensures NestsHead(op, terms, m)
  {
    var first := left.terms[0];
    ListTokensConcat([first], left.terms[1..]);
    assert [first] + left.terms[1..] == left.terms;
    assert m[..|p|][RootIndex(first)] == p[RootIndex(first)] && m[..|p|][Tokens(first)] == p[Tokens(first)];
  }

  lemma PairRecognised(op: PairOp, left: Tree, right: Tree, p: seq<int>, q: seq<int>, d: int)
    requires Recognised(op.Level(), left, p, d) && Recognised(Up(op.Level()), right, q, d)
    ensures Recognised(op.Level(), Pair(op, left, right), p + [d] + q, d)
  {
    SplitPair(p, d, q);
  }

  lemma {:induction false} ParsedDepths(level: nat, ts: seq<Token>, d: int) returns (m: seq<int>)
    requires IsLevel(level) && ParseAt(level, ts).Ok?
    ensures Depths(ts, d) == m + Depths(ParseAt(level, ts).value.rest, d)
    ensures Recognised(level, ParseAt(level, ts).value.tree, m, d)
    decreases |ts|, 7 - level, 1
  {
    if IsListLevel(level) {
      var p := ParseAt(Up(level), ts).value;
      var ml := ParsedDepths(Up(level), ts, d);
      m := MoreDepths(level, p.tree, p.rest, ml, d);
    } else if level == RELATION_LEVEL {
      m := RelationDepths(ts, d);
    } else if level == FACTOR_LEVEL {
      m := FactorDepths(ts, d);
    } else {
      m := PrimaryDepths(ts, d);
    }
  }

  lemma {:induction false} RelationDepths(ts: seq<Token>, d: int) returns (m: seq<int>)
    requires ParseAt(RELATION_LEVEL, ts).Ok?
    ensures Depths(ts, d) == m + Depths(ParseAt(RELATION_LEVEL, ts).value.rest, d)
    ensures Recognised(RELATION_LEVEL, ParseAt(RELATION_LEVEL, ts).value.tree, m, d)
    decreases |ts|, 7 - RELATION_LEVEL, 0
  {
    hide Recognised;
    var l := ParseAt(SIMPLE_LEVEL, ts).value;
    m := ParsedDepths(SIMPLE_LEVEL, ts, d);
    if l.rest != [] && l.rest[0].TRel? {
      var r := ParseAt(SIMPLE_LEVEL, l.rest[1..]).value;
      var p := m;
      var q := ParsedDepths(SIMPLE_LEVEL, l.rest[1..], d);
      OperandsRecognised(l.rest[0].rel, l.tree, r.tree, p, q, d);
      m := p + [d] + q;
      JoinDepths(p, d, q, Depths(r.rest, d), Depths(ts, d), Depths(l.rest, d));
    } else {
      StrongerRecognised(RELATION_LEVEL, SIMPLE_LEVEL, l.tree, m, d);
    }
  }

  lemma StrongerRecognised(level: nat, strong: nat, e: Tree, m: seq<int>, d: int)
    requires level <= strong && Recognised(strong, e, m, d)
    ensures Recognised(level, e, m, d)
  {
  }

  lemma OperandsRecognised(rel: RelOp, l: Tree, r: Tree, p: seq<int>, q: seq<int>, d: int)
    requires Recognised(SIMPLE_LEVEL, l, p, d) && Recognised(SIMPLE_LEVEL, r, q, d)
    ensures Recognised(RELATION_LEVEL, Related(rel, l, r), p + [d] + q, d)
  {
    SplitPair(p, d, q);
  }

  lemma PrimariesRecognised(l: Tree, r: Tree, p: seq<int>, q: seq<int>, d: int)
    requires Recognised(PRIMARY_LEVEL, l, p, d) && Recognised(PRIMARY_LEVEL, r, q, d)
    ensures Recognised(FACTOR_LEVEL, Raised(l, r), p + [d] + q, d)
    ensures Recognised(FACTOR_LEVEL, Inverse(l), [d] + p, d)
  {
    SplitPair(p, d, q);
    assert ([d] + p)[1..] == p;
  }

  lemma {:induction false} FactorDepths(ts: seq<Token>, d: int) returns (m: seq<int>)
    requires ParseAt(FACTOR_LEVEL, ts).Ok?
    ensures Depths(ts, d) == m + Depths(ParseAt(FACTOR_LEVEL, ts).value.rest, d)
    ensures Recognised(FACTOR_LEVEL, ParseAt(FACTOR_LEVEL, ts).value.tree, m, d)
    decreases |ts|, 7 - FACTOR_LEVEL, 0
  {
    hide Recognised;
    if Starts(ts, TNot) {
      var x := ParseAt(PRIMARY_LEVEL, ts[1..]).value;
      var p := ParsedDepths(PRIMARY_LEVEL, ts[1..], d);
      PrimariesRecognised(x.tree, x.tree, p, p, d);
      m := [d] + p;
      assert [d] + (p + Depths(x.rest, d)) == m + Depths(x.rest, d);
    } else {
      var l := ParseAt(PRIMARY_LEVEL, ts).value;
      m := ParsedDepths(PRIMARY_LEVEL, ts, d);
      if Starts(l.rest, TRaise) {
        var r := ParseAt(PRIMARY_LEVEL, l.rest[1..]).value;
        var p := m;
        var q := ParsedDepths(PRIMARY_LEVEL, l.rest[1..], d);
        PrimariesRecognised(l.tree, r.tree, p, q, d);
        m := p + [d] + q;
        JoinDepths(p, d, q, Depths(r.rest, d), Depths(ts, d), Depths(l.rest, d));
      } else {
        StrongerRecognised(FACTOR_LEVEL, PRIMARY_LEVEL, l.tree, m, d);
      }
    }
  }

  lemma {:induction false} PrimaryDepths(ts: seq<Token>, d: int) returns (m: seq<int>)
    requires ParseAt(PRIMARY_LEVEL, ts).Ok?
    ensures Depths(ts, d) == m + Depths(ParseAt(PRIMARY_LEVEL, ts).value.rest, d)
    ensures Recognised(PRIMARY_LEVEL, ParseAt(PRIMARY_LEVEL, ts).value.tree, m, d)
    decreases |ts|, 0, 0
  {
    if ts[0] == LPar {
      m := ParsedDepths(BOOLEAN_LEVEL, ts[1..], d + 1);
    } else if ts[0] == TIf {
      m := CondDepths(ts, d);
    } else {
      m := [d];
    }
  }

  lemma {:induction false} CondDepths(ts: seq<Token>, d: int) returns (m: seq<int>)
    requires Starts(ts, TIf) && ParseAt(PRIMARY_LEVEL, ts).Ok?
    ensures Depths(ts, d) == m + Depths(ParseAt(PRIMARY_LEVEL, ts).value.rest, d)
    ensures Recognised(PRIMARY_LEVEL, ParseAt(PRIMARY_LEVEL, ts).value.tree, m, d)
    decreases |ts|, 0, 0, 0
  {
    hide Recognised, Nests, NestsRest;
    var c := ParseAt(BOOLEAN_LEVEL, ts[1..]).value;
    var t := ParseAt(BOOLEAN_LEVEL, c.rest[1..]).value;
    var p := ParsedDepths(BOOLEAN_LEVEL, ts[1..], d);
    var q := ParsedDepths(BOOLEAN_LEVEL, c.rest[1..], d);
    var r := RestDepths(t.rest, d);
    var more := ParseRest(t.rest).value;
    m := [d] + (p + [d] + (q + r));
    assert ParseAt(PRIMARY_LEVEL, ts).value == Parsed(Cond(c.tree, t.tree, more.part), more.rest);
    assert ts[0] == TIf && c.rest[0] == TThen;
    hide ParseAt, ParseRest;
    PartsRecognised(c.tree, t.tree, more.part, p, q, r, d);
    JoinParts(ts, c.rest, t.rest, more.rest, p, q, r, d);
  }

  lemma JoinParts(ts: seq<Token>, onThen: seq<Token>, onRest: seq<Token>, end: seq<Token>,
                  p: seq<int>, q: seq<int>, r: seq<int>, d: int)
    requires ts != [] && (ts[0] == TIf || ts[0] == TElsif) && Starts(onThen, TThen)
    requires Depths(ts[1..], d) == p + Depths(onThen, d) && Depths(onThen[1..], d) == q + Depths(onRest, d)
    requires Depths(onRest, d) == r + Depths(end, d)
    ensures Depths(ts, d) == [d] + (p + [d] + (q + r)) + Depths(end, d)
  {
    assert Depths(ts, d) == [d] + Depths(ts[1..], d);
    assert Depths(onThen, d) == [d] + Depths(onThen[1..], d);
    hide Depths;
    PartsConcat(p, q, r, Depths(end, d), d);
  }

  lemma PartsConcat(p: seq<int>, q: seq<int>, r: seq<int>, z: seq<int>, d: int)
    ensures [d] + (p + ([d] + (q + (r + z)))) == [d] + (p + [d] + (q + r)) + z
  {
  }

  /** The parts of a conditional. */
  lemma PartsRecognised(c: Tree, t: Tree, more: Rest, p: seq<int>, q: seq<int>, r: seq<int>, d: int)
    requires Recognised(BOOLEAN_LEVEL, c, p, d) && Recognised(BOOLEAN_LEVEL, t, q, d)
    requires NestsRest(more, r) && forall i :: 0 <= i < |r| ==> r[i] >= d
    ensures var m := [d] + (p + [d] + (q + r));
            && Recognised(PRIMARY_LEVEL, Cond(c, t, more), m, d)
            && NestsRest(ElsifRest(c, t, more), m)
  {
    PartsNest(d, p, q, r);
  }

  lemma PartsAtLeast(c: Tree, t: Tree, p: seq<int>, q: seq<int>, r: seq<int>, d: int)
    requires Recognised(BOOLEAN_LEVEL, c, p, d) && Recognised(BOOLEAN_LEVEL, t, q, d)
    requires forall i :: 0 <= i < |r| ==> r[i] >= d
    ensures var m := [d] + (p + [d] + (q + r)); forall i :: 0 <= i < |m| ==> m[i] >= d
  {
  }

  lemma PartsNest(d: int, p: seq<int>, q: seq<int>, r: seq<int>)
    ensures var m := [d] + (p + [d] + (q + r));
            && m[1..][..|p|] == p && m[1..][|p| + 1..][..|q|] == q && m[1..][|p| + 1..][|q|..] == r
  {
    var m := [d] + (p + [d] + (q + r));
    assert m[1..] == p + [d] + (q + r);
    SplitPair(p, d, q + r);
  }

  lemma {:induction false} MoreDepths(level: nat, left: Tree, ts: seq<Token>, p: seq<int>, d: int) returns (m: seq<int>)
    requires IsListLevel(level) && ParseMore(level, left, ts).Ok? && Recognised(level, left, p, d)
    ensures p + Depths(ts, d) == m + Depths(ParseMore(level, left, ts).value.rest, d)
    ensures Recognised(level, ParseMore(level, left, ts).value.tree, m, d)
    decreases |ts|, 0, 0
  {
    hide Recognised;
    if ts != [] && ts[0].TList? && ts[0].op.Level() == level {
      var x := ParseAt(Up(level), ts[1..]).value;
      var q := ParsedDepths(Up(level), ts[1..], d);
      AppendRecognised(ts[0].op, left, x.tree, p, q, d);
      m := MoreDepths(level, Append(ts[0].op, left, x.tree), x.rest, p + [d] + q, d);
      JoinDepths(p, d, q, Depths(x.rest, d), p + Depths(ts, d), Depths(ts, d));
    } else if ts != [] && ts[0].TPair? && ts[0].pair.Level() == level {
      var x := ParseAt(Up(level), ts[1..]).value;
      var q := ParsedDepths(Up(level), ts[1..], d);
      PairRecognised(ts[0].pair, left, x.tree, p, q, d);
      m := MoreDepths(level, Pair(ts[0].pair, left, x.tree), x.rest, p + [d] + q, d);
      JoinDepths(p, d, q, Depths(x.rest, d), p + Depths(ts, d), Depths(ts, d));
    } else {
      m := p;
    }
  }

  lemma {:induction false} RestDepths(ts: seq<Token>, d: int) returns (m: seq<int>)
    requires ParseRest(ts).Ok?
    ensures Depths(ts, d) == m + Depths(ParseRest(ts).value.rest, d)
    ensures NestsRest(ParseRest(ts).value.part, m) && forall i :: 0 <= i < |m| ==> m[i] >= d
    decreases |ts|, 0, 1
  {
    if Starts(ts, TElsif) {
      m := ElsifDepths(ts, d);
    } else if Starts(ts, TElse) {
      var p := ParsedDepths(BOOLEAN_LEVEL, ts[1..], d);
      m := [d] + p;
      assert m[1..] == p;
    } else {
      m := [];
    }
  }

  lemma {:induction false} ElsifDepths(ts: seq<Token>, d: int) returns (m: seq<int>)
    requires Starts(ts, TElsif) && ParseRest(ts).Ok?
    ensures Depths(ts, d) == m + Depths(ParseRest(ts).value.rest, d)
    ensures NestsRest(ParseRest(ts).value.part, m) && forall i :: 0 <= i < |m| ==> m[i] >= d
    decreases |ts|, 0, 0
  {
    hide Recognised, Nests, NestsRest;
    var c := ParseAt(BOOLEAN_LEVEL, ts[1..]).value;
    var t := ParseAt(BOOLEAN_LEVEL, c.rest[1..]).value;
    var p := ParsedDepths(BOOLEAN_LEVEL, ts[1..], d);
    var q := ParsedDepths(BOOLEAN_LEVEL, c.rest[1..], d);
    var r := RestDepths(t.rest, d);
    var more := ParseRest(t.rest).value;
    m := [d] + (p + [d] + (q + r));
    PartsRecognised(c.tree, t.tree, more.part, p, q, r, d);
    PartsAtLeast(c.tree, t.tree, p, q, r, d);
    JoinParts(ts, c.rest, t.rest, more.rest, p, q, r, d);
  }

  // What the printer writes.

  /** Every list has a term, but for conjunctions, which print as True without terms. */
  predicate Filled(e: Tree)
    decreases e
  {
    match e
    case Inverse(x) => Filled(x)
    case Raised(l, r) => Filled(l) && Filled(r)
    case Related(_, l, r) => Filled(l) && Filled(r)
    case Pair(_, l, r) => Filled(l) && Filled(r)
    case Chain(op, terms) => AllFilled(terms) && (terms == [] ==> Conj.HasInstance(op))
    case Cond(c, t, rest) => Filled(c) && Filled(t) && RestFilled(rest)
    case _ => true
  }

  predicate AllFilled(terms: seq<Tree>)
    decreases terms
  {
    terms == [] || (Filled(terms[0]) && AllFilled(terms[1..]))
  }

  predicate RestFilled(rest: Rest)
    decreases rest
  {
    match rest
    case NoRest => true
    case ElseRest(e) => Filled(e)
    case ElsifRest(c, t, r) => Filled(c) && Filled(t) && RestFilled(r)
  }

  /** The normal form has the tokens of the tree, and the level of its text, if that is not in parentheses. */
  lemma {:induction false} NormTokens(e: Tree)
    ensures Tokens(Norm(e)) == Tokens(e)
    ensures TextLevel(e) < PRIMARY_LEVEL ==> Precedence(Norm(e)) == TextLevel(e)
    decreases e
  {
    match e
    case Name(_) =>
    case Truth(_) =>
    case Numeral(_) =>
    case Inverse(x) => NormTokens(x);
    case Raised(l, r) => NormTokens(l); NormTokens(r);
    case Related(_, l, r) => NormTokens(l); NormTokens(r);
    case Pair(_, l, r) => NormTokens(l); NormTokens(r);
    case Chain(op, terms) =>
      if terms != [] {
        NormTokens(terms[0]);
        if |terms| > 1 {
          NormListTokens(terms[1..]);
          FlattenedTokens(op, Norm(terms[0]));
          ListTokensConcat(Flattened(op, Norm(terms[0])), NormAll(terms[1..]));
        }
      }
    case Cond(c, t, rest) => NormTokens(c); NormTokens(t); NormRestTokens(rest);
  }

  lemma FlattenedTokens(op: ListOp, first: Tree)
    requires first.Chain? ==> first.terms != []
    ensures Flattened(op, first) != [] && ListTokens(Flattened(op, first)) == Tokens(first)
  {
  }

  lemma {:induction false} NormListTokens(terms: seq<Tree>)
    ensures ListTokens(NormAll(terms)) == ListTokens(terms)
    decreases terms
  {
    if terms != [] {
      NormTokens(terms[0]);
      NormListTokens(terms[1..]);
      assert NormAll(terms)[1..] == NormAll(terms[1..]);
    }
  }

  lemma {:induction false} NormRestTokens(rest: Rest)
    ensures RestTokens(NormRest(rest)) == RestTokens(rest)
    decreases rest
  {
    match rest
    case NoRest =>
    case ElseRest(e) => NormTokens(e);
    case ElsifRest(c, t, r) => NormTokens(c); NormTokens(t); NormRestTokens(r);
  }

  /** The depths of the text of a tree fit its normal form only if the tree is headed. */
  predicate Telling(e: Tree, m: seq<int>) {
    |m| == Tokens(Norm(e)) && (Nests(Norm(e), m) ==> Headed(e))
  }

  /** The text of a tree has its root at the depth of its place, unless it is one primary. */
  predicate Printed(e: Tree, m: seq<int>, d: int) {
    Telling(e, m) && (TextLevel(e) < PRIMARY_LEVEL ==> m[RootIndex(Norm(e))] == d)
  }

  /** The same for a child that may be in parentheses. */
  predicate PrintedIn(level: nat, e: Tree, m: seq<int>, d: int) {
    Telling(e, m) && (Precedence(e) > level ==> Printed(e, m, d))
  }

  lemma {:induction false} WrappedDepths(level: nat, e: Tree, rest: seq<Token>, d: int) returns (m: seq<int>)
    requires Filled(e)
    ensures Depths(Wrapped(level, e) + rest, d) == m + Depths(rest, d) && PrintedIn(level, e, m, d)
    decreases e, 3
  {
    hide Telling, Printed, Print, Depths;
    if Precedence(e) <= level {
      m := PrintedDepths(e, [RPar] + rest, d + 1);
      EnclosedDepths(Print(e), rest, m, d);
    } else {
      m := PrintedDepths(e, rest, d);
    }
    PrintedIsTelling(e, m, if Precedence(e) <= level then d + 1 else d);
  }

  lemma EnclosedDepths(text: seq<Token>, rest: seq<Token>, m: seq<int>, d: int)
    requires Depths(text + ([RPar] + rest), d + 1) == m + Depths([RPar] + rest, d + 1)
    ensures Depths([LPar] + text + [RPar] + rest, d) == m + Depths(rest, d)
  {
    var end := [RPar] + rest;
    var ts := [LPar] + text + [RPar] + rest;
    assert end[1..] == rest && ts[1..] == text + end;
  }

  lemma {:induction false} PrintedDepths(e: Tree, rest: seq<Token>, d: int) returns (m: seq<int>)
    requires Filled(e)
    ensures Depths(Print(e) + rest, d) == m + Depths(rest, d) && Printed(e, m, d)
    decreases e, 2
  {
    hide Telling, Printed;
    match e
    case Name(_) => m := LeafDepths(e, rest, d);
    case Truth(_) => m := LeafDepths(e, rest, d);
    case Numeral(_) => m := LeafDepths(e, rest, d);
    case Inverse(x) =>
      var p := WrappedDepths(FACTOR_LEVEL, x, rest, d);
      m := [d] + p;
      assert Telling(x, p);
      InversePrinted(x, p, d);
      var ts := Print(e) + rest;
      assert ts[1..] == Wrapped(FACTOR_LEVEL, x) + rest;
      assert [d] + (p + Depths(rest, d)) == m + Depths(rest, d);
    case Raised(l, r) =>
      var p, q := TwoDepths(e, FACTOR_LEVEL, l, TRaise, r, rest, d);
      TwoPrinted(e, l, r, p, q, d);
      m := p + [d] + q;
    case Related(rel, l, r) =>
      var p, q := TwoDepths(e, RELATION_LEVEL, l, TRel(rel), r, rest, d);
      RelatedPrinted(rel, l, r, p, q, d);
      m := p + [d] + q;
    case Pair(op, l, r) =>
      var p, q := TwoDepths(e, op.Level(), l, TPair(op), r, rest, d);
      TwoPrinted(e, l, r, p, q, d);
      m := p + [d] + q;
    case Chain(op, terms) =>
      if terms == [] {
        m := NothingDepths(op, rest, d);
      } else if |terms| == 1 {
        m := SingleDepths(op, terms, rest, d);
      } else {
        m := ChainDepths(op, terms, rest, d);
      }
    case Cond(c, t, more) => m := CondPrintedDepths(c, t, more, rest, d);
  }

  lemma LeafDepths(e: Tree, rest: seq<Token>, d: int) returns (m: seq<int>)
    requires e.Name? || e.Truth? || e.Numeral?
    ensures Depths(Print(e) + rest, d) == m + Depths(rest, d) && Printed(e, m, d)
  {
    m := [d];
    var ts := Print(e) + rest;
    assert ts[1..] == rest;
  }

  lemma NothingDepths(op: ListOp, rest: seq<Token>, d: int) returns (m: seq<int>)
    requires Conj.HasInstance(op)
    ensures Depths(Print(Chain(op, [])) + rest, d) == m + Depths(rest, d) && Printed(Chain(op, []), m, d)
  {
    m := [d];
    var ts := Print(Chain(op, [])) + rest;
    assert ts[1..] == rest;
  }

  lemma InversePrinted(x: Tree, p: seq<int>, d: int)
    requires Telling(x, p)
    ensures Printed(Inverse(x), [d] + p, d)
  {
    assert ([d] + p)[1..] == p;
  }

  predicate Operands(e: Tree, l: Tree, r: Tree) {
    (e.Raised? || e.Related? || e.Pair?) && e.left == l && e.right == r
  }

  lemma TwoPrinted(e: Tree, l: Tree, r: Tree, p: seq<int>, q: seq<int>, d: int)
    requires Telling(l, p) && Telling(r, q)
    requires Operands(e, l, r) && !e.Related?
    ensures Printed(e, p + [d] + q, d)
  {
    SplitPair(p, d, q);
  }

  /** A side of a relation that is a relation or a boolean operation by its text is not nested deep enough. */
  lemma SideIsBound(e: Tree, p: seq<int>, d: int)
    requires PrintedIn(RELATION_LEVEL, e, p, d) && Deeper(SIMPLE_LEVEL, Norm(e), p, d)
    ensures Bound(RELATION_LEVEL, e)
  {
    NormTokens(e);
  }

  lemma RelatedPrinted(rel: RelOp, l: Tree, r: Tree, p: seq<int>, q: seq<int>, d: int)
    requires PrintedIn(RELATION_LEVEL, l, p, d) && PrintedIn(RELATION_LEVEL, r, q, d)
    ensures Printed(Related(rel, l, r), p + [d] + q, d)
  {
    SplitPair(p, d, q);
    var m := p + [d] + q;
    if Nests(Norm(Related(rel, l, r)), m) {
      SideIsBound(l, p, d);
      SideIsBound(r, q, d);
    }
  }

  lemma {:induction false} TwoDepths(e: Tree, level: nat, l: Tree, tok: Token, r: Tree, rest: seq<Token>, d: int)
    returns (p: seq<int>, q: seq<int>)
    requires Filled(l) && Filled(r) && tok != LPar && tok != RPar && Operands(e, l, r)
    ensures Depths(Wrapped(level, l) + [tok] + Wrapped(level, r) + rest, d) == p + [d] + q + Depths(rest, d)
    ensures PrintedIn(level, l, p, d) && PrintedIn(level, r, q, d)
    decreases e, 0
  {
    hide PrintedIn, Wrapped;
    var last := Wrapped(level, r) + rest;
    var after := [tok] + last;
    p := WrappedDepths(level, l, after, d);
    q := WrappedDepths(level, r, rest, d);
    assert after[1..] == last;
    assert Wrapped(level, l) + [tok] + Wrapped(level, r) + rest == Wrapped(level, l) + after;
    JoinDepths(p, d, q, Depths(rest, d), Depths(Wrapped(level, l) + after, d), Depths(after, d));
  }

  /** The depths of the further terms of a list, with the operators between them. */
  predicate ListTelling(op: ListOp, terms: seq<Tree>, q: seq<int>, d: int)
    requires terms != []
  {
    && |q| == ListTokens(NormAll(terms))
    && (NestsList(op, NormAll(terms), q) && NestsTerm(op, NormAll(terms)[0], q, d) ==>
          AllHeaded(terms) && (op.IsBool() ==> AllBound(BOOLEAN_LEVEL, terms)))
    && (|terms| > 1 ==> LastOperator(NormAll(terms)) < |q| && q[LastOperator(NormAll(terms))] == d)
  }

  function LastOperator(terms: seq<Tree>): nat {
    if terms == [] then 0 else ListTokens(terms[..|terms| - 1])
  }

  /** The last operator of two lists with an operator between them. */
  lemma LastOperatorConcat(a: seq<Tree>, b: seq<Tree>)
    requires a != [] && b != []
    ensures LastOperator(a + b) == if |b| == 1 then ListTokens(a) else ListTokens(a) + 1 + LastOperator(b)
  {
    if |b| == 1 {
      assert (a + b)[..|a|] == a;
    } else {
      assert (a + b)[..|a + b| - 1] == a + b[..|b| - 1];
      ListTokensConcat(a, b[..|b| - 1]);
    }
  }

  lemma TokenDepths(tok: Token, text: seq<Token>, d: int)
    requires tok != LPar && tok != RPar
    ensures Depths([tok] + text, d) == [d] + Depths(text, d)
  {
    assert ([tok] + text)[1..] == text;
  }

  lemma {:induction false} MorePrintedDepths(op: ListOp, terms: seq<Tree>, rest: seq<Token>, d: int)
    returns (q: seq<int>)
    requires terms != [] && AllFilled(terms)
    ensures Depths(PrintMore(op, terms) + rest, d) == [d] + (q + Depths(rest, d)) && ListTelling(op, terms, q, d)
    decreases terms
  {
    hide PrintedIn, ListTelling, Wrapped, PrintMore, Depths;
    var after := PrintMore(op, terms[1..]) + rest;
    PrintMoreStep(op, terms, rest);
    var p := WrappedDepths(op.Level(), terms[0], after, d);
    TokenDepths(TList(op), Wrapped(op.Level(), terms[0]) + after, d);
    if |terms| == 1 {
      q := p;
      assert after == rest by { PrintMoreEmpty(op); }
      SingleTelling(op, terms, p, d);
    } else {
      var tail := MorePrintedDepths(op, terms[1..], rest, d);
      q := p + [d] + tail;
      ListTellingCons(op, terms, p, tail, d);
      JoinDepths(p, d, tail, Depths(rest, d), p + Depths(after, d), Depths(after, d));
    }
  }

  /** A further term of a boolean list that is a boolean operation by its text is not nested deep enough. */
  lemma TermIsBound(op: ListOp, e: Tree, p: seq<int>, d: int)
    requires op.IsBool() && PrintedIn(op.Level(), e, p, d) && NestsTerm(op, Norm(e), p, d)
    ensures Bound(BOOLEAN_LEVEL, e)
  {
    NormTokens(e);
  }

  lemma SingleTelling(op: ListOp, terms: seq<Tree>, p: seq<int>, d: int)
    requires |terms| == 1 && PrintedIn(op.Level(), terms[0], p, d)
    ensures ListTelling(op, terms, p, d)
  {
    assert NormAll(terms) == [Norm(terms[0])] && terms[1..] == [];
    if op.IsBool() && NestsTerm(op, Norm(terms[0]), p, d) {
      TermIsBound(op, terms[0], p, d);
    }
  }

  lemma ListTellingCons(op: ListOp, terms: seq<Tree>, p: seq<int>, q: seq<int>, d: int)
    requires |terms| > 1 && PrintedIn(op.Level(), terms[0], p, d) && ListTelling(op, terms[1..], q, d)
    ensures ListTelling(op, terms, p + [d] + q, d)
  {
    hide Nests;
    var first, more := Norm(terms[0]), NormAll(terms[1..]);
    var m := p + [d] + q;
    assert NormAll(terms) == [first] + more;
    ListTokensConcat([first], more);
    LastOperatorConcat([first], more);
    NestsConcat(op, [first], more, p, d, q);
    assert ListTokens([first]) == Tokens(first) && (NestsList(op, [first], p) ==> Nests(first, p));
    if NestsList(op, NormAll(terms), m) && NestsTerm(op, first, m, d) {
      assert op.IsBool() && Precedence(first) < RELATION_LEVEL ==> m[RootIndex(first)] == p[RootIndex(first)];
      if op.IsBool() {
        TermIsBound(op, terms[0], p, d);
      }
    }
  }

  lemma {:induction false} ChainDepths(op: ListOp, terms: seq<Tree>, rest: seq<Token>, d: int) returns (m: seq<int>)
    requires Filled(Chain(op, terms)) && |terms| > 1
    ensures Depths(Print(Chain(op, terms)) + rest, d) == m + Depths(rest, d) && Printed(Chain(op, terms), m, d)
    decreases Chain(op, terms), 0
  {
    hide Telling, ListTelling, Printed, PrintedIn, Wrapped, PrintMore;
    var first := terms[0];
    var after := PrintMore(op, terms[1..]) + rest;
    var text := if op == Plus then Print(first) else Wrapped(op.Level(), first);
    assert Print(Chain(op, terms)) + rest == text + after;
    var q := MorePrintedDepths(op, terms[1..], rest, d);
    var p;
    if op == Plus {
      p := PrintedDepths(first, after, d);
      PrintedIsTelling(first, p, d);
    } else {
      p := WrappedDepths(op.Level(), first, after, d);
      PrintedInIsTelling(op.Level(), first, p, d);
    }
    m := p + [d] + q;
    ChainPrinted(op, terms, p, q, d);
    JoinDepths(p, d, q, Depths(rest, d), Depths(text + after, d), Depths(after, d));
  }

  /** A list of one term is printed like the term, in parentheses or not. */
  lemma {:induction false} SingleDepths(op: ListOp, terms: seq<Tree>, rest: seq<Token>, d: int) returns (m: seq<int>)
    requires Filled(Chain(op, terms)) && |terms| == 1
    ensures Depths(Print(Chain(op, terms)) + rest, d) == m + Depths(rest, d) && Printed(Chain(op, terms), m, d)
    decreases Chain(op, terms), 0
  {
    hide Telling, Printed, PrintedIn, Depths;
    var t := terms[0];
    assert terms[1..] == [] && PrintMore(op, []) == [];
    if op == Plus {
      assert Print(Chain(op, terms)) == Print(t) + [] == Print(t);
      m := PrintedDepths(t, rest, d);
      SingleIsPrinted(op, terms, m, d);
    } else {
      assert Print(Chain(op, terms)) == Wrapped(op.Level(), t) + [] == Wrapped(op.Level(), t);
      m := WrappedDepths(op.Level(), t, rest, d);
      SingleIsPrinted(op, terms, m, d);
    }
  }

  lemma SingleIsPrinted(op: ListOp, terms: seq<Tree>, m: seq<int>, d: int)
    requires |terms| == 1
    requires if op == Plus then Printed(terms[0], m, d) else PrintedIn(op.Level(), terms[0], m, d)
    ensures Printed(Chain(op, terms), m, d)
  {
    assert terms[1..] == [];
  }

  lemma PrintedInIsTelling(level: nat, e: Tree, m: seq<int>, d: int)
    requires PrintedIn(level, e, m, d)
    ensures Telling(e, m)
  {
  }

  lemma PrintedIsTelling(e: Tree, m: seq<int>, d: int)
    requires Printed(e, m, d)
    ensures Telling(e, m)
  {
  }

  lemma ChainPrinted(op: ListOp, terms: seq<Tree>, p: seq<int>, q: seq<int>, d: int)
    requires |terms| > 1 && Telling(terms[0], p) && ListTelling(op, terms[1..], q, d)
    requires op == Plus ==> Printed(terms[0], p, d)
    ensures Printed(Chain(op, terms), p + [d] + q, d)
  {
    hide Telling, ListTelling, Printed;
    ChainRoot(op, terms, p, q, d);
    if Nests(Norm(Chain(op, terms)), p + [d] + q) {
      ChainHeadNests(op, terms, p, q, d);
    }
    ChainIsPrinted(op, terms, p + [d] + q, d);
  }

  lemma ChainIsPrinted(op: ListOp, terms: seq<Tree>, m: seq<int>, d: int)
    requires |m| == Tokens(Norm(Chain(op, terms))) && m[RootIndex(Norm(Chain(op, terms)))] == d
    requires Nests(Norm(Chain(op, terms)), m) ==> Headed(Chain(op, terms))
    ensures Printed(Chain(op, terms), m, d)
  {
  }

  lemma ChainRoot(op: ListOp, terms: seq<Tree>, p: seq<int>, q: seq<int>, d: int)
    requires |terms| > 1 && Telling(terms[0], p) && ListTelling(op, terms[1..], q, d)
    ensures var m, n := p + [d] + q, Norm(Chain(op, terms)); |m| == Tokens(n) && m[RootIndex(n)] == d
  {
    hide Nests, Headed, NestsList;
    var head, tail := Flattened(op, Norm(terms[0])), NormAll(terms[1..]);
    FlattenedTokens(op, Norm(terms[0]));
    assert Norm(Chain(op, terms)) == Chain(op, head + tail);
    JoinedRoot(op, head, tail, p, q, d);
  }

  lemma JoinedRoot(op: ListOp, head: seq<Tree>, tail: seq<Tree>, p: seq<int>, q: seq<int>, d: int)
    requires head != [] && tail != [] && |p| == ListTokens(head) && |q| == ListTokens(tail)
    requires |tail| > 1 ==> LastOperator(tail) < |q| && q[LastOperator(tail)] == d
    ensures var m, n := p + [d] + q, Chain(op, head + tail); |m| == Tokens(n) && m[RootIndex(n)] == d
  {
    ListTokensConcat(head, tail);
    LastOperatorConcat(head, tail);
    assert RootIndex(Chain(op, head + tail)) == LastOperator(head + tail);
  }

  lemma ChainHeadNests(op: ListOp, terms: seq<Tree>, p: seq<int>, q: seq<int>, d: int)
    requires |terms| > 1 && Telling(terms[0], p) && ListTelling(op, terms[1..], q, d)
    requires op == Plus ==> Printed(terms[0], p, d)
    requires Nests(Norm(Chain(op, terms)), p + [d] + q)
    ensures Headed(Chain(op, terms))
  {
    var first := Norm(terms[0]);
    var head, tail, m := Flattened(op, first), NormAll(terms[1..]), p + [d] + q;
    FlattenedTokens(op, first);
    NestsConcat(op, head, tail, p, d, q);
    NormTokens(terms[0]);
    assert (head + tail)[0] == head[0];
    FirstNests(op, first, head + tail, p, m);
    assert Headed(terms[0]) && AllHeaded(terms[1..]);
    if op == Plus {
      HeadIsNumeric(terms[0], head + tail, p, m, d);
    }
  }

  /** The first term of a sum, if it is printed at the depth of the operator behind it. */
  lemma HeadIsNumeric(t: Tree, terms: seq<Tree>, p: seq<int>, m: seq<int>, d: int)
    requires Printed(t, p, d)
    requires |terms| > 1 && |m| == ListTokens(terms) && |p| < |m| && m[..|p|] == p && m[|p|] == d
    requires terms[0] == Flattened(Plus, Norm(t))[0] && NestsHead(Plus, terms, m)
    ensures TextLevel(t) >= SIMPLE_LEVEL
  {
    NormTokens(t);
    if !(Norm(t).Chain? && Plus.HasInstance(Norm(t).op)) {
      assert m[..|p|][RootIndex(Norm(t))] == p[RootIndex(Norm(t))];
    }
  }

  /** The first term of a list fits by itself, whether its terms were taken over or not. */
  lemma FirstNests(op: ListOp, first: Tree, terms: seq<Tree>, p: seq<int>, m: seq<int>)
    requires |p| == Tokens(first) && NestsList(op, Flattened(op, first), p) && (first.Chain? ==> |first.terms| > 1)
    requires |terms| > 1 && terms[0] == Flattened(op, first)[0] && |m| == ListTokens(terms)
    requires |p| <= |m| && m[..|p|] == p && NestsHead(op, terms, m)
    ensures Nests(first, p)
  {
    if first.Chain? && op.HasInstance(first.op) {
      var t := first.terms[0];
      SameClassNests(op, first.op, first.terms, p);
      ListTokensConcat([t], first.terms[1..]);
      assert [t] + first.terms[1..] == first.terms;
      assert m[..|p|][RootIndex(t)] == p[RootIndex(t)] && m[..|p|][Tokens(t)] == p[Tokens(t)];
    }
  }

  lemma {:induction false} CondPrintedDepths(c: Tree, t: Tree, more: Rest, rest: seq<Token>, d: int)
    returns (m: seq<int>)
    requires Filled(c) && Filled(t) && RestFilled(more)
    ensures Depths(Print(Cond(c, t, more)) + rest, d) == m + Depths(rest, d) && Printed(Cond(c, t, more), m, d)
    decreases Cond(c, t, more), 0
  {
    hide Telling, Printed, RestTelling, Print, PrintRest;
    var end := [RPar] + rest;
    var onRest := PrintRest(more) + end;
    var onThen := [TThen] + (Print(t) + onRest);
    var onIf := [TIf] + (Print(c) + onThen);
    var r := RestPrintedDepths(more, end, d + 1);
    var q := PrintedDepths(t, onRest, d + 1);
    var p := PrintedDepths(c, onThen, d + 1);
    m := [d + 1] + (p + [d + 1] + (q + r));
    PrintedIsTelling(c, p, d + 1);
    PrintedIsTelling(t, q, d + 1);
    PartsPrinted(c, t, more, p, q, r, d + 1);
    CondIsPrinted(c, t, more, m, d);
    CondText(c, t, more, rest);
    assert onThen[1..] == Print(t) + onRest && onIf[1..] == Print(c) + onThen && end[1..] == rest;
    JoinParts(onIf, onThen, onRest, end, p, q, r, d + 1);
    var ts := [LPar] + onIf;
    assert ts[1..] == onIf;
  }

  lemma CondIsPrinted(c: Tree, t: Tree, more: Rest, m: seq<int>, d: int)
    requires Telling(Cond(c, t, more), m)
    ensures Printed(Cond(c, t, more), m, d)
  {
  }

  predicate RestTelling(rest: Rest, m: seq<int>) {
    |m| == RestTokens(NormRest(rest)) && (NestsRest(NormRest(rest), m) ==> RestHeaded(rest))
  }

  lemma PartsPrinted(c: Tree, t: Tree, more: Rest, p: seq<int>, q: seq<int>, r: seq<int>, d: int)
    requires Telling(c, p) && Telling(t, q) && RestTelling(more, r)
    ensures var m := [d] + (p + [d] + (q + r));
            Telling(Cond(c, t, more), m) && RestTelling(ElsifRest(c, t, more), m)
  {
    PartsNest(d, p, q, r);
  }

  lemma {:induction false} RestPrintedDepths(more: Rest, end: seq<Token>, d: int) returns (m: seq<int>)
    requires RestFilled(more)
    ensures Depths(PrintRest(more) + end, d) == m + Depths(end, d) && RestTelling(more, m)
    decreases more
  {
    match more
    case NoRest =>
      m := [];
      assert PrintRest(more) + end == end;
    case ElseRest(e) =>
      hide Printed, Telling;
      var p := PrintedDepths(e, end, d);
      PrintedIsTelling(e, p, d);
      m := [d] + p;
      ElseTelling(e, p, d);
      var ts := PrintRest(more) + end;
      assert ts[1..] == Print(e) + end;
      assert [d] + (p + Depths(end, d)) == m + Depths(end, d);
    case ElsifRest(c, t, r) => m := ElsifPrintedDepths(c, t, r, end, d);
  }

  lemma ElseTelling(e: Tree, p: seq<int>, d: int)
    requires Telling(e, p)
    ensures RestTelling(ElseRest(e), [d] + p)
  {
    assert ([d] + p)[1..] == p;
  }

  lemma {:induction false} ElsifPrintedDepths(c: Tree, t: Tree, more: Rest, end: seq<Token>, d: int)
    returns (m: seq<int>)
    requires Filled(c) && Filled(t) && RestFilled(more)
    ensures Depths(PrintRest(ElsifRest(c, t, more)) + end, d) == m + Depths(end, d)
    ensures RestTelling(ElsifRest(c, t, more), m)
    decreases ElsifRest(c, t, more), 0
  {
    hide Telling, Printed, RestTelling, Print, PrintRest;
    var onRest := PrintRest(more) + end;
    var onThen := [TThen] + (Print(t) + onRest);
    var ts := [TElsif] + (Print(c) + onThen);
    var r := RestPrintedDepths(more, end, d);
    var q := PrintedDepths(t, onRest, d);
    var p := PrintedDepths(c, onThen, d);
    m := [d] + (p + [d] + (q + r));
    PrintedIsTelling(c, p, d);
    PrintedIsTelling(t, q, d);
    PartsPrinted(c, t, more, p, q, r, d);
    ElsifText(c, t, more, end);
    assert onThen[1..] == Print(t) + onRest && ts[1..] == Print(c) + onThen;
    JoinParts(ts, onThen, onRest, end, p, q, r, d);
  }

  // The depths that fit a tree fit its normal form.

  lemma NormPrecedence(e: Tree)
    requires Built(e)
    ensures Tokens(Norm(e)) == Tokens(e) && Precedence(Norm(e)) == Precedence(e)
    ensures e.Chain? ==> Norm(e).Chain? && Norm(e).op == e.op
  {
    NormTokens(e);
  }

  lemma {:induction false} NormRoot(e: Tree)
    requires Built(e)
    ensures RootIndex(Norm(e)) == RootIndex(e)
  {
    match e
    case Raised(l, _) => NormTokens(l);
    case Related(_, l, _) => NormTokens(l);
    case Pair(_, l, _) => NormTokens(l);
    case Chain(op, terms) => ChainNormRoot(op, terms);
    case _ =>
  }

  lemma ChainNormRoot(op: ListOp, terms: seq<Tree>)
    requires Built(Chain(op, terms))
    ensures RootIndex(Norm(Chain(op, terms))) == RootIndex(Chain(op, terms))
  {
    var head, tail := Flattened(op, Norm(terms[0])), NormAll(terms[1..]);
    NormTokens(terms[0]);
    FlattenedTokens(op, Norm(terms[0]));
    NormLastOperator(terms[1..]);
    assert |tail| == |terms[1..]|;
    assert ListTokens([terms[0]]) == Tokens(terms[0]) && [terms[0]] + terms[1..] == terms;
    assert Norm(Chain(op, terms)) == Chain(op, head + tail);
    hide ListTokens, Tokens, Norm, NormAll, Built;
    LastOperatorConcat(head, tail);
    LastOperatorConcat([terms[0]], terms[1..]);
  }

  lemma NormLastOperator(terms: seq<Tree>)
    requires AllBuilt(terms)
    ensures LastOperator(NormAll(terms)) == LastOperator(terms)
  {
    if terms != [] {
      var front := terms[..|terms| - 1];
      NormAllFront(terms);
      NormListTokens(front);
    }
  }

  lemma {:induction false} NormAllFront(terms: seq<Tree>)
    requires terms != [] && AllBuilt(terms)
    ensures NormAll(terms)[..|terms| - 1] == NormAll(terms[..|terms| - 1]) && AllBuilt(terms[..|terms| - 1])
  {
    if |terms| > 1 {
      NormAllFront(terms[1..]);
      assert terms[..|terms| - 1][1..] == terms[1..][..|terms| - 2];
      assert NormAll(terms)[..|terms| - 1] == [Norm(terms[0])] + NormAll(terms[1..])[..|terms| - 2];
    }
  }

  lemma {:induction false} NormNests(e: Tree, m: seq<int>)
    requires Built(e) && Nests(e, m)
    ensures Nests(Norm(e), m)
    decreases e
  {
    NormPrecedence(e);
    match e
    case Name(_) =>
    case Truth(_) =>
    case Numeral(_) =>
    case Inverse(x) => NormNests(x, m[1..]);
    case Raised(l, r) => OperandsNormNest(e, l, r, m);
    case Related(rel, l, r) => RelatedNormNests(rel, l, r, m);
    case Pair(_, l, r) => OperandsNormNest(e, l, r, m);
    case Chain(op, terms) => ChainNormNests(op, terms, m);
    case Cond(c, t, rest) => CondNormNests(c, t, rest, m);
  }

  lemma {:induction false} RelatedNormNests(rel: RelOp, l: Tree, r: Tree, m: seq<int>)
    requires Built(Related(rel, l, r)) && Nests(Related(rel, l, r), m)
    ensures Nests(Norm(Related(rel, l, r)), m)
    decreases Related(rel, l, r), 1
  {
    OperandsNormNest(Related(rel, l, r), l, r, m);
    NormPrecedence(r);
  }

  lemma {:induction false} CondNormNests(c: Tree, t: Tree, rest: Rest, m: seq<int>)
    requires Built(Cond(c, t, rest)) && Nests(Cond(c, t, rest), m)
    ensures Nests(Norm(Cond(c, t, rest)), m)
    decreases Cond(c, t, rest), 0
  {
    NormPrecedence(Cond(c, t, rest));
    NormPrecedence(c);
    NormPrecedence(t);
    NormNests(c, m[1..][..Tokens(c)]);
    NormNests(t, m[1..][Tokens(c) + 1..][..Tokens(t)]);
    NormRestNests(rest, m[1..][Tokens(c) + 1..][Tokens(t)..]);
  }

  lemma {:induction false} OperandsNormNest(e: Tree, l: Tree, r: Tree, m: seq<int>)
    requires Operands(e, l, r) && Built(e) && Nests(e, m)
    ensures Tokens(Norm(l)) == Tokens(l)
    ensures Nests(Norm(l), m[..Tokens(l)]) && Nests(Norm(r), m[Tokens(l) + 1..])
    ensures Precedence(Norm(l)) == Precedence(l) && RootIndex(Norm(l)) == RootIndex(l)
    ensures Precedence(Norm(r)) == Precedence(r) && RootIndex(Norm(r)) == RootIndex(r)
    decreases e, 0
  {
    NormPrecedence(l);
    NormPrecedence(r);
    NormRoot(l);
    NormRoot(r);
    NormNests(l, m[..Tokens(l)]);
    NormNests(r, m[Tokens(l) + 1..]);
  }

  lemma {:induction false} ChainNormNests(op: ListOp, terms: seq<Tree>, m: seq<int>)
    requires Built(Chain(op, terms)) && Nests(Chain(op, terms), m)
    ensures Nests(Norm(Chain(op, terms)), m)
    decreases Chain(op, terms), 0
  {
    var t, first := terms[0], Norm(terms[0]);
    var n := Tokens(t);
    var p, q := m[..n], m[n + 1..];
    assert m == p + [m[n]] + q;
    NormNests(t, p);
    NormPrecedence(t);
    NormRoot(t);
    ListNormNests(op, terms[1..], q);
    NormTerm(op, terms[1], q, m[n]);
    var head, tail := Flattened(op, first), NormAll(terms[1..]);
    FlattenedTokens(op, first);
    HeadList(op, first, p);
    NestsConcat(op, head, tail, p, m[n], q);
    ListTokensConcat(head, tail);
    HeadNormNests(op, first, head + tail, p, m);
  }

  lemma HeadList(op: ListOp, first: Tree, p: seq<int>)
    requires Nests(first, p)
    ensures NestsList(op, Flattened(op, first), p)
  {
    if first.Chain? && op.HasInstance(first.op) {
      SameClassNests(op, first.op, first.terms, p);
    }
  }

  lemma NormTerm(op: ListOp, t: Tree, m: seq<int>, o: int)
    requires Built(t) && |m| >= Tokens(t) && NestsTerm(op, t, m, o)
    ensures Tokens(Norm(t)) == Tokens(t) && NestsTerm(op, Norm(t), m, o)
  {
    NormPrecedence(t);
    NormRoot(t);
  }

  lemma HeadNormNests(op: ListOp, first: Tree, terms: seq<Tree>, p: seq<int>, m: seq<int>)
    requires Nests(first, p) && |terms| > 1 && terms[0] == Flattened(op, first)[0] && |m| == ListTokens(terms)
    requires |p| < |m| && m[..|p|] == p
    requires op == Plus && Precedence(first) < SIMPLE_LEVEL ==> m[RootIndex(first)] > m[Tokens(first)]
    ensures NestsHead(op, terms, m)
  {
    if first.Chain? && op.HasInstance(first.op) {
      NestsHeadLonger(op, first, terms, p, m);
    }
  }

  lemma {:induction false} ListNormNests(op: ListOp, terms: seq<Tree>, m: seq<int>)
    requires AllBuilt(terms) && NestsList(op, terms, m)
    ensures NestsList(op, NormAll(terms), m)
    decreases terms
  {
    NormListTokens(terms);
    if |terms| == 1 {
      NormNests(terms[0], m);
      assert NormAll(terms) == [Norm(terms[0])];
    } else if |terms| > 1 {
      var n := Tokens(terms[0]);
      NormPrecedence(terms[0]);
      NormNests(terms[0], m[..n]);
      ListNormNests(op, terms[1..], m[n + 1..]);
      NormTerm(op, terms[1], m[n + 1..], m[n]);
      assert NormAll(terms)[1..] == NormAll(terms[1..]);
    }
  }

  lemma {:induction false} NormRestNests(rest: Rest, m: seq<int>)
    requires RestBuilt(rest) && NestsRest(rest, m)
    ensures NestsRest(NormRest(rest), m)
    decreases rest
  {
    NormRestTokens(rest);
    match rest
    case NoRest =>
    case ElseRest(e) => NormNests(e, m[1..]);
    case ElsifRest(c, t, r) =>
      NormPrecedence(c);
      NormPrecedence(t);
      NormNests(c, m[1..][..Tokens(c)]);
      NormNests(t, m[1..][Tokens(c) + 1..][..Tokens(t)]);
      NormRestNests(r, m[1..][Tokens(c) + 1..][Tokens(t)..]);
  }

  // Which trees are parsed back from their text.

  lemma {:induction false} BuiltIsFilled(e: Tree)
    requires Built(e)
    ensures Filled(e)
    decreases e
  {
    match e
    case Inverse(x) => BuiltIsFilled(x);
    case Raised(l, r) => BuiltIsFilled(l); BuiltIsFilled(r);
    case Related(_, l, r) => BuiltIsFilled(l); BuiltIsFilled(r);
    case Pair(_, l, r) => BuiltIsFilled(l); BuiltIsFilled(r);
    case Chain(_, terms) => AllBuiltIsFilled(terms);
    case Cond(c, t, rest) => BuiltIsFilled(c); BuiltIsFilled(t); RestBuiltIsFilled(rest);
    case _ =>
  }

  lemma {:induction false} AllBuiltIsFilled(terms: seq<Tree>)
    requires AllBuilt(terms)
    ensures AllFilled(terms)
    decreases terms
  {
    if terms != [] {
      BuiltIsFilled(terms[0]);
      AllBuiltIsFilled(terms[1..]);
    }
  }

  lemma {:induction false} RestBuiltIsFilled(rest: Rest)
    requires RestBuilt(rest)
    ensures RestFilled(rest)
    decreases rest
  {
    match rest
    case NoRest =>
    case ElseRest(e) => BuiltIsFilled(e);
    case ElsifRest(c, t, r) => BuiltIsFilled(c); BuiltIsFilled(t); RestBuiltIsFilled(r);
  }

  /** Parsing undoes printing, up to the normal form, for exactly the headed trees: those in which every sum and both
      sides of every relation start with a text of numeric level, and every further term of a boolean list is no
      boolean operation by its text. */
  lemma RoundTripIsExact(e: Tree)
    requires Filled(e)
    ensures Parse(Print(e)) == Ok(Norm(e)) <==> Headed(e)
  {
    if Headed(e) {
      PrintThenParse(e);
    }
    if Parse(Print(e)) == Ok(Norm(e)) {
      var m := ParsedDepths(BOOLEAN_LEVEL, Print(e), 0);
      var q := PrintedDepths(e, [], 0);
      assert Print(e) + [] == Print(e) && m + [] == m && q + [] == q;
    }
  }

  /** The text of a sum of readable terms can be read back exactly if the first term, which is printed without
      parentheses, has a text of numeric level. */
  lemma SumIsReadBack(terms: seq<Tree>)
    requires |terms| >= 2 && AllHeaded(terms)
    ensures var e := Chain(Plus, terms);
            Parse(Print(e)) == Ok(Norm(e)) <==> TextLevel(terms[0]) >= SIMPLE_LEVEL
  {
    AllHeadedIsFilled(terms);
    RoundTripIsExact(Chain(Plus, terms));
  }

  /** A sum of one term is printed like the term, so as a side of a relation it is read back exactly if the text of the
      term is of numeric level. */
  lemma SumOfOneIsReadBack(rel: RelOp, t: Tree, r: Tree)
    requires Headed(t) && Headed(r) && Bound(RELATION_LEVEL, r)
    ensures Parse(Print(Chain(Plus, [t]))) == Ok(Norm(t))
    ensures var e := Related(rel, Chain(Plus, [t]), r);
            Parse(Print(e)) == Ok(Related(rel, Norm(t), Norm(r))) <==> TextLevel(t) >= SIMPLE_LEVEL
  {
    var sum := Chain(Plus, [t]);
    assert [t][1..] == [];
    assert AllHeaded([t]) && Headed(sum);
    PrintThenParse(sum);
    HeadedIsFilled(sum);
    HeadedIsFilled(r);
    RoundTripIsExact(Related(rel, sum, r));
  }

  lemma {:induction false} HeadedIsFilled(e: Tree)
    requires Headed(e)
    ensures Filled(e)
    decreases e
  {
    match e
    case Inverse(x) => HeadedIsFilled(x);
    case Raised(l, r) => HeadedIsFilled(l); HeadedIsFilled(r);
    case Related(_, l, r) => HeadedIsFilled(l); HeadedIsFilled(r);
    case Pair(_, l, r) => HeadedIsFilled(l); HeadedIsFilled(r);
    case Chain(_, terms) => AllHeadedIsFilled(terms);
    case Cond(c, t, rest) => HeadedIsFilled(c); HeadedIsFilled(t); RestHeadedIsFilled(rest);
    case _ =>
  }

  lemma {:induction false} AllHeadedIsFilled(terms: seq<Tree>)
    requires AllHeaded(terms)
    ensures AllFilled(terms)
    decreases terms
  {
    if terms != [] {
      HeadedIsFilled(terms[0]);
      AllHeadedIsFilled(terms[1..]);
    }
  }

  lemma {:induction false} RestHeadedIsFilled(rest: Rest)
    requires RestHeaded(rest)
    ensures RestFilled(rest)
    decreases rest
  {
    match rest
    case NoRest =>
    case ElseRest(e) => HeadedIsFilled(e);
    case ElsifRest(c, t, r) => HeadedIsFilled(c); HeadedIsFilled(t); RestHeadedIsFilled(r);
  }

  /** A tree is parsed from its own text exactly if the parser can have built it, no list in it starts with an
      operation of its own class, and every sum starts with a text of numeric level. */
  lemma FixedPointIsExact(e: Tree)
    ensures Parse(Print(e)) == Ok(e) <==> Built(e) && Settled(e) && Headed(e)
  {
    if Parse(Print(e)) == Ok(e) {
      ParsedIsBuilt(BOOLEAN_LEVEL, Print(e));
      BuiltIsFilled(e);
      var m := ParsedDepths(BOOLEAN_LEVEL, Print(e), 0);
      var q := PrintedDepths(e, [], 0);
      assert Print(e) + [] == Print(e) && m + [] == m && q + [] == q;
      NormNests(e, m);
    }
    if Built(e) {
      BuiltIsFilled(e);
      NormLosesNodes(e);
      RoundTripIsExact(e);
    }
  }

  /** For every text that is accepted: its tree is parsed again from the text of the tree exactly under these two
      conditions. */
  lemma ReparseIsExact(ts: seq<Token>)
    requires Parse(ts).Ok?
    ensures Parse(Print(Parse(ts).value)) == Parse(ts) <==> Settled(Parse(ts).value) && Headed(Parse(ts).value)
  {
    ParsedIsBuilt(BOOLEAN_LEVEL, ts);
    FixedPointIsExact(Parse(ts).value);
  }
}
