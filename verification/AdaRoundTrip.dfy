/** Parsing undoes printing up to a normal form, and the normal form has the same value. */
module AdaRoundTrip {
  import opened Results
  import opened Expressions
  import opened AdaSyntax

  // The normal form: lists of one term disappear, and the terms of a first term of the same class are taken over.

  function Norm(e: Tree): (r: Tree)
    ensures r.Chain? ==> (e.Chain? && e.terms != []) && |r.terms| >= 2
    decreases e
  {
    match e
    case Inverse(x) => Inverse(Norm(x))
    case Raised(l, r) => Raised(Norm(l), Norm(r))
    case Related(rel, l, r) => Related(rel, Norm(l), Norm(r))
    case Pair(op, l, r) => Pair(op, Norm(l), Norm(r))
    case Chain(op, terms) =>
      if terms == [] then Truth(true)
      else if |terms| == 1 then Norm(terms[0])
      else Chain(op, Flattened(op, Norm(terms[0])) + NormAll(terms[1..]))
    case Cond(c, t, rest) => Cond(Norm(c), Norm(t), NormRest(rest))
    case _ => e
  }

  function Flattened(op: ListOp, first: Tree): seq<Tree> {
    if first.Chain? && op.HasInstance(first.op) then first.terms else [first]
  }

  function NormAll(terms: seq<Tree>): (r: seq<Tree>)
    ensures |r| == |terms|
    decreases terms
  {
    if terms == [] then [] else [Norm(terms[0])] + NormAll(terms[1..])
  }

  function NormRest(rest: Rest): Rest
    decreases rest
  {
    match rest
    case NoRest => NoRest
    case ElseRest(e) => ElseRest(Norm(e))
    case ElsifRest(c, t, r) => ElsifRest(Norm(c), Norm(t), NormRest(r))
  }

  // Trees whose text can be parsed back.

  /** The level of the grammar to which the text of a tree belongs. */
  function TextLevel(e: Tree): (level: nat)
    ensures IsLevel(level)
    decreases e
  {
    match e
    case Chain(op, terms) =>
      if terms == [] then PRIMARY_LEVEL
      else if |terms| > 1 then op.Level()
      else if op == Plus || Precedence(terms[0]) > op.Level() then TextLevel(terms[0])
      else PRIMARY_LEVEL
    case _ => Precedence(e)
  }

  /** A child that is printed without parentheses has a text of a stronger level than its parent.  Only sums of one
      term, which are printed like that term, can be weaker than their precedence says. */
  predicate Bound(level: nat, e: Tree) {
    Precedence(e) <= level || TextLevel(e) > level
  }

  predicate AllBound(level: nat, terms: seq<Tree>) {
    terms == [] || (Bound(level, terms[0]) && AllBound(level, terms[1..]))
  }

  /** Empty lists occur in conjunctions only, sums start with a text of numeric level, and so do the two sides of a
      relation; further terms of a boolean list are no boolean operations by their text. */
  predicate Headed(e: Tree)
    decreases e
  {
    match e
    case Inverse(x) => Headed(x)
    case Raised(l, r) => Headed(l) && Headed(r)
    case Related(_, l, r) => Headed(l) && Headed(r) && Bound(RELATION_LEVEL, l) && Bound(RELATION_LEVEL, r)
    case Pair(_, l, r) => Headed(l) && Headed(r)
    case Chain(op, terms) => AllHeaded(terms) && GoodHead(op, terms)
    case Cond(c, t, rest) => Headed(c) && Headed(t) && RestHeaded(rest)
    case _ => true
  }

  predicate GoodHead(op: ListOp, terms: seq<Tree>) {
    if terms == [] then Conj.HasInstance(op)
    else |terms| > 1 ==>
      if op == Plus then TextLevel(terms[0]) >= SIMPLE_LEVEL
      else op.IsBool() ==> AllBound(BOOLEAN_LEVEL, terms[1..])
  }

  predicate AllHeaded(terms: seq<Tree>)
    decreases terms
  {
    terms == [] || (Headed(terms[0]) && AllHeaded(terms[1..]))
  }

  predicate RestHeaded(rest: Rest)
    decreases rest
  {
    match rest
    case NoRest => true
    case ElseRest(e) => Headed(e)
    case ElsifRest(c, t, r) => Headed(c) && Headed(t) && RestHeaded(r)
  }

  lemma PairHeaded(x: Tree, y: Tree)
    ensures AllHeaded([x, y]) == (Headed(x) && Headed(y))
    ensures forall level :: AllBound(level, [x, y][1..]) == Bound(level, y)
  {
    assert [x, y][1..] == [y] && [y][1..] == [];
    assert AllHeaded([y]) == Headed(y);
  }

  lemma PairNorm(op: ListOp, x: Tree, y: Tree)
    ensures Norm(Chain(op, [x, y])) == Chain(op, Flattened(op, Norm(x)) + [Norm(y)])
  {
    assert [x, y][1..] == [y] && [y][1..] == [];
    assert NormAll([y]) == [Norm(y)] + NormAll([]);
  }

  /** The text of a product or of a stronger tree binds as strong as its precedence says. */
  lemma BoundAbove(level: nat, e: Tree)
    requires level >= SIMPLE_LEVEL
    ensures Bound(level, e)
  {
  }

  lemma {:induction false} AllBoundAbove(level: nat, terms: seq<Tree>)
    requires level >= SIMPLE_LEVEL
    ensures AllBound(level, terms)
  {
    if terms != [] {
      BoundAbove(level, terms[0]);
      AllBoundAbove(level, terms[1..]);
    }
  }

  // Texts and the rules of the grammar.

  function TokenLevel(t: Token): nat {
    match t
    case TRaise => FACTOR_LEVEL
    case TRel(_) => RELATION_LEVEL
    case TList(op) => op.Level()
    case TPair(op) => op.Level()
    case _ => 0
  }

  /** The tokens do not start with an operator of the level or of a stronger one. */
  predicate Ends(level: nat, rest: seq<Token>) {
    rest == [] || TokenLevel(rest[0]) < level
  }

  /** What is recognised on one level is recognised on the weaker levels, if no operator follows. */
  lemma {:induction false} Descend(strong: nat, level: nat, ts: seq<Token>)
    requires IsLevel(level) && IsLevel(strong) && level <= strong
    requires ParseAt(strong, ts).Ok? && Ends(level, ParseAt(strong, ts).value.rest)
    ensures ParseAt(level, ts) == ParseAt(strong, ts)
    decreases strong - level
  {
    if level < strong {
      Descend(strong, Up(level), ts);
    }
  }

  /** The outcome of a level after its first operand. */
  function Continue(level: nat, tree: Tree, rest: seq<Token>): Result<Parsed> {
    if IsListLevel(level) then ParseMore(level, tree, rest) else Ok(Parsed(tree, rest))
  }

  /** What may follow a text: no stronger operator, and on the levels of operator lists none of the same level
      is excluded. */
  predicate MayFollow(level: nat, rest: seq<Token>) {
    Ends(if IsListLevel(level) then level + 1 else level, rest)
  }

  lemma Stops(level: nat, tree: Tree, rest: seq<Token>)
    requires Ends(level, rest)
    ensures Continue(level, tree, rest) == Ok(Parsed(tree, rest))
  {
  }

  /** A tree that is recognised on one level is recognised on each weaker one. */
  lemma Weaken(strong: nat, level: nat, tree: Tree, rest: seq<Token>, ts: seq<Token>)
    requires IsLevel(strong) && IsLevel(level) && level <= strong
    requires ParseAt(strong, ts) == Continue(strong, tree, rest) && MayFollow(level, rest)
    ensures ParseAt(level, ts) == Continue(level, tree, rest)
  {
    if level < strong {
      assert Continue(strong, tree, rest) == Ok(Parsed(tree, rest));
      Descend(strong, if IsListLevel(level) then Up(level) else level, ts);
    }
  }

  lemma {:induction false} PrintParses(e: Tree, level: nat, rest: seq<Token>)
    requires Headed(e) && IsLevel(level) && level <= TextLevel(e) && MayFollow(level, rest)
    ensures ParseAt(level, Print(e) + rest) == Continue(level, Norm(e), rest)
    decreases e, 2
  {
    hide Print, ParseAt, ParseMore, Norm, Headed, TextLevel;
    TextParses(e, rest);
    Weaken(TextLevel(e), level, Norm(e), rest, Print(e) + rest);
  }

  lemma {:induction false} WrappedParses(level: nat, e: Tree, rest: seq<Token>)
    requires Headed(e) && Bound(level, e) && IsLevel(level) && level < PRIMARY_LEVEL && Ends(Up(level), rest)
    ensures ParseAt(Up(level), Wrapped(level, e) + rest) == Ok(Parsed(Norm(e), rest))
    decreases e, 4
  {
    if Precedence(e) <= level {
      ParenthesesParse(e, rest);
      Weaken(PRIMARY_LEVEL, Up(level), Norm(e), rest, Wrapped(level, e) + rest);
    } else {
      PrintParses(e, Up(level), rest);
    }
  }

  lemma {:induction false} ParenthesesParse(e: Tree, rest: seq<Token>)
    requires Headed(e)
    ensures ParseAt(PRIMARY_LEVEL, [LPar] + Print(e) + [RPar] + rest) == Ok(Parsed(Norm(e), rest))
    decreases e, 3
  {
    hide ParseAt, ParseMore, Print, Norm, Headed;
    var end := [RPar] + rest;
    PrintParses(e, BOOLEAN_LEVEL, end);
    Stops(BOOLEAN_LEVEL, Norm(e), end);
    InParentheses(Norm(e), Print(e) + end, rest);
    assert [LPar] + Print(e) + [RPar] + rest == [LPar] + (Print(e) + end);
  }

  // The text of a tree on its own level, one lemma for each kind of tree.

  lemma {:induction false} TextParses(e: Tree, rest: seq<Token>)
    requires Headed(e) && MayFollow(TextLevel(e), rest)
    ensures ParseAt(TextLevel(e), Print(e) + rest) == Continue(TextLevel(e), Norm(e), rest)
    decreases e, 1
  {
    hide ParseAt, ParseMore, Wrapped;
    match e
    case Name(_) => LeafParses(e, rest);
    case Truth(_) => LeafParses(e, rest);
    case Numeral(_) => LeafParses(e, rest);
    case Inverse(x) => InverseParses(x, rest);
    case Raised(l, r) => RaisedParses(l, r, rest);
    case Related(rel, l, r) => RelatedParses(rel, l, r, rest);
    case Pair(op, l, r) => PairParses(op, l, r, rest);
    case Chain(op, terms) =>
      if terms == [] {
        LeafParses(Truth(true), rest);
      } else if |terms| == 1 {
        SingleParses(op, terms, rest);
      } else {
        ChainParses(op, terms, rest);
      }
    case Cond(c, t, more) => CondParses(c, t, more, rest);
  }

  lemma LeafParses(e: Tree, rest: seq<Token>)
    requires e.Name? || e.Truth? || e.Numeral?
    ensures ParseAt(PRIMARY_LEVEL, Print(e) + rest) == Ok(Parsed(e, rest))
  {
    var ts := Print(e) + rest;
    assert ts[1..] == rest;
  }

  lemma {:induction false} InverseParses(x: Tree, rest: seq<Token>)
    requires Headed(x) && MayFollow(FACTOR_LEVEL, rest)
    ensures ParseAt(FACTOR_LEVEL, Print(Inverse(x)) + rest) == Ok(Parsed(Inverse(Norm(x)), rest))
    decreases Inverse(x), 0
  {
    hide Wrapped, Norm, Headed;
    var ts := Print(Inverse(x)) + rest;
    assert ts[0] == TNot && ts[1..] == Wrapped(FACTOR_LEVEL, x) + rest;
    BoundAbove(FACTOR_LEVEL, x);
    WrappedParses(FACTOR_LEVEL, x, rest);
  }

  lemma {:induction false} RaisedParses(l: Tree, r: Tree, rest: seq<Token>)
    requires Headed(l) && Headed(r) && MayFollow(FACTOR_LEVEL, rest)
    ensures ParseAt(FACTOR_LEVEL, Print(Raised(l, r)) + rest) == Ok(Parsed(Raised(Norm(l), Norm(r)), rest))
    decreases Raised(l, r), 0
  {
    hide Wrapped, Norm, Headed;
    var after := [TRaise] + (Wrapped(FACTOR_LEVEL, r) + rest);
    assert Print(Raised(l, r)) + rest == Wrapped(FACTOR_LEVEL, l) + after;
    assert after[1..] == Wrapped(FACTOR_LEVEL, r) + rest;
    BoundAbove(FACTOR_LEVEL, l);
    BoundAbove(FACTOR_LEVEL, r);
    WrappedParses(FACTOR_LEVEL, l, after);
    WrappedParses(FACTOR_LEVEL, r, rest);
  }

  lemma {:induction false} RelatedParses(rel: RelOp, l: Tree, r: Tree, rest: seq<Token>)
    requires Headed(l) && Headed(r) && Bound(RELATION_LEVEL, l) && Bound(RELATION_LEVEL, r)
    requires MayFollow(RELATION_LEVEL, rest)
    ensures ParseAt(RELATION_LEVEL, Print(Related(rel, l, r)) + rest) ==
            Ok(Parsed(Related(rel, Norm(l), Norm(r)), rest))
    decreases Related(rel, l, r), 0
  {
    hide Wrapped, Norm, Headed;
    var after := [TRel(rel)] + (Wrapped(RELATION_LEVEL, r) + rest);
    assert Print(Related(rel, l, r)) + rest == Wrapped(RELATION_LEVEL, l) + after;
    assert after[1..] == Wrapped(RELATION_LEVEL, r) + rest;
    WrappedParses(RELATION_LEVEL, l, after);
    WrappedParses(RELATION_LEVEL, r, rest);
  }

  lemma {:induction false} PairParses(op: PairOp, l: Tree, r: Tree, rest: seq<Token>)
    requires Headed(l) && Headed(r) && MayFollow(op.Level(), rest)
    ensures ParseAt(op.Level(), Print(Pair(op, l, r)) + rest) == ParseMore(op.Level(), Pair(op, Norm(l), Norm(r)), rest)
    decreases Pair(op, l, r), 0
  {
    hide Wrapped, Norm, Headed;
    var after := [TPair(op)] + (Wrapped(op.Level(), r) + rest);
    assert Print(Pair(op, l, r)) + rest == Wrapped(op.Level(), l) + after;
    assert after[1..] == Wrapped(op.Level(), r) + rest;
    BoundAbove(op.Level(), l);
    BoundAbove(op.Level(), r);
    WrappedParses(op.Level(), l, after);
    WrappedParses(op.Level(), r, rest);
  }

  lemma {:induction false} SingleParses(op: ListOp, terms: seq<Tree>, rest: seq<Token>)
    requires |terms| == 1 && Headed(Chain(op, terms)) && MayFollow(TextLevel(Chain(op, terms)), rest)
    ensures var level := TextLevel(Chain(op, terms));
            ParseAt(level, Print(Chain(op, terms)) + rest) == Continue(level, Norm(Chain(op, terms)), rest)
    decreases Chain(op, terms), 0
  {
    var t, e := terms[0], Chain(op, terms);
    assert terms[1..] == [];
    if op == Plus || Precedence(t) > op.Level() {
      assert Print(e) == Print(t) + [] == Print(t);
      TextParses(t, rest);
    } else {
      assert Print(e) == Wrapped(op.Level(), t) + [] == [LPar] + Print(t) + [RPar];
      ParenthesesParse(t, rest);
    }
  }

  lemma {:induction false} ChainParses(op: ListOp, terms: seq<Tree>, rest: seq<Token>)
    requires Headed(Chain(op, terms)) && |terms| > 1 && MayFollow(op.Level(), rest)
    ensures ParseAt(op.Level(), Print(Chain(op, terms)) + rest) == ParseMore(op.Level(), Norm(Chain(op, terms)), rest)
    decreases Chain(op, terms), 0
  {
    hide ParseAt, ParseMore, PrintMore, Wrapped, TextLevel, Headed;
    var first, second, more := terms[0], terms[1], terms[2..];
    assert terms[1..][0] == second && terms[1..][1..] == more;
    ChainHeaded(op, terms);
    var tail := PrintMore(op, more) + rest;
    var after := PrintMore(op, terms[1..]) + rest;
    PrintMoreStep(op, terms[1..], rest);
    HeadParses(op, first, after);
    var text := if op == Plus then Print(first) else Wrapped(op.Level(), first);
    assert Print(Chain(op, terms)) + rest == text + after;
    SecondParses(op, Norm(first), second, more, rest);
    var head := Flattened(op, Norm(first));
    MoreParses(op, head + [Norm(second)], more, rest);
    assert head + [Norm(second)] + NormAll(more) == head + NormAll(terms[1..]);
  }

  lemma ChainHeaded(op: ListOp, terms: seq<Tree>)
    requires Headed(Chain(op, terms)) && |terms| > 1
    ensures Headed(terms[0]) && Headed(terms[1]) && AllHeaded(terms[2..])
    ensures Bound(op.Level(), terms[1]) && AllBound(op.Level(), terms[2..])
    ensures op == Plus ==> TextLevel(terms[0]) >= SIMPLE_LEVEL
  {
    assert AllHeaded(terms[1..]) && terms[1..][0] == terms[1] && terms[1..][1..] == terms[2..];
    if !op.IsBool() {
      AllBoundAbove(op.Level(), terms[1..]);
    }
  }

  lemma {:induction false} SecondParses(op: ListOp, left: Tree, second: Tree, more: seq<Tree>, rest: seq<Token>)
    requires Headed(second) && Bound(op.Level(), second) && MayFollow(op.Level(), rest)
    ensures ParseMore(op.Level(), left, [TList(op)] + (Wrapped(op.Level(), second) + (PrintMore(op, more) + rest))) ==
            ParseMore(op.Level(), Chain(op, Flattened(op, left) + [Norm(second)]), PrintMore(op, more) + rest)
    decreases second, 5
  {
    hide PrintMore, Wrapped, Norm, Headed, ParseAt;
    var tail := PrintMore(op, more) + rest;
    MoreFollows(op, more, rest);
    WrappedParses(op.Level(), second, tail);
    var after := [TList(op)] + (Wrapped(op.Level(), second) + tail);
    assert after[1..] == Wrapped(op.Level(), second) + tail;
    assert [left] + [Norm(second)] == [left, Norm(second)];
  }

  lemma PrintMoreStep(op: ListOp, terms: seq<Tree>, rest: seq<Token>)
    requires terms != []
    ensures PrintMore(op, terms) + rest ==
            [TList(op)] + (Wrapped(op.Level(), terms[0]) + (PrintMore(op, terms[1..]) + rest))
  {
    hide Wrapped, Print;
  }

  /** The first term of a list, which is not put in parentheses in a sum; it may be a text of the same level. */
  lemma {:induction false} HeadParses(op: ListOp, first: Tree, after: seq<Token>)
    requires Headed(first) && (op == Plus ==> TextLevel(first) >= SIMPLE_LEVEL) && Starts(after, TList(op))
    ensures var text := if op == Plus then Print(first) else Wrapped(op.Level(), first);
            ParseAt(op.Level(), text + after) == ParseMore(op.Level(), Norm(first), after)
    decreases first, 5
  {
    if op == Plus || Precedence(first) > op.Level() {
      if op == Star {
        BoundAbove(TERM_LEVEL, first);
      }
      PrintParses(first, op.Level(), after);
    } else {
      WrappedParses(op.Level(), first, after);
    }
  }

  lemma MoreFollows(op: ListOp, terms: seq<Tree>, rest: seq<Token>)
    requires MayFollow(op.Level(), rest)
    ensures MayFollow(op.Level(), PrintMore(op, terms) + rest)
  {
    if terms == [] {
      assert [] + rest == rest;
    }
  }

  lemma {:induction false} MoreParses(op: ListOp, acc: seq<Tree>, terms: seq<Tree>, rest: seq<Token>)
    requires AllHeaded(terms) && AllBound(op.Level(), terms) && MayFollow(op.Level(), rest)
    ensures ParseMore(op.Level(), Chain(op, acc), PrintMore(op, terms) + rest) ==
            ParseMore(op.Level(), Chain(op, acc + NormAll(terms)), rest)
    decreases terms
  {
    hide ParseAt, ParseMore, Norm, Headed, Wrapped;
    if terms == [] {
      assert acc + [] == acc && [] + rest == rest;
    } else {
      PrintMoreStep(op, terms, rest);
      SecondParses(op, Chain(op, acc), terms[0], terms[1..], rest);
      MoreParses(op, acc + [Norm(terms[0])], terms[1..], rest);
      assert acc + [Norm(terms[0])] + NormAll(terms[1..]) == acc + NormAll(terms);
    }
  }

  lemma {:induction false} CondParses(c: Tree, t: Tree, more: Rest, rest: seq<Token>)
    requires Headed(c) && Headed(t) && RestHeaded(more)
    ensures ParseAt(PRIMARY_LEVEL, Print(Cond(c, t, more)) + rest) == Ok(Parsed(Norm(Cond(c, t, more)), rest))
    decreases Cond(c, t, more), 0
  {
    hide Headed, ParseAt, ParseRest, Print, PrintRest;
    var e := Norm(Cond(c, t, more));
    var end := [RPar] + rest;
    var tail := PrintRest(more) + end;
    var onThen := [TThen] + (Print(t) + tail);
    RestStops(more, end);
    PrintParses(c, BOOLEAN_LEVEL, onThen);
    PrintParses(t, BOOLEAN_LEVEL, tail);
    RestParses(more, end);
    Stops(BOOLEAN_LEVEL, Norm(c), onThen);
    Stops(BOOLEAN_LEVEL, Norm(t), tail);
    Stops(BOOLEAN_LEVEL, e, end);
    var inner := [TIf] + (Print(c) + onThen);
    assert ParseAt(BOOLEAN_LEVEL, Print(c) + onThen) == Ok(Parsed(Norm(c), onThen));
    assert ParseAt(BOOLEAN_LEVEL, Print(t) + tail) == Ok(Parsed(Norm(t), tail));
    assert ParseRest(tail) == Ok(ParsedRest(NormRest(more), end));
    BareCondParses(Print(c) + onThen, Print(t) + tail, tail, end, Norm(c), Norm(t), NormRest(more));
    Weaken(PRIMARY_LEVEL, BOOLEAN_LEVEL, e, end, inner);
    CondText(c, t, more, rest);
    InParentheses(e, inner, rest);
  }

  lemma RestStops(more: Rest, end: seq<Token>)
    requires Starts(end, RPar)
    ensures Ends(BOOLEAN_LEVEL, PrintRest(more) + end)
  {
    if more.NoRest? {
      assert [] + end == end;
    }
  }

  lemma CondText(c: Tree, t: Tree, more: Rest, rest: seq<Token>)
    ensures Print(Cond(c, t, more)) + rest ==
            [LPar] + ([TIf] + (Print(c) + ([TThen] + (Print(t) + (PrintRest(more) + ([RPar] + rest))))))
  {
    var p, q, r := Print(c), Print(t), PrintRest(more);
    assert Print(Cond(c, t, more)) == [LPar, TIf] + p + [TThen] + q + r + [RPar];
  }

  lemma InParentheses(e: Tree, inner: seq<Token>, rest: seq<Token>)
    requires ParseAt(BOOLEAN_LEVEL, inner) == Ok(Parsed(e, [RPar] + rest))
    ensures ParseAt(PRIMARY_LEVEL, [LPar] + inner) == Ok(Parsed(e, rest))
  {
    var ts, end := [LPar] + inner, [RPar] + rest;
    assert ts[1..] == inner && end[1..] == rest;
  }

  /** The rule of a conditional without the parentheses. */
  lemma BareCondParses(onCond: seq<Token>, onThn: seq<Token>, onRest: seq<Token>, end: seq<Token>,
                       c: Tree, t: Tree, more: Rest)
    requires ParseAt(BOOLEAN_LEVEL, onCond) == Ok(Parsed(c, [TThen] + onThn))
    requires ParseAt(BOOLEAN_LEVEL, onThn) == Ok(Parsed(t, onRest))
    requires ParseRest(onRest) == Ok(ParsedRest(more, end))
    ensures ParseAt(PRIMARY_LEVEL, [TIf] + onCond) == Ok(Parsed(Cond(c, t, more), end))
  {
    hide ParseMore, ParseRest;
    var ts, onThen := [TIf] + onCond, [TThen] + onThn;
    assert ts[1..] == onCond && onThen[1..] == onThn;
  }

  lemma {:induction false} RestParses(more: Rest, end: seq<Token>)
    requires RestHeaded(more) && Starts(end, RPar)
    ensures ParseRest(PrintRest(more) + end) == Ok(ParsedRest(NormRest(more), end))
    decreases more
  {
    hide Headed, Print, ParseAt, ParseMore;
    var ts := PrintRest(more) + end;
    match more
    case NoRest => assert ts == end;
    case ElseRest(e) =>
      assert ts[1..] == Print(e) + end;
      PrintParses(e, BOOLEAN_LEVEL, end);
      Stops(BOOLEAN_LEVEL, Norm(e), end);
    case ElsifRest(c, t, r) =>
      var tail := PrintRest(r) + end;
      var onThen := [TThen] + (Print(t) + tail);
      RestStops(r, end);
      PrintParses(c, BOOLEAN_LEVEL, onThen);
      PrintParses(t, BOOLEAN_LEVEL, tail);
      RestParses(r, end);
      Stops(BOOLEAN_LEVEL, Norm(c), onThen);
      Stops(BOOLEAN_LEVEL, Norm(t), tail);
      ElsifParses(Print(c) + onThen, Print(t) + tail, tail, end, Norm(c), Norm(t), NormRest(r));
      ElsifText(c, t, r, end);
  }

  lemma ElsifParses(onCond: seq<Token>, onThn: seq<Token>, onRest: seq<Token>, end: seq<Token>,
                    c: Tree, t: Tree, more: Rest)
    requires ParseAt(BOOLEAN_LEVEL, onCond) == Ok(Parsed(c, [TThen] + onThn))
    requires ParseAt(BOOLEAN_LEVEL, onThn) == Ok(Parsed(t, onRest))
    requires ParseRest(onRest) == Ok(ParsedRest(more, end))
    ensures ParseRest([TElsif] + onCond) == Ok(ParsedRest(ElsifRest(c, t, more), end))
  {
    hide ParseAt;
    var ts, onThen := [TElsif] + onCond, [TThen] + onThn;
    assert ts[1..] == onCond && onThen[1..] == onThn;
  }

  lemma ElsifText(c: Tree, t: Tree, r: Rest, end: seq<Token>)
    ensures PrintRest(ElsifRest(c, t, r)) + end ==
            [TElsif] + (Print(c) + ([TThen] + (Print(t) + (PrintRest(r) + end))))
  {
    var p, q, z := Print(c), Print(t), PrintRest(r);
    assert PrintRest(ElsifRest(c, t, r)) == [TElsif] + p + [TThen] + q + z;
  }

  /** Parsing undoes printing. */
  lemma PrintThenParse(e: Tree)
    requires Headed(e)
    ensures Parse(Print(e)) == Ok(Norm(e))
  {
    PrintParses(e, BOOLEAN_LEVEL, []);
    assert Print(e) + [] == Print(e);
  }
}
