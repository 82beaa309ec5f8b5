/** Ada expressions, their tokens, the printer and the parser.  A tree is printed with parentheses placed by
    precedence; the parser follows the levels of the expression grammar of Ada (section 4.4 of the Ada 2012
    Reference Manual) and folds flat operator lists from the left. */
module AdaSyntax {
  import opened Results
  import opened Expressions

  /** The operators with lists of terms. */
  datatype ListOp = Conj | ConjThen | Disj | DisjElse | Plus | Amp | Star {
    predicate IsBool() {
      this == Conj || this == ConjThen || this == Disj || this == DisjElse
    }

    function Level(): nat {
      if IsBool() then BOOLEAN_LEVEL else if this == Star then TERM_LEVEL else SIMPLE_LEVEL
    }

    /** `and then` is a subclass of `and`, and `or else` of `or`. */
    predicate HasInstance(other: ListOp) {
      this == other || (this == Conj && other == ConjThen) || (this == Disj && other == DisjElse)
    }
  }

  /** The operators with two operands on the levels of sums and products. */
  datatype PairOp = Minus | Slash | Modulo | Remainder {
    function Level(): nat {
      if this == Minus then SIMPLE_LEVEL else TERM_LEVEL
    }
  }

  datatype Tree =
    | Name(id: string)
    | Truth(b: bool)
    | Numeral(n: nat)
    | Inverse(arg: Tree)
    | Raised(left: Tree, right: Tree)
    | Related(rel: RelOp, left: Tree, right: Tree)
    | Chain(op: ListOp, terms: seq<Tree>)
    | Pair(pair: PairOp, left: Tree, right: Tree)
    | Cond(cond: Tree, thn: Tree, rest: Rest)

  datatype Rest = NoRest | ElseRest(els: Tree) | ElsifRest(cond: Tree, thn: Tree, rest: Rest)

  datatype Token =
    | TName(id: string)
    | TTruth(b: bool)
    | TNumeral(n: nat)
    | TNot
    | TRaise
    | TRel(rel: RelOp)
    | TList(op: ListOp)
    | TPair(pair: PairOp)
    | LPar
    | RPar
    | TIf
    | TThen
    | TElsif
    | TElse

  // The levels of the grammar are numbered like the precedences of the operators.

  const BOOLEAN_LEVEL: nat := 1
  const RELATION_LEVEL: nat := 2
  const SIMPLE_LEVEL: nat := 3
  const TERM_LEVEL: nat := 5
  const FACTOR_LEVEL: nat := 6
  const PRIMARY_LEVEL: nat := 7

  predicate IsLevel(level: nat) {
    1 <= level <= 7 && level != 4
  }

  predicate IsListLevel(level: nat) {
    level == BOOLEAN_LEVEL || level == SIMPLE_LEVEL || level == TERM_LEVEL
  }

  /** The level of the operands of a level. */
  function Up(level: nat): nat {
    if level == SIMPLE_LEVEL then TERM_LEVEL else level + 1
  }

  function Precedence(e: Tree): (p: nat)
    ensures IsLevel(p)
  {
    match e
    case Inverse(_) | Raised(_, _) => FACTOR_LEVEL
    case Related(_, _, _) => RELATION_LEVEL
    case Chain(op, _) => op.Level()
    case Pair(op, _, _) => op.Level()
    case _ => PRIMARY_LEVEL
  }

  // Printing.

  function Print(e: Tree): seq<Token>
    decreases e, 1
  {
    match e
    case Name(id) => [TName(id)]
    case Truth(b) => [TTruth(b)]
    case Numeral(n) => [TNumeral(n)]
    case Inverse(x) => [TNot] + Wrapped(FACTOR_LEVEL, x)
    case Raised(l, r) => Wrapped(FACTOR_LEVEL, l) + [TRaise] + Wrapped(FACTOR_LEVEL, r)
    case Related(rel, l, r) => Wrapped(RELATION_LEVEL, l) + [TRel(rel)] + Wrapped(RELATION_LEVEL, r)
    case Pair(op, l, r) => Wrapped(op.Level(), l) + [TPair(op)] + Wrapped(op.Level(), r)
    case Chain(op, terms) =>
      if terms == [] then (if op.IsBool() then [TTruth(true)] else [])
      else if op == Plus then Print(terms[0]) + PrintMore(op, terms[1..])
      else Wrapped(op.Level(), terms[0]) + PrintMore(op, terms[1..])
    case Cond(c, t, rest) => [LPar, TIf] + Print(c) + [TThen] + Print(t) + PrintRest(rest) + [RPar]
  }

  /** A child in parentheses unless it binds stronger than its parent. */
  function Wrapped(level: nat, e: Tree): seq<Token>
    decreases e, 2
  {
    if Precedence(e) <= level then [LPar] + Print(e) + [RPar] else Print(e)
  }

  function PrintMore(op: ListOp, terms: seq<Tree>): seq<Token>
    decreases terms
  {
    if terms == [] then [] else [TList(op)] + Wrapped(op.Level(), terms[0]) + PrintMore(op, terms[1..])
  }

  function PrintRest(rest: Rest): seq<Token>
    decreases rest
  {
    match rest
    case NoRest => []
    case ElseRest(e) => [TElse] + Print(e)
    case ElsifRest(c, t, r) => [TElsif] + Print(c) + [TThen] + Print(t) + PrintRest(r)
  }

  // The printers that are loops.

  lemma {:induction false} PrintMoreConcat(op: ListOp, a: seq<Tree>, b: seq<Tree>)
    ensures PrintMore(op, a + b) == PrintMore(op, a) + PrintMore(op, b)
  {
    if a == [] {
      assert a + b == b;
    } else {
      assert (a + b)[1..] == a[1..] + b;
      PrintMoreConcat(op, a[1..], b);
      var first := [TList(op)] + Wrapped(op.Level(), a[0]);
      assert first + (PrintMore(op, a[1..]) + PrintMore(op, b)) == first + PrintMore(op, a[1..]) + PrintMore(op, b);
    }
  }

  lemma PrintMoreSingle(op: ListOp, t: Tree)
    ensures PrintMore(op, [t]) == [TList(op)] + Wrapped(op.Level(), t)
  {
    assert [t][1..] == [];
    var first := [TList(op)] + Wrapped(op.Level(), t);
    assert first + [] == first;
  }

  lemma PrintMoreEmpty(op: ListOp)
    ensures PrintMore(op, []) == []
  {
  }

  /** A sum is printed from its first term, which is never put in parentheses. */
  method PrintSum(terms: seq<Tree>) returns (result: seq<Token>)
    requires terms != []
    ensures result == Print(Chain(Plus, terms))
  {
    hide Wrapped, PrintMore;
    result := Print(terms[0]);
    var more := terms[1..];
    PrintMoreEmpty(Plus);
    for i := 0 to |more|
      invariant result == Print(terms[0]) + PrintMore(Plus, more[..i])
    {
      PrintMoreConcat(Plus, more[..i], [more[i]]);
      PrintMoreSingle(Plus, more[i]);
      assert more[..i] + [more[i]] == more[..i + 1];
      assert result + ([TList(Plus)] + Wrapped(SIMPLE_LEVEL, more[i])) ==
             Print(terms[0]) + (PrintMore(Plus, more[..i]) + ([TList(Plus)] + Wrapped(SIMPLE_LEVEL, more[i])));
      result := result + ([TList(Plus)] + Wrapped(SIMPLE_LEVEL, more[i]));
    }
    assert more[..|more|] == more;
  }

  /** A boolean operation is printed from its last term. */
  method PrintBool(op: ListOp, terms: seq<Tree>) returns (result: seq<Token>)
    requires op.IsBool()
    ensures result == Print(Chain(op, terms))
  {
    if terms == [] {
      return [TTruth(true)];
    }
    result := [];
    for i := |terms| downto 0
      invariant result == if i == 0 then Print(Chain(op, terms)) else PrintMore(op, terms[i..])
    {
      if i == 0 {
        result := Wrapped(BOOLEAN_LEVEL, terms[0]) + result;
      } else {
        assert terms[i..][1..] == terms[i + 1..];
        result := [TList(op)] + Wrapped(BOOLEAN_LEVEL, terms[i]) + result;
      }
    }
  }

  // Parsing.

  /** What a rule of the grammar has recognised, and the tokens after it. */
  datatype Parsed = Parsed(tree: Tree, rest: seq<Token>)

  datatype ParsedRest = ParsedRest(part: Rest, rest: seq<Token>)

  predicate Starts(ts: seq<Token>, t: Token) {
    ts != [] && ts[0] == t
  }

  function Expect(ts: seq<Token>, t: Token): Result<seq<Token>> {
    if Starts(ts, t) then Ok(ts[1..]) else Error
  }

  /** The fold of one more operand: the terms of a first operand of the same class are taken over. */
  function Append(op: ListOp, left: Tree, right: Tree): Tree {
    if left.Chain? && op.HasInstance(left.op) then Chain(op, left.terms + [right]) else Chain(op, [left, right])
  }

  function ParseAt(level: nat, ts: seq<Token>): (r: Result<Parsed>)
    requires IsLevel(level)
    ensures r.Ok? ==> |r.value.rest| < |ts|
    decreases |ts|, 7 - level, 1
  {
    if IsListLevel(level) then
      var p :- ParseAt(Up(level), ts);
      ParseMore(level, p.tree, p.rest)
    else if level == RELATION_LEVEL then
      var l :- ParseAt(SIMPLE_LEVEL, ts);
      if l.rest != [] && l.rest[0].TRel? then
        var r :- ParseAt(SIMPLE_LEVEL, l.rest[1..]);
        Ok(Parsed(Related(l.rest[0].rel, l.tree, r.tree), r.rest))
      else Ok(l)
    else if level == FACTOR_LEVEL then
      if Starts(ts, TNot) then
        var x :- ParseAt(PRIMARY_LEVEL, ts[1..]);
        Ok(Parsed(Inverse(x.tree), x.rest))
      else
        var l :- ParseAt(PRIMARY_LEVEL, ts);
        if Starts(l.rest, TRaise) then
          var r :- ParseAt(PRIMARY_LEVEL, l.rest[1..]);
          Ok(Parsed(Raised(l.tree, r.tree), r.rest))
        else Ok(l)
    else if ts == [] then Error
    else
      match ts[0]
      case TName(id) => Ok(Parsed(Name(id), ts[1..]))
      case TTruth(b) => Ok(Parsed(Truth(b), ts[1..]))
      case TNumeral(n) => Ok(Parsed(Numeral(n), ts[1..]))
      case LPar =>
        var e :- ParseAt(BOOLEAN_LEVEL, ts[1..]);
        var rest :- Expect(e.rest, RPar);
        Ok(Parsed(e.tree, rest))
      case TIf =>
        var c :- ParseAt(BOOLEAN_LEVEL, ts[1..]);
        var body :- Expect(c.rest, TThen);
        var t :- ParseAt(BOOLEAN_LEVEL, body);
        var more :- ParseRest(t.rest);
        Ok(Parsed(Cond(c.tree, t.tree, more.part), more.rest))
      case _ => Error
  }

  /** Further operands of a level with operator lists. */
  function ParseMore(level: nat, left: Tree, ts: seq<Token>): (r: Result<Parsed>)
    requires IsListLevel(level)
    ensures r.Ok? ==> |r.value.rest| <= |ts|
    decreases |ts|, 0, 0
  {
    if ts != [] && ts[0].TList? && ts[0].op.Level() == level then
      var x :- ParseAt(Up(level), ts[1..]);
      ParseMore(level, Append(ts[0].op, left, x.tree), x.rest)
    else if ts != [] && ts[0].TPair? && ts[0].pair.Level() == level then
      var x :- ParseAt(Up(level), ts[1..]);
      ParseMore(level, Pair(ts[0].pair, left, x.tree), x.rest)
    else Ok(Parsed(left, ts))
  }

  function ParseRest(ts: seq<Token>): (r: Result<ParsedRest>)
    ensures r.Ok? ==> |r.value.rest| <= |ts|
    decreases |ts|, 0, 0
  {
    if Starts(ts, TElsif) then
      var c :- ParseAt(BOOLEAN_LEVEL, ts[1..]);
      var body :- Expect(c.rest, TThen);
      var t :- ParseAt(BOOLEAN_LEVEL, body);
      var more :- ParseRest(t.rest);
      Ok(ParsedRest(ElsifRest(c.tree, t.tree, more.part), more.rest))
    else if Starts(ts, TElse) then
      var e :- ParseAt(BOOLEAN_LEVEL, ts[1..]);
      Ok(ParsedRest(ElseRest(e.tree), e.rest))
    else Ok(ParsedRest(NoRest, ts))
  }

  /** A whole text is one expression. */
  function Parse(ts: seq<Token>): Result<Tree> {
    var p :- ParseAt(BOOLEAN_LEVEL, ts);
    if p.rest == [] then Ok(p.tree) else Error
  }
}
