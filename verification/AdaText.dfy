/** How many parentheses the printer writes. */
module AdaText {
  import opened AdaSyntax

  /** One pair for a child that does not bind stronger than its parent. */
  function Enclosed(level: nat, child: Tree): nat
    decreases child, 1
  {
    Brackets(child) + if Precedence(child) <= level then 1 else 0
  }

  /** The pairs of parentheses in the text of a tree: those of its children, but for the first term of a sum, and those
      of its conditionals. */
  function Brackets(e: Tree): nat
    decreases e, 0
  {
    match e
    case Inverse(x) => Enclosed(FACTOR_LEVEL, x)
    case Raised(l, r) => Enclosed(FACTOR_LEVEL, l) + Enclosed(FACTOR_LEVEL, r)
    case Related(_, l, r) => Enclosed(RELATION_LEVEL, l) + Enclosed(RELATION_LEVEL, r)
    case Pair(op, l, r) => Enclosed(op.Level(), l) + Enclosed(op.Level(), r)
    case Chain(op, terms) =>
      if terms == [] then 0
      else if op == Plus then Brackets(terms[0]) + BracketsAll(op, terms[1..])
      else BracketsAll(op, terms)
    case Cond(c, t, rest) => 1 + Brackets(c) + Brackets(t) + BracketsRest(rest)
    case _ => 0
  }

  function BracketsAll(op: ListOp, terms: seq<Tree>): nat
    decreases terms
  {
    if terms == [] then 0 else Enclosed(op.Level(), terms[0]) + BracketsAll(op, terms[1..])
  }

  function BracketsRest(rest: Rest): nat
    decreases rest
  {
    match rest
    case NoRest => 0
    case ElseRest(e) => Brackets(e)
    case ElsifRest(c, t, r) => Brackets(c) + Brackets(t) + BracketsRest(r)
  }

  predicate Holds(ts: seq<Token>, n: nat) {
    multiset(ts)[LPar] == n && multiset(ts)[RPar] == n
  }

  lemma Joined(a: seq<Token>, b: seq<Token>, n: nat, m: nat)
    requires Holds(a, n) && Holds(b, m)
    ensures Holds(a + b, n + m)
  {
  }

  lemma Operator(t: Token)
    requires t != LPar && t != RPar
    ensures Holds([t], 0)
  {
  }

  lemma InfixText(level: nat, l: Tree, t: Token, r: Tree)
    requires t != LPar && t != RPar
    requires Holds(Wrapped(level, l), Enclosed(level, l)) && Holds(Wrapped(level, r), Enclosed(level, r))
    ensures Holds(Wrapped(level, l) + [t] + Wrapped(level, r), Enclosed(level, l) + Enclosed(level, r))
  {
    hide *;
    Operator(t);
    Joined(Wrapped(level, l), [t], Enclosed(level, l), 0);
    Joined(Wrapped(level, l) + [t], Wrapped(level, r), Enclosed(level, l), Enclosed(level, r));
  }

  /** The text of every tree has exactly these parentheses. */
  lemma {:induction false} ParenthesesOfText(e: Tree)
    ensures Holds(Print(e), Brackets(e))
    decreases e, 1
  {
    hide Holds, Wrapped, Enclosed, PrintMore, BracketsAll;
    match e
    case Inverse(x) =>
      WrappedText(FACTOR_LEVEL, x);
      Operator(TNot);
      Joined([TNot], Wrapped(FACTOR_LEVEL, x), 0, Enclosed(FACTOR_LEVEL, x));
    case Raised(l, r) =>
      WrappedText(FACTOR_LEVEL, l);
      WrappedText(FACTOR_LEVEL, r);
      InfixText(FACTOR_LEVEL, l, TRaise, r);
    case Related(rel, l, r) =>
      WrappedText(RELATION_LEVEL, l);
      WrappedText(RELATION_LEVEL, r);
      InfixText(RELATION_LEVEL, l, TRel(rel), r);
    case Pair(op, l, r) =>
      WrappedText(op.Level(), l);
      WrappedText(op.Level(), r);
      InfixText(op.Level(), l, TPair(op), r);
    case Chain(op, terms) => ChainText(op, terms);
    case Cond(c, t, rest) => CondText(c, t, rest);
    case _ => LeafText(e);
  }

  lemma LeafText(e: Tree)
    requires e.Name? || e.Truth? || e.Numeral?
    ensures Holds(Print(e), Brackets(e))
  {
  }

  lemma {:induction false} ChainText(op: ListOp, terms: seq<Tree>)
    ensures Holds(Print(Chain(op, terms)), Brackets(Chain(op, terms)))
    decreases Chain(op, terms), 0
  {
    hide *;
    if terms == [] {
      EmptyText(op);
    } else {
      var first, more, n := terms[0], PrintMore(op, terms[1..]), BracketsAll(op, terms[1..]);
      MoreText(op, terms[1..]);
      ChainParts(op, terms);
      if op == Plus {
        ParenthesesOfText(first);
        Joined(Print(first), more, Brackets(first), n);
      } else {
        WrappedText(op.Level(), first);
        Joined(Wrapped(op.Level(), first), more, Enclosed(op.Level(), first), n);
      }
    }
  }

  lemma EmptyText(op: ListOp)
    ensures Holds(Print(Chain(op, [])), Brackets(Chain(op, [])))
  {
  }

  lemma ChainParts(op: ListOp, terms: seq<Tree>)
    requires terms != []
    ensures Print(Chain(op, terms)) ==
            (if op == Plus then Print(terms[0]) else Wrapped(op.Level(), terms[0])) + PrintMore(op, terms[1..])
    ensures Brackets(Chain(op, terms)) ==
            (if op == Plus then Brackets(terms[0]) else Enclosed(op.Level(), terms[0])) + BracketsAll(op, terms[1..])
  {
    hide Wrapped, Enclosed;
  }

  lemma {:induction false} CondText(c: Tree, t: Tree, rest: Rest)
    ensures Holds(Print(Cond(c, t, rest)), Brackets(Cond(c, t, rest)))
    decreases Cond(c, t, rest), 0
  {
    hide *;
    ParenthesesOfText(c);
    ParenthesesOfText(t);
    RestText(rest);
    CondHolds(c, t, rest);
  }

  lemma CondHolds(c: Tree, t: Tree, rest: Rest)
    requires Holds(Print(c), Brackets(c)) && Holds(Print(t), Brackets(t)) && Holds(PrintRest(rest), BracketsRest(rest))
    ensures Holds(Print(Cond(c, t, rest)), Brackets(Cond(c, t, rest)))
  {
    CondParts(c, t, rest);
    hide Print, PrintRest, Brackets, BracketsRest;
  }

  lemma CondParts(c: Tree, t: Tree, rest: Rest)
    ensures Print(Cond(c, t, rest)) == [LPar, TIf] + Print(c) + [TThen] + Print(t) + PrintRest(rest) + [RPar]
    ensures Brackets(Cond(c, t, rest)) == 1 + Brackets(c) + Brackets(t) + BracketsRest(rest)
  {
  }

  lemma {:induction false} WrappedText(level: nat, e: Tree)
    ensures Holds(Wrapped(level, e), Enclosed(level, e))
    decreases e, 2
  {
    hide Print, Brackets;
    ParenthesesOfText(e);
  }

  lemma {:induction false} MoreText(op: ListOp, terms: seq<Tree>)
    ensures Holds(PrintMore(op, terms), BracketsAll(op, terms))
    decreases terms
  {
    hide Wrapped, Enclosed;
    if terms != [] {
      WrappedText(op.Level(), terms[0]);
      MoreText(op, terms[1..]);
    }
  }

  lemma {:induction false} RestText(rest: Rest)
    ensures Holds(PrintRest(rest), BracketsRest(rest))
    decreases rest
  {
    hide Print, Brackets;
    match rest
    case NoRest =>
    case ElseRest(e) => ParenthesesOfText(e);
    case ElsifRest(c, t, r) =>
      ParenthesesOfText(c);
      ParenthesesOfText(t);
      RestText(r);
  }
}
