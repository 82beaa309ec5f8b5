/** The expression grammar as a relation between token strings and trees.  The rules are those of section 4.4 of the Ada
    2012 Reference Manual as far as the parser supports them, with the longest match where they are ambiguous: a
    conditional without parentheses extends as far as possible. */
module AdaGrammar {
  import opened Results
  import opened AdaSyntax
  import opened AdaRoundTrip

  // The relation.  `next` is what follows the text; only its first token matters.

  predicate IsOperator(level: nat, t: Token) {
    (t.TList? && t.op.Level() == level) || (t.TPair? && t.pair.Level() == level)
  }

  function Joined(t: Token, left: Tree, right: Tree): Tree
    requires t.TList? || t.TPair?
  {
    if t.TList? then Append(t.op, left, right) else Pair(t.pair, left, right)
  }

  /** The text derives the tree on a level of the grammar. */
  ghost predicate Derives(level: nat, ts: seq<Token>, t: Tree, next: seq<Token>)
    requires IsLevel(level)
    decreases |ts|, 7 - level, 2
  {
    if IsListLevel(level) then
      DerivesList(level, ts, t, next) && (next == [] || !IsOperator(level, next[0]))
    else if level == RELATION_LEVEL then
      || (Derives(SIMPLE_LEVEL, ts, t, next) && (next == [] || !next[0].TRel?))
      || (exists i: nat :: DerivesRelation(ts, t, next, i))
    else if level == FACTOR_LEVEL then
      || (Derives(PRIMARY_LEVEL, ts, t, next) && !Starts(next, TRaise))
      || (Starts(ts, TNot) && t.Inverse? && Derives(PRIMARY_LEVEL, ts[1..], t.arg, next))
      || (exists i: nat :: DerivesPower(ts, t, next, i))
    else
      || (|ts| == 1 && IsLeaf(ts[0], t))
      || (|ts| >= 2 && ts[0] == LPar && ts[|ts| - 1] == RPar
          && Derives(BOOLEAN_LEVEL, ts[1..|ts| - 1], t, [RPar] + next))
      || (Starts(ts, TIf) && t.Cond?
          && exists i: nat, j: nat :: DerivesBranch(ts, t.cond, t.thn, t.rest, next, i, j))
  }

  predicate IsLeaf(token: Token, t: Tree) {
    || (token.TName? && t == Name(token.id))
    || (token.TTruth? && t == Truth(token.b))
    || (token.TNumeral? && t == Numeral(token.n))
  }

  ghost predicate DerivesRelation(ts: seq<Token>, t: Tree, next: seq<Token>, i: nat)
    decreases |ts|, 7 - RELATION_LEVEL, 1
  {
    && i < |ts| && ts[i].TRel? && t.Related? && t.rel == ts[i].rel
    && Derives(SIMPLE_LEVEL, ts[..i], t.left, ts[i..] + next)
    && Derives(SIMPLE_LEVEL, ts[i + 1..], t.right, next)
  }

  ghost predicate DerivesPower(ts: seq<Token>, t: Tree, next: seq<Token>, i: nat)
    decreases |ts|, 7 - FACTOR_LEVEL, 1
  {
    && i < |ts| && ts[i] == TRaise && t.Raised?
    && Derives(PRIMARY_LEVEL, ts[..i], t.left, ts[i..] + next)
    && Derives(PRIMARY_LEVEL, ts[i + 1..], t.right, next)
  }

  /** A condition from index 1 on, `then` at `i`, an expression, and from `j` on what follows it. */
  ghost predicate DerivesBranch(ts: seq<Token>, c: Tree, t: Tree, rest: Rest, next: seq<Token>, i: nat, j: nat)
    decreases |ts|, 0, 1
  {
    && 1 <= i < j <= |ts| && ts[i] == TThen
    && Derives(BOOLEAN_LEVEL, ts[1..i], c, ts[i..] + next)
    && Derives(BOOLEAN_LEVEL, ts[i + 1..j], t, ts[j..] + next)
    && DerivesRest(ts[j..], rest, next)
  }

  ghost predicate DerivesRest(ts: seq<Token>, rest: Rest, next: seq<Token>)
    decreases |ts|, 7, 3
  {
    match rest
    case NoRest => ts == [] && !Starts(next, TElsif) && !Starts(next, TElse)
    case ElseRest(e) => Starts(ts, TElse) && Derives(BOOLEAN_LEVEL, ts[1..], e, next)
    case ElsifRest(c, t, more) =>
      Starts(ts, TElsif) && exists i: nat, j: nat :: DerivesBranch(ts, c, t, more, next, i, j)
  }

  /** Operands of the next level, joined from the left. */
  ghost predicate DerivesList(level: nat, ts: seq<Token>, t: Tree, next: seq<Token>)
    requires IsListLevel(level)
    decreases |ts|, 7 - level, 1
  {
    || Derives(Up(level), ts, t, next)
    || (exists i: nat, left, right :: DerivesJoined(level, ts, t, next, i, left, right))
  }

  ghost predicate DerivesJoined(level: nat, ts: seq<Token>, t: Tree, next: seq<Token>, i: nat, left: Tree, right: Tree)
    requires IsListLevel(level)
    decreases |ts|, 7 - level, 0
  {
    && i < |ts| && IsOperator(level, ts[i]) && t == Joined(ts[i], left, right)
    && DerivesList(level, ts[..i], left, ts[i..] + next)
    && Derives(Up(level), ts[i + 1..], right, next)
  }

  // Every text that derives a tree is parsed to it.

  lemma Cut(ts: seq<Token>, next: seq<Token>, i: nat)
    requires i <= |ts|
    ensures ts + next == ts[..i] + (ts[i..] + next)
    ensures i < |ts| ==> (ts[i..] + next)[0] == ts[i] && (ts[i..] + next)[1..] == ts[i + 1..] + next
  {
  }

  lemma {:induction false} Complete(level: nat, ts: seq<Token>, t: Tree, next: seq<Token>)
    requires IsLevel(level) && Derives(level, ts, t, next)
    ensures ParseAt(level, ts + next) == Ok(Parsed(t, next))
    decreases |ts|, 7 - level, 3
  {
    if IsListLevel(level) {
      ListComplete(level, ts, t, next);
    } else if level == RELATION_LEVEL {
      RelationComplete(ts, t, next);
    } else if level == FACTOR_LEVEL {
      FactorComplete(ts, t, next);
    } else {
      PrimaryComplete(ts, t, next);
    }
  }

  lemma {:induction false} RelationComplete(ts: seq<Token>, t: Tree, next: seq<Token>)
    requires Derives(RELATION_LEVEL, ts, t, next)
    ensures ParseAt(RELATION_LEVEL, ts + next) == Ok(Parsed(t, next))
    decreases |ts|, 7 - RELATION_LEVEL, 1
  {
    if Derives(SIMPLE_LEVEL, ts, t, next) && (next == [] || !next[0].TRel?) {
      Complete(SIMPLE_LEVEL, ts, t, next);
    } else {
      var i: nat :| DerivesRelation(ts, t, next, i);
      Cut(ts, next, i);
      Complete(SIMPLE_LEVEL, ts[..i], t.left, ts[i..] + next);
      Complete(SIMPLE_LEVEL, ts[i + 1..], t.right, next);
    }
  }

  lemma {:induction false} FactorComplete(ts: seq<Token>, t: Tree, next: seq<Token>)
    requires Derives(FACTOR_LEVEL, ts, t, next)
    ensures ParseAt(FACTOR_LEVEL, ts + next) == Ok(Parsed(t, next))
    decreases |ts|, 7 - FACTOR_LEVEL, 1
  {
    if Derives(PRIMARY_LEVEL, ts, t, next) && !Starts(next, TRaise) {
      Complete(PRIMARY_LEVEL, ts, t, next);
      PrimaryStart(ts, t, next);
    } else if Starts(ts, TNot) && t.Inverse? && Derives(PRIMARY_LEVEL, ts[1..], t.arg, next) {
      Cut(ts, next, 0);
      assert ts[0..] == ts;
      Complete(PRIMARY_LEVEL, ts[1..], t.arg, next);
    } else {
      var i: nat :| DerivesPower(ts, t, next, i);
      Cut(ts, next, i);
      PrimaryStart(ts[..i], t.left, ts[i..] + next);
      Complete(PRIMARY_LEVEL, ts[..i], t.left, ts[i..] + next);
      Complete(PRIMARY_LEVEL, ts[i + 1..], t.right, next);
    }
  }

  lemma PrimaryStart(ts: seq<Token>, t: Tree, next: seq<Token>)
    requires Derives(PRIMARY_LEVEL, ts, t, next)
    ensures ts != [] && ts[0] != TNot
  {
  }

  lemma {:induction false} PrimaryComplete(ts: seq<Token>, t: Tree, next: seq<Token>)
    requires Derives(PRIMARY_LEVEL, ts, t, next)
    ensures ParseAt(PRIMARY_LEVEL, ts + next) == Ok(Parsed(t, next))
    decreases |ts|, 7 - PRIMARY_LEVEL, 2
  {
    var n := |ts| - 1;
    if n == 0 && IsLeaf(ts[0], t) {
      LeafComplete(ts, t, next);
    } else if n >= 1 && ts[0] == LPar && ts[n] == RPar && Derives(BOOLEAN_LEVEL, ts[1..n], t, [RPar] + next) {
      hide ParseAt, ParseMore, Derives;
      Complete(BOOLEAN_LEVEL, ts[1..n], t, [RPar] + next);
      InParentheses(t, ts[1..n] + ([RPar] + next), next);
      assert ts + next == [LPar] + (ts[1..n] + ([RPar] + next));
    } else {
      var i: nat, j: nat :| DerivesBranch(ts, t.cond, t.thn, t.rest, next, i, j);
      CondComplete(ts, t, next, i, j);
    }
  }

  lemma LeafComplete(ts: seq<Token>, t: Tree, next: seq<Token>)
    requires |ts| == 1 && IsLeaf(ts[0], t)
    ensures ParseAt(PRIMARY_LEVEL, ts + next) == Ok(Parsed(t, next))
  {
    assert (ts + next)[1..] == next;
  }

  lemma {:induction false} CondComplete(ts: seq<Token>, t: Tree, next: seq<Token>, i: nat, j: nat)
    requires Starts(ts, TIf) && t.Cond? && DerivesBranch(ts, t.cond, t.thn, t.rest, next, i, j)
    ensures ParseAt(PRIMARY_LEVEL, ts + next) == Ok(Parsed(t, next))
    decreases |ts|, 7 - PRIMARY_LEVEL, 1
  {
    assert j <= |ts| && i < |ts| && ts[i] == TThen && ts[0] == TIf && t == Cond(t.cond, t.thn, t.rest);
    BranchComplete(ts, t.cond, t.thn, t.rest, next, i, j);
    hide *;
    FromToken(ts, next, 0);
    FromToken(ts, next, i);
    BareCondParses(ts[1..] + next, ts[i + 1..] + next, ts[j..] + next, next, t.cond, t.thn, t.rest);
  }

  lemma FromToken(ts: seq<Token>, next: seq<Token>, i: nat)
    requires i < |ts|
    ensures ts[i..] + next == [ts[i]] + (ts[i + 1..] + next) && ts[0..] == ts
  {
  }

  lemma {:induction false} BranchComplete(ts: seq<Token>, c: Tree, t: Tree, rest: Rest, next: seq<Token>, i: nat,
                                          j: nat)
    requires DerivesBranch(ts, c, t, rest, next, i, j)
    ensures ParseAt(BOOLEAN_LEVEL, ts[1..] + next) == Ok(Parsed(c, ts[i..] + next))
    ensures Expect(ts[i..] + next, TThen) == Ok(ts[i + 1..] + next)
    ensures ParseAt(BOOLEAN_LEVEL, ts[i + 1..] + next) == Ok(Parsed(t, ts[j..] + next))
    ensures ParseRest(ts[j..] + next) == Ok(ParsedRest(rest, next))
    decreases |ts|, 0, 0
  {
    hide ParseAt, ParseRest;
    Complete(BOOLEAN_LEVEL, ts[1..i], c, ts[i..] + next);
    assert ts[1..] + next == ts[1..i] + (ts[i..] + next);
    Cut(ts, next, i);
    Complete(BOOLEAN_LEVEL, ts[i + 1..j], t, ts[j..] + next);
    assert ts[i + 1..] + next == ts[i + 1..j] + (ts[j..] + next);
    RestComplete(ts[j..], rest, next);
  }

  lemma {:induction false} RestComplete(ts: seq<Token>, rest: Rest, next: seq<Token>)
    requires DerivesRest(ts, rest, next)
    ensures ParseRest(ts + next) == Ok(ParsedRest(rest, next))
    decreases |ts|, 7, 3
  {
    hide ParseAt;
    match rest
    case NoRest => assert ts + next == next;
    case ElseRest(e) =>
      Cut(ts, next, 0);
      assert ts[0..] == ts;
      Complete(BOOLEAN_LEVEL, ts[1..], e, next);
    case ElsifRest(c, t, more) =>
      Cut(ts, next, 0);
      assert ts[0..] == ts;
      var i: nat, j: nat :| DerivesBranch(ts, c, t, more, next, i, j);
      BranchComplete(ts, c, t, more, next, i, j);
  }

  lemma {:induction false} ListComplete(level: nat, ts: seq<Token>, t: Tree, next: seq<Token>)
    requires IsListLevel(level) && DerivesList(level, ts, t, next)
    ensures ParseAt(level, ts + next) == ParseMore(level, t, next)
    decreases |ts|, 7 - level, 1
  {
    if Derives(Up(level), ts, t, next) {
      Complete(Up(level), ts, t, next);
    } else {
      var i: nat, left, right :| DerivesJoined(level, ts, t, next, i, left, right);
      JoinedComplete(level, ts, t, next, i, left, right);
    }
  }

  lemma {:induction false} JoinedComplete(level: nat, ts: seq<Token>, t: Tree, next: seq<Token>, i: nat, left: Tree,
                                          right: Tree)
    requires IsListLevel(level) && DerivesJoined(level, ts, t, next, i, left, right)
    ensures ParseAt(level, ts + next) == ParseMore(level, t, next)
    decreases |ts|, 7 - level, 0
  {
    assert i < |ts| && IsOperator(level, ts[i]) && t == Joined(ts[i], left, right) && IsLevel(Up(level));
    assert DerivesList(level, ts[..i], left, ts[i..] + next) && Derives(Up(level), ts[i + 1..], right, next);
    hide *;
    var after := ts[i..] + next;
    Cut(ts, next, i);
    ListComplete(level, ts[..i], left, after);
    Complete(Up(level), ts[i + 1..], right, next);
    MoreStep(level, left, after, right, next);
  }

  lemma MoreStep(level: nat, left: Tree, ts: seq<Token>, right: Tree, next: seq<Token>)
    requires IsListLevel(level) && ts != [] && IsOperator(level, ts[0])
    requires ParseAt(Up(level), ts[1..]) == Ok(Parsed(right, next))
    ensures ParseMore(level, left, ts) == ParseMore(level, Joined(ts[0], left, right), next)
  {
    hide ParseAt;
  }

  // Whatever is parsed is derived.

  /** Two operands with their operator. */
  lemma Join(ts: seq<Token>, a: seq<Token>, after: seq<Token>, b: seq<Token>, rest: seq<Token>) returns (u: seq<Token>)
    requires ts == a + after && after != [] && after[1..] == b + rest
    ensures u == a + [after[0]] + b && ts == u + rest
    ensures u[..|a|] == a && u[|a|] == after[0] && u[|a| + 1..] == b && u[|a|..] + rest == after
  {
    u := a + [after[0]] + b;
    assert after == [after[0]] + after[1..];
  }

  lemma {:induction false} ParseIsSound(level: nat, ts: seq<Token>) returns (u: seq<Token>)
    requires IsLevel(level) && ParseAt(level, ts).Ok?
    ensures var p := ParseAt(level, ts).value; ts == u + p.rest && Derives(level, u, p.tree, p.rest)
    decreases |ts|, 7 - level, 2
  {
    if IsListLevel(level) {
      u := ListIsSound(level, ts);
    } else if level == RELATION_LEVEL {
      u := RelationIsSound(ts);
    } else if level == FACTOR_LEVEL {
      u := FactorIsSound(ts);
    } else {
      u := PrimaryIsSound(ts);
    }
  }

  lemma {:induction false} ListIsSound(level: nat, ts: seq<Token>) returns (u: seq<Token>)
    requires IsListLevel(level) && ParseAt(level, ts).Ok?
    ensures var p := ParseAt(level, ts).value; ts == u + p.rest && Derives(level, u, p.tree, p.rest)
    decreases |ts|, 7 - level, 0
  {
    hide ParseMore;
    var p := ParseAt(Up(level), ts).value;
    u := ParseIsSound(Up(level), ts);
    hide Derives;
    OperandIsList(level, u, p.tree, p.rest);
    hide DerivesList;
    u := MoreIsSound(level, u, p.tree, p.rest);
  }

  lemma OperandIsList(level: nat, u: seq<Token>, t: Tree, next: seq<Token>)
    requires IsListLevel(level) && Derives(Up(level), u, t, next)
    ensures DerivesList(level, u, t, next)
  {
  }

  lemma {:induction false} MoreIsSound(level: nat, u: seq<Token>, left: Tree, ts: seq<Token>) returns (v: seq<Token>)
    requires IsListLevel(level) && DerivesList(level, u, left, ts) && ParseMore(level, left, ts).Ok?
    ensures var p := ParseMore(level, left, ts).value; u + ts == v + p.rest && Derives(level, v, p.tree, p.rest)
    decreases |ts|, 0, 0
  {
    hide ParseAt;
    if ts != [] && IsOperator(level, ts[0]) {
      var x := ParseAt(Up(level), ts[1..]).value;
      var b := ParseIsSound(Up(level), ts[1..]);
      v := Join(u + ts, u, ts, b, x.rest);
      var t := Joined(ts[0], left, x.tree);
      MoreStep(level, left, ts, x.tree, x.rest);
      hide ParseMore, Derives;
      JoinedIsList(level, v, t, x.rest, |u|, left, x.tree);
      v := MoreIsSound(level, v, t, x.rest);
    } else {
      v := u;
    }
  }

  lemma JoinedIsList(level: nat, v: seq<Token>, t: Tree, next: seq<Token>, i: nat, left: Tree, right: Tree)
    requires IsListLevel(level) && i < |v| && IsOperator(level, v[i]) && t == Joined(v[i], left, right)
    requires DerivesList(level, v[..i], left, v[i..] + next) && Derives(Up(level), v[i + 1..], right, next)
    ensures DerivesList(level, v, t, next)
  {
    hide Derives;
    assert DerivesJoined(level, v, t, next, i, left, right);
  }

  lemma {:induction false} RelationIsSound(ts: seq<Token>) returns (u: seq<Token>)
    requires ParseAt(RELATION_LEVEL, ts).Ok?
    ensures var p := ParseAt(RELATION_LEVEL, ts).value; ts == u + p.rest && Derives(RELATION_LEVEL, u, p.tree, p.rest)
    decreases |ts|, 7 - RELATION_LEVEL, 0
  {
    var l := ParseAt(SIMPLE_LEVEL, ts).value;
    u := ParseIsSound(SIMPLE_LEVEL, ts);
    if l.rest != [] && l.rest[0].TRel? {
      var a, r := u, ParseAt(SIMPLE_LEVEL, l.rest[1..]).value;
      var b := ParseIsSound(SIMPLE_LEVEL, l.rest[1..]);
      u := Join(ts, a, l.rest, b, r.rest);
      assert DerivesRelation(u, Related(l.rest[0].rel, l.tree, r.tree), r.rest, |a|);
    }
  }

  lemma {:induction false} FactorIsSound(ts: seq<Token>) returns (u: seq<Token>)
    requires ParseAt(FACTOR_LEVEL, ts).Ok?
    ensures var p := ParseAt(FACTOR_LEVEL, ts).value; ts == u + p.rest && Derives(FACTOR_LEVEL, u, p.tree, p.rest)
    decreases |ts|, 7 - FACTOR_LEVEL, 0
  {
    if Starts(ts, TNot) {
      var x := ParseAt(PRIMARY_LEVEL, ts[1..]).value;
      var b := ParseIsSound(PRIMARY_LEVEL, ts[1..]);
      u := [TNot] + b;
      assert u[1..] == b;
    } else {
      var l := ParseAt(PRIMARY_LEVEL, ts).value;
      u := ParseIsSound(PRIMARY_LEVEL, ts);
      if Starts(l.rest, TRaise) {
        var a, r := u, ParseAt(PRIMARY_LEVEL, l.rest[1..]).value;
        var b := ParseIsSound(PRIMARY_LEVEL, l.rest[1..]);
        u := Join(ts, a, l.rest, b, r.rest);
        assert DerivesPower(u, Raised(l.tree, r.tree), r.rest, |a|);
      }
    }
  }

  lemma {:induction false} PrimaryIsSound(ts: seq<Token>) returns (u: seq<Token>)
    requires ParseAt(PRIMARY_LEVEL, ts).Ok?
    ensures var p := ParseAt(PRIMARY_LEVEL, ts).value; ts == u + p.rest && Derives(PRIMARY_LEVEL, u, p.tree, p.rest)
    decreases |ts|, 0, 1
  {
    if ts[0] == LPar {
      var e := ParseAt(BOOLEAN_LEVEL, ts[1..]).value;
      assert ParseAt(PRIMARY_LEVEL, ts).value == Parsed(e.tree, e.rest[1..]) && Starts(e.rest, RPar);
      hide ParseAt, Derives;
      var b := ParseIsSound(BOOLEAN_LEVEL, ts[1..]);
      u := Enclosed(ts, b, e.tree, e.rest);
    } else if ts[0] == TIf {
      u := CondIsSound(ts);
    } else {
      u := LeafIsSound(ts);
    }
  }

  lemma LeafIsSound(ts: seq<Token>) returns (u: seq<Token>)
    requires ParseAt(PRIMARY_LEVEL, ts).Ok? && ts[0] != LPar && ts[0] != TIf
    ensures var p := ParseAt(PRIMARY_LEVEL, ts).value; ts == u + p.rest && Derives(PRIMARY_LEVEL, u, p.tree, p.rest)
  {
    u := [ts[0]];
    var p := ParseAt(PRIMARY_LEVEL, ts).value;
    assert IsLeaf(ts[0], p.tree) && ts == u + p.rest;
  }

  lemma {:induction false} CondIsSound(ts: seq<Token>) returns (u: seq<Token>)
    requires ParseAt(PRIMARY_LEVEL, ts).Ok? && ts[0] == TIf
    ensures var p := ParseAt(PRIMARY_LEVEL, ts).value; ts == u + p.rest && Derives(PRIMARY_LEVEL, u, p.tree, p.rest)
    decreases |ts|, 0, 0
  {
    var c := ParseAt(BOOLEAN_LEVEL, ts[1..]).value;
    var t := ParseAt(BOOLEAN_LEVEL, c.rest[1..]).value;
    var more, p := ParseRest(t.rest).value, ParseAt(PRIMARY_LEVEL, ts).value;
    assert p == Parsed(Cond(c.tree, t.tree, more.part), more.rest) && Starts(c.rest, TThen);
    hide ParseAt, ParseRest, Derives, DerivesRest;
    var onCond := ParseIsSound(BOOLEAN_LEVEL, ts[1..]);
    var onThn := ParseIsSound(BOOLEAN_LEVEL, c.rest[1..]);
    var onRest := RestIsSound(t.rest);
    u := BranchIsSound(ts, onCond, onThn, onRest, c, t, more);
    CondIsPrimary(u, p.tree, p.rest, 1 + |onCond|, 2 + |onCond| + |onThn|);
  }

  lemma Enclosed(ts: seq<Token>, b: seq<Token>, t: Tree, end: seq<Token>) returns (u: seq<Token>)
    requires Starts(ts, LPar) && ts[1..] == b + end && Starts(end, RPar) && Derives(BOOLEAN_LEVEL, b, t, end)
    ensures ts == u + end[1..] && Derives(PRIMARY_LEVEL, u, t, end[1..])
  {
    u := [LPar] + b + [RPar];
    assert end == [RPar] + end[1..];
    assert u[1..|u| - 1] == b;
  }

  lemma CondIsPrimary(u: seq<Token>, t: Tree, next: seq<Token>, i: nat, j: nat)
    requires Starts(u, TIf) && t.Cond? && DerivesBranch(u, t.cond, t.thn, t.rest, next, i, j)
    ensures Derives(PRIMARY_LEVEL, u, t, next)
  {
    hide DerivesBranch;
  }

  /** The parts of a branch are put together. */
  lemma BranchIsSound(ts: seq<Token>, onCond: seq<Token>, onThn: seq<Token>, onRest: seq<Token>, c: Parsed, t: Parsed,
                      more: ParsedRest) returns (u: seq<Token>)
    requires ts != [] && ts[1..] == onCond + c.rest && Derives(BOOLEAN_LEVEL, onCond, c.tree, c.rest)
    requires Starts(c.rest, TThen) && c.rest[1..] == onThn + t.rest && Derives(BOOLEAN_LEVEL, onThn, t.tree, t.rest)
    requires t.rest == onRest + more.rest && DerivesRest(onRest, more.part, more.rest)
    ensures ts == u + more.rest && u != [] && u[0] == ts[0]
    ensures DerivesBranch(u, c.tree, t.tree, more.part, more.rest, 1 + |onCond|, 2 + |onCond| + |onThn|)
  {
    hide Derives, DerivesRest;
    var v := BranchText(ts[1..], onCond, onThn, onRest, c.rest, t.rest, more.rest);
    u := [ts[0]] + v;
    var i, j := |onCond|, 1 + |onCond| + |onThn|;
    assert u[1..i + 1] == v[..i] && u[i + 1..] == v[i..] && u[i + 2..j + 1] == v[i + 1..j] && u[j + 1..] == v[j..];
    assert ts == [ts[0]] + ts[1..];
  }

  lemma BranchText(ts: seq<Token>, onCond: seq<Token>, onThn: seq<Token>, onRest: seq<Token>, afterCond: seq<Token>,
                   afterThn: seq<Token>, rest: seq<Token>) returns (v: seq<Token>)
    requires ts == onCond + afterCond && afterCond != [] && afterCond[1..] == onThn + afterThn
    requires afterThn == onRest + rest
    ensures var i, j := |onCond|, 1 + |onCond| + |onThn|;
            && ts == v + rest && i < j <= |v| && v[i] == afterCond[0] && v[..i] == onCond && v[i..] + rest == afterCond
            && v[i + 1..j] == onThn && v[j..] == onRest && v[j..] + rest == afterThn
  {
    var w := onThn + onRest;
    assert afterCond[1..] == w + rest;
    v := Join(ts, onCond, afterCond, w, rest);
    var i, j := |onCond|, 1 + |onCond| + |onThn|;
    assert v[i + 1..j] == w[..|onThn|] == onThn && v[j..] == w[|onThn|..] == onRest;
  }

  lemma {:induction false} RestIsSound(ts: seq<Token>) returns (u: seq<Token>)
    requires ParseRest(ts).Ok?
    ensures var p := ParseRest(ts).value; ts == u + p.rest && DerivesRest(u, p.part, p.rest)
    decreases |ts|, 0, 1
  {
    if Starts(ts, TElsif) {
      u := ElsifIsSound(ts);
    } else if Starts(ts, TElse) {
      var b := ParseIsSound(BOOLEAN_LEVEL, ts[1..]);
      u := [TElse] + b;
      assert u[1..] == b;
    } else {
      u := [];
    }
  }

  lemma {:induction false} ElsifIsSound(ts: seq<Token>) returns (u: seq<Token>)
    requires Starts(ts, TElsif) && ParseRest(ts).Ok?
    ensures var p := ParseRest(ts).value; ts == u + p.rest && DerivesRest(u, p.part, p.rest)
    decreases |ts|, 0, 0
  {
    var c := ParseAt(BOOLEAN_LEVEL, ts[1..]).value;
    var t := ParseAt(BOOLEAN_LEVEL, c.rest[1..]).value;
    var more, p := ParseRest(t.rest).value, ParseRest(ts).value;
    assert p == ParsedRest(ElsifRest(c.tree, t.tree, more.part), more.rest) && Starts(c.rest, TThen);
    hide ParseAt, ParseRest, Derives, DerivesRest;
    var onCond := ParseIsSound(BOOLEAN_LEVEL, ts[1..]);
    var onThn := ParseIsSound(BOOLEAN_LEVEL, c.rest[1..]);
    var onRest := RestIsSound(t.rest);
    u := BranchIsSound(ts, onCond, onThn, onRest, c, t, more);
    ElsifIsRest(u, p.part, p.rest, 1 + |onCond|, 2 + |onCond| + |onThn|);
  }

  lemma ElsifIsRest(u: seq<Token>, part: Rest, next: seq<Token>, i: nat, j: nat)
    requires Starts(u, TElsif) && part.ElsifRest?
    requires DerivesBranch(u, part.cond, part.thn, part.rest, next, i, j)
    ensures DerivesRest(u, part, next)
  {
    hide DerivesBranch;
  }

  /** The parser accepts exactly the texts of the grammar, and builds the tree that a text derives. */
  lemma ParseIsDerivation(ts: seq<Token>, t: Tree)
    ensures Parse(ts) == Ok(t) <==> Derives(BOOLEAN_LEVEL, ts, t, [])
  {
    hide ParseAt, Derives;
    if Parse(ts) == Ok(t) {
      var u := ParseIsSound(BOOLEAN_LEVEL, ts);
      assert u + [] == u;
    }
    if Derives(BOOLEAN_LEVEL, ts, t, []) {
      Complete(BOOLEAN_LEVEL, ts, t, []);
      assert ts + [] == ts;
    }
  }

  /** A text derives at most one tree in front of given tokens. */
  lemma DerivationIsUnique(level: nat, ts: seq<Token>, a: Tree, b: Tree, next: seq<Token>)
    requires IsLevel(level) && Derives(level, ts, a, next) && Derives(level, ts, b, next)
    ensures a == b
  {
    hide ParseAt, Derives;
    Complete(level, ts, a, next);
    Complete(level, ts, b, next);
  }
}
