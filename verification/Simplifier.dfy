/** `simplified` and unary minus of the expression classes.  The recursion that the classes spread over
    their methods is one group of functions here; `Error` is any exception (division by zero, a modulus of
    zero, the negation of a literal or of a boolean operator), and a constant power with a negative exponent,
    which is not an integer. */
module Simplifier {
  import opened Results
  import opened Expressions

  /** The rewrites that need a reason: two conditionals were replaced by one inside a list of terms, or two constant
      quotients were compared as fractions. */
  datatype Rewrite =
    | Merge(op: AssOp, first: Expr, second: Expr, merged: Expr)
    | Comparison(rel: RelOp, left: Expr, right: Expr)

  /** A simplified expression, with these rewrites in the order in which they were made. */
  datatype Simp = Simp(e: Expr, log: seq<Rewrite>)

  datatype SimpElse = SimpElse(rest: Else, log: seq<Rewrite>)

  datatype SimpTerms = SimpTerms(terms: seq<Expr>, log: seq<Rewrite>)

  /** The state of the loop over the terms of an associative operator. */
  datatype Collected = Collected(total: int, terms: seq<Expr>, log: seq<Rewrite>)

  // The termination measure.  `Not` and `Neg` double, a relation and a subtrahend count twice.

  function Weight(e: Expr): (w: nat)
    ensures w >= 1
  {
    match e
    case Number(_) | Literal(_) | Variable(_, _) | Selected(_, _, _) => 1
    case Not(x) => 2 * Weight(x)
    case Neg(x) => 2 * Weight(x)
    case Ass(_, terms) => 2 + WeightAll(terms)
    case Bin(op, l, r) => 2 + Weight(l) + Weight(r) + (if op == Sub then Weight(r) else 0)
    case Rel(_, l, r) => 2 * (Weight(l) + Weight(r))
    case If(c, t, rest) => 3 + Weight(c) + Weight(t) + WeightElse(rest)
  }

  function WeightAll(terms: seq<Expr>): (w: nat)
    ensures w >= |terms|
  {
    if terms == [] then 0 else Weight(terms[0]) + WeightAll(terms[1..])
  }

  function WeightElse(rest: Else): nat {
    match rest
    case NoElse => 0
    case ElsePart(e) => Weight(e)
    case Elsif(c, t, r) => Weight(c) + Weight(t) + WeightElse(r)
  }

  lemma WeightConcat(a: seq<Expr>, b: seq<Expr>)
    ensures WeightAll(a + b) == WeightAll(a) + WeightAll(b)
  {
    if a == [] {
      assert a + b == b;
    } else {
      assert (a + b)[1..] == a[1..] + b;
      WeightConcat(a[1..], b);
    }
  }

  lemma WeightSnoc(terms: seq<Expr>, t: Expr)
    ensures WeightAll(terms + [t]) == WeightAll(terms) + Weight(t)
  {
    WeightConcat(terms, [t]);
    assert [t][1..] == [];
  }

  lemma WeightPair(a: Expr, b: Expr)
    ensures WeightAll([a, b]) == Weight(a) + Weight(b)
  {
    assert [a, b][1..] == [b];
    assert [b][1..] == [];
    assert WeightAll([b]) == Weight(b);
  }

  lemma WeightMember(ts: seq<Expr>, i: nat)
    requires i < |ts|
    ensures WeightAll(ts) == WeightAll(ts[..i]) + Weight(ts[i]) + WeightAll(ts[i + 1..])
  {
    var back := ts[i..];
    assert ts == ts[..i] + back && back[0] == ts[i] && back[1..] == ts[i + 1..];
    WeightConcat(ts[..i], back);
  }

  lemma WeightFinal(rest: Else)
    ensures WeightElse(rest.Final()) <= WeightElse(rest)
  {
  }

  // The loop over the terms and its parts.

  function NeutralElement(op: AssOp): int {
    if op.IsAnd() || op == Mul then 1 else 0
  }

  /** `and` and `or` on numbers return one of their operands. */
  function Operation(op: AssOp, left: int, right: int): int {
    if op == Add then left + right
    else if op == Mul then left * right
    else if op.IsAnd() then (if left == 0 then left else right)
    else (if left != 0 then left else right)
  }

  /** The terms that the loop folds into its running total. */
  predicate IsConstant(t: Expr) {
    t.Number? || t == TRUE || t == FALSE
  }

  function ConstantOf(t: Expr): int {
    if t.Number? then t.n else if t == TRUE then 1 else 0
  }

  function Unique(terms: seq<Expr>): (r: seq<Expr>)
    ensures WeightAll(r) <= WeightAll(terms)
  {
    if terms == [] then []
    else
      var rest := Unique(terms[..|terms| - 1]);
      var last := terms[|terms| - 1];
      WeightMember(terms, |terms| - 1);
      WeightConcat(rest, [last]);
      if last in rest then rest else rest + [last]
  }

  predicate HasInverse(terms: seq<Expr>) {
    exists i :: 0 <= i < |terms| && terms[i].Rel? &&
      Rel(terms[i].rel.Inverse(), terms[i].left, terms[i].right) in terms
  }

  /** An additional unit of weight stands for a constant that was taken out of the list. */
  function Pending(op: AssOp, total: int): nat {
    if total == NeutralElement(op) then 0 else 1
  }

  function BoolTerms(op: AssOp, terms: seq<Expr>, total: int): (r: seq<Expr>)
    ensures terms == [] ==> |r| == 1 && Weight(r[0]) == 1
    ensures terms != [] ==> WeightAll(r) <= WeightAll(terms) + Pending(op, total)
  {
    if terms == [] then [BoolLit(total != 0)]
    else
      var distinct := Unique(terms);
      WeightConcat(distinct, [BoolLit(total != 0)]);
      if HasInverse(distinct) then [BoolLit(!op.IsAnd())]
      else if total != NeutralElement(op) then distinct + [BoolLit(total != 0)]
      else distinct
  }

  /** The terms after the loop, with the constant that remains of the running total. */
  function AllTerms(op: AssOp, c: Collected): (r: seq<Expr>)
    ensures c.terms == [] && op.IsBool() ==> |r| == 1 && Weight(r[0]) == 1
    ensures c.terms != [] ==> WeightAll(r) <= WeightAll(c.terms) + Pending(op, c.total)
  {
    WeightConcat(c.terms, [Number(c.total)]);
    if op.IsBool() then BoolTerms(op, c.terms, c.total)
    else if c.total != NeutralElement(op) then c.terms + [Number(c.total)]
    else c.terms
  }

  /** The condition under which a later conditional is merged into an earlier one. */
  predicate Mergeable(t: Expr, u: Expr) {
    t.If? && u.If? && !u.rest.Elsif? && u.thn == t.thn && u.rest == t.rest.Final()
  }

  /** The index of the first term that can be merged into `t`, or the length of the list. */
  function FirstMergeable(t: Expr, terms: seq<Expr>): (i: nat)
    ensures i <= |terms|
    ensures i < |terms| ==> Mergeable(t, terms[i])
    ensures forall j :: 0 <= j < i ==> !Mergeable(t, terms[j])
  {
    if terms == [] then 0
    else if Mergeable(t, terms[0]) then 0
    else 1 + FirstMergeable(t, terms[1..])
  }

  lemma WeightRemove(terms: seq<Expr>, i: nat)
    requires i < |terms|
    ensures WeightAll(terms[..i] + terms[i + 1..]) + Weight(terms[i]) == WeightAll(terms)
  {
    WeightMember(terms, i);
    WeightConcat(terms[..i], terms[i + 1..]);
  }

  lemma MergeIsLighter(t: Expr, u: Expr)
    requires Mergeable(t, u)
    ensures Weight(Ass(Or, [t.cond, u.cond])) < Weight(t) + Weight(u)
    ensures forall c :: Weight(c) <= Weight(Ass(Or, [t.cond, u.cond])) ==>
      Weight(If(c, t.thn, t.rest.Final())) <= Weight(t) + Weight(u)
  {
    WeightPair(t.cond, u.cond);
    WeightFinal(t.rest);
  }

  function MakeAss(op: AssOp, terms: seq<Expr>): (e: Expr)
    ensures Weight(e) <= 2 + WeightAll(terms)
  {
    if |terms| == 1 then terms[0] else Ass(op, terms)
  }

  /** What the boolean operators do after the common part. */
  function Absorb(op: AssOp, e: Expr): (r: Expr)
    ensures Weight(r) <= Weight(e)
  {
    if op.IsAnd() && e.Ass? && e.ass.IsAnd() && FALSE in e.terms then FALSE
    else if op.IsOr() && e.Ass? && e.ass.IsOr() && TRUE in e.terms then TRUE
    else e
  }

  // Simplification.

  function Simplify(e: Expr): (r: Result<Simp>)
    ensures r.Ok? ==> Weight(r.value.e) <= Weight(e)
    decreases Weight(e), 1
  {
    match e
    case Number(_) | Literal(_) | Variable(_, _) | Selected(_, _, _) => Ok(Simp(e, []))
    case Not(x) => SimplifyNot(x)
    case Neg(x) =>
      var Simp(y, a) :- Simplify(x);
      var Simp(z, b) :- Negate(y);
      Ok(Simp(z, a + b))
    case Ass(op, terms) => SimplifyAss(op, terms)
    case Bin(op, left, right) => SimplifyBin(op, left, right)
    case Rel(op, left, right) =>
      var Simp(l, a) :- Simplify(left);
      var Simp(r, b) :- Simplify(right);
      Ok(Simp(SimplifyRel(op, l, r), a + b + Compared(op, l, r)))
    case If(cond, thn, rest) =>
      var Simp(c, a) :- Simplify(cond);
      var Simp(t, b) :- Simplify(thn);
      var SimpElse(r, d) :- SimplifyElse(rest);
      Ok(Simp(SimplifyIf(c, t, r), a + b + d))
  }

  function SimplifyElse(rest: Else): (r: Result<SimpElse>)
    ensures r.Ok? ==> WeightElse(r.value.rest) <= WeightElse(rest)
    decreases WeightElse(rest), 2
  {
    match rest
    case NoElse => Ok(SimpElse(NoElse, []))
    case ElsePart(e) =>
      var Simp(x, a) :- Simplify(e);
      Ok(SimpElse(ElsePart(x), a))
    case Elsif(cond, thn, more) =>
      var Simp(c, a) :- Simplify(cond);
      var Simp(t, b) :- Simplify(thn);
      var SimpElse(r, d) :- SimplifyElse(more);
      Ok(SimpElse(Elsif(c, t, r), a + b + d))
  }

  function SimplifyIf(c: Expr, t: Expr, rest: Else): (e: Expr)
    ensures Weight(e) <= 3 + Weight(c) + Weight(t) + WeightElse(rest)
  {
    if rest.Elsif? then If(c, t, rest)
    else if c == TRUE then t
    else if c == FALSE && rest.ElsePart? then rest.els
    else if rest == ElsePart(t) then t
    else If(c, t, rest)
  }

  function SimplifyNot(x: Expr): (r: Result<Simp>)
    ensures r.Ok? ==> Weight(r.value.e) <= 2 * Weight(x)
    decreases 2 * Weight(x), 0
  {
    if x == TRUE then Ok(Simp(FALSE, []))
    else if x == FALSE then Ok(Simp(TRUE, []))
    else if x.Ass? && x.ass.IsBool() then
      var SimpTerms(ts, a) :- NegateAll(x.terms);
      var Simp(y, b) :- Simplify(Ass(if x.ass.IsAnd() then Or else And, ts));
      Ok(Simp(y, a + b))
    else if x.Rel? then
      var Simp(l, a) :- Simplify(x.left);
      var Simp(r, b) :- Simplify(x.right);
      Ok(Simp(Rel(x.rel.Inverse(), l, r), a + b))
    else
      var Simp(y, a) :- Simplify(x);
      Ok(Simp(Not(y), a))
  }

  /** The negated terms of De Morgan's law: each term is simplified before and after its negation. */
  function NegateAll(terms: seq<Expr>): (r: Result<SimpTerms>)
    ensures r.Ok? ==> WeightAll(r.value.terms) <= 2 * WeightAll(terms)
    decreases 2 * WeightAll(terms) + 1, 0
  {
    if terms == [] then Ok(SimpTerms([], []))
    else
      var Simp(t, a) :- Simplify(terms[0]);
      var Simp(n, b) :- Simplify(Not(t));
      var SimpTerms(ts, d) :- NegateAll(terms[1..]);
      Ok(SimpTerms([n] + ts, a + b + d))
  }

  function SimplifyAss(op: AssOp, terms: seq<Expr>): (r: Result<Simp>)
    ensures r.Ok? ==> Weight(r.value.e) <= 2 + WeightAll(terms)
    decreases 2 + WeightAll(terms), 0
  {
    var c :- Collect(op, terms, NeutralElement(op), []);
    if c.terms == [] && !op.IsBool() then Ok(Simp(Number(c.total), c.log))
    else
      var r :- FinishAss(op, AllTerms(op, c));
      Ok(Simp(r.e, c.log + r.log))
  }

  /** What happens to the collected terms: conditionals are merged, a constant may decide the result, and
      in a sum complementary terms cancel. */
  function FinishAss(op: AssOp, terms: seq<Expr>): (r: Result<Simp>)
    ensures r.Ok? ==> Weight(r.value.e) <= 2 + WeightAll(terms)
    decreases WeightAll(terms) + (if op == Add then 1 else 0), 4
  {
    var SimpTerms(merged, a) :- MergeIfs(op, terms);
    var e := Absorb(op, MakeAss(op, merged));
    if op == Add && e.Ass? && e.ass == Add then
      var SimpTerms(left, b) :- Cancel(e.terms);
      Ok(Simp(MakeAss(Add, left), a + b))
    else
      Ok(Simp(e, a))
  }

  /** The loop over the terms; the terms of a nested operation of the same class join the pending ones. */
  function Collect(op: AssOp, pending: seq<Expr>, total: int, terms: seq<Expr>): (r: Result<Collected>)
    ensures r.Ok? ==>
      WeightAll(r.value.terms) + Pending(op, r.value.total)
        <= WeightAll(pending) + WeightAll(terms) + Pending(op, total)
    decreases WeightAll(pending) + 1, 0
  {
    if pending == [] then Ok(Collected(total, terms, []))
    else
      var Simp(t, a) :- Simplify(pending[0]);
      var Collected(sum, ts, b) :-
        if IsConstant(t) then Collect(op, pending[1..], Operation(op, total, ConstantOf(t)), terms)
        else if t.Ass? && op.HasInstance(t.ass) then
          (WeightConcat(pending[1..], t.terms);
           Collect(op, pending[1..] + t.terms, total, terms))
        else
          (WeightConcat(terms, [t]);
           Collect(op, pending[1..], total, terms + [t]));
      Ok(Collected(sum, ts, a + b))
  }

  /** Conditionals at the head of the list that differ only in the condition are merged. */
  function MergeIfs(op: AssOp, terms: seq<Expr>): (r: Result<SimpTerms>)
    ensures r.Ok? ==> WeightAll(r.value.terms) <= WeightAll(terms)
    decreases WeightAll(terms), 0
  {
    if terms == [] || !terms[0].If? then Ok(SimpTerms(terms, []))
    else
      var t, others := terms[0], terms[1..];
      var i := FirstMergeable(t, others);
      if i == |others| then
        var SimpTerms(ts, a) :- MergeIfs(op, others);
        Ok(SimpTerms([t] + ts, a))
      else
        var u := others[i];
        WeightRemove(others, i);
        MergeIsLighter(t, u);
        var Simp(c, a) :- Simplify(Ass(Or, [t.cond, u.cond]));
        var m := If(c, t.thn, t.rest.Final());
        var SimpTerms(ts, b) :- MergeIfs(op, others[..i] + others[i + 1..]);
        Ok(SimpTerms([m] + ts, a + [Merge(op, t, u, m)] + b))
  }

  /** The second loop of a sum, from the last term to the first. */
  function Cancel(terms: seq<Expr>): (r: Result<SimpTerms>)
    ensures r.Ok? ==> WeightAll(r.value.terms) <= WeightAll(terms)
    decreases WeightAll(terms) + 1, 3
  {
    if terms == [] then Ok(SimpTerms([], []))
    else
      var SimpTerms(kept, a) :- Cancel(terms[1..]);
      if kept == [] then Ok(SimpTerms([terms[0]], a))
      else
        var Simp(n, b) :- Negate(terms[0]);
        Ok(SimpTerms(CancelOne(terms[0], n, kept), a + b))
  }

  function CancelOne(term: Expr, negation: Expr, kept: seq<Expr>): (r: seq<Expr>)
    ensures WeightAll(r) <= Weight(term) + WeightAll(kept)
  {
    if negation in kept then
      var i := IndexOf(negation, kept);
      WeightRemove(kept, i);
      kept[..i] + kept[i + 1..]
    else
      [term] + kept
  }

  function IndexOf(e: Expr, terms: seq<Expr>): (i: nat)
    requires e in terms
    ensures i < |terms| && terms[i] == e
    ensures forall k :: 0 <= k < i ==> terms[k] != e
  {
    if terms[0] == e then 0 else 1 + IndexOf(e, terms[1..])
  }

  function SimplifyBin(op: BinOp, left: Expr, right: Expr): (r: Result<Simp>)
    ensures r.Ok? ==> Weight(r.value.e) <= Weight(Bin(op, left, right))
    decreases Weight(Bin(op, left, right)), 0
  {
    var Simp(l, a) :- Simplify(left);
    var Simp(r, b) :- Simplify(right);
    if l.Number? && r.Number? then
      var e :- FoldBin(op, l.n, r.n);
      Ok(Simp(e, a + b))
    else if op == Sub then
      var Simp(n, d) :- Negate(r);
      WeightPair(l, n);
      Ok(Simp(Ass(Add, [l, n]), a + b + d))
    else
      Ok(Simp(Bin(op, l, r), a + b))
  }

  function FoldBin(op: BinOp, l: int, r: int): (e: Result<Expr>)
    ensures e.Ok? ==> Weight(e.value) <= 4
  {
    match op
    case Sub => Ok(Number(l - r))
    case Div =>
      if r == 0 then Error
      else if FloorMod(l, r) == 0 then Ok(Number(TruncDiv(l, r)))
      else Ok(Bin(Div, Number(l), Number(r)))
    case Pow => if r < 0 then Error else Ok(Number(Power(l, r)))
    case Mod => if r == 0 then Error else Ok(Number(FloorMod(l, r)))
  }

  predicate StringLess(a: string, b: string) {
    b != [] && (a == [] || a[0] < b[0] || (a[0] == b[0] && StringLess(a[1..], b[1..])))
  }

  /** Literals are compared by identifier. */
  function CompareNames(rel: RelOp, a: Lit, b: Lit): bool {
    match rel
    case Less => StringLess(a.Name(), b.Name())
    case LessEqual => !StringLess(b.Name(), a.Name())
    case Equal => a == b
    case GreaterEqual => !StringLess(a.Name(), b.Name())
    case Greater => StringLess(b.Name(), a.Name())
    case NotEqual => a != b
  }

  predicate ConstantQuotient(e: Expr) {
    e.Bin? && e.bin == Div && e.left.Number? && e.right.Number? && e.right.n != 0
  }

  /** Fractions are compared by cross multiplication with positive denominators. */
  function CompareFractions(rel: RelOp, a: int, b: int, c: int, d: int): bool
    requires b != 0 && d != 0
  {
    Compare(rel, (if b > 0 then a else -a) * (if d > 0 then d else -d),
            (if d > 0 then c else -c) * (if b > 0 then b else -b))
  }

  /** The relations whose value is known from the form of the operands. */
  function FoldRel(rel: RelOp, l: Expr, r: Expr): Option<bool> {
    if l == r && rel in {Equal, LessEqual, GreaterEqual} then Some(true)
    else if l == r && rel == NotEqual then Some(false)
    else if l.Literal? && r.Literal? then Some(CompareNames(rel, l.lit, r.lit))
    else if l.Number? && r.Number? then Some(Compare(rel, l.n, r.n))
    else if ConstantQuotient(l) && ConstantQuotient(r) then
      Some(CompareFractions(rel, l.left.n, l.right.n, r.left.n, r.right.n))
    else None
  }

  function Compared(rel: RelOp, l: Expr, r: Expr): seq<Rewrite> {
    if ConstantQuotient(l) && ConstantQuotient(r) then [Comparison(rel, l, r)] else []
  }

  /** `X = True` becomes `X`; the expression is negated for `False` or for `/=`, but not for both. */
  function EliminateTruth(rel: RelOp, l: Expr, r: Expr): (e: Expr)
    ensures Weight(e) <= 2 * (Weight(l) + Weight(r))
  {
    if rel.IsOrdering() then Rel(rel, l, r)
    else if l == TRUE || l == FALSE then (if (l == FALSE) != (rel == NotEqual) then Not(r) else r)
    else if r == TRUE || r == FALSE then (if (r == FALSE) != (rel == NotEqual) then Not(l) else l)
    else Rel(rel, l, r)
  }

  function SimplifyRel(rel: RelOp, l: Expr, r: Expr): (e: Expr)
    ensures Weight(e) <= 2 * (Weight(l) + Weight(r))
  {
    var known := FoldRel(rel, l, r);
    if known.Some? then BoolLit(known.value) else EliminateTruth(rel, l, r)
  }

  function NegatedIf(e: Expr): (r: Expr)
    requires e.If?
    ensures Weight(r) <= 2 * Weight(e)
  {
    WeightPair(Number(-1), e);
    Ass(Mul, [Number(-1), e])
  }

  /** Unary minus of an expression. */
  function Negate(e: Expr): (r: Result<Simp>)
    ensures r.Ok? ==> Weight(r.value.e) <= 2 * Weight(e)
    decreases Weight(e) + (if e.Ass? && e.ass == Mul then 1 else 0), 2
  {
    match e
    case Number(n) => Ok(Simp(Number(-n), []))
    case Literal(_) => Error
    case Variable(_, _) | Selected(_, _, _) => Ok(Simp(Neg(e), []))
    case Not(x) => Ok(Simp(x, []))
    case Neg(x) => Ok(Simp(x, []))
    case Rel(rel, l, r) => Ok(Simp(Rel(rel.Inverse(), l, r), []))
    case If(_, _, _) => Ok(Simp(NegatedIf(e), []))
    case Bin(op, l, r) =>
      if op == Sub then Ok(Simp(Bin(Sub, r, l), []))
      else if op == Div then
        var Simp(n, a) :- Negate(l);
        Ok(Simp(Bin(Div, n, r), a))
      else Ok(Simp(Neg(e), []))
    case Ass(op, terms) =>
      if op == Add then
        var SimpTerms(ts, a) :- NegateSum(terms);
        Ok(Simp(Ass(Add, ts), a))
      else if op == Mul then
        WeightSnoc(terms, Number(-1));
        Simplify(Ass(Mul, terms + [Number(-1)]))
      else Error
  }

  function NegateSum(terms: seq<Expr>): (r: Result<SimpTerms>)
    ensures r.Ok? ==> WeightAll(r.value.terms) <= 2 * WeightAll(terms)
    decreases WeightAll(terms) + 1, 3
  {
    if terms == [] then Ok(SimpTerms([], []))
    else
      var Simp(t, a) :- Negate(terms[0]);
      var SimpTerms(ts, b) :- NegateSum(terms[1..]);
      Ok(SimpTerms([t] + ts, a + b))
  }
}
