/** Simplification and negation of the expressions of the Rust library.  `Error` is a panic.  Integers are
    unbounded; an exponent is limited to 32 bits as in the library. */
module RustExpr {
  import opened Results
  import opened Arithmetic
  import opened Expressions

  datatype RExpr =
    | RVar(name: string)
    | RLit(name: string)
    | RNum(value: int)
    | RNeg(arg: RExpr)
    | RBin(op: BinOp, lhs: RExpr, rhs: RExpr)

  function Size(e: RExpr): nat {
    match e
    case RNeg(x) => 1 + Size(x)
    case RBin(_, l, r) => 1 + Size(l) + Size(r)
    case _ => 1
  }

  /** Negation grows an expression by at most one node. */
  function Negated(e: RExpr): (r: Result<RExpr>)
    ensures r.Ok? ==> Size(r.value) <= Size(e) + 1
  {
    match e
    case RVar(_) => Ok(RNeg(e))
    case RLit(_) => Error
    case RNum(n) => Ok(RNum(-n))
    case RNeg(x) => Ok(x)
    case RBin(op, l, r) =>
      if op == Sub then Ok(RBin(Sub, r, l))
      else if op == Div then
        var n :- Negated(l);
        Ok(RBin(Div, n, r))
      else Ok(RNeg(e))
  }

  const MAX_EXPONENT := 0xFFFF_FFFF

  function RemEuclid(l: int, r: int): (m: int)
    requires r != 0
    ensures 0 <= m < if r < 0 then -r else r
  {
    l % r
  }

  function ModFold(l: int, r: int): int
    requires r != 0
  {
    RemEuclid(l, r) + if r < 0 then r else 0
  }

  function FoldNumbers(op: BinOp, l: int, r: int, self: RExpr): (e: Result<RExpr>)
    ensures e.Ok? && e.value != self ==> e.value.RNum?
    ensures op != Div && e.Ok? ==> e.value.RNum?
  {
    match op
    case Sub => Ok(RNum(l - r))
    case Div => if r == 0 then Error else if l % r == 0 then Ok(RNum(TruncDiv(l, r))) else Ok(self)
    case Pow => if 0 <= r <= MAX_EXPONENT then Ok(RNum(Power(l, r))) else Error
    case Mod => if r == 0 then Error else Ok(RNum(ModFold(l, r)))
  }

  /** Simplification never grows an expression, so that the nested call on a negated operand ends. */
  function Simplified(e: RExpr): (r: Result<RExpr>)
    ensures r.Ok? ==> Size(r.value) <= Size(e)
    decreases Size(e)
  {
    match e
    case RNeg(x) =>
      var y :- Simplified(x);
      Negated(y)
    case RBin(op, lhs, rhs) =>
      var l :- Simplified(lhs);
      var r :- Simplified(rhs);
      if l.RNum? && r.RNum? then FoldNumbers(op, l.value, r.value, e)
      else if l == RNum(0) then
        if op == Sub then
          var n :- Negated(r);
          Simplified(n)
        else Ok(RNum(0))
      else if r == RNum(0) then
        match op
        case Sub => Simplified(l)
        case Pow => Ok(RNum(1))
        case _ => Error
      else if l.RLit? && r.RLit? then Error
      else Ok(RBin(op, l, r))
    case _ => Ok(e)
  }

  // Normal forms.

  predicate Normal(e: RExpr) {
    Simplified(e) == Ok(e)
  }

  /** A normal operation has normal operands that give no cause for a rewrite, or it is the quotient of two
      expressions with constant values that do not divide. */
  lemma NormalBin(op: BinOp, l: RExpr, r: RExpr)
    requires Normal(RBin(op, l, r))
    ensures Simplified(l).Ok? && Simplified(r).Ok?
    ensures var a, b := Simplified(l).value, Simplified(r).value;
            if a.RNum? && b.RNum? then op == Div && b.value != 0 && a.value % b.value != 0
            else a == l && b == r && a != RNum(0) && b != RNum(0) && !(a.RLit? && b.RLit?)
  {
  }

  /** A minus sign in a normal form stands before a variable, a power or a modulus. */
  lemma NormalNeg(x: RExpr)
    requires Normal(RNeg(x))
    ensures x.RVar? || (x.RBin? && x.op in {Pow, Mod})
    ensures Simplified(x) == Ok(x)
  {
    var y := Simplified(x).value;
    assert Negated(y) == Ok(RNeg(x));
    assert Size(RNeg(RNeg(x))) == Size(x) + 2;
  }

  /** Negation of an expression with a constant value has the opposite constant value. */
  lemma {:induction false} NegatedConstant(e: RExpr, k: int)
    requires Simplified(e) == Ok(RNum(k))
    ensures Negated(e).Ok? && Simplified(Negated(e).value) == Ok(RNum(-k))
    decreases Size(e), 0
  {
    match e
    case RNum(_) =>
    case RNeg(x) => SimplifiedIsNormal(x);
    case RBin(Sub, l, r) => NegatedDifference(l, r, k);
    case RBin(Div, l, r) => NegatedQuotient(l, r, k);
    case RBin(_, l, r) =>
  }

  lemma {:induction false} NegatedDifference(l: RExpr, r: RExpr, k: int)
    requires Simplified(RBin(Sub, l, r)) == Ok(RNum(k))
    ensures Simplified(RBin(Sub, r, l)) == Ok(RNum(-k))
    decreases Size(l) + Size(r), 1
  {
    hide Negated;
    var a, b := Simplified(l).value, Simplified(r).value;
    SimplifiedIsNormal(l);
    SimplifiedIsNormal(r);
    if a == RNum(0) && !b.RNum? {
      NegatedIsNormal(b);
      NegatedOfNormal(b);
      assert false;
    }
  }

  lemma {:induction false} NegatedQuotient(l: RExpr, r: RExpr, k: int)
    requires Simplified(RBin(Div, l, r)) == Ok(RNum(k))
    ensures Negated(l).Ok? && Simplified(RBin(Div, Negated(l).value, r)) == Ok(RNum(-k))
    decreases Size(l) + Size(r), 1
  {
    var a, b := Simplified(l).value, Simplified(r).value;
    assert a.RNum?;
    NegatedConstant(l, a.value);
    if b.RNum? {
      QuotientOfNegation(a.value, b.value);
      DivisibleNegation(a.value, b.value);
    }
  }

  lemma {:induction false} NegatedIsNormal(e: RExpr)
    requires Normal(e) && Negated(e).Ok?
    ensures Normal(Negated(e).value)
    decreases Size(e), 2
  {
    match e
    case RVar(_) =>
    case RNum(_) =>
    case RNeg(x) => SimplifiedIsNormal(x);
    case RBin(op, l, r) =>
      NormalBin(op, l, r);
      if op == Div {
        var a, b := Simplified(l).value, Simplified(r).value;
        if a.RNum? && b.RNum? {
          NegatedConstant(l, a.value);
          DivisibleNegation(a.value, b.value);
        } else {
          NegatedIsNormal(l);
          NegatedOfNormal(l);
        }
      }
  }

  /** Negation turns a normal expression into a number or a literal only if it was a number. */
  lemma NegatedOfNormal(e: RExpr)
    requires Normal(e) && Negated(e).Ok?
    ensures !Negated(e).value.RLit?
    ensures Negated(e).value.RNum? ==> e.RNum?
  {
  }

  /** Simplifying twice is simplifying once. */
  lemma {:induction false} SimplifiedIsNormal(e: RExpr)
    requires Simplified(e).Ok?
    ensures Normal(Simplified(e).value)
    decreases Size(e), 3
  {
    match e
    case RVar(_) =>
    case RLit(_) =>
    case RNum(_) =>
    case RNeg(x) =>
      SimplifiedIsNormal(x);
      NegatedIsNormal(Simplified(x).value);
    case RBin(op, l, r) =>
      SimplifiedIsNormal(l);
      SimplifiedIsNormal(r);
      var a, b := Simplified(l).value, Simplified(r).value;
      if a == RNum(0) && !b.RNum? && op == Sub {
        NegatedIsNormal(b);
      }
  }

  // Values.

  type Store = map<string, int>

  function Apply(op: BinOp, a: int, b: int): Option<int> {
    match op
    case Sub => Some(a - b)
    case Div => if b == 0 then None else Some(TruncDiv(a, b))
    case Pow => if b < 0 then None else Some(Power(a, b))
    case Mod => if b == 0 then None else Some(FloorMod(a, b))
  }

  /** Values in the target language: division rounds toward zero, `mod` has the sign of the divisor; literals
      are not numbers. */
  function Value(e: RExpr, env: Store): Option<int> {
    match e
    case RVar(x) => if x in env then Some(env[x]) else None
    case RLit(_) => None
    case RNum(n) => Some(n)
    case RNeg(x) => (var v := Value(x, env); if v.Some? then Some(-v.value) else None)
    case RBin(op, l, r) =>
      (var a, b := Value(l, env), Value(r, env);
       if a.Some? && b.Some? then Apply(op, a.value, b.value) else None)
  }

  /** `into_negated` is arithmetic negation. */
  lemma {:induction false} NegatedValue(e: RExpr, env: Store)
    requires Value(e, env).Some? && Negated(e).Ok?
    ensures Value(Negated(e).value, env) == Some(-Value(e, env).value)
  {
    match e
    case RBin(Div, l, r) =>
      NegatedValue(l, env);
      QuotientOfNegation(Value(l, env).value, Value(r, env).value);
    case _ =>
  }

  /** The fold of a modulus is the operator of the target language exactly if the divisor is positive or the
      division is inexact. */
  lemma ModFoldIsExact(l: int, r: int)
    requires r != 0
    ensures ModFold(l, r) == FloorMod(l, r) <==> r > 0 || l % r != 0
  {
    if r < 0 {
      DivisibleNegation(l, r);
      var m, q := l % r, l / r;
      assert l == r * q + m;
      assert (-l) == (-r) * q - m;
      if m != 0 {
        DivisionIsUnique(-l, -r, q - 1, -r - m);
      } else {
        DivisionIsUnique(-l, -r, q, 0);
      }
    }
  }

  /** A power of zero is zero exactly if the exponent is positive. */
  lemma ZeroBase(e: nat)
    ensures Power(0, e) == 0 <==> e > 0
  {
  }

  lemma ZeroOperand(op: BinOp, b: int)
    requires Apply(op, 0, b).Some? && op != Sub
    ensures Apply(op, 0, b) == Some(0) <==> op != Pow || b > 0
  {
    if op == Pow {
      ZeroBase(b);
    } else {
      DivisionIsUnique(0, if b > 0 then b else -b, 0, 0);
    }
  }

  /** What an expression must meet: no constant modulus with a negative divisor is exact, and a base that is
      simplified to zero has a positive exponent unless the exponent is constant too. */
  predicate Premises(e: RExpr, env: Store) {
    match e
    case RNeg(x) => Premises(x, env)
    case RBin(op, l, r) =>
      Premises(l, env) && Premises(r, env)
      && (Simplified(l).Ok? && Simplified(r).Ok? ==>
            var a, b := Simplified(l).value, Simplified(r).value;
            && (op == Mod && a.RNum? && b.RNum? && b.value < 0 ==> a.value % b.value != 0)
            && (op == Pow && a == RNum(0) && !b.RNum? ==> Value(r, env).Some? && Value(r, env).value > 0))
    case _ => true
  }

  /** Simplification keeps the value of every defined expression that meets the premises. */
  lemma {:induction false} SimplifiedKeepsValue(e: RExpr, env: Store)
    requires Value(e, env).Some? && Simplified(e).Ok? && Premises(e, env)
    ensures Value(Simplified(e).value, env) == Value(e, env)
    decreases Size(e)
  {
    match e
    case RVar(_) =>
    case RNum(_) =>
    case RNeg(x) =>
      SimplifiedKeepsValue(x, env);
      NegatedValue(Simplified(x).value, env);
    case RBin(op, l, r) =>
      SimplifiedKeepsValue(l, env);
      SimplifiedKeepsValue(r, env);
      BinKeepsValue(op, l, r, env);
  }

  lemma FoldKeepsValue(op: BinOp, a: int, b: int, self: RExpr, env: Store)
    requires Apply(op, a, b).Some? && Value(self, env) == Apply(op, a, b) && FoldNumbers(op, a, b, self).Ok?
    requires op == Mod ==> b > 0 || a % b != 0
    ensures Value(FoldNumbers(op, a, b, self).value, env) == Apply(op, a, b)
  {
    if op == Mod {
      ModFoldIsExact(a, b);
    }
  }

  lemma BinKeepsValue(op: BinOp, l: RExpr, r: RExpr, env: Store)
    requires Value(RBin(op, l, r), env).Some? && Simplified(RBin(op, l, r)).Ok? && Premises(RBin(op, l, r), env)
    requires Value(Simplified(l).value, env) == Value(l, env)
    requires Value(Simplified(r).value, env) == Value(r, env)
    ensures Value(Simplified(RBin(op, l, r)).value, env) == Value(RBin(op, l, r), env)
  {
    hide TruncDiv, FloorMod, FoldNumbers, Negated, ModFold, Power;
    var a, b := Simplified(l).value, Simplified(r).value;
    if a.RNum? && b.RNum? {
      FoldKeepsValue(op, a.value, b.value, RBin(op, l, r), env);
    } else if a == RNum(0) {
      if op == Sub {
        SimplifiedIsNormal(r);
        NegatedIsNormal(b);
        NegatedValue(b, env);
      } else {
        ZeroOperand(op, Value(r, env).value);
      }
    } else if b == RNum(0) {
      SimplifiedIsNormal(l);
      ZeroPower(Value(l, env).value);
    }
  }

  lemma ZeroPower(b: int)
    ensures Power(b, 0) == 1
  {
  }

  // Panics.

  /** Every power of two constants that is computed has an exponent of 32 bits. */
  predicate SmallExponents(e: RExpr) {
    match e
    case RNeg(x) => SmallExponents(x)
    case RBin(op, l, r) =>
      && SmallExponents(l) && SmallExponents(r)
      && var a, b := Simplified(l), Simplified(r);
         op == Pow && a.Ok? && b.Ok? && a.value.RNum? && b.value.RNum? ==> b.value.value <= MAX_EXPONENT
    case _ => true
  }

  lemma {:induction false} NegatedSucceeds(e: RExpr, env: Store)
    requires Value(e, env).Some?
    ensures Negated(e).Ok?
  {
    match e
    case RBin(Div, l, r) => NegatedSucceeds(l, env);
    case _ =>
  }

  /** A defined expression that meets the premises is simplified without a panic exactly if the exponents it
      computes with are small. */
  lemma {:induction false} SimplifiedSucceeds(e: RExpr, env: Store)
    requires Value(e, env).Some? && Premises(e, env)
    ensures Simplified(e).Ok? <==> SmallExponents(e)
    decreases Size(e)
  {
    match e
    case RVar(_) =>
    case RNum(_) =>
    case RNeg(x) =>
      SimplifiedSucceeds(x, env);
      if Simplified(x).Ok? {
        SimplifiedKeepsValue(x, env);
        NegatedSucceeds(Simplified(x).value, env);
      }
    case RBin(op, l, r) =>
      SimplifiedSucceeds(l, env);
      SimplifiedSucceeds(r, env);
      if Simplified(l).Ok? && Simplified(r).Ok? {
        SimplifiedKeepsValue(l, env);
        SimplifiedKeepsValue(r, env);
        BinSucceeds(op, l, r, env);
      }
  }

  lemma BinSucceeds(op: BinOp, l: RExpr, r: RExpr, env: Store)
    requires Value(RBin(op, l, r), env).Some?
    requires Simplified(l).Ok? && Value(Simplified(l).value, env) == Value(l, env)
    requires Simplified(r).Ok? && Value(Simplified(r).value, env) == Value(r, env)
    ensures var a, b := Simplified(l).value, Simplified(r).value;
            Simplified(RBin(op, l, r)).Ok? <==>
            (op == Pow && a.RNum? && b.RNum? ==> b.value <= MAX_EXPONENT)
  {
    hide TruncDiv, FloorMod, Negated, ModFold, Power;
    var a, b := Simplified(l).value, Simplified(r).value;
    if a == RNum(0) && !b.RNum? && op == Sub {
      NegatedSucceeds(b, env);
      SimplifiedIsNormal(r);
      NegatedIsNormal(b);
    } else if b == RNum(0) && !a.RNum? && op == Sub {
      SimplifiedIsNormal(l);
    }
  }

  // Without the premises.

  /** `4 mod (-2)` is zero, but is simplified to -2. */
  lemma ExactNegativeModulusLosesValue(env: Store)
    ensures var e := RBin(Mod, RNum(4), RNum(-2));
            Simplified(e) == Ok(RNum(-2)) && Value(e, env) == Some(0)
  {
    DivisionIsUnique(4, 2, 2, 0);
    DivisionIsUnique(-4, 2, -2, 0);
  }

  /** `0 ** X` is one if X is zero, but is simplified to 0. */
  lemma ZeroExponentLosesValue(x: string)
    ensures var e := RBin(Pow, RNum(0), RVar(x));
            Simplified(e) == Ok(RNum(0)) && Value(e, map[x := 0]) == Some(1)
  {
  }
}
