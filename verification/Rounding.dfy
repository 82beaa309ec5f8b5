/** Constant quotients: the simplifier compares them exactly, the compiled code rounds them first. */
module Rounding {
  import opened Arithmetic
  import opened Expressions
  import opened Ir
  import opened Simplifier

  lemma QuotientBounds(m: nat, b: int)
    requires b > 0
    ensures Product(m / b, b) <= m < Product(m / b + 1, b)
  {
    var q := m / b;
    assert q * b + m % b == m;
    assert (q + 1) * b == q * b + b;
  }

  lemma ProductSign(x: int, b: int)
    ensures Product(-x, b) == -Product(x, b)
  {
  }

  /** A quotient of a positive divisor, rounded toward zero. */
  lemma TruncDivBounds(a: int, b: int)
    requires b > 0
    ensures var p := TruncDiv(a, b);
            && (p > 0 ==> Product(p, b) <= a) && (p >= 0 ==> a < Product(p + 1, b))
            && (p < 0 ==> a <= Product(p, b)) && (p <= 0 ==> Product(p - 1, b) < a)
  {
    hide Product;
    var m := if a < 0 then -a else a;
    var q := m / b;
    assert TruncDiv(a, b) == if a < 0 then -q else q;
    hide TruncDiv;
    QuotientBounds(m, b);
    ProductSign(q, b);
    ProductSign(q + 1, b);
    ZeroProduct(b);
    assert -(q + 1) == -q - 1;
  }

  lemma ZeroProduct(b: int)
    ensures Product(0, b) == 0 && Product(1, b) == b && Product(-1, b) == -b
  {
  }

  lemma ProductMonotone(x: int, y: int, d: int)
    requires x <= y && d > 0
    ensures Product(x, d) <= Product(y, d)
    ensures x < y ==> Product(x, d) < Product(y, d)
  {
  }

  lemma ProductShuffle(p: int, b: int, d: int)
    ensures Product(Product(p, b), d) == Product(Product(p, d), b)
  {
  }

  /** Rounding toward zero keeps the order of two quotients, but may make them equal. */
  lemma TruncDivMonotone(a: int, b: int, c: int, d: int)
    requires b > 0 && d > 0 && Product(a, d) <= Product(c, b)
    ensures TruncDiv(a, b) <= TruncDiv(c, d)
  {
    var p, q := TruncDiv(a, b), TruncDiv(c, d);
    TruncDivBounds(a, b);
    TruncDivBounds(c, d);
    if q < p {
      if p > 0 {
        // c < p * d and p * b <= a
        var k := if q >= 0 then q + 1 else q;
        ProductMonotone(k, p, d);
        assert c < Product(p, d) || (q < 0 && c <= Product(q, d));
        ProductMonotone(c, Product(p, d) - 1, b);
        ProductMonotone(Product(p, d) - 1, Product(p, d), b);
        ProductMonotone(Product(p, b), a, d);
      } else {
        // c <= q * d and (p - 1) * b < a
        ProductMonotone(q, p - 1, b);
        ProductMonotone(c, Product(q, d), b);
        ProductMonotone(Product(q, b), a, d);
        ProductShuffle(q, b, d);
      }
      ProductShuffle(p, b, d);
      assert false;
    }
  }

  function Positive(x: int, sign: int): int {
    if sign > 0 then x else -x
  }

  lemma TruncDivSign(a: int, b: int)
    requires b != 0
    ensures TruncDiv(a, b) == TruncDiv(Positive(a, b), Positive(b, b))
  {
    if b < 0 && a == 0 {
      TruncDivExact(0, b);
      TruncDivExact(0, -b);
    }
  }

  /** Rounding does not change the comparison: the rounded quotients differ, or the exact ones are equal, or the
      relation does not tell a rounding error from equality. */
  predicate RoundingIsHarmless(rel: RelOp, a: int, b: int, c: int, d: int)
    requires b != 0 && d != 0
  {
    var x, y := Product(Positive(a, b), Positive(d, d)), Product(Positive(c, d), Positive(b, b));
    || TruncDiv(a, b) != TruncDiv(c, d)
    || x == y
    || (x < y && rel in {LessEqual, Greater})
    || (x > y && rel in {Less, GreaterEqual})
  }

  lemma RoundedComparisonIsExact(rel: RelOp, a: int, b: int, c: int, d: int)
    requires b != 0 && d != 0
    ensures CompareFractions(rel, a, b, c, d) == Compare(rel, TruncDiv(a, b), TruncDiv(c, d)) <==>
            RoundingIsHarmless(rel, a, b, c, d)
  {
    TruncDivSign(a, b);
    TruncDivSign(c, d);
    var x, y := Product(Positive(a, b), Positive(d, d)), Product(Positive(c, d), Positive(b, b));
    if x <= y {
      TruncDivMonotone(Positive(a, b), Positive(b, b), Positive(c, d), Positive(d, d));
    }
    if y <= x {
      TruncDivMonotone(Positive(c, d), Positive(d, d), Positive(a, b), Positive(b, b));
    }
  }
}
