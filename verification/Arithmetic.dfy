/** Facts about division that several proofs share. */
module Arithmetic {
  import opened Expressions

  lemma SmallMultiple(k: int, d: int)
    requires -d < k * d < d
    ensures k == 0
  {
  }

  /** Quotient and remainder of a division by a positive number are unique. */
  lemma DivisionIsUnique(a: int, d: int, q: int, m: int)
    requires d > 0 && a == q * d + m && 0 <= m < d
    ensures a / d == q && a % d == m
  {
    assert (q - a / d) * d == a % d - m;
    SmallMultiple(q - a / d, d);
  }

  lemma MultipleOf(q: int, d: int)
    requires d != 0
    ensures (q * d) % d == 0
  {
    if d > 0 {
      DivisionIsUnique(q * d, d, q, 0);
    } else {
      DivisionIsUnique(q * d, -d, -q, 0);
      var p := q * d;
      assert (-(p / d) - p / (-d)) * (-d) == p % (-d) - p % d;
      SmallMultiple(-(p / d) - p / (-d), -d);
    }
  }

  lemma DivisibleNegation(a: int, d: int)
    requires d != 0
    ensures (-a) % d == 0 <==> a % d == 0
  {
    if a % d == 0 {
      assert -a == (-(a / d)) * d;
      MultipleOf(-(a / d), d);
    } else if (-a) % d == 0 {
      assert a == (-((-a) / d)) * d;
      MultipleOf(-((-a) / d), d);
      assert false;
    }
  }

  lemma ExactDivision(l: int, r: int)
    requires r > 0 && l % r == 0
    ensures (l / r) * r == l
    ensures (-l) % r == 0 && (-l) / r == -(l / r)
  {
    DivisionIsUnique(-l, r, -(l / r), 0);
  }

  lemma TruncDivExact(l: int, r: int)
    requires r != 0 && FloorMod(l, r) == 0
    ensures TruncDiv(l, r) * r == l
  {
    if r > 0 {
      ExactDivision(l, r);
    } else {
      ExactDivision(-l, -r);
    }
  }

  lemma QuotientOfNegation(a: int, b: int)
    requires b != 0
    ensures TruncDiv(-a, b) == -TruncDiv(a, b)
  {
    var d := if b < 0 then -b else b;
    if a == 0 {
      DivisionIsUnique(0, d, 0, 0);
    } else {
      var p := if a < 0 then -a else a;
      assert TruncDiv(a, b) == if (a < 0) == (b < 0) then p / d else -(p / d);
      assert TruncDiv(-a, b) == if (-a < 0) == (b < 0) then p / d else -(p / d);
    }
  }
}
