/** The names of temporaries: `T_` followed by a decimal counter. */
module Identifiers {
  function Digit(d: nat): char
    requires d < 10
  {
    '0' + d as char
  }

  function Decimal(i: nat): (s: string)
    ensures s != []
  {
    if i < 10 then [Digit(i)] else Decimal(i / 10) + [Digit(i % 10)]
  }

  function TempName(i: nat): string {
    "T_" + Decimal(i)
  }

  function DecimalValue(s: string): int {
    if s == [] then 0 else DecimalValue(s[..|s| - 1]) * 10 + (s[|s| - 1] as int - '0' as int)
  }

  /** The counter in the name of a temporary, or -1 for any other name. */
  function TempIndex(id: string): int {
    if |id| < 2 then -1
    else
      var i := DecimalValue(id[2..]);
      if i >= 0 && id == TempName(i) then i else -1
  }

  lemma DecimalRoundTrip(i: nat)
    ensures DecimalValue(Decimal(i)) == i
  {
    var s := Decimal(i);
    if i < 10 {
      assert s[..|s| - 1] == [];
    } else {
      assert s[..|s| - 1] == Decimal(i / 10);
    }
  }

  /** The counter can be read back from a name, so generated names are pairwise distinct. */
  lemma TempIndexOfName(i: nat)
    ensures TempIndex(TempName(i)) == i
  {
    DecimalRoundTrip(i);
    assert TempName(i)[2..] == Decimal(i);
  }

  /** The generator that the lowering of one state machine shares. */
  class IdGenerator {
    var i: nat

    constructor ()
      ensures i == 0
    {
      i := 0;
    }

    method Next() returns (id: string)
      modifies this
      ensures id == TempName(old(i)) && i == old(i) + 1
    {
      id := TempName(i);
      i := i + 1;
    }
  }
}
