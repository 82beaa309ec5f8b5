/** When the recorded line numbers are right, and what is left after the removal. */
module OptimizerMeaning {
  import opened Optimizer

  /** Where the scan of a text stands.  `Outside`: no if block is recorded.  `Inside`: directly after the if line
      `b`.  `Stale`: an if line is recorded whose block may be closed already.  `Marked`: after the goto line `g`
      directly behind the if line `b`.  `Wide`: after a goto that takes a stale if line for its own.  `Spread`: a
      check that spans more than its own block was recorded.  `Lost`: an assertion was inserted for which no check
      is recorded. */
  datatype Phase = Outside | Inside(b: nat) | Stale | Marked(b: nat, g: nat) | Wide | Spread | Lost {
    function Next(n: nat, kind: Kind): Phase {
      if kind == OtherLine then this
      else
        match this
        case Outside => if kind == IfLine then Inside(n) else Outside
        case Inside(b) =>
          (match kind
           case IfLine => Inside(n)
           case GotoLine => Marked(b, n)
           case EndIfLine => Stale
           case _ => Outside)
        case Stale =>
          (match kind
           case IfLine => Inside(n)
           case GotoLine => Wide
           case EndIfLine => Stale
           case _ => Outside)
        case Marked(_, _) => if kind == EndIfLine then Outside else Lost
        case Wide => if kind == EndIfLine then Spread else Lost
        case Spread => Spread
        case Lost => Lost
    }
  }

  function PhaseAt(text: seq<string>, n: nat): Phase
    requires n <= |text|
  {
    if n == 0 then Outside else PhaseAt(text, n - 1).Next(n, KindOf(text[n - 1]))
  }

  /** Every goto that follows an open if line stands between this if line and an `end if`, with no further if,
      else or goto. */
  predicate Tidy(text: seq<string>) {
    var p := PhaseAt(text, |text|);
    p.Outside? || p.Inside? || p.Stale?
  }

  /** The position of a line in the instrumented text. */
  function Position(text: seq<string>, n: nat): nat
    requires n <= |text|
  {
    |Scan(text, n).out|
  }

  /** The position directly before a line. */
  function AssertionLine(text: seq<string>, g: nat): nat
    requires 0 < g <= |text|
  {
    Position(text, g - 1) + 1
  }

  predicate Armed(c: Check) {
    0 < c.begin < c.assertion
  }

  /** An if block with a goto, by its lines in the original text. */
  datatype Block = Block(b: nat, g: nat, e: nat)

  function Blocks(text: seq<string>, n: nat): seq<Block>
    requires n <= |text|
  {
    if n == 0 then []
    else
      var before, p := Blocks(text, n - 1), PhaseAt(text, n - 1);
      if p.Marked? && KindOf(text[n - 1]) == EndIfLine then before + [Block(p.b, p.g, n)] else before
  }

  // Positions.

  lemma PositionStep(text: seq<string>, n: nat)
    requires n < |text|
    ensures Position(text, n) < Position(text, n + 1) <= Position(text, n) + 2
    ensures Scan(text, n + 1).out[..Position(text, n)] == Scan(text, n).out
    ensures Scan(text, n + 1).out[Position(text, n + 1) - 1] == text[n]
    ensures Position(text, n + 1) == Position(text, n) + 2 <==>
            KindOf(text[n]) == GotoLine && Scan(text, n).check.ValidBegin()
    ensures Position(text, n + 1) == Position(text, n) + 2 ==>
            Scan(text, n + 1).out[Position(text, n)] == AssertionFor(text[n])
  {
  }

  lemma {:induction false} PositionMonotone(text: seq<string>, p: nat, q: nat)
    requires p < q <= |text|
    ensures Position(text, p) < Position(text, q)
    ensures Scan(text, q).out[..Position(text, p)] == Scan(text, p).out
    decreases q - p
  {
    hide Scan, KindOf, AssertionFor;
    PositionStep(text, q - 1);
    if p < q - 1 {
      PositionMonotone(text, p, q - 1);
      var x, y, z := Scan(text, p).out, Scan(text, q - 1).out, Scan(text, q).out;
      assert z[..|x|] == z[..|y|][..|x|] == y[..|x|];
    }
  }

  /** A position between those of two neighbouring lines belongs to an inserted assertion. */
  lemma PositionsApart(text: seq<string>, p: nat, g: nat)
    requires p <= |text| && 0 < g <= |text| && Position(text, g) == Position(text, g - 1) + 2
    ensures Position(text, p) != AssertionLine(text, g)
  {
    hide Scan;
    if p < g - 1 {
      PositionMonotone(text, p, g - 1);
    } else if p > g {
      PositionMonotone(text, g, p);
    }
  }

  // The invariant of the scan.

  /** A recorded check is never overwritten. */
  ghost predicate Ordered(s: State, n: nat) {
    && (forall a :: a in s.checks ==> a < n + |s.checks|)
    && (Armed(s.check) ==> forall a :: a in s.checks ==> a < s.check.assertion)
    && s.check.begin <= n + |s.checks| && s.check.assertion <= n + |s.checks|
  }

  lemma RecordCounts(checks: map<nat, Check>, a: nat, c: Check)
    requires a !in checks
    ensures |checks[a := c]| == |checks| + 1
  {
    assert checks[a := c].Keys == checks.Keys + {a};
  }

  /** How many assertions have no recorded check (yet). */
  ghost predicate Counted(s: State, p: Phase, n: nat) {
    var pending := |s.out| - n - |s.checks|;
    match p
    case Outside => s.check.begin == 0 && pending == 0
    case Inside(b) => 0 < b <= n && s.check.begin == b + |s.checks| && pending == 0 && !Armed(s.check)
    case Stale => s.check.begin > 0 && pending == 0 && !Armed(s.check)
    case Marked(b, g) =>
      && 0 < b < g <= n && pending == 1
      && s.check.begin == b + |s.checks| && s.check.assertion == g + |s.checks|
    case Wide => Armed(s.check) && pending == 1
    case Spread => pending >= if Armed(s.check) then 1 else 0
    case Lost => pending >= if Armed(s.check) then 2 else 1
  }

  lemma {:induction false} ScanCounts(text: seq<string>, n: nat)
    requires n <= |text|
    ensures Ordered(Scan(text, n), n) && Counted(Scan(text, n), PhaseAt(text, n), n)
  {
    if n > 0 {
      ScanCounts(text, n - 1);
      StepCounts(Scan(text, n - 1), PhaseAt(text, n - 1), n, text[n - 1]);
    }
  }

  lemma StepCounts(s: State, p: Phase, n: nat, l: string)
    requires n > 0 && Ordered(s, n - 1) && Counted(s, p, n - 1)
    ensures Ordered(StepLine(s, n, l), n) && Counted(StepLine(s, n, l), p.Next(n, KindOf(l)), n)
  {
    hide KindOf, AssertionFor;
    var c := s.check.(end := n + |s.checks| + 1);
    if c.Valid() {
      RecordCounts(s.checks, c.assertion, c);
    }
  }

  // Spread checks.

  predicate EndsBlock(out: seq<string>, j: nat) {
    0 < j <= |out| && KindOf(out[j - 1]) == EndIfLine
  }

  /** The span of a check contains the end of a block besides its own last line. */
  predicate TooWide(out: seq<string>, c: Check) {
    exists j :: c.begin < j < c.end && EndsBlock(out, j)
  }

  ghost predicate ClosedSince(out: seq<string>, begin: nat) {
    exists j :: begin < j && EndsBlock(out, j)
  }

  ghost predicate Spreads(s: State, p: Phase) {
    && (p.Stale? || p.Wide? ==> ClosedSince(s.out, s.check.begin))
    && (p.Spread? ==> exists a :: a in s.checks && TooWide(s.out, s.checks[a]))
  }

  lemma {:induction false} ScanSpreads(text: seq<string>, n: nat)
    requires n <= |text|
    ensures Spreads(Scan(text, n), PhaseAt(text, n))
  {
    if n > 0 {
      ScanSpreads(text, n - 1);
      ScanCounts(text, n - 1);
      StepSpreads(Scan(text, n - 1), PhaseAt(text, n - 1), n, text[n - 1]);
    }
  }

  lemma Extends(out: seq<string>, longer: seq<string>)
    requires |out| <= |longer| && longer[..|out|] == out
    ensures forall j :: EndsBlock(out, j) ==> EndsBlock(longer, j)
  {
    forall j | EndsBlock(out, j) ensures EndsBlock(longer, j) {
      assert longer[..|out|][j - 1] == longer[j - 1];
    }
  }

  lemma StepOut(s: State, n: nat, l: string)
    ensures var out := StepLine(s, n, l).out; |s.out| < |out| && out[..|s.out|] == s.out && out[|out| - 1] == l
  {
  }

  lemma StepSpreads(s: State, p: Phase, n: nat, l: string)
    requires n > 0 && Ordered(s, n - 1) && Counted(s, p, n - 1) && Spreads(s, p)
    ensures Spreads(StepLine(s, n, l), p.Next(n, KindOf(l)))
  {
    hide AssertionFor, KindOf;
    var after := StepLine(s, n, l);
    StepOut(s, n, l);
    Extends(s.out, after.out);
    if p.Inside? && KindOf(l) == EndIfLine {
      assert EndsBlock(after.out, |after.out|);
    } else if p.Wide? && KindOf(l) == EndIfLine {
      var c := s.check.(end := n + |s.checks| + 1);
      assert TooWide(after.out, c) && after.checks[c.assertion] == c;
    } else if p.Spread? {
      SpreadStays(s, n, l);
    }
  }

  lemma SpreadStays(s: State, n: nat, l: string)
    requires n > 0 && Ordered(s, n - 1) && exists a :: a in s.checks && TooWide(s.out, s.checks[a])
    ensures var after := StepLine(s, n, l); exists a :: a in after.checks && TooWide(after.out, after.checks[a])
  {
    hide AssertionFor, KindOf;
    var after := StepLine(s, n, l);
    StepOut(s, n, l);
    Extends(s.out, after.out);
    var a :| a in s.checks && TooWide(s.out, s.checks[a]);
    assert a in after.checks && after.checks[a] == s.checks[a];
    assert TooWide(after.out, after.checks[a]);
  }

  // The blocks.

  predicate QuietLine(text: seq<string>, i: nat) {
    0 < i <= |text| ==> KindOf(text[i - 1]) == OtherLine
  }

  /** The lines between the two have no effect on the scan. */
  predicate Quiet(text: seq<string>, p: nat, q: nat) {
    forall i :: p < i < q ==> QuietLine(text, i)
  }

  predicate IsKind(text: seq<string>, i: nat, kind: Kind) {
    0 < i <= |text| && KindOf(text[i - 1]) == kind
  }

  /** An assertion is inserted before the line. */
  predicate Marks(text: seq<string>, g: nat) {
    0 < g <= |text| && Position(text, g) == Position(text, g - 1) + 2
  }

  predicate OpenBlock(text: seq<string>, b: nat, g: nat) {
    b < g && IsKind(text, b, IfLine) && IsKind(text, g, GotoLine) && Quiet(text, b, g) && Marks(text, g)
  }

  /** An if block whose only further effective line is a goto with an inserted assertion. */
  predicate GoodBlock(text: seq<string>, k: Block) {
    OpenBlock(text, k.b, k.g) && k.g < k.e && IsKind(text, k.e, EndIfLine) && Quiet(text, k.g, k.e)
  }

  /** The check of a block: the assertion stands directly before the goto. */
  function CheckOf(text: seq<string>, k: Block): Check
    requires GoodBlock(text, k)
  {
    Check(Position(text, k.b), AssertionLine(text, k.g), Position(text, k.e))
  }

  predicate HasCheck(text: seq<string>, checks: map<nat, Check>, k: Block) {
    GoodBlock(text, k) &&
    var c := CheckOf(text, k);
    c.assertion in checks && checks[c.assertion] == c
  }

  predicate Owns(text: seq<string>, k: Block, a: nat) {
    GoodBlock(text, k) && CheckOf(text, k).assertion == a
  }

  /** The recorded checks are those of the blocks. */
  ghost predicate BlocksFit(text: seq<string>, checks: map<nat, Check>, blocks: seq<Block>) {
    && (forall k :: k in blocks ==> HasCheck(text, checks, k))
    && (forall a :: a in checks ==> exists k :: k in blocks && Owns(text, k, a))
  }

  /** Every inserted assertion is recorded, except the one that waits for the end of its block. */
  ghost predicate MarksFit(text: seq<string>, checks: map<nat, Check>, p: Phase, n: nat) {
    forall g: nat :: g <= n && Marks(text, g) && !(p.Marked? && p.g == g) ==> AssertionLine(text, g) in checks
  }

  ghost predicate OpenFits(text: seq<string>, c: Check, p: Phase, n: nat) {
    && (p.Inside? ==> p.b <= n && IsKind(text, p.b, IfLine) && Quiet(text, p.b, n + 1)
                      && Position(text, p.b) == c.begin)
    && (p.Marked? ==> p.g <= n && OpenBlock(text, p.b, p.g) && Quiet(text, p.g, n + 1)
                      && Position(text, p.b) == c.begin && AssertionLine(text, p.g) == c.assertion)
  }

  predicate IsGood(p: Phase) {
    !(p.Wide? || p.Spread? || p.Lost?)
  }

  lemma MarksStep(text: seq<string>, n: nat)
    requires 0 < n <= |text|
    ensures |Scan(text, n - 1).out| == Position(text, n - 1)
    ensures Position(text, n - 1) < Position(text, n) <= Position(text, n - 1) + 2
    ensures Marks(text, n) <==> KindOf(text[n - 1]) == GotoLine && Scan(text, n - 1).check.ValidBegin()
  {
    hide Scan, KindOf;
    PositionStep(text, n - 1);
  }

  lemma ScanStep(text: seq<string>, n: nat)
    requires 0 < n <= |text|
    ensures Scan(text, n) == StepLine(Scan(text, n - 1), n, text[n - 1])
    ensures PhaseAt(text, n) == PhaseAt(text, n - 1).Next(n, KindOf(text[n - 1]))
  {
  }

  lemma {:induction false} OpenScan(text: seq<string>, n: nat)
    requires n <= |text|
    ensures OpenFits(text, Scan(text, n).check, PhaseAt(text, n), n)
  {
    if n > 0 {
      hide Scan, PhaseAt, KindOf, AssertionFor, StepLine, OpenFits, Counted, Ordered,
        Position, Marks;
      OpenScan(text, n - 1);
      ScanCounts(text, n - 1);
      ScanStep(text, n);
      MarksStep(text, n);
      OpenStep(text, Scan(text, n - 1), PhaseAt(text, n - 1), n);
    }
  }

  lemma OpenStep(text: seq<string>, s: State, p: Phase, n: nat)
    requires 0 < n <= |text| && |s.out| == Position(text, n - 1)
    requires Scan(text, n) == StepLine(s, n, text[n - 1])
    requires Counted(s, p, n - 1) && OpenFits(text, s.check, p, n - 1)
    requires Marks(text, n) <==> KindOf(text[n - 1]) == GotoLine && s.check.ValidBegin()
    requires Position(text, n - 1) < Position(text, n) <= Position(text, n - 1) + 2
    ensures OpenFits(text, Scan(text, n).check, p.Next(n, KindOf(text[n - 1])), n)
  {
    hide KindOf, AssertionFor, Scan;
    assert QuietLine(text, n) <==> KindOf(text[n - 1]) == OtherLine;
  }

  /** Unless a check is spread or lost, the recorded checks are those of the blocks, and no assertion is without. */
  lemma {:induction false} BlocksScan(text: seq<string>, n: nat)
    requires n <= |text| && IsGood(PhaseAt(text, n))
    ensures BlocksFit(text, Scan(text, n).checks, Blocks(text, n))
    ensures MarksFit(text, Scan(text, n).checks, PhaseAt(text, n), n)
  {
    if n > 0 {
      hide Scan, PhaseAt, Blocks, KindOf, AssertionFor, StepLine, BlocksFit, MarksFit, OpenFits, Counted, Ordered,
        Position, Marks;
      ScanStep(text, n);
      BlocksScan(text, n - 1);
      ScanCounts(text, n - 1);
      OpenScan(text, n - 1);
      MarksStep(text, n);
      var s, p := Scan(text, n - 1), PhaseAt(text, n - 1);
      if p.Marked? && KindOf(text[n - 1]) == EndIfLine {
        BlockCloses(text, n, s, p);
      } else {
        NoBlockCloses(text, n, s, p);
      }
    } else {
      hide BlocksFit, MarksFit;
      NothingRecorded(text);
    }
  }

  lemma NothingRecorded(text: seq<string>)
    ensures BlocksFit(text, map[], []) && MarksFit(text, map[], Outside, 0)
  {
    hide HasCheck, Owns, Scan;
  }

  lemma NoBlockCloses(text: seq<string>, n: nat, s: State, p: Phase)
    requires 0 < n <= |text| && s == Scan(text, n - 1) && p == PhaseAt(text, n - 1) && Counted(s, p, n - 1)
    requires !(p.Marked? && KindOf(text[n - 1]) == EndIfLine) && IsGood(PhaseAt(text, n))
    requires MarksFit(text, s.checks, p, n - 1)
    requires Marks(text, n) ==> KindOf(text[n - 1]) == GotoLine && s.check.ValidBegin()
    ensures Scan(text, n).checks == s.checks && Blocks(text, n) == Blocks(text, n - 1)
    ensures MarksFit(text, s.checks, PhaseAt(text, n), n)
  {
    hide KindOf, AssertionFor, Position;
    assert Scan(text, n) == StepLine(s, n, text[n - 1]);
    assert PhaseAt(text, n) == p.Next(n, KindOf(text[n - 1]));
  }

  lemma BlockCloses(text: seq<string>, n: nat, s: State, p: Phase)
    requires 0 < n <= |text| && s == Scan(text, n - 1) && p == PhaseAt(text, n - 1)
    requires p.Marked? && KindOf(text[n - 1]) == EndIfLine
    requires Ordered(s, n - 1) && Counted(s, p, n - 1) && OpenFits(text, s.check, p, n - 1)
    requires BlocksFit(text, s.checks, Blocks(text, n - 1)) && MarksFit(text, s.checks, p, n - 1)
    requires Marks(text, n) ==> KindOf(text[n - 1]) == GotoLine
    ensures BlocksFit(text, Scan(text, n).checks, Blocks(text, n))
    ensures MarksFit(text, Scan(text, n).checks, PhaseAt(text, n), n)
  {
    hide KindOf, AssertionFor, BlocksFit, MarksFit, Position;
    var k := Block(p.b, p.g, n);
    var c := Check(s.check.begin, s.check.assertion, n + |s.checks| + 1);
    assert Scan(text, n) == StepLine(s, n, text[n - 1]);
    assert Scan(text, n).checks == s.checks[c.assertion := c];
    ClosedBlock(text, n, s, p);
    RecordKeeps(text, s.checks, Blocks(text, n - 1), k);
    MarksKept(text, s.checks, p, n, c);
  }

  lemma MarksKept(text: seq<string>, checks: map<nat, Check>, p: Phase, n: nat, c: Check)
    requires 0 < n <= |text| && p.Marked? && p.g < n && MarksFit(text, checks, p, n - 1) && !Marks(text, n)
    requires 0 < p.g && AssertionLine(text, p.g) == c.assertion
    ensures MarksFit(text, checks[c.assertion := c], Outside, n)
  {
    hide Position, Marks;
  }

  lemma ClosedBlock(text: seq<string>, n: nat, s: State, p: Phase)
    requires 0 < n <= |text| && s == Scan(text, n - 1) && p.Marked? && KindOf(text[n - 1]) == EndIfLine
    requires Ordered(s, n - 1) && Counted(s, p, n - 1) && OpenFits(text, s.check, p, n - 1)
    ensures var k := Block(p.b, p.g, n);
            && GoodBlock(text, k)
            && CheckOf(text, k) == Check(s.check.begin, s.check.assertion, n + |s.checks| + 1)
    ensures s.check.assertion !in s.checks
  {
    hide KindOf, AssertionFor;
    assert Scan(text, n) == StepLine(s, n, text[n - 1]);
    assert Position(text, n) == n + |s.checks| + 1;
  }

  lemma RecordKeeps(text: seq<string>, checks: map<nat, Check>, blocks: seq<Block>, k: Block)
    requires BlocksFit(text, checks, blocks) && GoodBlock(text, k) && CheckOf(text, k).assertion !in checks
    ensures BlocksFit(text, checks[CheckOf(text, k).assertion := CheckOf(text, k)], blocks + [k])
  {
    hide GoodBlock, Position;
    var c := CheckOf(text, k);
    var more := checks[c.assertion := c];
    forall j | j in blocks + [k] ensures HasCheck(text, more, j) {
      if j in blocks {
        assert HasCheck(text, checks, j);
      }
    }
    forall a | a in more ensures exists j :: j in blocks + [k] && Owns(text, j, a) {
      if a == c.assertion {
        assert k in blocks + [k] && Owns(text, k, a);
      } else {
        var j :| j in blocks && Owns(text, j, a);
        assert j in blocks + [k];
      }
    }
  }

  // The lines at the recorded numbers.

  lemma LineAt(text: seq<string>, p: nat)
    requires 0 < p <= |text|
    ensures 0 < Position(text, p) <= |Scan(text, |text|).out|
    ensures Scan(text, |text|).out[Position(text, p) - 1] == text[p - 1]
    ensures Marks(text, p) ==> Scan(text, |text|).out[AssertionLine(text, p) - 1] == AssertionFor(text[p - 1])
  {
    hide Scan, AssertionFor, KindOf;
    PositionStep(text, p - 1);
    if p < |text| {
      PositionMonotone(text, p, |text|);
    }
    var out, final := Scan(text, p).out, Scan(text, |text|).out;
    assert final[..|out|] == out;
    assert final[|out| - 1] == out[|out| - 1];
    if Marks(text, p) {
      assert final[|out| - 2] == out[|out| - 2];
    }
  }

  /** In a tidy text each check is that of a block with a single goto. */
  lemma RecordedBlock(text: seq<string>, a: nat) returns (k: Block)
    requires Tidy(text) && a in Scan(text, |text|).checks
    ensures GoodBlock(text, k) && k in Blocks(text, |text|)
    ensures Scan(text, |text|).checks[a] == CheckOf(text, k) && CheckOf(text, k).assertion == a
  {
    hide Scan, PhaseAt, Blocks, BlocksFit, MarksFit, GoodBlock;
    TidyEnd(text);
    BlocksScan(text, |text|);
    k := PickBlock(text, Scan(text, |text|).checks, Blocks(text, |text|), a);
  }

  lemma PickBlock(text: seq<string>, checks: map<nat, Check>, blocks: seq<Block>, a: nat) returns (k: Block)
    requires BlocksFit(text, checks, blocks) && a in checks
    ensures GoodBlock(text, k) && k in blocks && checks[a] == CheckOf(text, k) && CheckOf(text, k).assertion == a
  {
    hide GoodBlock, Position;
    k :| k in blocks && Owns(text, k, a);
    assert HasCheck(text, checks, k);
  }

  /** The check of a block names the if line, the inserted assertion and the `end if` line. */
  lemma BlockLines(text: seq<string>, k: Block)
    requires GoodBlock(text, k)
    ensures var out, c := Scan(text, |text|).out, CheckOf(text, k);
            && 0 < c.begin < c.assertion < c.end <= |out|
            && out[c.begin - 1] == text[k.b - 1]
            && out[c.assertion - 1] == AssertionFor(text[k.g - 1])
            && out[c.end - 1] == text[k.e - 1]
  {
    hide Scan, KindOf, AssertionFor, Blocks, Position;
    LineAt(text, k.b);
    LineAt(text, k.g);
    LineAt(text, k.e);
    BlockPositions(text, k);
  }

  lemma TidyEnd(text: seq<string>)
    requires Tidy(text)
    ensures IsGood(PhaseAt(text, |text|)) && !PhaseAt(text, |text|).Marked?
  {
  }

  lemma BlockPositions(text: seq<string>, k: Block)
    requires GoodBlock(text, k)
    ensures 0 < Position(text, k.b) < AssertionLine(text, k.g) < Position(text, k.g) < Position(text, k.e)
  {
    hide Scan, KindOf;
    if k.b < k.g - 1 {
      PositionMonotone(text, k.b, k.g - 1);
    }
    PositionMonotone(text, k.g, k.e);
    PositionStep(text, k.b - 1);
  }

  // Exactness of the bookkeeping.

  lemma {:induction false} StrippedAssertion(l: string)
    ensures Stripped(AssertionFor(l)) == "pragma Assert (False);"
  {
    if l != [] && l[0] == ' ' {
      StrippedAssertion(l[1..]);
      assert AssertionFor(l)[1..] == AssertionFor(l[1..]);
    }
  }

  lemma AssertionIsOther(l: string)
    ensures KindOf(AssertionFor(l)) == OtherLine
  {
    StrippedAssertion(l);
    var s := "pragma Assert (False);";
    assert s[0] == 'p';
    assert "if"[0] == 'i' && "goto"[0] == 'g' && "else"[0] == 'e' && "end if"[0] == 'e';
  }

  /** Each line of the instrumented text is an original one or an inserted assertion. */
  lemma {:induction false} Locate(text: seq<string>, n: nat, j: nat) returns (p: nat)
    requires n <= |text| && 0 < j <= Position(text, n)
    ensures 0 < p <= n && (j == Position(text, p) || (Marks(text, p) && j == AssertionLine(text, p)))
  {
    hide KindOf, AssertionFor;
    PositionStep(text, n - 1);
    if j <= Position(text, n - 1) {
      p := Locate(text, n - 1, j);
    } else {
      p := n;
    }
  }

  lemma PositionOrder(text: seq<string>, p: nat, q: nat)
    requires p <= |text| && q <= |text| && Position(text, p) < Position(text, q)
    ensures p < q
  {
    if q < p {
      PositionMonotone(text, q, p);
    }
  }

  lemma BlockIsNotTooWide(text: seq<string>, k: Block)
    requires GoodBlock(text, k)
    ensures !TooWide(Scan(text, |text|).out, CheckOf(text, k))
  {
    hide Scan, KindOf, AssertionFor;
    var out, c := Scan(text, |text|).out, CheckOf(text, k);
    forall j | c.begin < j < c.end ensures !EndsBlock(out, j) {
      if j <= |out| {
        var p := Locate(text, |text|, j);
        LineAt(text, p);
        if j == Position(text, p) {
          PositionOrder(text, k.b, p);
          PositionOrder(text, p, k.e);
          assert p != k.g ==> QuietLine(text, p);
        } else {
          AssertionIsOther(text[p - 1]);
        }
      }
    }
  }

  /** The bookkeeping is exact for tidy texts and for no others: every inserted assertion has a recorded check,
      and no check spans more than its own block. */
  lemma BookkeepingIsExact(text: seq<string>)
    ensures var s := Scan(text, |text|);
            Tidy(text) <==>
            |s.out| == |text| + |s.checks| && forall a :: a in s.checks ==> !TooWide(s.out, s.checks[a])
  {
    hide Scan, PhaseAt, TooWide, GoodBlock;
    var s := Scan(text, |text|);
    ScanCounts(text, |text|);
    ScanSpreads(text, |text|);
    if Tidy(text) {
      forall a | a in s.checks ensures !TooWide(s.out, s.checks[a]) {
        var k := RecordedBlock(text, a);
        BlockIsNotTooWide(text, k);
      }
    }
  }

  // What tidiness means for the lines with an inserted assertion.

  predicate Effective(text: seq<string>, i: nat) {
    0 < i <= |text| && KindOf(text[i - 1]) != OtherLine
  }

  /** The effective line before the goto is no if line. */
  ghost predicate WrongBefore(text: seq<string>, g: nat) {
    exists i: nat :: i < g && Effective(text, i) && !IsKind(text, i, IfLine) && Quiet(text, i, g)
  }

  /** The effective line after the goto is no `end if`. */
  ghost predicate WrongAfter(text: seq<string>, g: nat, n: nat) {
    exists i: nat :: g < i <= n && Effective(text, i) && !IsKind(text, i, EndIfLine) && Quiet(text, g, i)
  }

  ghost predicate Misplaced(text: seq<string>, g: nat, n: nat) {
    Marks(text, g) && (WrongBefore(text, g) || WrongAfter(text, g, n))
  }

  ghost predicate PlacesFit(text: seq<string>, p: Phase, n: nat) {
    && (p.Stale? ==> exists i: nat :: i <= n && IsKind(text, i, EndIfLine) && Quiet(text, i, n + 1))
    && (!IsGood(p) ==> exists g :: Misplaced(text, g, n))
  }

  lemma {:induction false} ScanPlaces(text: seq<string>, n: nat)
    requires n <= |text|
    ensures PlacesFit(text, PhaseAt(text, n), n)
  {
    hide Scan, PhaseAt, KindOf, AssertionFor, StepLine, PlacesFit, OpenFits, Counted, Ordered, Position, Marks;
    if n == 0 {
      NothingPlaced(text);
    } else {
      ScanPlaces(text, n - 1);
      ScanCounts(text, n - 1);
      OpenScan(text, n - 1);
      ScanStep(text, n);
      MarksStep(text, n);
      StepPlaces(text, Scan(text, n - 1), PhaseAt(text, n - 1), n);
    }
  }

  lemma NothingPlaced(text: seq<string>)
    ensures PlacesFit(text, PhaseAt(text, 0), 0)
  {
  }

  lemma StepPlaces(text: seq<string>, s: State, p: Phase, n: nat)
    requires 0 < n <= |text| && Counted(s, p, n - 1) && OpenFits(text, s.check, p, n - 1) && PlacesFit(text, p, n - 1)
    requires KindOf(text[n - 1]) == GotoLine && s.check.ValidBegin() ==> Marks(text, n)
    ensures PlacesFit(text, p.Next(n, KindOf(text[n - 1])), n)
  {
    hide KindOf, Position, Marks;
    var next := p.Next(n, KindOf(text[n - 1]));
    assert QuietLine(text, n) <==> KindOf(text[n - 1]) == OtherLine;
    if !IsGood(p) {
      var g :| Misplaced(text, g, n - 1);
      assert Misplaced(text, g, n);
    } else if next.Wide? {
      var i: nat :| i <= n - 1 && IsKind(text, i, EndIfLine) && Quiet(text, i, n);
      assert Effective(text, i) && WrongBefore(text, n) && Misplaced(text, n, n);
    } else if next.Lost? {
      assert Effective(text, n) && WrongAfter(text, p.g, n) && Misplaced(text, p.g, n);
    } else if next.Stale? && next != p {
      assert IsKind(text, n, EndIfLine);
    } else if next.Stale? && KindOf(text[n - 1]) == EndIfLine {
      assert IsKind(text, n, EndIfLine);
    } else if next.Stale? {
      var i: nat :| i <= n - 1 && IsKind(text, i, EndIfLine) && Quiet(text, i, n);
      assert Quiet(text, i, n + 1);
    }
  }

  /** The nearest effective line before the goto of a block is its if line. */
  lemma LineBefore(text: seq<string>, k: Block, i: nat)
    requires GoodBlock(text, k) && i < k.g && Effective(text, i) && Quiet(text, i, k.g)
    ensures i == k.b
  {
    hide KindOf, Marks;
    assert i < k.b ==> QuietLine(text, k.b);
    assert k.b < i ==> QuietLine(text, i);
  }

  /** The nearest effective line after the goto of a block is its `end if`. */
  lemma LineAfter(text: seq<string>, k: Block, i: nat)
    requires GoodBlock(text, k) && k.g < i && Effective(text, i) && Quiet(text, k.g, i)
    ensures i == k.e
  {
    hide KindOf, Marks;
    assert i < k.e ==> QuietLine(text, i);
    assert k.e < i ==> QuietLine(text, k.e);
  }

  lemma MisplacedHasNoBlock(text: seq<string>, g: nat, n: nat, k: Block)
    requires Misplaced(text, g, n) && k.g == g
    ensures !GoodBlock(text, k)
  {
    hide KindOf, Marks, Quiet;
    if GoodBlock(text, k) {
      if WrongBefore(text, g) {
        var i: nat :| i < g && Effective(text, i) && !IsKind(text, i, IfLine) && Quiet(text, i, g);
        LineBefore(text, k, i);
      } else {
        var i: nat :| g < i <= n && Effective(text, i) && !IsKind(text, i, EndIfLine) && Quiet(text, g, i);
        LineAfter(text, k, i);
      }
      assert false;
    }
  }

  ghost predicate HasBlock(text: seq<string>, g: nat) {
    exists k: Block :: k.g == g && GoodBlock(text, k)
  }

  /** A text is tidy exactly if every goto before which an assertion is inserted stands between its own if line and
      its own `end if`, with nothing effective in between. */
  lemma TidyIsPlacement(text: seq<string>)
    ensures Tidy(text) <==> forall g :: Marks(text, g) ==> HasBlock(text, g)
  {
    hide Scan, PhaseAt, KindOf, AssertionFor, GoodBlock, Position, Marks, Blocks;
    var n := |text|;
    if Tidy(text) {
      forall g | Marks(text, g) ensures HasBlock(text, g) {
        MarkedHasBlock(text, g);
      }
    } else if PhaseAt(text, n).Marked? {
      LastHasNoBlock(text);
    } else {
      ScanPlaces(text, n);
      var g :| Misplaced(text, g, n);
      forall k: Block | k.g == g ensures !GoodBlock(text, k) {
        MisplacedHasNoBlock(text, g, n, k);
      }
      assert Marks(text, g) && !HasBlock(text, g);
    }
  }

  lemma MarkedHasBlock(text: seq<string>, g: nat)
    requires Tidy(text) && Marks(text, g)
    ensures HasBlock(text, g)
  {
    hide Scan, PhaseAt, KindOf, AssertionFor, GoodBlock, Blocks;
    TidyEnd(text);
    BlocksScan(text, |text|);
    var k := RecordedBlock(text, AssertionLine(text, g));
    SameMark(text, k, g);
  }

  lemma SameMark(text: seq<string>, k: Block, g: nat)
    requires GoodBlock(text, k) && 0 < g <= |text| && CheckOf(text, k).assertion == AssertionLine(text, g)
    ensures k.g == g
  {
    hide Scan, KindOf;
    if k.g < g {
      PositionMonotone(text, k.g - 1, g - 1);
    } else if g < k.g {
      PositionMonotone(text, g - 1, k.g - 1);
    }
  }

  lemma LastHasNoBlock(text: seq<string>)
    requires PhaseAt(text, |text|).Marked?
    ensures var g := PhaseAt(text, |text|).g; Marks(text, g) && !HasBlock(text, g)
  {
    hide Scan, PhaseAt, KindOf;
    OpenScan(text, |text|);
    var g := PhaseAt(text, |text|).g;
    forall k: Block | k.g == g ensures !GoodBlock(text, k) {
      assert g < k.e ==> QuietLine(text, k.e);
    }
  }

  /** An untidy text: the goto takes a closed if block for its own. */
  lemma GotoAfterBlockIsUntidy(text: seq<string>)
    requires |text| == 4 && KindOf(text[0]) == IfLine && KindOf(text[1]) == EndIfLine
    requires KindOf(text[2]) == GotoLine && KindOf(text[3]) == EndIfLine
    ensures !Tidy(text)
    ensures var s := Scan(text, 4); s.checks == map[3 := Check(1, 3, 5)] && TooWide(s.out, s.checks[3])
  {
    hide KindOf, AssertionFor;
    hide Scan, PhaseAt;
    UntidyScan(text);
    var s4 := Scan(text, 4);
    assert s4.out[1] == text[1] && EndsBlock(s4.out, 2);
  }

  lemma UntidyScan(text: seq<string>)
    requires |text| == 4 && KindOf(text[0]) == IfLine && KindOf(text[1]) == EndIfLine
    requires KindOf(text[2]) == GotoLine && KindOf(text[3]) == EndIfLine
    ensures PhaseAt(text, 4) == Spread
    ensures Scan(text, 4) == State(NO_CHECK, map[3 := Check(1, 3, 5)],
                                   [text[0], text[1], AssertionFor(text[2]), text[2], text[3]])
  {
    hide KindOf, AssertionFor;
    assert Scan(text, 0) == State(NO_CHECK, map[], []) && PhaseAt(text, 0) == Outside;
    hide Scan, PhaseAt;
    ScanStep(text, 1);
    assert [] + [text[0]] == [text[0]];
    assert Scan(text, 1) == State(Check(1, 0, 0), map[], [text[0]]);
    ScanStep(text, 2);
    assert [text[0]] + [text[1]] == [text[0], text[1]];
    assert Scan(text, 2) == State(Check(1, 0, 3), map[], [text[0], text[1]]);
    ScanStep(text, 3);
    assert Scan(text, 3) == State(Check(1, 3, 3), map[], [text[0], text[1], AssertionFor(text[2]), text[2]]);
    ScanStep(text, 4);
  }

  lemma KindsOfLines()
    ensures KindOf("if A then") == IfLine && KindOf("goto X;") == GotoLine && KindOf("end if;") == EndIfLine
  {
    var i, g, e := "if A then", "goto X;", "end if;";
    assert i[..2] == "if" && g[..4] == "goto" && e[..6] == "end if";
    assert g[0] == 'g' && e[0] == 'e' && e[1] == 'n' && "else"[1] == 'l' && "if"[0] == 'i' && "goto"[0] == 'g';
  }

  /** Such a text in full. */
  lemma UntidyText()
    ensures var text := ["if A then", "end if;", "goto X;", "end if;"]; var s := Scan(text, 4);
            !Tidy(text) && s.checks == map[3 := Check(1, 3, 5)] && TooWide(s.out, s.checks[3])
  {
    hide KindOf, Scan, Tidy, TooWide;
    KindsOfLines();
    GotoAfterBlockIsUntidy(["if A then", "end if;", "goto X;", "end if;"]);
  }

  // Removal.

  lemma {:induction false} WithoutPrefix(a: seq<string>, b: seq<string>, n: nat, dropped: iset<nat>)
    requires n <= |a| <= |b| && b[..|a|] == a
    ensures Without(b, n, dropped) == Without(a, n, dropped)
  {
    if n > 0 {
      WithoutPrefix(a, b, n - 1, dropped);
      assert b[..|a|][n - 1] == b[n - 1];
    }
  }

  ghost predicate SameLine(text: seq<string>, p: nat, gone: iset<nat>, dropped: iset<nat>)
    requires p <= |text|
  {
    p in dropped <==> Position(text, p) in gone
  }

  ghost predicate SameLines(text: seq<string>, n: nat, gone: iset<nat>, dropped: iset<nat>)
    requires n <= |text|
  {
    && (forall p: nat :: 0 < p <= n ==> SameLine(text, p, gone, dropped))
    && (forall g: nat :: 0 < g <= n && Marks(text, g) ==> AssertionLine(text, g) in gone)
  }

  /** Removing all assertions and some lines from the instrumented text removes these lines from the original. */
  lemma {:induction false} RemovalCommutes(text: seq<string>, n: nat, gone: iset<nat>, dropped: iset<nat>)
    requires n <= |text| && SameLines(text, n, gone, dropped)
    ensures Without(Scan(text, n).out, Position(text, n), gone) == Without(text, n, dropped)
  {
    if n > 0 {
      hide Scan, KindOf, AssertionFor, Without;
      RemovalCommutes(text, n - 1, gone, dropped);
      PositionStep(text, n - 1);
      assert SameLine(text, n, gone, dropped);
      assert Marks(text, n) ==> AssertionLine(text, n) in gone;
      RemovalStep(Scan(text, n - 1).out, Scan(text, n).out, text, n, gone, dropped);
    } else {
      assert Position(text, 0) == 0;
    }
  }

  lemma RemovalStep(before: seq<string>, after: seq<string>, text: seq<string>, n: nat, gone: iset<nat>,
                    dropped: iset<nat>)
    requires 0 < n <= |text| && |before| < |after| <= |before| + 2
    requires after[..|before|] == before && after[|after| - 1] == text[n - 1]
    requires n in dropped <==> |after| in gone
    requires |after| == |before| + 2 ==> |before| + 1 in gone
    requires Without(before, |before|, gone) == Without(text, n - 1, dropped)
    ensures Without(after, |after|, gone) == Without(text, n, dropped)
  {
    var m := |before|;
    WithoutPrefix(before, after, m, gone);
    if |after| == m + 2 {
      assert Without(after, m + 1, gone) == Without(after, m, gone) + [];
    }
  }

  ghost function CheckSet(text: seq<string>, chosen: set<Block>): set<Check>
    requires forall k :: k in chosen ==> GoodBlock(text, k)
  {
    set k | k in chosen :: CheckOf(text, k)
  }

  predicate InBlock(k: Block, i: nat) {
    k.b <= i <= k.e
  }

  predicate InSome(chosen: set<Block>, i: nat) {
    exists k :: k in chosen && InBlock(k, i)
  }

  ghost function BlockLineSet(chosen: set<Block>): iset<nat> {
    iset i: nat | InSome(chosen, i)
  }

  /** Check removal is exact: for every choice of blocks, removing their checks and all assertions from the
      instrumented text leaves the original text without exactly these blocks. */
  lemma RemovalIsExact(text: seq<string>, chosen: set<Block>)
    requires Tidy(text) && forall k :: k in chosen ==> GoodBlock(text, k)
    ensures var s := Scan(text, |text|);
            Without(s.out, |s.out|, Removed(CheckSet(text, chosen), s.checks.Keys)) ==
            Without(text, |text|, BlockLineSet(chosen))
  {
    hide Scan, KindOf, AssertionFor, PhaseAt, GoodBlock, Blocks;
    var s := Scan(text, |text|);
    var gone, dropped := Removed(CheckSet(text, chosen), s.checks.Keys), BlockLineSet(chosen);
    TidyEnd(text);
    BlocksScan(text, |text|);
    forall p: nat | 0 < p <= |text| ensures SameLine(text, p, gone, dropped) {
      LineIsDropped(text, chosen, p);
    }
    RemovalCommutes(text, |text|, gone, dropped);
  }

  lemma LineIsDropped(text: seq<string>, chosen: set<Block>, p: nat)
    requires Tidy(text) && forall k :: k in chosen ==> GoodBlock(text, k)
    requires 0 < p <= |text|
    ensures p in BlockLineSet(chosen) <==>
            Position(text, p) in Removed(CheckSet(text, chosen), Scan(text, |text|).checks.Keys)
  {
    hide Scan, KindOf, AssertionFor, PhaseAt, GoodBlock, Position;
    var checks, cs, q := Scan(text, |text|).checks, CheckSet(text, chosen), Position(text, p);
    forall k | k in chosen ensures InBlock(k, p) <==> InSpan(CheckOf(text, k), q) {
      SpanOfBlock(text, k, p);
    }
    if q in checks.Keys {
      NotAnAssertion(text, p);
      assert false;
    }
    if InSome(chosen, p) {
      var k :| k in chosen && InBlock(k, p);
      assert CheckOf(text, k) in cs && InSpan(CheckOf(text, k), q);
    }
    if exists c :: c in cs && InSpan(c, q) {
      var c :| c in cs && InSpan(c, q);
      var k :| k in chosen && CheckOf(text, k) == c;
      assert InBlock(k, p);
    }
  }

  lemma NotAnAssertion(text: seq<string>, p: nat)
    requires Tidy(text) && 0 < p <= |text|
    ensures Position(text, p) !in Scan(text, |text|).checks
  {
    hide Scan, KindOf, AssertionFor, PhaseAt, Blocks;
    var q := Position(text, p);
    if q in Scan(text, |text|).checks {
      var k := RecordedBlock(text, q);
      PositionsApart(text, p, k.g);
      assert false;
    }
  }

  lemma SpanOfBlock(text: seq<string>, k: Block, p: nat)
    requires GoodBlock(text, k) && 0 < p <= |text|
    ensures InBlock(k, p) <==> InSpan(CheckOf(text, k), Position(text, p))
  {
    hide Scan, KindOf;
    if p < k.b {
      PositionMonotone(text, p, k.b);
    } else if k.b < p {
      PositionMonotone(text, k.b, p);
    }
    if p < k.e {
      PositionMonotone(text, p, k.e);
    } else if k.e < p {
      PositionMonotone(text, k.e, p);
    }
  }

  /** Without a choice the original text is restored. */
  lemma {:induction false} NothingRemoved(text: seq<string>, n: nat)
    requires n <= |text|
    ensures Without(text, n, BlockLineSet({})) == text[..n]
  {
    if n > 0 {
      NothingRemoved(text, n - 1);
      assert text[..n - 1] + [text[n - 1]] == text[..n];
    }
  }
}
