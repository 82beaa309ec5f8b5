/** The check remover on the lines themselves: which lines count, and which checks are recorded for any text. */
module OptimizerLines {
  import opened Optimizer
  import opened OptimizerMeaning

  const WHITE_SPACE := {' ', '\t', '\n', '\U{000B}', '\U{000C}', '\r'}

  /** The line has white space up to an index, where the word follows. */
  predicate StartsAt(l: string, i: nat, word: string) {
    && i + |word| <= |l|
    && (forall j :: 0 <= j < i ==> l[j] in WHITE_SPACE)
    && (forall j :: 0 <= j < |word| ==> l[i + j] == word[j])
  }

  /** The text of a line after its leading white space starts with the word. */
  ghost predicate StartsWith(l: string, word: string) {
    exists i: nat :: StartsAt(l, i, word)
  }

  lemma {:induction false} StrippedStarts(l: string, word: string)
    requires word != "" && word[0] !in WHITE_SPACE
    ensures StartsWith(l, word) <==> word <= Stripped(l)
  {
    if l != [] && IsSpace(l[0]) {
      StrippedStarts(l[1..], word);
      if StartsWith(l, word) {
        var i: nat :| StartsAt(l, i, word);
        assert StartsAt(l[1..], i - 1, word);
      }
      if StartsWith(l[1..], word) {
        var i: nat :| StartsAt(l[1..], i, word);
        assert StartsAt(l, i + 1, word);
      }
    } else if word <= l {
      assert StartsAt(l, 0, word);
    }
  }

  /** The kind of a line is decided by the text after its leading white space. */
  lemma KindOfLine(l: string)
    ensures KindOf(l) == IfLine <==> StartsWith(l, "if")
    ensures KindOf(l) == GotoLine <==> StartsWith(l, "goto")
    ensures KindOf(l) == ElseLine <==> StartsWith(l, "else")
    ensures KindOf(l) == EndIfLine <==> StartsWith(l, "end if")
  {
    var s := Stripped(l);
    StrippedStarts(l, "if");
    StrippedStarts(l, "goto");
    StrippedStarts(l, "else");
    StrippedStarts(l, "end if");
    assert "if" <= s ==> s[0] == 'i';
    assert "goto" <= s ==> s[0] == 'g';
    assert "else" <= s ==> s[0] == 'e' && s[1] == 'l';
    assert "end if" <= s ==> s[0] == 'e' && s[1] == 'n';
  }

  // Recorded checks, by the kinds of lines.

  /** The if line `b` is the last one up to `n`, with no else line after it and no goto that an `end if` follows. */
  ghost predicate Open(text: seq<string>, b: nat, n: nat) {
    && 0 < b <= n <= |text| && IsKind(text, b, IfLine)
    && (forall i: nat :: b < i <= n ==> !IsKind(text, i, IfLine) && !IsKind(text, i, ElseLine))
    && (forall i: nat, j: nat :: b < i < j <= n && IsKind(text, i, GotoLine) ==> !IsKind(text, j, EndIfLine))
  }

  ghost predicate LastGoto(text: seq<string>, b: nat, g: nat, n: nat) {
    && b < g <= n && IsKind(text, g, GotoLine)
    && (forall i: nat :: g < i <= n ==> !IsKind(text, i, GotoLine))
  }

  ghost predicate NoGoto(text: seq<string>, b: nat, n: nat) {
    forall g: nat :: !LastGoto(text, b, g, n)
  }

  lemma {:induction false} LastGotoExists(text: seq<string>, b: nat, i: nat, n: nat) returns (g: nat)
    requires b < i <= n <= |text| && IsKind(text, i, GotoLine)
    ensures LastGoto(text, b, g, n)
    decreases n - i
  {
    hide KindOf;
    if j: nat :| i < j <= n && IsKind(text, j, GotoLine) {
      g := LastGotoExists(text, b, j, n);
    } else {
      g := i;
    }
  }

  /** How many checks are recorded in the first `n` lines. */
  function Recorded(text: seq<string>, n: nat): nat
    requires n <= |text|
  {
    |Scan(text, n).checks|
  }

  /** What the scan has stored about an open if line. */
  ghost predicate Follows(text: seq<string>, b: nat, n: nat, s: State) {
    && b <= |text| && s.check.begin == b + |s.checks| && Recorded(text, b) == |s.checks|
    && (s.check.assertion > s.check.begin ==> exists g: nat :: LastGoto(text, b, g, n))
    && (forall g: nat :: LastGoto(text, b, g, n) ==> s.check.assertion == g + |s.checks|)
  }

  ghost predicate Tracks(text: seq<string>, n: nat, s: State) {
    && (s.check.begin > 0 ==> exists b: nat :: Open(text, b, n))
    && (forall b: nat :: Open(text, b, n) ==> Follows(text, b, n, s))
  }

  /** The goto `g` is the last one between its if line `b` and the first `end if` after it, `e`. */
  ghost predicate Owned(text: seq<string>, k: Block) {
    && 0 < k.b < k.g < k.e <= |text|
    && Open(text, k.b, k.e - 1) && LastGoto(text, k.b, k.g, k.e - 1) && IsKind(text, k.e, EndIfLine)
  }

  function NumberedCheck(text: seq<string>, k: Block): Check
    requires k.b <= |text|
  {
    var m := Recorded(text, k.b);
    Check(k.b + m, k.g + m, k.e + m + 1)
  }

  ghost predicate HasCheck(s: State, c: Check) {
    c.assertion in s.checks && s.checks[c.assertion] == c
  }

  ghost predicate IsCheckOf(text: seq<string>, k: Block, n: nat, c: Check) {
    Owned(text, k) && k.e <= n && c == NumberedCheck(text, k)
  }

  ghost predicate RecordsOwned(text: seq<string>, n: nat, s: State) {
    && (forall a :: a in s.checks ==> a == s.checks[a].assertion && exists k :: IsCheckOf(text, k, n, s.checks[a]))
    && (forall k :: Owned(text, k) && k.e <= n ==> HasCheck(s, NumberedCheck(text, k)))
  }

  lemma OpenStep(text: seq<string>, b: nat, n: nat)
    requires 0 < n <= |text|
    ensures b < n ==>
              (Open(text, b, n) <==>
               && Open(text, b, n - 1) && !IsKind(text, n, IfLine) && !IsKind(text, n, ElseLine)
               && (IsKind(text, n, EndIfLine) ==> NoGoto(text, b, n - 1)))
    ensures Open(text, n, n) <==> IsKind(text, n, IfLine)
  {
    hide KindOf;
    if b < n && Open(text, b, n - 1) && IsKind(text, n, EndIfLine) {
      if i: nat :| b < i < n && IsKind(text, i, GotoLine) {
        var g := LastGotoExists(text, b, i, n - 1);
        assert !NoGoto(text, b, n - 1);
      }
    }
  }

  lemma LastGotoStep(text: seq<string>, b: nat, g: nat, n: nat)
    requires 0 < n <= |text| && b < n
    ensures LastGoto(text, b, g, n) <==> if IsKind(text, n, GotoLine) then g == n else LastGoto(text, b, g, n - 1)
  {
    hide KindOf;
  }

  lemma StepFollows(text: seq<string>, b: nat, n: nat, s: State)
    requires 0 < n <= |text| && s == Scan(text, n - 1) && Ordered(s, n - 1)
    requires Tracks(text, n - 1, s) && Open(text, b, n)
    ensures Follows(text, b, n, StepLine(s, n, text[n - 1]))
  {
    assert Scan(text, n) == StepLine(s, n, text[n - 1]);
    assert 0 < b <= n;
    hide KindOf, Scan, AssertionFor, Open, LastGoto;
    OpenStep(text, b, n);
    if b == n {
      forall g: nat ensures !LastGoto(text, n, g, n) {
        NoGotoBehind(text, n, g);
      }
    } else {
      forall g: nat ensures LastGoto(text, b, g, n) <==>
                       if IsKind(text, n, GotoLine) then g == n else LastGoto(text, b, g, n - 1) {
        LastGotoStep(text, b, g, n);
      }
      assert IsKind(text, n, GotoLine) ==> LastGoto(text, b, n, n);
      assert Follows(text, b, n - 1, s);
      if s.check.assertion > s.check.begin {
        var g: nat :| LastGoto(text, b, g, n - 1);
        assert !IsKind(text, n, GotoLine) ==> LastGoto(text, b, g, n);
      }
    }
  }

  lemma NoGotoBehind(text: seq<string>, n: nat, g: nat)
    ensures !LastGoto(text, n, g, n)
  {
  }

  lemma StepOpen(text: seq<string>, n: nat, s: State)
    requires 0 < n <= |text| && s == Scan(text, n - 1) && Ordered(s, n - 1)
    requires Tracks(text, n - 1, s) && StepLine(s, n, text[n - 1]).check.begin > 0
    ensures exists b: nat :: Open(text, b, n)
  {
    hide KindOf, Scan, AssertionFor, Open, LastGoto;
    OpenStep(text, n, n);
    if !IsKind(text, n, IfLine) {
      var b: nat :| Open(text, b, n - 1);
      assert Follows(text, b, n - 1, s);
      OpenBefore(text, b, n - 1);
      OpenStep(text, b, n);
      GotoBetween(text, b, n - 1);
      assert Open(text, b, n);
    } else {
      assert Open(text, n, n);
    }
  }

  lemma OpenBefore(text: seq<string>, b: nat, n: nat)
    requires Open(text, b, n)
    ensures 0 < b <= n
  {
  }

  lemma GotoBetween(text: seq<string>, b: nat, n: nat)
    ensures forall g: nat :: LastGoto(text, b, g, n) ==> b < g <= n
  {
  }

  lemma StepTracks(text: seq<string>, n: nat, s: State)
    requires 0 < n <= |text| && s == Scan(text, n - 1) && Ordered(s, n - 1) && Tracks(text, n - 1, s)
    ensures Tracks(text, n, StepLine(s, n, text[n - 1]))
  {
    hide KindOf, Scan, AssertionFor, Open, LastGoto, StepLine, Follows, Ordered;
    var t := StepLine(s, n, text[n - 1]);
    forall b: nat | Open(text, b, n) ensures Follows(text, b, n, t) {
      StepFollows(text, b, n, s);
    }
    if t.check.begin > 0 {
      StepOpen(text, n, s);
    }
  }

  lemma {:induction false} ScanTracks(text: seq<string>, n: nat)
    requires n <= |text|
    ensures Tracks(text, n, Scan(text, n))
  {
    hide KindOf, AssertionFor, Open, LastGoto, StepLine, Follows, Ordered, Counted, PhaseAt;
    if n > 0 {
      assert Scan(text, n) == StepLine(Scan(text, n - 1), n, text[n - 1]);
      ScanTracks(text, n - 1);
      ScanCounts(text, n - 1);
      StepTracks(text, n, Scan(text, n - 1));
    } else {
      if b: nat :| Open(text, b, 0) {
        OpenBefore(text, b, 0);
        assert false;
      }
    }
  }

  lemma StepRecords(text: seq<string>, n: nat, s: State)
    requires 0 < n <= |text| && s == Scan(text, n - 1) && Ordered(s, n - 1)
    requires Tracks(text, n - 1, s) && RecordsOwned(text, n - 1, s)
    ensures RecordsOwned(text, n, StepLine(s, n, text[n - 1]))
  {
    hide KindOf, Scan, AssertionFor, Open, LastGoto, StepLine, Tracks;
    var t := StepLine(s, n, text[n - 1]);
    forall a | a in t.checks ensures a == t.checks[a].assertion && exists k :: IsCheckOf(text, k, n, t.checks[a]) {
      if a in s.checks && s.checks[a] == t.checks[a] {
        var k :| IsCheckOf(text, k, n - 1, s.checks[a]);
        assert IsCheckOf(text, k, n, t.checks[a]);
      } else {
        var k := NewCheck(text, n, s, a);
      }
    }
    forall k | Owned(text, k) && k.e <= n ensures HasCheck(t, NumberedCheck(text, k)) {
      if k.e < n {
        assert HasCheck(s, NumberedCheck(text, k));
        KeepsCheck(s, n, text[n - 1], NumberedCheck(text, k));
      } else {
        RecordsNew(text, n, s, k);
      }
    }
  }

  lemma NewCheck(text: seq<string>, n: nat, s: State, a: nat) returns (k: Block)
    requires 0 < n <= |text| && Tracks(text, n - 1, s)
    requires var t := StepLine(s, n, text[n - 1]); a in t.checks && !(a in s.checks && s.checks[a] == t.checks[a])
    ensures var c := StepLine(s, n, text[n - 1]).checks[a]; a == c.assertion && IsCheckOf(text, k, n, c)
  {
    hide KindOf, Scan, AssertionFor, Open, LastGoto;
    var b: nat :| Open(text, b, n - 1);
    OpenBefore(text, b, n - 1);
    assert Follows(text, b, n - 1, s);
    var g: nat :| LastGoto(text, b, g, n - 1);
    GotoBetween(text, b, n - 1);
    k := Block(b, g, n);
  }

  lemma KeepsCheck(s: State, n: nat, l: string, c: Check)
    requires n > 0 && Ordered(s, n - 1) && HasCheck(s, c)
    ensures HasCheck(StepLine(s, n, l), c)
  {
    hide KindOf, AssertionFor;
  }

  lemma RecordsNew(text: seq<string>, n: nat, s: State, k: Block)
    requires 0 < n <= |text| && Tracks(text, n - 1, s) && Owned(text, k) && k.e == n
    ensures HasCheck(StepLine(s, n, text[n - 1]), NumberedCheck(text, k))
  {
    hide KindOf, Scan, AssertionFor, Open, LastGoto;
    OpenBefore(text, k.b, n - 1);
    assert Follows(text, k.b, n - 1, s);
    GotoBetween(text, k.b, n - 1);
    assert IsKind(text, n, EndIfLine);
  }

  lemma {:induction false} ScanRecords(text: seq<string>, n: nat)
    requires n <= |text|
    ensures RecordsOwned(text, n, Scan(text, n))
  {
    hide KindOf, AssertionFor, Open, LastGoto, StepLine, Ordered, Counted, PhaseAt, Tracks, NumberedCheck;
    if n > 0 {
      assert Scan(text, n) == StepLine(Scan(text, n - 1), n, text[n - 1]);
      ScanRecords(text, n - 1);
      ScanTracks(text, n - 1);
      ScanCounts(text, n - 1);
      StepRecords(text, n, Scan(text, n - 1));
    } else {
      assert Scan(text, 0).checks == map[];
    }
  }

  // The same in terms of the lines.

  ghost predicate Line(text: seq<string>, i: nat, word: string) {
    0 < i <= |text| && StartsWith(text[i - 1], word)
  }

  /** The last line up to `n` that starts with `if` is `b`; no line after it starts with `else`, and none that starts
      with `end if` follows one that starts with `goto`. */
  ghost predicate OpenIf(text: seq<string>, b: nat, n: nat) {
    && 0 < b <= n <= |text| && Line(text, b, "if")
    && (forall i: nat :: b < i <= n ==> !Line(text, i, "if") && !Line(text, i, "else"))
    && (forall i: nat, j: nat :: b < i < j <= n && Line(text, i, "goto") ==> !Line(text, j, "end if"))
  }

  /** A goto line, its if line and its `end if`: between them no line starts with `if` or `else`, no `end if` follows a
      goto, and the goto is the last one. */
  ghost predicate OwnGoto(text: seq<string>, k: Block) {
    && 0 < k.b < k.g < k.e <= |text| && OpenIf(text, k.b, k.e - 1)
    && Line(text, k.g, "goto") && (forall i: nat :: k.g < i < k.e ==> !Line(text, i, "goto"))
    && Line(text, k.e, "end if")
  }

  lemma LineIsKind(text: seq<string>, i: nat)
    ensures Line(text, i, "if") <==> IsKind(text, i, IfLine)
    ensures Line(text, i, "goto") <==> IsKind(text, i, GotoLine)
    ensures Line(text, i, "else") <==> IsKind(text, i, ElseLine)
    ensures Line(text, i, "end if") <==> IsKind(text, i, EndIfLine)
  {
    hide StartsWith, KindOf;
    if 0 < i <= |text| {
      KindOfLine(text[i - 1]);
    }
  }

  lemma OpenIfIsOpen(text: seq<string>, b: nat, n: nat)
    ensures OpenIf(text, b, n) <==> Open(text, b, n)
  {
    hide Line, IsKind;
    LineIsKind(text, b);
    forall i: nat ensures Line(text, i, "if") <==> IsKind(text, i, IfLine) {
      LineIsKind(text, i);
    }
    forall i: nat ensures Line(text, i, "else") <==> IsKind(text, i, ElseLine) {
      LineIsKind(text, i);
    }
    forall i: nat ensures Line(text, i, "goto") <==> IsKind(text, i, GotoLine) {
      LineIsKind(text, i);
    }
    forall i: nat ensures Line(text, i, "end if") <==> IsKind(text, i, EndIfLine) {
      LineIsKind(text, i);
    }
  }

  lemma OwnGotoIsOwned(text: seq<string>, k: Block)
    ensures OwnGoto(text, k) <==> Owned(text, k)
  {
    hide Line, IsKind, Open, OpenIf;
    if 0 < k.b < k.g < k.e <= |text| {
      OpenIfIsOpen(text, k.b, k.e - 1);
      LineIsKind(text, k.e);
      forall i: nat ensures Line(text, i, "goto") <==> IsKind(text, i, GotoLine) {
        LineIsKind(text, i);
      }
    }
  }

  /** The recorded checks of any text are those of its own gotos: all line numbers are those of the text, moved by the
      number of checks that were recorded before the block, and the last one by one more for the own assertion. */
  lemma ChecksOfText(text: seq<string>)
    ensures forall a :: a in Scan(text, |text|).checks ==>
                    exists k :: OwnGoto(text, k) && Scan(text, |text|).checks[a] == NumberedCheck(text, k)
    ensures forall k :: OwnGoto(text, k) ==>
                    var c := NumberedCheck(text, k); HasCheck(Scan(text, |text|), c)
  {
    hide Scan, OpenIf, Line, Owned, NumberedCheck;
    var s := Scan(text, |text|);
    ScanRecords(text, |text|);
    forall a | a in s.checks ensures exists k :: OwnGoto(text, k) && s.checks[a] == NumberedCheck(text, k) {
      var k :| IsCheckOf(text, k, |text|, s.checks[a]);
      OwnGotoIsOwned(text, k);
    }
    forall k | OwnGoto(text, k) ensures HasCheck(s, NumberedCheck(text, k)) {
      OwnGotoIsOwned(text, k);
      OwnedEnds(text, k);
    }
  }

  lemma OwnedEnds(text: seq<string>, k: Block)
    requires Owned(text, k)
    ensures k.e <= |text|
  {
  }

  ghost predicate HasOpenIf(text: seq<string>, n: nat) {
    exists b: nat :: OpenIf(text, b, n)
  }

  lemma OpenIfIsTracked(text: seq<string>, n: nat)
    requires n <= |text|
    ensures Scan(text, n).check.begin > 0 <==> HasOpenIf(text, n)
  {
    hide Scan, Open, OpenIf;
    ScanTracks(text, n);
    if b: nat :| Open(text, b, n) {
      OpenIfIsOpen(text, b, n);
      OpenBefore(text, b, n);
      assert OpenIf(text, b, n) && Follows(text, b, n, Scan(text, n));
    } else if b: nat :| OpenIf(text, b, n) {
      OpenIfIsOpen(text, b, n);
    }
  }

  /** An assertion is inserted before a line exactly if it starts with `goto` behind an open if line. */
  lemma AssertionsOfText(text: seq<string>, g: nat)
    ensures Marks(text, g) <==> Line(text, g, "goto") && HasOpenIf(text, g - 1)
    ensures Marks(text, g) ==> Scan(text, g).out[Position(text, g - 1)] == AssertionFor(text[g - 1])
  {
    hide Scan, KindOf, AssertionFor, Line, Open, OpenIf;
    LineIsKind(text, g);
    if 0 < g <= |text| {
      PositionStep(text, g - 1);
      ScanTracks(text, g - 1);
      OpenIfIsTracked(text, g - 1);
    }
  }

  /** The assertion has the indentation of its goto. */
  lemma {:induction false} AssertionIsIndented(l: string) returns (n: nat)
    ensures n <= |l| && (forall i :: 0 <= i < n ==> l[i] == ' ') && (n < |l| ==> l[n] != ' ')
    ensures Indentation(l) == l[..n] && AssertionFor(l) == l[..n] + "pragma Assert (False);"
  {
    if l != [] && l[0] == ' ' {
      var m := AssertionIsIndented(l[1..]);
      n := m + 1;
      assert l[..n] == [l[0]] + l[1..][..m];
    } else {
      n := 0;
    }
  }
}
