/** The line bookkeeping of the check remover: an assertion that is always false is inserted before each goto in
    an if block, and the blocks whose assertions could be proved (and so are never reached) are removed.  A text
    is a sequence of lines. */
module Optimizer {
  datatype Kind = IfLine | GotoLine | ElseLine | EndIfLine | OtherLine

  predicate IsSpace(c: char) {
    c == ' ' || '\t' <= c <= '\r'
  }

  function Stripped(l: string): string {
    if l != [] && IsSpace(l[0]) then Stripped(l[1..]) else l
  }

  function KindOf(l: string): Kind {
    var s := Stripped(l);
    if "if" <= s then IfLine
    else if "goto" <= s then GotoLine
    else if "else" <= s then ElseLine
    else if "end if" <= s then EndIfLine
    else OtherLine
  }

  function Indentation(l: string): string {
    if l != [] && l[0] == ' ' then " " + Indentation(l[1..]) else ""
  }

  function AssertionFor(l: string): string {
    Indentation(l) + "pragma Assert (False);"
  }

  /** Line numbers in the instrumented text, from 1; zero is no line. */
  datatype Check = Check(begin: nat, assertion: nat, end: nat) {
    predicate ValidBegin() {
      begin > 0
    }

    predicate Valid() {
      0 < begin < assertion < end
    }
  }

  datatype State = State(check: Check, checks: map<nat, Check>, out: seq<string>)

  const NO_CHECK := Check(0, 0, 0)

  function StepLine(s: State, i: nat, l: string): State {
    var here := i + |s.checks|;
    match KindOf(l)
    case IfLine => State(s.check.(begin := here), s.checks, s.out + [l])
    case GotoLine =>
      State(s.check.(assertion := here), s.checks,
            s.out + (if s.check.ValidBegin() then [AssertionFor(l), l] else [l]))
    case ElseLine => State(s.check.(begin := 0), s.checks, s.out + [l])
    case EndIfLine =>
      var c := s.check.(end := here + 1);
      if c.Valid() then State(NO_CHECK, s.checks[c.assertion := c], s.out + [l]) else State(c, s.checks, s.out + [l])
    case OtherLine => s.(out := s.out + [l])
  }

  /** The state after the first `n` lines. */
  function Scan(text: seq<string>, n: nat): State
    requires n <= |text|
  {
    if n == 0 then State(NO_CHECK, map[], []) else StepLine(Scan(text, n - 1), n, text[n - 1])
  }

  method Instrument(text: seq<string>) returns (out: seq<string>, checks: map<nat, Check>)
    ensures out == Scan(text, |text|).out && checks == Scan(text, |text|).checks
  {
    checks := map[];
    out := [];
    var begin: nat, assertion: nat, end: nat := 0, 0, 0;
    for i := 0 to |text|
      invariant State(Check(begin, assertion, end), checks, out) == Scan(text, i)
    {
      var l, here := text[i], i + 1 + |checks|;
      match KindOf(l) {
        case IfLine => begin := here;
        case GotoLine =>
          assertion := here;
          if begin > 0 {
            out := out + [AssertionFor(l)];
          }
        case ElseLine => begin := 0;
        case EndIfLine =>
          end := here + 1;
          if 0 < begin < assertion < end {
            checks := checks[assertion := Check(begin, assertion, end)];
            begin, assertion, end := 0, 0, 0;
          }
        case OtherLine =>
      }
      assert Scan(text, i).out + [AssertionFor(l), l] == Scan(text, i).out + [AssertionFor(l)] + [l];
      out := out + [l];
    }
  }

  /** The lines of the first `n` whose numbers are not in the set. */
  function Without(lines: seq<string>, n: nat, dropped: iset<nat>): seq<string>
    requires n <= |lines|
  {
    if n == 0 then [] else Without(lines, n - 1, dropped) + if n in dropped then [] else [lines[n - 1]]
  }

  predicate InSpan(c: Check, i: nat) {
    c.begin <= i <= c.end
  }

  /** The line numbers that are removed: the spans of the chosen checks and all assertions. */
  ghost function Removed(chosen: set<Check>, assertions: set<nat>): iset<nat> {
    iset i: nat | (exists c :: c in chosen && InSpan(c, i)) || i in assertions
  }

  method Remove(lines: seq<string>, chosen: seq<Check>, assertions: set<nat>) returns (optimized: seq<string>)
    ensures optimized == Without(lines, |lines|, Removed((set c | c in chosen), assertions))
  {
    optimized := [];
    ghost var gone := Removed((set c | c in chosen), assertions);
    for i := 0 to |lines|
      invariant optimized == Without(lines, i, gone)
    {
      var drop := i + 1 in assertions;
      for j := 0 to |chosen|
        invariant drop <==> i + 1 in assertions || exists m :: 0 <= m < j && InSpan(chosen[m], i + 1)
      {
        drop := drop || InSpan(chosen[j], i + 1);
      }
      assert drop <==> i + 1 in gone;
      if !drop {
        optimized := optimized + [lines[i]];
      }
    }
  }
}
