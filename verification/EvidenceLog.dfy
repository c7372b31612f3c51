/** The log SpecTestRunner prints and the evidence writer parses. */
module EvidenceLog {
  import opened Base
  import opened Text
  import Order

  // ---------------------------------------------------------------- the printer

  datatype Test = Test(id: string, requirement: string, name: string, outcome: Outcome<string>)

  function Ids(tests: seq<Test>): (r: seq<string>)
    ensures |r| == |tests| && forall i :: 0 <= i < |r| ==> r[i] == tests[i].id
  {
    if tests == [] then [] else [tests[0].id] + Ids(tests[1..])
  }

  /** The IDs that occur again later. */
  function Repeated(ids: seq<string>): (r: seq<string>)
    ensures forall x :: x in r <==> exists i, j :: 0 <= i < j < |ids| && ids[i] == x && ids[j] == x
  {
    if ids == [] then []
    else
      var rest := Repeated(ids[1..]);
      var r := (if ids[0] in ids[1..] then [ids[0]] else []) + rest;
      assert forall x :: x in r <==> (x == ids[0] && ids[0] in ids[1..]) || x in rest;
      assert ids == [ids[0]] + ids[1..];
      assert forall i :: 0 < i < |ids| ==> ids[i] == ids[1..][i - 1];
      r
  }

  function JoinComma(xs: seq<string>): string {
    if xs == [] then "" else if |xs| == 1 then xs[0] else xs[0] + ", " + JoinComma(xs[1..])
  }

  function SingleLine(s: string): string {
    if s == "" then "" else [if s[0] == '\r' || s[0] == '\n' then ' ' else s[0]] + SingleLine(s[1..])
  }

  /** The part of a test's line after its ID. */
  function TailText(t: Test): string {
    "[" + t.requirement + "] " + t.name
  }

  function TestLineWith(t: Test, number: nat, tail: string): string {
    (if t.outcome.Pass? then "ok " else "not ok ") + (NatText(number) + (" - " + (t.id + (" " + tail))))
  }

  function TestLine(t: Test, number: nat): string {
    TestLineWith(t, number, TailText(t))
  }

  function TestLines(t: Test, number: nat): seq<string> {
    [TestLine(t, number)]
    + if t.outcome.Pass? then [] else ["  ---", "  message: " + SingleLine(t.outcome.error), "  ..."]
  }

  function AllTestLines(tests: seq<Test>, number: nat): seq<string> {
    if tests == [] then [] else TestLines(tests[0], number) + AllTestLines(tests[1..], number + 1)
  }

  function Failures(tests: seq<Test>): (n: nat)
    ensures n <= |tests|
  {
    if tests == [] then 0 else (if tests[0].outcome.Pass? then 0 else 1) + Failures(tests[1..])
  }

  function ResultLine(passed: nat, failed: nat, total: nat): string {
    "# result: " + (NatText(passed) + (" passed; " + (NatText(failed) + (" failed; " + (NatText(total) + " total")))))
  }

  /** The lines of one run; with a repeated ID nothing is executed. */
  function RunLines(suiteName: string, tests: seq<Test>): seq<string> {
    var duplicates := Order.SortedSet(Repeated(Ids(tests)));
    ["# " + suiteName]
    + if duplicates != [] then ["Bail out! duplicate test IDs: " + JoinComma(duplicates)]
      else
        ["1.." + NatText(|tests|)] + AllTestLines(tests, 1)
        + [ResultLine(|tests| - Failures(tests), Failures(tests), |tests|)]
  }

  /** Lines as they stand in the log. */
  function LogText(lines: seq<string>): string {
    if lines == [] then "" else lines[0] + "\n" + LogText(lines[1..])
  }

  lemma {:induction false} LogTextConcat(a: seq<string>, b: seq<string>)
    ensures LogText(a + b) == LogText(a) + LogText(b)
  {
    if a == [] {
      assert a + b == b;
    } else {
      assert (a + b)[0] == a[0] && (a + b)[1..] == a[1..] + b;
      LogTextConcat(a[1..], b);
      assert a[0] + "\n" + (LogText(a[1..]) + LogText(b)) == a[0] + "\n" + LogText(a[1..]) + LogText(b);
    }
  }

  class SpecTestRunner {
    var output: string
    ghost var lines: seq<string>

    ghost predicate Valid()
      reads this
    {
      output == LogText(lines)
    }

    constructor ()
      ensures Valid() && lines == []
    {
      output, lines := "", [];
    }

    method WriteLine(line: string)
      requires Valid()
      modifies this
      ensures Valid() && lines == old(lines) + [line]
    {
      LogTextConcat(lines, [line]);
      assert [line][1..] == [];
      output := output + line + "\n";
      lines := lines + [line];
    }

    method RunAsync(suiteName: string, tests: seq<Test>) returns (exitCode: int)
      requires Valid()
      modifies this
      ensures Valid() && lines == old(lines) + RunLines(suiteName, tests)
      ensures exitCode == 0 <==> Order.SortedSet(Repeated(Ids(tests))) == [] && Failures(tests) == 0
    {
      hide TestLine, ResultLine, Order.SortedSet, Repeated, AllTestLines, Failures, LogText;
      WriteLine("# " + suiteName);
      var duplicateIds := Order.SortedSet(Repeated(Ids(tests)));
      if |duplicateIds| > 0 {
        WriteLine("Bail out! duplicate test IDs: " + JoinComma(duplicateIds));
        return 1;
      }
      ghost var first, plan := ["# " + suiteName], ["1.." + NatText(|tests|)];
      WriteLine("1.." + NatText(|tests|));
      var failed := RunTests(tests);
      var result := ResultLine(|tests| - failed, failed, |tests|);
      WriteLine(result);
      assert old(lines) + first + plan + AllTestLines(tests, 1) + [result]
        == old(lines) + (first + (plan + AllTestLines(tests, 1) + [result]));
      return if failed == 0 then 0 else 1;
    }

    /** The loop over tests; counts the failures. */
    method RunTests(tests: seq<Test>) returns (failed: nat)
      requires Valid()
      modifies this
      ensures Valid() && lines == old(lines) + AllTestLines(tests, 1)
      ensures failed == Failures(tests)
    {
      hide TestLines, LogText;
      failed := 0;
      for index := 0 to |tests|
        invariant Valid() && failed + Failures(tests[index..]) == Failures(tests)
        invariant lines + AllTestLines(tests[index..], index + 1) == old(lines) + AllTestLines(tests, 1)
      {
        ghost var before, rest := lines, AllTestLines(tests[index + 1..], index + 2);
        assert tests[index..][0] == tests[index] && tests[index..][1..] == tests[index + 1..];
        var more := WriteTest(tests[index], index + 1);
        failed := failed + more;
        assert before + (TestLines(tests[index], index + 1) + rest) == lines + rest;
      }
      assert tests[|tests|..] == [];
    }

    /** The body of the loop over tests. */
    method WriteTest(t: Test, number: nat) returns (failures: nat)
      requires Valid()
      modifies this
      ensures Valid() && lines == old(lines) + TestLines(t, number)
      ensures failures == if t.outcome.Pass? then 0 else 1
    {
      hide TestLine, SingleLine;
      match t.outcome
      case Pass =>
        WriteLine(TestLine(t, number));
        failures := 0;
      case Fail(message) =>
        WriteLine(TestLine(t, number));
        WriteLine("  ---");
        WriteLine("  message: " + SingleLine(message));
        WriteLine("  ...");
        failures := 1;
    }
  }

  // ------------------------------------------------------------------ splitlines

  /** The line boundaries of str.splitlines. */
  predicate IsBoundary(c: char) {
    var n := c as int;
    10 <= n <= 13 || 28 <= n <= 30 || n == 0x85 || n == 0x2028 || n == 0x2029
  }

  predicate OneLine(s: string) {
    forall i :: 0 <= i < |s| ==> !IsBoundary(s[i])
  }

  function LineLength(s: string): (n: nat)
    ensures n <= |s| && (n < |s| ==> IsBoundary(s[n])) && forall i :: 0 <= i < n ==> !IsBoundary(s[i])
  {
    if s == "" || IsBoundary(s[0]) then 0 else
      var n := LineLength(s[1..]);
      assert forall i :: 0 < i < n + 1 ==> s[i] == s[1..][i - 1];
      n + 1
  }

  /** Where the next line starts after a boundary at n; CR LF is one boundary. */
  function AfterBoundary(s: string, n: nat): (next: nat)
    requires n < |s|
    ensures n < next <= |s|
  {
    if s[n] == '\r' && n + 1 < |s| && s[n + 1] == '\n' then n + 2 else n + 1
  }

  function SplitLines(s: string): seq<string>
    decreases |s|
  {
    if s == "" then []
    else
      var n := LineLength(s);
      if n == |s| then [s] else [s[..n]] + SplitLines(s[AfterBoundary(s, n)..])
  }

  lemma {:induction false} SplitAt(s: string, n: nat)
    requires n < |s| && IsBoundary(s[n]) && OneLine(s[..n])
    ensures SplitLines(s) == [s[..n]] + SplitLines(s[AfterBoundary(s, n)..])
  {
    assert forall i :: 0 <= i < n ==> s[i] == s[..n][i];
    assert LineLength(s) == n;
  }

  /** What splitlines makes of one printed line. */
  function Fragments(line: string): seq<string> {
    SplitLines(line + "\n")
  }

  function Flatten(lines: seq<string>): seq<string> {
    if lines == [] then [] else Fragments(lines[0]) + Flatten(lines[1..])
  }

  lemma {:induction false} FlattenConcat(a: seq<string>, b: seq<string>)
    ensures Flatten(a + b) == Flatten(a) + Flatten(b)
  {
    hide Fragments;
    if a == [] {
      assert a + b == b;
    } else {
      assert (a + b)[0] == a[0] && (a + b)[1..] == a[1..] + b;
      FlattenConcat(a[1..], b);
    }
  }

  lemma FlattenOne(line: string)
    ensures Flatten([line]) == Fragments(line)
  {
    hide Fragments;
    assert [line][1..] == [];
    assert Flatten([]) == [];
  }

  /** Splitting never joins two printed lines. */
  lemma {:induction false} SplitConcat(text: string, rest: string)
    ensures SplitLines(text + "\n" + rest) == Fragments(text) + SplitLines(rest)
    decreases |text|
  {
    hide SplitLines;
    var u := text + "\n";
    var s := u + rest;
    assert u[|text|] == '\n';
    var n := LineLength(u);
    assert s[..n] == u[..n];
    SplitAt(u, n);
    SplitAt(s, n);
    var next := AfterBoundary(u, n);
    assert AfterBoundary(s, n) == next;
    if next == |u| {
      assert s[next..] == rest && u[next..] == "";
      NoLines();
    } else {
      assert u[next..] == text[next..] + "\n";
      assert s[next..] == text[next..] + "\n" + rest;
      SplitConcat(text[next..], rest);
    }
  }

  /** The log splits line by line, whatever the lines hold. */
  lemma {:induction false} SplitLinesOfLog(lines: seq<string>)
    ensures SplitLines(LogText(lines)) == Flatten(lines)
  {
    hide SplitLines, Fragments;
    if lines == [] {
      assert SplitLines("") == [] by { NoLines(); }
    } else {
      SplitLinesOfLog(lines[1..]);
      SplitConcat(lines[0], LogText(lines[1..]));
    }
  }

  lemma NoLines()
    ensures SplitLines("") == []
  {
  }

  lemma OneLineConcat(a: string, b: string)
    requires OneLine(a) && OneLine(b)
    ensures OneLine(a + b)
  {
  }

  lemma LineLengthIsOneLine(s: string)
    ensures OneLine(s[..LineLength(s)])
  {
  }

  /** Text in front of the first boundary only lengthens the first fragment. */
  lemma FragmentsPrefix(prefix: string, text: string)
    requires OneLine(prefix)
    ensures Fragments(text) != []
    ensures Fragments(prefix + text) == [prefix + Fragments(text)[0]] + Fragments(text)[1..]
  {
    hide SplitLines, OneLine;
    var u := text + "\n";
    var s := prefix + text + "\n";
    assert s == prefix + u;
    assert u[|text|] == '\n' && IsBoundary('\n');
    hide IsBoundary;
    var n := LineLength(u);
    var m := |prefix| + n;
    LineLengthIsOneLine(u);
    OneLineConcat(prefix, u[..n]);
    assert s[..m] == prefix + u[..n];
    assert s[m] == u[n] && (n + 1 < |u| ==> s[m + 1] == u[n + 1]);
    SplitAt(u, n);
    SplitAt(s, m);
    var next := AfterBoundary(u, n);
    assert AfterBoundary(s, m) == |prefix| + next;
    assert s[|prefix| + next..] == u[next..];
  }

  /** A line without a boundary stays whole. */
  lemma OneFragment(line: string)
    requires OneLine(line)
    ensures Fragments(line) == [line]
  {
    hide SplitLines;
    var s := line + "\n";
    assert s[|line|] == '\n' && s[..|line|] == line;
    SplitAt(s, |line|);
    assert s[AfterBoundary(s, |line|)..] == "";
    NoLines();
  }

  // ------------------------------------------------------------------ recognising lines

  /** The text after a prefix. */
  function AfterPrefix(s: string, prefix: string): Option<string> {
    if prefix <= s then Some(s[|prefix|..]) else None
  }

  /** A run of digits and what follows. */
  function TakeNumber(s: string): Option<(nat, string)> {
    var n := DigitCount(s);
    if n == 0 then None else Some((NatValue(s[..n]), s[n..]))
  }

  /** "# result: P passed; F failed; T total", to the end of the line. */
  function MatchResult(line: string): Option<(nat, nat, nat)> {
    match AfterPrefix(line, "# result: ")
    case None => None
    case Some(a) =>
      match TakeNumber(a)
      case None => None
      case Some((passed, b)) =>
        match AfterPrefix(b, " passed; ")
        case None => None
        case Some(c) =>
          match TakeNumber(c)
          case None => None
          case Some((failed, d)) =>
            match AfterPrefix(d, " failed; ")
            case None => None
            case Some(e) =>
              match TakeNumber(e)
              case None => None
              case Some((total, f)) => if f == " total" then Some((passed, failed, total)) else None
  }

  function UpperCount(s: string): (n: nat)
    ensures n <= |s|
  {
    if s != "" && 'A' <= s[0] <= 'Z' then 1 + UpperCount(s[1..]) else 0
  }

  /** Three digits and an optional "-" with capitals, from position k: where the match ends. */
  function IdEnd(s: string, k: nat): (end: Option<nat>)
    ensures end.Some? ==> k + 3 <= end.value <= |s|
  {
    if k + 3 > |s| || !(IsDigit(s[k]) && IsDigit(s[k + 1]) && IsDigit(s[k + 2])) then None
    else
      var more := if k + 3 < |s| && s[k + 3] == '-' then UpperCount(s[k + 4..]) else 0;
      Some(if more > 0 then k + 4 + more else k + 3)
  }

  /** The test ID a text starts with: TC-ACC-MVS01-ddd or TC-PERF-MVS01-ddd with an optional suffix. */
  function MatchId(s: string): Option<string> {
    var k := if "TC-ACC-MVS01-" <= s then 13 else 14;
    if !("TC-ACC-MVS01-" <= s) && !("TC-PERF-MVS01-" <= s) then None
    else match IdEnd(s, k) case None => None case Some(end) => Some(s[..end])
  }

  predicate ExpectedId(id: string) {
    MatchId(id) == Some(id)
  }

  /** Whether the test passed, and its ID. */
  function MatchTest(line: string): Option<(bool, string)> {
    var ok := "ok " <= line;
    match AfterPrefix(line, if ok then "ok " else "not ok ")
    case None => None
    case Some(a) =>
      match TakeNumber(a)
      case None => None
      case Some((_, b)) =>
        match AfterPrefix(b, " - ")
        case None => None
        case Some(c) => match MatchId(c) case None => None case Some(id) => Some((ok, id))
  }

  lemma NumberTaken(n: nat, rest: string)
    requires rest == "" || !IsDigit(rest[0])
    ensures TakeNumber(NatText(n) + rest) == Some((n, rest))
  {
    var d := NatText(n);
    DigitCountStops(d, rest);
    NatTextRoundTrip(n);
    assert (d + rest)[..|d|] == d && (d + rest)[|d|..] == rest;
  }

  lemma PrefixTaken(prefix: string, rest: string)
    ensures AfterPrefix(prefix + rest, prefix) == Some(rest)
  {
    assert (prefix + rest)[|prefix|..] == rest;
  }

  lemma ResultMatches(passed: nat, failed: nat, total: nat)
    ensures MatchResult(ResultLine(passed, failed, total)) == Some((passed, failed, total))
  {
    hide TakeNumber, AfterPrefix, NatText;
    var f := " total";
    var e := NatText(total) + f;
    var d := " failed; " + e;
    var c := NatText(failed) + d;
    var b := " passed; " + c;
    var a := NatText(passed) + b;
    PrefixTaken("# result: ", a);
    NumberTaken(passed, b);
    PrefixTaken(" passed; ", c);
    NumberTaken(failed, d);
    PrefixTaken(" failed; ", e);
    NumberTaken(total, f);
  }

  lemma {:induction false} UpperCountStops(s: string, more: string)
    ensures UpperCount(s + " " + more) == UpperCount(s)
  {
    if s == "" {
      assert (s + " " + more)[0] == ' ';
    } else {
      assert (s + " " + more)[1..] == s[1..] + " " + more;
      UpperCountStops(s[1..], more);
    }
  }

  lemma IdEndStops(s: string, k: nat, more: string)
    requires k <= |s| && IdEnd(s, k).Some?
    ensures IdEnd(s + " " + more, k) == IdEnd(s, k)
  {
    var t := s + " " + more;
    assert forall i :: 0 <= i < |s| ==> t[i] == s[i];
    assert t[|s|] == ' ';
    if k + 3 < |s| {
      assert t[k + 4..] == s[k + 4..] + " " + more;
      UpperCountStops(s[k + 4..], more);
    }
  }

  /** An ID of the expected form is read whole when a blank follows. */
  lemma IdMatches(id: string, more: string)
    requires ExpectedId(id)
    ensures MatchId(id + (" " + more)) == Some(id)
  {
    hide IdEnd;
    var t := id + (" " + more);
    assert t == id + " " + more;
    var k := if "TC-ACC-MVS01-" <= id then 13 else 14;
    IdEndStops(id, k, more);
    assert t[..13] == id[..13];
    assert k == 14 ==> t[..14] == id[..14];
    assert t[..|id|] == id;
  }

  /** Outcome and ID are read from a test's line whatever follows the ID. */
  lemma TestLineMatches(t: Test, number: nat, tail: string)
    requires ExpectedId(t.id)
    ensures MatchTest(TestLineWith(t, number, tail)) == Some((t.outcome.Pass?, t.id))
  {
    hide TakeNumber, AfterPrefix, NatText, MatchId, ExpectedId;
    var d := t.id + (" " + tail);
    var c := " - " + d;
    var b := NatText(number) + c;
    var prefix := if t.outcome.Pass? then "ok " else "not ok ";
    assert TestLineWith(t, number, tail) == prefix + b;
    assert (prefix + b)[0] == prefix[0];
    PrefixTaken(prefix, b);
    NumberTaken(number, c);
    PrefixTaken(" - ", d);
    IdMatches(t.id, tail);
  }

  lemma {:induction false} UpperCountIsUpper(s: string)
    ensures forall i :: 0 <= i < UpperCount(s) ==> 'A' <= s[i] <= 'Z'
  {
    if s != "" && 'A' <= s[0] <= 'Z' {
      UpperCountIsUpper(s[1..]);
      assert forall i :: 0 < i < UpperCount(s) ==> s[i] == s[1..][i - 1];
    }
  }

  lemma IdWords()
    ensures OneLine("TC-ACC-MVS01-") && OneLine("TC-PERF-MVS01-")
  {
  }

  /** An ID of the expected form holds no line boundary. */
  lemma ExpectedIdIsOneLine(id: string)
    requires ExpectedId(id)
    ensures OneLine(id)
  {
    IdWords();
    var prefix := if "TC-ACC-MVS01-" <= id then "TC-ACC-MVS01-" else "TC-PERF-MVS01-";
    var k := |prefix|;
    assert IdEnd(id, k) == Some(|id|);
    UpperCountIsUpper(if k + 4 <= |id| then id[k + 4..] else "");
    forall i | 0 <= i < |id| ensures !IsBoundary(id[i]) {
      if i < k {
        assert id[i] == prefix[i];
      } else if i >= k + 4 {
        assert id[i] == id[k + 4..][i - k - 4];
      }
    }
  }
}
