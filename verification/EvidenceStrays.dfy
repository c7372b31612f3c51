/** What the parser makes of text behind a line boundary that looks like a test, a result or a heading. */
module EvidenceStrays {
  import opened Base
  import opened EvidenceLog
  import opened Evidence
  import Order
  import Text

  /** A test whose tail is inert throughout. */
  predicate InertTest(t: Test) {
    ExpectedId(t.id) && forall j :: 0 <= j < |TestTail(t)| ==> Inert(TestTail(t)[j])
  }

  /** A test whose tail is inert but for one line. */
  predicate OneStray(t: Test, i: nat, stray: string) {
    && ExpectedId(t.id) && i < |TestTail(t)| && TestTail(t)[i] == stray
    && forall j :: 0 <= j < |TestTail(t)| && j != i ==> Inert(TestTail(t)[j])
  }

  /** A run of suite k without repeated IDs whose only doubtful line stands in the tail of test m. */
  predicate StrayRun(k: nat, tests: seq<Test>, m: nat, i: nat, stray: string) {
    && k < |SUITES| && NoRepeats(tests) && m < |tests| && OneStray(tests[m], i, stray)
    && forall l :: 0 <= l < |tests| && l != m ==> InertTest(tests[l])
  }

  lemma InertIsClean(k: nat, t: Test)
    requires InertTest(t)
    ensures CleanTest(k, t)
  {
    hide ExpectedId, Inert, TestTail;
  }

  // ------------------------------------------------------------------ around the stray line

  lemma {:induction false} AllTestLinesSplit(tests: seq<Test>, number: nat, m: nat)
    requires m <= |tests|
    ensures AllTestLines(tests, number) == AllTestLines(tests[..m], number) + AllTestLines(tests[m..], number + m)
    decreases m
  {
    hide TestLines;
    if m == 0 {
      assert tests[..0] == [] && tests[0..] == tests;
    } else {
      AllTestLinesSplit(tests[1..], number + 1, m - 1);
      assert tests[1..][..m - 1] == tests[..m][1..] && tests[1..][m - 1..] == tests[m..];
      var a, b, c := TestLines(tests[0], number), AllTestLines(tests[..m][1..], number + 1),
      AllTestLines(tests[m..], number + m);
      assert a + (b + c) == a + b + c;
    }
  }

  /** The split lines of the run before the stray line. */
  function LinesBefore(k: nat, tests: seq<Test>, m: nat, i: nat): seq<string>
    requires k < |SUITES| && m < |tests| && i < |TestTail(tests[m])|
  {
    ["# " + SuiteName(k)] + ["1.." + Text.NatText(|tests|)] + Flatten(AllTestLines(tests[..m], 1))
    + [HeadLine(tests[m], m + 1)] + TestTail(tests[m])[..i]
  }

  /** The split lines of the run after it. */
  function LinesAfter(tests: seq<Test>, m: nat, i: nat): seq<string>
    requires m < |tests| && i < |TestTail(tests[m])|
  {
    var c := FinalCounts(tests);
    TestTail(tests[m])[i + 1..] + Flatten(AllTestLines(tests[m + 1..], m + 2))
      + [ResultLine(c.passed, c.failed, c.total)]
  }

  lemma RunAroundStray(k: nat, tests: seq<Test>, m: nat, i: nat, stray: string)
    requires StrayRun(k, tests, m, i, stray)
    ensures Flatten(RunLines(SuiteName(k), tests)) == LinesBefore(k, tests, m, i) + [stray] + LinesAfter(tests, m, i)
  {
    hide Flatten, AllTestLines, ResultLine, SuiteName, TestTail, HeadLine, Inert, ExpectedId, NoRepeats, RunLines;
    hide TestLines;
    var t, c := tests[m], FinalCounts(tests);
    var a := ["# " + SuiteName(k)] + ["1.." + Text.NatText(|tests|)];
    var first, rest := AllTestLines(tests[..m], 1), AllTestLines(tests[m + 1..], m + 2);
    var last := [ResultLine(c.passed, c.failed, c.total)];
    RunFlattens(k, tests);
    AllTestLinesSplit(tests, 1, m);
    NextTestLines(tests, m);
    FlattenConcat(first, TestLines(t, m + 1) + rest);
    FlattenConcat(TestLines(t, m + 1), rest);
    TestFlattens(t, m + 1);
    var tail := TestTail(t);
    assert tail == tail[..i] + [stray] + tail[i + 1..];
    assert a + (Flatten(first) + ([HeadLine(t, m + 1)] + tail + Flatten(rest))) + last
      == a + Flatten(first) + [HeadLine(t, m + 1)] + tail[..i] + [stray] + (tail[i + 1..] + Flatten(rest) + last);
  }

  lemma NextTestLines(tests: seq<Test>, m: nat)
    requires m < |tests|
    ensures AllTestLines(tests[m..], 1 + m) == TestLines(tests[m], m + 1) + AllTestLines(tests[m + 1..], m + 2)
  {
    hide TestLines;
    assert tests[m..][0] == tests[m] && tests[m..][1..] == tests[m + 1..];
  }

  lemma {:induction false} IdsOfConcat(a: seq<Test>, b: seq<Test>, passed: bool)
    ensures IdsOf(a + b, passed) == IdsOf(a, passed) + IdsOf(b, passed)
  {
    if a == [] {
      assert a + b == b;
    } else {
      assert (a + b)[0] == a[0] && (a + b)[1..] == a[1..] + b;
      IdsOfConcat(a[1..], b, passed);
      var first := if a[0].outcome.Pass? == passed then [a[0].id] else [];
      assert first + (IdsOf(a[1..], passed) + IdsOf(b, passed)) == first + IdsOf(a[1..], passed) + IdsOf(b, passed);
    }
  }

  lemma {:induction false} IdsOfOne(t: Test, passed: bool)
    ensures IdsOf([t], passed) == if t.outcome.Pass? == passed then [t.id] else []
  {
    assert [t][1..] == [];
    assert IdsOf([], passed) == [];
  }

  lemma WithTestsSnoc(r: Report, tests: seq<Test>, m: nat)
    requires m < |tests|
    ensures WithTest(WithTests(r, tests[..m]), tests[m].outcome.Pass?, tests[m].id) == WithTests(r, tests[..m + 1])
  {
    hide IdsOf;
    var t, before := tests[m], tests[..m];
    assert tests[..m + 1] == before + [t];
    IdsOfConcat(before, [t], true);
    IdsOfConcat(before, [t], false);
    IdsOfOne(t, true);
    IdsOfOne(t, false);
    assert r.passedIds + IdsOf(before, true) + IdsOf([t], true)
      == r.passedIds + (IdsOf(before, true) + IdsOf([t], true));
    assert r.failedIds + IdsOf(before, false) + IdsOf([t], false)
      == r.failedIds + (IdsOf(before, false) + IdsOf([t], false));
  }

  /** Up to the stray line the suite is open and holds the tests so far. */
  lemma ReadBefore(s: State, k: nat, tests: seq<Test>, m: nat, i: nat, stray: string)
    requires Ready(s) && StrayRun(k, tests, m, i, stray)
    ensures ReadAll(s, LinesBefore(k, tests, m, i))
      == State(s.results[k := WithTests(s.results[k], tests[..m + 1])], Some(k))
  {
    hide ReadAll, Flatten, AllTestLines, SuiteName, TestTail, HeadLine, Inert, ExpectedId, NoRepeats, WithTests;
    hide WithTest, CleanTest;
    var heading, plan := "# " + SuiteName(k), "1.." + Text.NatText(|tests|);
    var first, head, tail := Flatten(AllTestLines(tests[..m], 1)), HeadLine(tests[m], m + 1), TestTail(tests[m])[..i];
    var open := s.(current := Some(k));
    HeadingRead(s, k);
    PlanRead(open, |tests|);
    forall l | 0 <= l < m ensures CleanTest(k, tests[..m][l]) { InertIsClean(k, tests[l]); }
    TestsRead(open, k, tests[..m], 1);
    var some := State(s.results[k := WithTests(s.results[k], tests[..m])], Some(k));
    HeadRead(some, k, tests[m], m + 1);
    WithTestsSnoc(s.results[k], tests, m);
    var more := State(s.results[k := WithTests(s.results[k], tests[..m + 1])], Some(k));
    assert some.results[k := WithTests(s.results[k], tests[..m + 1])] == more.results;
    AllInertRead(more, tail);
    ReadConcat(s, [heading], [plan]);
    ReadConcat(s, [heading] + [plan], first);
    ReadConcat(s, [heading] + [plan] + first, [head]);
    ReadConcat(s, [heading] + [plan] + first + [head], tail);
  }

  /** While suite j is open, the lines after the stray one complete suite j. */
  lemma ReadAfterOpen(s: State, j: nat, k: nat, tests: seq<Test>, m: nat, i: nat, stray: string)
    requires Ready(s) && s.current == Some(j) && StrayRun(k, tests, m, i, stray)
    ensures ReadAll(s, LinesAfter(tests, m, i)).results
      == s.results[j := WithCounts(WithTests(s.results[j], tests[m + 1..]), FinalCounts(tests), SUITES[j].expected)]
  {
    hide ReadAll, Flatten, AllTestLines, TestTail, Inert, ExpectedId, NoRepeats, WithTests, CleanTest, ResultLine;
    var c := FinalCounts(tests);
    var tail, rest := TestTail(tests[m])[i + 1..], Flatten(AllTestLines(tests[m + 1..], m + 2));
    AllInertRead(s, tail);
    var later := tests[m + 1..];
    forall l | 0 <= l < |later| ensures CleanTest(j, later[l]) { InertIsClean(j, tests[m + 1 + l]); }
    TestsRead(s, j, tests[m + 1..], m + 2);
    var done := s.(results := s.results[j := WithTests(s.results[j], tests[m + 1..])]);
    ResultRead(done, j, c.passed, c.failed, c.total);
    ReadConcat(s, tail, rest);
    ReadConcat(s, tail + rest, [ResultLine(c.passed, c.failed, c.total)]);
  }

  lemma {:induction false} ClosedRead(s: State, lines: seq<string>)
    requires Ready(s) && s.current.None? && forall i :: 0 <= i < |lines| ==> Heading(lines[i]).None?
    ensures ReadAll(s, lines) == s
    decreases |lines|
  {
    hide Heading, MatchTest, MatchResult;
    if lines != [] {
      assert ReadLine(s, lines[0]) == s;
      ClosedRead(s, lines[1..]);
    }
  }

  lemma {:induction false} NoHeadingInTests(tests: seq<Test>, number: nat)
    requires forall l :: 0 <= l < |tests| ==> InertTest(tests[l])
    ensures forall j :: 0 <= j < |Flatten(AllTestLines(tests, number))| ==>
      Heading(Flatten(AllTestLines(tests, number))[j]).None?
  {
    hide Heading, TestTail, HeadLine, ExpectedId, TestLines, Flatten, MatchTest, MatchResult;
    if tests == [] {
      FlattenNothing();
    } else {
      FlattenConcat(TestLines(tests[0], number), AllTestLines(tests[1..], number + 1));
      TestFlattens(tests[0], number);
      HeadHasNoHeading(tests[0], number);
      NoHeadingInTests(tests[1..], number + 1);
    }
  }

  lemma HeadHasNoHeading(t: Test, number: nat)
    ensures Heading(HeadLine(t, number)).None?
  {
    hide Heading, Fragments, TestLineWith;
    var tail := if Fragments(TailText(t)) == [] then "" else Fragments(TailText(t))[0];
    TestLineHead(t, number, tail);
    NoHeading(HeadLine(t, number));
  }

  lemma ResultHasNoHeading(passed: nat, failed: nat, total: nat)
    ensures Heading(ResultLine(passed, failed, total)).None?
  {
    hide Heading;
    var line := ResultLine(passed, failed, total);
    assert line[0] == '#' && line[2] == 'r';
    NoHeading(line);
  }

  /** While no suite is open, they change nothing. */
  lemma ReadAfterClosed(s: State, k: nat, tests: seq<Test>, m: nat, i: nat, stray: string)
    requires Ready(s) && s.current.None? && StrayRun(k, tests, m, i, stray)
    ensures ReadAll(s, LinesAfter(tests, m, i)) == s
  {
    hide ReadAll, Flatten, AllTestLines, TestTail, ExpectedId, NoRepeats, ResultLine, Heading, MatchTest, MatchResult;
    var c := FinalCounts(tests);
    var later := tests[m + 1..];
    forall l | 0 <= l < |later| ensures InertTest(later[l]) { assert InertTest(tests[m + 1 + l]); }
    NoHeadingInTests(tests[m + 1..], m + 2);
    ResultHasNoHeading(c.passed, c.failed, c.total);
    ClosedRead(s, LinesAfter(tests, m, i));
  }

  // --------------------------------------------------------------- what a stray line does

  /** The results after reading a run of suite k with one stray line in the tail of test m. */
  function StrayResults(results: seq<Report>, k: nat, tests: seq<Test>, m: nat, stray: string): (r: seq<Report>)
    requires |results| == |SUITES| && k < |SUITES| && m < |tests|
    ensures |r| == |results|
  {
    var sofar, rest, final := WithTests(results[k], tests[..m + 1]), tests[m + 1..], FinalCounts(tests);
    match Heading(stray)
    case Some(j) =>
      var begun := results[k := sofar];
      begun[j := WithCounts(WithTests(begun[j], rest), final, SUITES[j].expected)]
    case None =>
      match MatchTest(stray)
      case Some((passed, id)) => results[k := WithCounts(WithTests(WithTest(sofar, passed, id), rest), final,
        SUITES[k].expected)]
      case None =>
        match MatchResult(stray)
        case Some((p, f, n)) => results[k := WithCounts(sofar, Counts(p, f, n), SUITES[k].expected)]
        case None => results[k := WithCounts(WithTests(sofar, rest), final, SUITES[k].expected)]
  }

  lemma StrayRead(s: State, k: nat, tests: seq<Test>, m: nat, i: nat, stray: string)
    requires Ready(s) && StrayRun(k, tests, m, i, stray)
    ensures ReadAll(s, Flatten(RunLines(SuiteName(k), tests))).results == StrayResults(s.results, k, tests, m, stray)
  {
    hide StrayRun, Flatten, RunLines, SuiteName, LinesBefore, LinesAfter, Heading, MatchTest, MatchResult, WithTests;
    hide WithTest, WithCounts, ReadAll;
    assert k < |SUITES| && m < |tests| && i < |TestTail(tests[m])| by { StrayRunBounds(k, tests, m, i, stray); }
    RunAroundStray(k, tests, m, i, stray);
    var before, after := LinesBefore(k, tests, m, i), LinesAfter(tests, m, i);
    ReadBefore(s, k, tests, m, i, stray);
    var begun := State(s.results[k := WithTests(s.results[k], tests[..m + 1])], Some(k));
    var next := ReadLine(begun, stray);
    ReadOne(begun, stray);
    ReadConcat(s, before + [stray], after);
    ReadConcat(s, before, [stray]);
    if next.current.Some? {
      ReadAfterOpen(next, next.current.value, k, tests, m, i, stray);
    } else {
      ReadAfterClosed(next, k, tests, m, i, stray);
    }
  }

  lemma StrayRunBounds(k: nat, tests: seq<Test>, m: nat, i: nat, stray: string)
    requires StrayRun(k, tests, m, i, stray)
    ensures k < |SUITES| && m < |tests| && i < |TestTail(tests[m])|
  {
  }

  lemma {:induction false} ReadOne(s: State, line: string)
    requires Ready(s)
    ensures ReadAll(s, [line]) == ReadLine(s, line)
  {
    hide ReadLine;
    assert [line][1..] == [];
  }

  // ------------------------------------------------------------------ exactly when it is harmless

  /** Parsing recovers the whole log. */
  ghost predicate Recovered(chunks: seq<Chunk>) {
    forall j :: 0 <= j < |SUITES| ==> Parsed(chunks)[j] == Expected(chunks, j)
  }

  /** A log with one run that holds one stray line; everything else is clean. */
  predicate StrayLog(before: seq<Chunk>, after: seq<Chunk>, k: nat, tests: seq<Test>, m: nat, i: nat, stray: string) {
    && CleanChunks(before) && CleanChunks(after) && StrayRun(k, tests, m, i, stray)
    && OneRunPerSuite(before + [Run(k, tests)] + after)
  }

  lemma {:induction false} FindRunConcat(a: seq<Chunk>, b: seq<Chunk>, j: nat)
    ensures FindRun(a + b, j) == if FindRun(a, j).Some? then FindRun(a, j) else FindRun(b, j)
  {
    if a == [] {
      assert a + b == b;
    } else {
      assert (a + b)[0] == a[0] && (a + b)[1..] == a[1..] + b;
      FindRunConcat(a[1..], b, j);
    }
  }

  /** Each suite's run stands in one place. */
  lemma {:induction false} RunsApart(before: seq<Chunk>, after: seq<Chunk>, k: nat, tests: seq<Test>, j: nat)
    requires OneRunPerSuite(before + [Run(k, tests)] + after)
    ensures OneRunPerSuite(before) && OneRunPerSuite(after)
    ensures FindRun(before, k).None? && FindRun(after, k).None?
    ensures FindRun(before, j).None? || FindRun(after, j).None?
    ensures FindRun(before + [Run(k, tests)] + after, j) ==
      if j == k then Some(tests) else if FindRun(before, j).Some? then FindRun(before, j) else FindRun(after, j)
  {
    var all, n := before + [Run(k, tests)] + after, |before|;
    assert forall i :: 0 <= i < n ==> all[i] == before[i];
    assert all[n] == Run(k, tests);
    assert forall i :: 0 <= i < |after| ==> all[n + 1 + i] == after[i];
    FindRunConcat(before + [Run(k, tests)], after, j);
    FindRunConcat(before, [Run(k, tests)], j);
  }

  /** The suite of the run reports what its lines and the stray line make of a blank result; every suite whose
      heading is not the stray line reports what the log says. */
  ghost predicate Reports(chunks: seq<Chunk>, base: seq<Report>, k: nat, tests: seq<Test>, m: nat, stray: string) {
    && |base| == |SUITES| && k < |SUITES| && m < |tests| && base[k] == BLANK
    && Parsed(chunks)[k] == StrayResults(base, k, tests, m, stray)[k]
    && forall j :: 0 <= j < |SUITES| && j != k && Heading(stray) != Some(j) ==> Parsed(chunks)[j] == Expected(chunks, j)
  }

  /** Each suite's result, read in three stretches. */
  lemma StrayStretches(before: seq<Chunk>, after: seq<Chunk>, k: nat, tests: seq<Test>, m: nat, i: nat, stray: string)
    returns (base: seq<Report>)
    requires StrayLog(before, after, k, tests, m, i, stray)
    ensures |base| == |SUITES| && k < |SUITES| && m < |tests|
    ensures forall j :: 0 <= j < |SUITES| ==>
      && base[j] == AfterLog(BLANK, before, j)
      && Parsed(before + [Run(k, tests)] + after)[j] == AfterLog(StrayResults(base, k, tests, m, stray)[j], after, j)
  {
    hide ReadAll, Flatten, StrayRun, LogLines, Parsed, CleanChunk, AfterLog, OneRunPerSuite, RunLines, SuiteName;
    hide StrayResults, Start;
    StrayRunBounds(k, tests, m, i, stray);
    RunsApart(before, after, k, tests, k);
    ParsedIsFlat(before + [Run(k, tests)] + after);
    LogOfThree(before, k, tests, after);
    var x, y, z := Flatten(LogLines(before)), Flatten(RunLines(SuiteName(k), tests)), Flatten(LogLines(after));
    ReadConcat(Start(), x + y, z);
    ReadConcat(Start(), x, y);
    var s := ReadAll(Start(), x);
    base := s.results;
    StartIsBlank();
    LogRead(Start(), before);
    StrayRead(s, k, tests, m, i, stray);
    LogRead(ReadAll(s, y), after);
  }

  lemma StartIsBlank()
    ensures forall j :: 0 <= j < |SUITES| ==> Start().results[j] == BLANK
  {
  }

  /** What parsing reports for each suite of such a log. */
  lemma StrayParsed(before: seq<Chunk>, after: seq<Chunk>, k: nat, tests: seq<Test>, m: nat, i: nat, stray: string)
    returns (base: seq<Report>)
    requires StrayLog(before, after, k, tests, m, i, stray)
    ensures Reports(before + [Run(k, tests)] + after, base, k, tests, m, stray)
  {
    hide StrayRun, Parsed, CleanChunk, AfterLog, Expected, OneRunPerSuite, FindRun, Heading, MatchTest, MatchResult;
    hide WithTests, WithTest, WithCounts;
    var chunks := before + [Run(k, tests)] + after;
    base := StrayStretches(before, after, k, tests, m, i, stray);
    RunsApart(before, after, k, tests, k);
    NoRunLeaves(BLANK, before, k);
    NoRunLeaves(StrayResults(base, k, tests, m, stray)[k], after, k);
    forall j | 0 <= j < |SUITES| && j != k && Heading(stray) != Some(j)
      ensures Parsed(chunks)[j] == Expected(chunks, j)
    {
      RunsApart(before, after, k, tests, j);
      TwoLogs(before, after, chunks, j);
    }
  }

  lemma LogOfThree(before: seq<Chunk>, k: nat, tests: seq<Test>, after: seq<Chunk>)
    requires k < |SUITES|
    ensures Flatten(LogLines(before + [Run(k, tests)] + after))
      == Flatten(LogLines(before)) + Flatten(RunLines(SuiteName(k), tests)) + Flatten(LogLines(after))
  {
    hide Flatten, RunLines, SuiteName;
    LogLinesConcat(before + [Run(k, tests)], after);
    LogLinesConcat(before, [Run(k, tests)]);
    assert [Run(k, tests)][1..] == [];
    assert LogLines([]) == [];
    assert LogLines([Run(k, tests)]) == ChunkLines(Run(k, tests)) + [] == RunLines(SuiteName(k), tests);
    FlattenConcat(LogLines(before) + RunLines(SuiteName(k), tests), LogLines(after));
    FlattenConcat(LogLines(before), RunLines(SuiteName(k), tests));
  }

  lemma NoRunLeaves(r: Report, chunks: seq<Chunk>, k: nat)
    requires k < |SUITES| && FindRun(chunks, k).None?
    ensures AfterLog(r, chunks, k) == r
  {
  }

  lemma {:induction false} TwoLogs(before: seq<Chunk>, after: seq<Chunk>, chunks: seq<Chunk>, j: nat)
    requires j < |SUITES| && (FindRun(before, j).None? || FindRun(after, j).None?)
    requires FindRun(chunks, j) == if FindRun(before, j).Some? then FindRun(before, j) else FindRun(after, j)
    ensures AfterLog(AfterLog(BLANK, before, j), after, j) == Expected(chunks, j)
  {
    hide NoRepeats, FindRun;
    BlankAfterLog(chunks, j);
  }

  lemma {:induction false} IdsCount(tests: seq<Test>)
    ensures |IdsOf(tests, true)| + |IdsOf(tests, false)| == |tests|
  {
    if tests != [] { IdsCount(tests[1..]); }
  }

  /** A blank result with two stretches of tests. */
  lemma {:induction false} BlankTests(tests: seq<Test>, m: nat)
    requires m < |tests|
    ensures WithTests(BLANK, tests[..m + 1])
      == Report(None, IdsOf(tests[..m + 1], true), IdsOf(tests[..m + 1], false), NotRun)
    ensures WithTests(WithTests(BLANK, tests[..m + 1]), tests[m + 1..])
      == Report(None, IdsOf(tests, true), IdsOf(tests, false), NotRun)
  {
    hide IdsOf;
    var a, b := tests[..m + 1], tests[m + 1..];
    assert tests == a + b;
    IdsOfConcat(a, b, true);
    IdsOfConcat(a, b, false);
    assert [] + IdsOf(a, true) == IdsOf(a, true) && [] + IdsOf(a, false) == IdsOf(a, false);
  }

  /** A stray test line leaves one ID too many. */
  lemma TooManyIds(tests: seq<Test>, m: nat, passed: bool, id: string)
    requires m < |tests|
    ensures var r := WithTests(WithTest(WithTests(BLANK, tests[..m + 1]), passed, id), tests[m + 1..]);
      |r.passedIds| + |r.failedIds| == |tests| + 1
  {
    var a, b := tests[..m + 1], tests[m + 1..];
    IdsCount(a);
    IdsCount(b);
  }

  /** A result closed early is right only if nothing was cut off. */
  lemma CutShort(tests: seq<Test>, m: nat)
    requires m < |tests|
    ensures var r := WithTests(BLANK, tests[..m + 1]);
      r.passedIds == IdsOf(tests, true) && r.failedIds == IdsOf(tests, false) <==> m + 1 == |tests|
  {
    hide IdsOf;
    BlankTests(tests, m);
    IdsCount(tests);
    IdsCount(tests[..m + 1]);
    assert m + 1 == |tests| ==> tests[..m + 1] == tests;
  }

  /** The result of the run's own suite, by the kind of the stray line. */
  lemma OwnCases(base: seq<Report>, k: nat, tests: seq<Test>, m: nat, stray: string)
    requires |base| == |SUITES| && k < |SUITES| && m < |tests| && base[k] == BLANK
    ensures var r := StrayResults(base, k, tests, m, stray)[k];
      var e := SUITES[k].expected;
      var (sofar, rest, c) := (WithTests(BLANK, tests[..m + 1]), tests[m + 1..], FinalCounts(tests));
      match Heading(stray)
      case Some(j) => r == if j == k then WithCounts(WithTests(sofar, rest), c, e) else sofar
      case None =>
        match MatchTest(stray)
        case Some((passed, id)) => r == WithCounts(WithTests(WithTest(sofar, passed, id), rest), c, e)
        case None =>
          match MatchResult(stray)
          case Some((p, f, n)) => r == WithCounts(sofar, Counts(p, f, n), e)
          case None => r == WithCounts(WithTests(sofar, rest), c, e)
  {
    hide Heading, MatchTest, MatchResult, FinalCounts, Judged, WithTests, WithTest, WithCounts;
  }

  /** The result of the run's own suite is right exactly in these cases. */
  lemma {:induction false} OwnResult(base: seq<Report>, k: nat, tests: seq<Test>, m: nat, stray: string)
    requires |base| == |SUITES| && k < |SUITES| && m < |tests| && base[k] == BLANK
    ensures var c := FinalCounts(tests);
      StrayResults(base, k, tests, m, stray)[k]
        == Report(Some(c), IdsOf(tests, true), IdsOf(tests, false), Judged(c, SUITES[k].expected))
      <==> Harmless(k, stray) || (m + 1 == |tests| && MatchResult(stray) == Some((c.passed, c.failed, c.total)))
  {
    hide Heading, MatchTest, MatchResult, FinalCounts, Judged, WithTests, WithTest, IdsOf, StrayResults;
    OwnCases(base, k, tests, m, stray);
    ResultIsNoOther(stray);
    BlankTests(tests, m);
    if Heading(stray).None? {
      if MatchTest(stray).Some? {
        IdsCount(tests);
        TooManyIds(tests, m, MatchTest(stray).value.0, MatchTest(stray).value.1);
      } else if MatchResult(stray).Some? {
        CutShort(tests, m);
      }
    }
  }

  lemma ResultStarts(line: string)
    requires MatchResult(line).Some?
    ensures |line| >= 3 && line[0] == '#' && line[2] == 'r'
  {
    hide TakeNumber;
    assert line[..10] == "# result: ";
    assert line[0] == line[..10][0] && line[2] == line[..10][2];
  }

  lemma ResultIsNoOther(line: string)
    ensures MatchResult(line).Some? ==> Heading(line).None? && MatchTest(line).None?
  {
    hide Heading, MatchResult, MatchTest;
    if MatchResult(line).Some? {
      ResultStarts(line);
      NoHeading(line);
      NoTest(line);
    }
  }

  /** With one doubtful line behind a boundary, parsing recovers the log exactly when that line is inert, is the
      suite's own heading, or is the run's own result line standing after the last test. */
  lemma StrayRecovered(before: seq<Chunk>, after: seq<Chunk>, k: nat, tests: seq<Test>, m: nat, i: nat, stray: string)
    requires StrayLog(before, after, k, tests, m, i, stray)
    ensures var c := FinalCounts(tests);
      Recovered(before + [Run(k, tests)] + after)
      <==> Harmless(k, stray) || (m + 1 == |tests| && MatchResult(stray) == Some((c.passed, c.failed, c.total)))
  {
    hide Heading, MatchTest, MatchResult, StrayRun, Parsed, CleanChunk, OneRunPerSuite, FindRun, StrayResults;
    hide NoRepeats, IdsOf, Judged, FinalCounts;
    var chunks := before + [Run(k, tests)] + after;
    var base := StrayParsed(before, after, k, tests, m, i, stray);
    RunsApart(before, after, k, tests, k);
    StrayRunIsRun(k, tests, m, i, stray);
    OwnResult(base, k, tests, m, stray);
    ResultIsNoOther(stray);
  }

  lemma StrayRunIsRun(k: nat, tests: seq<Test>, m: nat, i: nat, stray: string)
    requires StrayRun(k, tests, m, i, stray)
    ensures NoRepeats(tests)
  {
  }

  // ----------------------------------------------------------- a failing run read as a passed one

  /** A line boundary the printer leaves alone, then the result line of a fully passed suite. */
  function Misleading(boundary: char, k: nat): string
    requires k < |SUITES|
  {
    [boundary] + ResultLine(SUITES[k].expected, 0, SUITES[k].expected)
  }

  predicate KeptBoundary(c: char) {
    IsBoundary(c) && c != '\r' && c != '\n'
  }

  lemma {:induction false} SingleLineKeeps(s: string)
    requires forall i :: 0 <= i < |s| ==> s[i] != '\r' && s[i] != '\n'
    ensures SingleLine(s) == s
  {
    if s != "" {
      SingleLineKeeps(s[1..]);
      assert s == [s[0]] + s[1..];
    }
  }

  lemma MisleadingKept(boundary: char, k: nat)
    requires k < |SUITES| && KeptBoundary(boundary)
    ensures SingleLine(Misleading(boundary, k)) == Misleading(boundary, k)
  {
    hide ResultLine;
    var r, m := ResultLine(SUITES[k].expected, 0, SUITES[k].expected), Misleading(boundary, k);
    ResultOneLine(SUITES[k].expected, 0, SUITES[k].expected);
    assert forall i :: 0 <= i < |r| ==> !IsBoundary(r[i]);
    assert forall i :: 0 < i < |m| ==> m[i] == r[i - 1];
    SingleLineKeeps(m);
  }

  lemma BoundaryFragments(boundary: char, line: string)
    requires KeptBoundary(boundary) && OneLine(line)
    ensures Fragments([boundary] + line) == ["", line]
  {
    hide SplitLines, OneLine;
    var s := [boundary] + line + "\n";
    assert s[0] == boundary && s[..0] == "";
    assert OneLine("") by { Words(); }
    SplitAt(s, 0);
    assert s[1..] == line + "\n";
    OneFragment(line);
  }

  /** The printed message of such a failure, split. */
  lemma MisleadingFragments(boundary: char, k: nat)
    requires k < |SUITES| && KeptBoundary(boundary)
    ensures Fragments("  message: " + SingleLine(Misleading(boundary, k)))
      == ["  message: ", ResultLine(SUITES[k].expected, 0, SUITES[k].expected)]
  {
    hide ResultLine, OneLine, Fragments, SingleLine, KeptBoundary;
    var n := SUITES[k].expected;
    MisleadingKept(boundary, k);
    ResultOneLine(n, 0, n);
    Words();
    BoundaryFragments(boundary, ResultLine(n, 0, n));
    FragmentsPrefix("  message: ", Misleading(boundary, k));
    assert "  message: " + "" == "  message: ";
  }

  /** A failing test with such a message, whose other text is inert. */
  predicate MisleadingTest(k: nat, t: Test, boundary: char) {
    && k < |SUITES| && KeptBoundary(boundary) && ExpectedId(t.id) && t.outcome == Fail(Misleading(boundary, k))
    && forall j :: 1 <= j < |Fragments(TailText(t))| ==> Inert(Fragments(TailText(t))[j])
  }

  lemma MisleadingIsStray(k: nat, t: Test, boundary: char) returns (i: nat)
    requires MisleadingTest(k, t, boundary)
    ensures OneStray(t, i, ResultLine(SUITES[k].expected, 0, SUITES[k].expected))
  {
    hide ResultLine, Fragments, SingleLine, ExpectedId, Inert, TailText;
    var stray := ResultLine(SUITES[k].expected, 0, SUITES[k].expected);
    MisleadingFragments(boundary, k);
    FragmentsPrefix("", TailText(t)) by { Words(); }
    var a := Fragments(TailText(t))[1..];
    InertByFirst("  ---");
    InertByFirst("  message: ");
    InertByFirst("  ...");
    assert TestTail(t) == a + ["  ---", "  message: ", stray, "  ..."];
    assert forall j :: 0 <= j < |a| ==> a[j] == Fragments(TailText(t))[j + 1];
    i := |a| + 2;
  }

  /** A log whose run of suite k holds such a failure: every other suite, and every other test of the run, is
      clean, and no other text of the run is doubtful. */
  predicate MisleadingLog(before: seq<Chunk>, after: seq<Chunk>, k: nat, tests: seq<Test>, m: nat, boundary: char) {
    && CleanChunks(before) && CleanChunks(after) && OneRunPerSuite(before + [Run(k, tests)] + after)
    && k < |SUITES| && NoRepeats(tests) && m < |tests| && MisleadingTest(k, tests[m], boundary)
    && forall l :: 0 <= l < |tests| && l != m ==> InertTest(tests[l])
  }

  /** For every suite: parse_suites then reports the expected passes, no failure and the status passed for a run in
      which a test failed, and reports every other suite correctly. */
  lemma BoundaryMisleads(before: seq<Chunk>, after: seq<Chunk>, k: nat, tests: seq<Test>, m: nat,
                         boundary: char)
    requires MisleadingLog(before, after, k, tests, m, boundary)
    ensures Failures(tests) >= 1
    ensures var results := Parsed(before + [Run(k, tests)] + after);
      && results[k].counts == Some(Counts(SUITES[k].expected, 0, SUITES[k].expected)) && results[k].status == Passed
      && forall j :: 0 <= j < |SUITES| && j != k ==> results[j] == Expected(before + [Run(k, tests)] + after, j)
  {
    hide ResultLine, Fragments, Inert, ExpectedId, Parsed, MatchTest, MatchResult, OneRunPerSuite, CleanChunk;
    hide NoRepeats, Expected;
    hide WithTests, OneStray, TestTail;
    var n := SUITES[k].expected;
    var stray := ResultLine(n, 0, n);
    var i := MisleadingIsStray(k, tests[m], boundary);
    OneStrayBounds(tests[m], i, stray);
    NoFailures(tests);
    assert !tests[m].outcome.Pass?;
    var base := StrayParsed(before, after, k, tests, m, i, stray);
    ResultMatches(n, 0, n);
    ResultIsNoOther(stray);
  }

  lemma OneStrayBounds(t: Test, i: nat, stray: string)
    requires OneStray(t, i, stray)
    ensures i < |TestTail(t)|
  {
  }

  /** So the log alone cannot keep acceptance from holding although a test failed: with every other suite fully
      passed, only the other checks can, such as the exit code, which the runner makes nonzero. */
  lemma AcceptedDespiteFailure(
    e: Environment, before: seq<Chunk>, after: seq<Chunk>, k: nat, tests: seq<Test>, m: nat, boundary: char)
    requires MisleadingLog(before, after, k, tests, m, boundary)
    requires e.uid != 0 && e.native && e.idsUnique && e.buildClean && e.gateExitCode == 0
    requires forall j :: 0 <= j < |SUITES| && j != k ==>
      FindRun(before + after, j).Some? && FullyPassed(FindRun(before + after, j).value, SUITES[j].expected)
    ensures Failures(tests) >= 1 && Accepted(e, Parsed(before + [Run(k, tests)] + after))
  {
    hide MisleadingLog, FullyPassed, Accepted, LogText, LogLines, SplitLines, ReadAll, FindRun, OneRunPerSuite;
    var chunks := before + [Run(k, tests)] + after;
    BoundaryMisleads(before, after, k, tests, m, boundary);
    assert k < |SUITES| && OneRunPerSuite(chunks) by { MisleadingLogParts(before, after, k, tests, m, boundary); }
    forall j | 0 <= j < |SUITES| && j != k
      ensures Parsed(chunks)[j].counts == Some(Counts(SUITES[j].expected, 0, SUITES[j].expected))
    {
      RunsApart(before, after, k, tests, j);
      FindRunConcat(before, after, j);
      FullyPassedCounts(FindRun(before + after, j).value, SUITES[j].expected);
    }
    AcceptedExactly(e, LogText(LogLines(chunks)));
  }

  lemma MisleadingLogParts(before: seq<Chunk>, after: seq<Chunk>, k: nat, tests: seq<Test>, m: nat, boundary: char)
    requires MisleadingLog(before, after, k, tests, m, boundary)
    ensures k < |SUITES| && OneRunPerSuite(before + [Run(k, tests)] + after)
  {
  }

  lemma FullyPassedCounts(tests: seq<Test>, expected: nat)
    requires FullyPassed(tests, expected)
    ensures NoRepeats(tests) && FinalCounts(tests) == Counts(expected, 0, expected)
  {
    hide NoRepeats;
    NoFailures(tests);
  }

  // ------------------------------------------------------------------------ a concrete input

  /** U+0085, one of those boundaries. */
  const NEXT_LINE: char := 0x85 as char

  const FAILING_TEST := Test("TC-ACC-MVS01-001", "REQ-1", "submits a question", Fail(Misleading(NEXT_LINE, 0)))

  lemma FailingTestIsMisleading()
    ensures MisleadingTest(0, FAILING_TEST, NEXT_LINE)
  {
    hide Inert, Misleading;
    var id := "TC-ACC-MVS01-001";
    assert IdEnd(id, 13) == Some(16);
    assert id[..16] == id;
    assert OneLine(TailText(FAILING_TEST));
    OneFragment(TailText(FAILING_TEST));
  }

  /** A domain run of one failing test is reported as twelve passes. */
  lemma OneFailingTestReportedPassed()
    ensures Failures([FAILING_TEST]) == 1
    ensures Parsed([Run(0, [FAILING_TEST])])[0].status == Passed
    ensures Parsed([Run(0, [FAILING_TEST])])[0].counts == Some(Counts(12, 0, 12))
  {
    hide MisleadingTest, Parsed, Repeated;
    FailingTestIsMisleading();
    assert [FAILING_TEST][1..] == [];
    NoneRepeated(FAILING_TEST);
    var chunks := [] + [Run(0, [FAILING_TEST])] + [];
    assert chunks == [Run(0, [FAILING_TEST])];
    BoundaryMisleads([], [], 0, [FAILING_TEST], 0, NEXT_LINE);
  }

  lemma NoneRepeated(t: Test)
    ensures NoRepeats([t])
  {
    var ids := Ids([t]);
    assert ids == [t.id] && ids[1..] == [];
    assert Repeated([]) == [];
    assert Order.SortedSet([]) == [];
  }
}
