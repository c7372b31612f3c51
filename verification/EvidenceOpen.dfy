/** Logs with any number of doubtful lines that leave each suite open until its result line. */
module EvidenceOpen {
  import opened Base
  import opened EvidenceLog
  import opened Evidence
  import opened EvidenceStrays
  import Order
  import Text

  /** A line the parser takes for a test. */
  predicate TestShaped(line: string) {
    Heading(line).None? && MatchTest(line).Some?
  }

  /** A line that leaves suite k open: a harmless or a test-shaped one, but no result and no other suite's heading. */
  predicate LeavesOpen(k: nat, line: string) {
    Harmless(k, line) || TestShaped(line)
  }

  predicate OpenTest(k: nat, t: Test) {
    ExpectedId(t.id) && forall j :: 0 <= j < |TestTail(t)| ==> LeavesOpen(k, TestTail(t)[j])
  }

  predicate OpenTests(k: nat, tests: seq<Test>) {
    forall i :: 0 <= i < |tests| ==> OpenTest(k, tests[i])
  }

  predicate OpenChunk(c: Chunk) {
    match c
    case Noise(line) => CleanChunk(c)
    case Run(k, tests) => k < |SUITES| && OpenTests(k, tests)
  }

  predicate OpenLog(chunks: seq<Chunk>) {
    OneRunPerSuite(chunks) && forall i :: 0 <= i < |chunks| ==> OpenChunk(chunks[i])
  }

  // ------------------------------------------------------------------ what such lines add

  /** How many of the lines are test-shaped. */
  function Shaped(lines: seq<string>): nat {
    if lines == [] then 0 else (if TestShaped(lines[0]) then 1 else 0) + Shaped(lines[1..])
  }

  function WithLine(r: Report, line: string): Report {
    match MatchTest(line) case Some((passed, id)) => WithTest(r, passed, id) case None => r
  }

  /** A result with what the test-shaped lines say. */
  function WithLines(r: Report, lines: seq<string>): Report
    decreases |lines|
  {
    if lines == [] then r else WithLines(if TestShaped(lines[0]) then WithLine(r, lines[0]) else r, lines[1..])
  }

  /** A result with the tests and the test-shaped lines of their tails. */
  function WithPrinted(r: Report, tests: seq<Test>): Report
    decreases |tests|
  {
    if tests == [] then r
    else WithPrinted(WithLines(WithTest(r, tests[0].outcome.Pass?, tests[0].id), TestTail(tests[0])), tests[1..])
  }

  /** The test-shaped lines in the tails of the tests. */
  function Strays(tests: seq<Test>): nat {
    if tests == [] then 0 else Shaped(TestTail(tests[0])) + Strays(tests[1..])
  }

  function IdCount(r: Report): nat {
    |r.passedIds| + |r.failedIds|
  }

  lemma {:induction false} LinesAdd(r: Report, lines: seq<string>)
    ensures IdCount(WithLines(r, lines)) == IdCount(r) + Shaped(lines)
    ensures WithLines(r, lines).counts == r.counts && WithLines(r, lines).status == r.status
    ensures Shaped(lines) == 0 ==> WithLines(r, lines) == r
    decreases |lines|
  {
    hide Heading, MatchTest;
    if lines != [] {
      LinesAdd(if TestShaped(lines[0]) then WithLine(r, lines[0]) else r, lines[1..]);
    }
  }

  lemma {:induction false} PrintedAdds(r: Report, tests: seq<Test>)
    ensures IdCount(WithPrinted(r, tests)) == IdCount(r) + |tests| + Strays(tests)
    ensures WithPrinted(r, tests).counts == r.counts && WithPrinted(r, tests).status == r.status
    ensures Strays(tests) == 0 ==> WithPrinted(r, tests) == WithTests(r, tests)
    decreases |tests|
  {
    hide TestTail, Shaped, WithLines;
    if tests == [] {
      assert r.passedIds + [] == r.passedIds && r.failedIds + [] == r.failedIds;
    } else {
      var next := WithTest(r, tests[0].outcome.Pass?, tests[0].id);
      LinesAdd(next, TestTail(tests[0]));
      PrintedAdds(WithLines(next, TestTail(tests[0])), tests[1..]);
      WithTestsStep(r, tests);
    }
  }

  lemma {:induction false} ShapedNone(k: nat, lines: seq<string>)
    requires forall j :: 0 <= j < |lines| ==> LeavesOpen(k, lines[j])
    ensures Shaped(lines) == 0 <==> AllHarmless(k, lines)
  {
    if lines != [] {
      assert forall j :: 0 < j < |lines| ==> lines[j] == lines[1..][j - 1];
      ShapedNone(k, lines[1..]);
      assert Harmless(k, lines[0]) <==> !TestShaped(lines[0]) by { ShapedOrHarmless(k, lines[0]); }
    }
  }

  lemma ShapedOrHarmless(k: nat, line: string)
    requires LeavesOpen(k, line)
    ensures Harmless(k, line) <==> !TestShaped(line)
  {
    hide Heading, MatchTest, MatchResult;
  }

  lemma {:induction false} StraysNone(k: nat, tests: seq<Test>)
    requires OpenTests(k, tests)
    ensures Strays(tests) == 0 <==> forall i :: 0 <= i < |tests| ==> CleanTest(k, tests[i])
  {
    hide TestTail, ExpectedId, Shaped, LeavesOpen, AllHarmless;
    if tests != [] {
      assert forall i :: 0 < i < |tests| ==> tests[i] == tests[1..][i - 1];
      assert OpenTest(k, tests[0]);
      ShapedNone(k, TestTail(tests[0]));
      StraysNone(k, tests[1..]);
    }
  }

  // -------------------------------------------------------------------- reading them

  lemma {:induction false} OpenLinesRead(s: State, k: nat, lines: seq<string>)
    requires Ready(s) && s.current == Some(k) && forall j :: 0 <= j < |lines| ==> LeavesOpen(k, lines[j])
    ensures ReadAll(s, lines) == s.(results := s.results[k := WithLines(s.results[k], lines)])
    decreases |lines|
  {
    hide Heading, MatchTest, MatchResult, WithTest;
    if lines == [] {
      assert s.results[k := s.results[k]] == s.results;
    } else {
      assert LeavesOpen(k, lines[0]);
      var next := ReadLine(s, lines[0]);
      OpenLinesRead(next, k, lines[1..]);
      assert s.results[k := next.results[k]] == next.results;
    }
  }

  lemma OpenTestRead(s: State, k: nat, t: Test, number: nat)
    requires Ready(s) && s.current == Some(k) && OpenTest(k, t)
    ensures ReadAll(s, Flatten(TestLines(t, number)))
      == s.(results := s.results[k := WithLines(WithTest(s.results[k], t.outcome.Pass?, t.id), TestTail(t))])
  {
    hide HeadLine, TestTail, ReadAll, ExpectedId, TestLines, LeavesOpen, Flatten, WithLines, WithTest;
    TestFlattens(t, number);
    HeadRead(s, k, t, number);
    ReadConcat(s, [HeadLine(t, number)], TestTail(t));
    OpenLinesRead(ReadAll(s, [HeadLine(t, number)]), k, TestTail(t));
  }

  lemma {:induction false} OpenTestsRead(s: State, k: nat, tests: seq<Test>, number: nat)
    requires Ready(s) && s.current == Some(k) && OpenTests(k, tests)
    ensures ReadAll(s, Flatten(AllTestLines(tests, number)))
      == s.(results := s.results[k := WithPrinted(s.results[k], tests)])
    decreases |tests|
  {
    hide TestLines, ReadLine, OpenTest, Flatten, WithLines, WithTest;
    if tests == [] {
      assert s.results[k := s.results[k]] == s.results;
      FlattenNothing();
    } else {
      var t, rest := tests[0], tests[1..];
      OpenTestRead(s, k, t, number);
      var after := ReadAll(s, Flatten(TestLines(t, number)));
      FlattenConcat(TestLines(t, number), AllTestLines(rest, number + 1));
      ReadConcat(s, Flatten(TestLines(t, number)), Flatten(AllTestLines(rest, number + 1)));
      OpenTestsRead(after, k, rest, number + 1);
      assert after.results[k := WithPrinted(after.results[k], rest)]
        == s.results[k := WithPrinted(s.results[k], tests)];
    }
  }

  function AfterOpenRun(r: Report, k: nat, tests: seq<Test>): Report
    requires k < |SUITES|
  {
    if NoRepeats(tests) then WithCounts(WithPrinted(r, tests), FinalCounts(tests), SUITES[k].expected) else r
  }

  lemma OpenHasId(k: nat, tests: seq<Test>)
    requires OpenTests(k, tests)
    ensures forall i :: 0 <= i < |tests| ==> ExpectedId(tests[i].id)
  {
    hide ExpectedId, LeavesOpen, TestTail;
  }

  lemma OpenRunRead(s: State, k: nat, tests: seq<Test>)
    requires Ready(s) && k < |SUITES| && OpenTests(k, tests)
    ensures ReadAll(s, Flatten(RunLines(SuiteName(k), tests))).results
      == s.results[k := AfterOpenRun(s.results[k], k, tests)]
  {
    hide ReadAll, OpenTests, ResultLine, SuiteName, Order.SortedSet, WithPrinted, WithCounts, Flatten, AllTestLines;
    hide Text.NatText;
    var first := "# " + SuiteName(k);
    var open := s.(current := Some(k));
    HeadingRead(s, k);
    if NoRepeats(tests) {
      var c := FinalCounts(tests);
      var plan, body, last :=
        "1.." + Text.NatText(|tests|), Flatten(AllTestLines(tests, 1)), ResultLine(c.passed, c.failed, c.total);
      RunFlattens(k, tests);
      PlanRead(open, |tests|);
      OpenTestsRead(open, k, tests, 1);
      var done := open.(results := s.results[k := WithPrinted(s.results[k], tests)]);
      ResultRead(done, k, c.passed, c.failed, c.total);
      ReadConcat(s, [first], [plan]);
      ReadConcat(s, [first] + [plan], body);
      ReadConcat(s, [first] + [plan] + body, [last]);
    } else {
      var line := "Bail out! duplicate test IDs: " + JoinComma(Order.SortedSet(Repeated(Ids(tests))));
      OpenHasId(k, tests);
      BailOutRead(open, tests);
      FlattenConcat([first], [line]);
      assert RunLines(SuiteName(k), tests) == [first] + [line];
      ReadConcat(s, [first], [line]);
      assert s.results[k := s.results[k]] == s.results;
    }
  }

  lemma OpenChunkRead(s: State, c: Chunk)
    requires Ready(s) && OpenChunk(c)
    ensures ReadAll(s, Flatten(ChunkLines(c))).results ==
      if c.Run? then s.results[c.suite := AfterOpenRun(s.results[c.suite], c.suite, c.tests)] else s.results
  {
    hide ReadAll, RunLines, SuiteName, AfterOpenRun, Fragments, OpenTests, Inert, Flatten;
    match c
    case Noise(line) => ChunkRead(s, c);
    case Run(k, tests) => OpenRunRead(s, k, tests);
  }

  function AfterOpenLog(r: Report, chunks: seq<Chunk>, k: nat): Report
    requires k < |SUITES|
  {
    match FindRun(chunks, k) case Some(tests) => AfterOpenRun(r, k, tests) case None => r
  }

  lemma {:induction false} OpenLogRead(s: State, chunks: seq<Chunk>)
    requires Ready(s) && OpenLog(chunks)
    ensures forall k :: 0 <= k < |SUITES| ==>
      ReadAll(s, Flatten(LogLines(chunks))).results[k] == AfterOpenLog(s.results[k], chunks, k)
    decreases |chunks|
  {
    hide ReadAll, OpenChunk, ChunkLines, AfterOpenRun, Flatten;
    if chunks == [] {
      FlattenNothing();
      ReadNothing(s);
    } else {
      var c, rest := chunks[0], chunks[1..];
      OpenChunkRead(s, c);
      FlattenConcat(ChunkLines(c), LogLines(rest));
      ReadConcat(s, Flatten(ChunkLines(c)), Flatten(LogLines(rest)));
      assert forall i :: 0 < i < |chunks| ==> chunks[i] == rest[i - 1];
      OpenLogRead(ReadAll(s, Flatten(ChunkLines(c))), rest);
    }
  }

  // -------------------------------------------------------------- exactly when it is harmless

  /** What suite k reports of its run is right exactly when no line of the run's tails is test-shaped. */
  lemma {:induction false} OpenRunRight(k: nat, tests: seq<Test>)
    requires k < |SUITES| && OpenTests(k, tests) && NoRepeats(tests)
    ensures AfterOpenRun(BLANK, k, tests)
      == Report(Some(FinalCounts(tests)), IdsOf(tests, true), IdsOf(tests, false),
        Judged(FinalCounts(tests), SUITES[k].expected))
      <==> forall i :: 0 <= i < |tests| ==> CleanTest(k, tests[i])
  {
    hide OpenTests, WithPrinted, Strays, IdsOf, CleanTest, FinalCounts, Judged, NoRepeats;
    PrintedAdds(BLANK, tests);
    StraysNone(k, tests);
    IdsCount(tests);
    assert [] + IdsOf(tests, true) == IdsOf(tests, true) && [] + IdsOf(tests, false) == IdsOf(tests, false);
  }

  /** The run of suite j, unless its IDs repeat, is clean. */
  ghost predicate RunClean(chunks: seq<Chunk>, j: nat) {
    match FindRun(chunks, j)
    case Some(tests) => NoRepeats(tests) ==> forall i :: 0 <= i < |tests| ==> CleanTest(j, tests[i])
    case None => true
  }

  lemma OpenSuiteRight(chunks: seq<Chunk>, j: nat)
    requires OpenLog(chunks) && j < |SUITES|
    ensures Parsed(chunks)[j] == Expected(chunks, j) <==> RunClean(chunks, j)
  {
    hide ReadAll, LogLines, Parsed, Flatten, FindRun, CleanTest, OpenTests, NoRepeats, WithPrinted, FinalCounts, Judged;
    hide IdsOf, WithCounts;
    hide OneRunPerSuite;
    ParsedIsFlat(chunks);
    OpenLogRead(Start(), chunks);
    StartIsBlank();
    if FindRun(chunks, j).Some? && NoRepeats(FindRun(chunks, j).value) {
      RunIsOpen(chunks, j);
      OpenRunRight(j, FindRun(chunks, j).value);
    }
  }

  lemma {:induction false} RunIsOpen(chunks: seq<Chunk>, j: nat)
    requires OpenLog(chunks) && j < |SUITES| && FindRun(chunks, j).Some?
    ensures OpenTests(j, FindRun(chunks, j).value)
  {
    hide OpenTests, OneRunPerSuite;
    var tests := FindRun(chunks, j).value;
    var i :| 0 <= i < |chunks| && chunks[i] == Run(j, tests);
    assert OpenChunk(chunks[i]);
  }

  /** With any number of doubtful lines in any runs, as long as none is a result or another suite's heading, parsing
      recovers the log exactly when every run without repeated IDs is clean. */
  lemma OpenLogRecovered(chunks: seq<Chunk>)
    requires OpenLog(chunks)
    ensures Recovered(chunks) <==> forall j :: 0 <= j < |SUITES| ==> RunClean(chunks, j)
  {
    hide Parsed, Expected, RunClean, OpenLog;
    forall j | 0 <= j < |SUITES| ensures Parsed(chunks)[j] == Expected(chunks, j) <==> RunClean(chunks, j) {
      OpenSuiteRight(chunks, j);
    }
  }

  // ------------------------------------------------------------------ lines that cancel

  /** A failure whose message holds, behind boundaries, a result line and then the suite's own heading. */
  predicate CancellingTest(k: nat, t: Test, boundary: char, c: Counts) {
    && k < |SUITES| && KeptBoundary(boundary) && ExpectedId(t.id) && OneLine(TailText(t))
    && t.outcome == Fail([boundary] + (ResultLine(c.passed, c.failed, c.total) + ([boundary] + SUITES[k].heading)))
  }

  lemma BoundaryThen(boundary: char, text: string)
    requires KeptBoundary(boundary)
    ensures Fragments([boundary] + text) == [""] + Fragments(text)
  {
    hide SplitLines;
    var s := [boundary] + text + "\n";
    assert s[0] == boundary && s[..0] == "";
    Words();
    SplitAt(s, 0);
    assert s[1..] == text + "\n";
  }

  lemma {:induction false} SingleLineConcat(a: string, b: string)
    ensures SingleLine(a + b) == SingleLine(a) + SingleLine(b)
  {
    if a == "" {
      assert a + b == b;
    } else {
      assert (a + b)[0] == a[0] && (a + b)[1..] == a[1..] + b;
      SingleLineConcat(a[1..], b);
    }
  }

  lemma {:induction false} OneLineKept(s: string)
    requires OneLine(s)
    ensures SingleLine(s) == s
  {
    hide IsBoundary;
    assert IsBoundary('\r') && IsBoundary('\n') by { LineBreaks(); }
    SingleLineKeeps(s);
  }

  lemma LineBreaks()
    ensures IsBoundary('\r') && IsBoundary('\n')
  {
  }

  lemma CancellingTail(k: nat, t: Test, boundary: char, c: Counts)
    requires CancellingTest(k, t, boundary, c)
    ensures TestTail(t)
      == ["  ---"] + ["  message: "] + [ResultLine(c.passed, c.failed, c.total)] + [SUITES[k].heading] + ["  ..."]
  {
    hide OneLine, Fragments, SingleLine, ExpectedId, ResultLine, TailText, KeptBoundary;
    var result, heading := ResultLine(c.passed, c.failed, c.total), SUITES[k].heading;
    ResultOneLine(c.passed, c.failed, c.total);
    HeadingOneLine(k);
    Words();
    assert SingleLine([boundary]) == [boundary] by { BoundaryKept(boundary); }
    OneLineKept(result);
    OneLineKept(heading);
    SingleLineConcat([boundary], heading);
    SingleLineConcat(result, [boundary] + heading);
    SingleLineConcat([boundary], result + ([boundary] + heading));
    BoundaryThen(boundary, heading);
    OneFragment(heading);
    FragmentsPrefix(result, [boundary] + heading);
    BoundaryThen(boundary, result + ([boundary] + heading));
    FragmentsPrefix("  message: ", [boundary] + (result + ([boundary] + heading)));
    OneFragment(TailText(t));
    assert result + "" == result && "  message: " + "" == "  message: ";
  }

  lemma BoundaryKept(boundary: char)
    requires KeptBoundary(boundary)
    ensures SingleLine([boundary]) == [boundary]
  {
    hide IsBoundary;
    assert [boundary][1..] == "";
  }

  lemma FixedInert()
    ensures Inert("  ---") && Inert("  message: ") && Inert("  ...")
  {
    hide Inert;
    InertByFirst("  ---");
    InertByFirst("  message: ");
    InertByFirst("  ...");
  }

  /** The result line closes the suite, and its heading opens it again. */
  lemma CancellingTailRead(s: State, k: nat, t: Test, boundary: char, c: Counts)
    requires Ready(s) && s.current == Some(k) && CancellingTest(k, t, boundary, c)
    ensures ReadAll(s, TestTail(t)) == s.(results := s.results[k := WithCounts(s.results[k], c, SUITES[k].expected)])
  {
    hide ReadAll, TestTail, Inert, ResultLine, CancellingTest, SuiteName, Fragments;
    var result := ResultLine(c.passed, c.failed, c.total);
    CancellingTail(k, t, boundary, c);
    FixedInert();
    var a := ["  ---"] + ["  message: "];
    ReadConcat(s, ["  ---"], ["  message: "]);
    InertRead(s, "  ---");
    InertRead(s, "  message: ");
    ReadConcat(s, a, [result]);
    ResultRead(s, k, c.passed, c.failed, c.total);
    var closed := ReadAll(s, a + [result]);
    ReadConcat(s, a + [result], [SUITES[k].heading]);
    HeadingPrinted(k);
    HeadingRead(closed, k);
    var again := ReadAll(s, a + [result] + [SUITES[k].heading]);
    ReadConcat(s, a + [result] + [SUITES[k].heading], ["  ..."]);
    InertRead(again, "  ...");
  }

  lemma CancellingTestRead(s: State, k: nat, t: Test, boundary: char, c: Counts)
    requires Ready(s) && s.current == Some(k) && CancellingTest(k, t, boundary, c)
    ensures ReadAll(s, Flatten(AllTestLines([t], 1)))
      == s.(results := s.results[k := WithCounts(WithTest(s.results[k], false, t.id), c, SUITES[k].expected)])
  {
    hide HeadLine, TestTail, ReadAll, ExpectedId, TestLines, Flatten, WithTest, WithCounts, ResultLine, OneLine;
    hide TailText;
    assert [t][1..] == [];
    assert AllTestLines([], 2) == [];
    assert AllTestLines([t], 1) == TestLines(t, 1);
    TestFlattens(t, 1);
    HeadRead(s, k, t, 1);
    ReadConcat(s, [HeadLine(t, 1)], TestTail(t));
    CancellingTailRead(ReadAll(s, [HeadLine(t, 1)]), k, t, boundary, c);
  }

  lemma OneTestLog(k: nat, t: Test)
    requires k < |SUITES|
    ensures LogLines([Run(k, [t])]) == RunLines(SuiteName(k), [t])
    ensures IdsOf([t], true) == (if t.outcome.Pass? then [t.id] else [])
    ensures IdsOf([t], false) == (if t.outcome.Pass? then [] else [t.id])
  {
    hide RunLines, SuiteName;
    IdsOfOne(t, true);
    IdsOfOne(t, false);
    assert [Run(k, [t])][1..] == [];
    assert LogLines([]) == [];
  }

  lemma CancellingRunRead(k: nat, t: Test, boundary: char, c: Counts)
    requires CancellingTest(k, t, boundary, c)
    ensures Parsed([Run(k, [t])])
      == Start().results[k := WithCounts(WithTest(BLANK, false, t.id), FinalCounts([t]), SUITES[k].expected)]
  {
    hide ReadAll, Flatten, AllTestLines, RunLines, LogLines, ResultLine, SuiteName, NoRepeats, Parsed, CancellingTest;
    hide WithTest;
    hide FinalCounts, Text.NatText;
    assert k < |SUITES| by { CancellingBounds(k, t, boundary, c); }
    var n := FinalCounts([t]);
    ParsedIsFlat([Run(k, [t])]);
    OneTestLog(k, t);
    NoneRepeated(t);
    RunFlattens(k, [t]);
    var first, plan, body := "# " + SuiteName(k), "1.." + Text.NatText(|[t]|), Flatten(AllTestLines([t], 1));
    var last := ResultLine(n.passed, n.failed, n.total);
    var open := Start().(current := Some(k));
    HeadingRead(Start(), k);
    PlanRead(open, |[t]|);
    CancellingTestRead(open, k, t, boundary, c);
    StartIsBlank();
    var done := ReadAll(open, body);
    ResultRead(done, k, n.passed, n.failed, n.total);
    ReadConcat(Start(), [first], [plan]);
    ReadConcat(Start(), [first] + [plan], body);
    ReadConcat(Start(), [first] + [plan] + body, [last]);
  }

  lemma CancellingBounds(k: nat, t: Test, boundary: char, c: Counts)
    requires CancellingTest(k, t, boundary, c)
    ensures k < |SUITES| && t.outcome.Fail?
  {
  }

  lemma ResultIsHarmful(k: nat, line: string)
    requires MatchResult(line).Some?
    ensures !Harmless(k, line)
  {
    hide Heading, MatchTest, MatchResult;
    ResultIsNoOther(line);
  }

  lemma CancellingIsNotClean(k: nat, t: Test, boundary: char, c: Counts)
    requires CancellingTest(k, t, boundary, c)
    ensures !CleanTest(k, t)
  {
    hide CancellingTest, TestTail, ResultLine, ExpectedId, Harmless;
    CancellingBounds(k, t, boundary, c);
    CancellingTail(k, t, boundary, c);
    ResultMatches(c.passed, c.failed, c.total);
    ResultIsHarmful(k, ResultLine(c.passed, c.failed, c.total));
    assert TestTail(t)[2] == ResultLine(c.passed, c.failed, c.total);
  }

  lemma OneRunExpected(k: nat, t: Test, j: nat)
    requires k < |SUITES| && j < |SUITES| && t.outcome.Fail?
    ensures Expected([Run(k, [t])], j) ==
      if j == k then WithCounts(WithTest(BLANK, false, t.id), FinalCounts([t]), SUITES[k].expected) else BLANK
  {
    hide NoRepeats, IdsOf, FinalCounts, Judged;
    OneTestLog(k, t);
    NoneRepeated(t);
    assert [Run(k, [t])][1..] == [];
    assert [] + [t.id] == [t.id];
  }

  /** Doubtful lines can cancel, so nothing as simple holds once results are among them: a result line followed by the
      suite's own heading is not clean, yet the log is recovered whatever counts it claims. */
  lemma TwoLinesCancel(k: nat, t: Test, boundary: char, c: Counts)
    requires CancellingTest(k, t, boundary, c)
    ensures !CleanTest(k, t) && Recovered([Run(k, [t])])
  {
    hide Parsed, Expected, CancellingTest, CleanTest, WithCounts, WithTest, FinalCounts, Start;
    CancellingBounds(k, t, boundary, c);
    CancellingIsNotClean(k, t, boundary, c);
    CancellingRunRead(k, t, boundary, c);
    StartIsBlank();
    forall j | 0 <= j < |SUITES| ensures Parsed([Run(k, [t])])[j] == Expected([Run(k, [t])], j) {
      OneRunExpected(k, t, j);
    }
  }
}
