/** parse_suites, suite totals and acceptance. */
module Evidence {
  import opened Base
  import opened Text
  import opened EvidenceLog
  import Order

  datatype Suite = Suite(key: string, heading: string, expected: nat)

  const PRODUCT := "# ToiNoMori"

  const SUITES: seq<Suite> :=
    [Suite("domain", PRODUCT + ".Domain specification tests", 12),
     Suite("api", PRODUCT + ".Api specification tests", 41),
     Suite("mobile", PRODUCT + " mobile web specification tests", 7),
     Suite("oidc", PRODUCT + " OIDC browser protocol E2E tests", 8),
     Suite("townReadiness", PRODUCT + " town-readiness specification tests", 5),
     Suite("postgresql", PRODUCT + " PostgreSQL integration tests", 12),
     Suite("dr", PRODUCT + " disaster-recovery specification tests", 5)]

  datatype Status = NotRun | Passed | Failed

  datatype Counts = Counts(passed: nat, failed: nat, total: nat)

  datatype Report = Report(counts: Option<Counts>, passedIds: seq<string>, failedIds: seq<string>, status: Status)

  const BLANK := Report(None, [], [], NotRun)

  /** Results in suite order, and the suite whose heading was read last. */
  datatype State = State(results: seq<Report>, current: Option<nat>)

  predicate Ready(s: State) {
    |s.results| == |SUITES| && (s.current.Some? ==> s.current.value < |SUITES|)
  }

  function Start(): (s: State)
    ensures Ready(s)
  {
    State([BLANK, BLANK, BLANK, BLANK, BLANK, BLANK, BLANK], None)
  }

  function HeadingFrom(line: string, k: nat): (r: Option<nat>)
    requires k <= |SUITES|
    ensures r.Some? ==> k <= r.value < |SUITES| && SUITES[r.value].heading == line
    ensures r.None? ==> forall i :: k <= i < |SUITES| ==> SUITES[i].heading != line
    decreases |SUITES| - k
  {
    if k == |SUITES| then None else if SUITES[k].heading == line then Some(k) else HeadingFrom(line, k + 1)
  }

  /** The suite whose heading the line is. */
  function Heading(line: string): Option<nat> {
    HeadingFrom(line, 0)
  }

  function Judged(c: Counts, expected: nat): Status {
    if c.passed == expected && c.failed == 0 && c.total == expected then Passed else Failed
  }

  function WithTest(r: Report, passed: bool, id: string): Report {
    if passed then r.(passedIds := r.passedIds + [id]) else r.(failedIds := r.failedIds + [id])
  }

  function WithCounts(r: Report, c: Counts, expected: nat): Report {
    r.(counts := Some(c), status := Judged(c, expected))
  }

  function ReadLine(s: State, line: string): (t: State)
    requires Ready(s)
    ensures Ready(t)
  {
    match Heading(line)
    case Some(k) => s.(current := Some(k))
    case None =>
      if s.current.None? then s
      else
        var k := s.current.value;
        match MatchTest(line)
        case Some((passed, id)) => s.(results := s.results[k := WithTest(s.results[k], passed, id)])
        case None =>
          match MatchResult(line)
          case Some((p, f, n)) => State(s.results[k := WithCounts(s.results[k], Counts(p, f, n), SUITES[k].expected)],
            None)
          case None => s
  }

  function ReadAll(s: State, lines: seq<string>): (t: State)
    requires Ready(s)
    ensures Ready(t)
    decreases |lines|
  {
    if lines == [] then s else ReadAll(ReadLine(s, lines[0]), lines[1..])
  }

  /** parse_suites as it runs. */
  method ParseSuites(logText: string) returns (results: seq<Report>)
    ensures results == ReadAll(Start(), SplitLines(logText)).results
  {
    hide Heading, MatchTest, MatchResult, SplitLines, WithTest, WithCounts, Start;
    results := Start().results;
    var current: Option<nat> := Start().current;
    var lines := SplitLines(logText);
    assert lines[0..] == lines;
    for i := 0 to |lines|
      invariant Ready(State(results, current))
      invariant ReadAll(State(results, current), lines[i..]) == ReadAll(Start(), lines)
    {
      var line := lines[i];
      assert lines[i..][0] == line && lines[i..][1..] == lines[i + 1..];
      var heading := Heading(line);
      if heading.Some? {
        current := heading;
      } else if current.Some? {
        var k := current.value;
        var test, result := MatchTest(line), MatchResult(line);
        if test.Some? {
          results := results[k := WithTest(results[k], test.value.0, test.value.1)];
        } else if result.Some? {
          var (passed, failed, total) := result.value;
          results := results[k := WithCounts(results[k], Counts(passed, failed, total), SUITES[k].expected)];
          current := None;
        }
      }
    }
    assert lines[|lines|..] == [];
  }

  lemma {:induction false} ReadConcat(s: State, a: seq<string>, b: seq<string>)
    requires Ready(s)
    ensures ReadAll(s, a + b) == ReadAll(ReadAll(s, a), b)
    decreases |a|
  {
    hide ReadLine;
    if a == [] {
      assert a + b == b;
    } else {
      assert (a + b)[0] == a[0] && (a + b)[1..] == a[1..] + b;
      ReadConcat(ReadLine(s, a[0]), a[1..], b);
    }
  }

  // ---------------------------------------------------------------------- inert lines

  predicate Inert(line: string) {
    Heading(line).None? && MatchTest(line).None? && MatchResult(line).None?
  }

  lemma HeadingShape(k: nat)
    requires k < |SUITES|
    ensures var h := SUITES[k].heading; |h| >= 3 && h[0] == '#' && h[1] == ' ' && h[2] == 'T'
  {
    var h := SUITES[k].heading;
    assert |h| >= 11 && h[..11] == PRODUCT;
    assert h[0] == PRODUCT[0] && h[1] == PRODUCT[1] && h[2] == PRODUCT[2];
  }

  lemma HeadingsDiffer(i: nat, j: nat)
    requires i < j < |SUITES|
    ensures |SUITES[i].heading| != |SUITES[j].heading|
  {
  }

  lemma HeadingFound(k: nat)
    requires k < |SUITES|
    ensures Heading(SUITES[k].heading) == Some(k)
  {
    hide HeadingFrom;
    var i := HeadingFrom(SUITES[k].heading, 0);
    assert i.Some?;
    if i.value < k { HeadingsDiffer(i.value, k); }
    if k < i.value { HeadingsDiffer(k, i.value); }
  }

  lemma NoHeading(line: string)
    requires line == "" || line[0] != '#' || |line| < 3 || line[2] != 'T'
    ensures Heading(line).None?
  {
    hide HeadingFrom;
    if Heading(line).Some? { HeadingShape(Heading(line).value); }
  }

  lemma InertByFirst(line: string)
    requires line != "" && line[0] != '#' && line[0] != 'o' && line[0] != 'n'
    ensures Inert(line)
  {
    hide Heading;
    NoHeading(line);
  }

  lemma {:induction false} InertRead(s: State, line: string)
    requires Ready(s) && Inert(line)
    ensures ReadAll(s, [line]) == s
  {
    hide Heading, MatchTest, MatchResult;
    assert [line][1..] == [];
  }

  // --------------------------------------------------------- the printer's fixed words

  lemma DigitsOneLine(n: nat)
    ensures OneLine(NatText(n))
  {
  }

  /** The fixed words of the printer. */
  lemma Words()
    ensures OneLine("[") && OneLine("] ") && OneLine(" ") && OneLine(" - ") && OneLine("ok ") && OneLine("not ok ")
    ensures OneLine("  ---") && OneLine("  message: ") && OneLine("  ...") && OneLine("1..") && OneLine("# ")
      && OneLine(", ") && OneLine("")
  {
  }

  lemma ResultWords()
    ensures OneLine("# result: ") && OneLine(" passed; ") && OneLine(" failed; ") && OneLine(" total")
  {
  }

  lemma BailOutWords()
    ensures OneLine("Bail out! duplicate test IDs: ")
  {
  }

  lemma ResultOneLine(passed: nat, failed: nat, total: nat)
    ensures OneLine(ResultLine(passed, failed, total))
  {
    hide OneLine, NatText;
    ResultWords();
    DigitsOneLine(passed);
    DigitsOneLine(failed);
    DigitsOneLine(total);
    var e := NatText(total) + " total";
    OneLineConcat(NatText(total), " total");
    OneLineConcat(" failed; ", e);
    OneLineConcat(NatText(failed), " failed; " + e);
    OneLineConcat(" passed; ", NatText(failed) + (" failed; " + e));
    OneLineConcat(NatText(passed), " passed; " + (NatText(failed) + (" failed; " + e)));
    OneLineConcat("# result: ", NatText(passed) + (" passed; " + (NatText(failed) + (" failed; " + e))));
  }

  lemma {:induction false} JoinOneLine(xs: seq<string>)
    requires forall i :: 0 <= i < |xs| ==> OneLine(xs[i])
    ensures OneLine(JoinComma(xs))
  {
    hide OneLine;
    Words();
    if |xs| > 1 {
      JoinOneLine(xs[1..]);
      OneLineConcat(xs[0], ", ");
      OneLineConcat(xs[0] + ", ", JoinComma(xs[1..]));
    }
  }

  lemma HeadingWords()
    ensures OneLine(PRODUCT) && OneLine(".Domain specification tests") && OneLine(".Api specification tests")
  {
  }

  lemma MoreHeadingWords()
    ensures OneLine(" mobile web specification tests") && OneLine(" OIDC browser protocol E2E tests")
  {
  }

  lemma LastHeadingWords()
    ensures OneLine(" town-readiness specification tests")
    ensures OneLine(" PostgreSQL integration tests")
  {
  }

  lemma RecoveryHeadingWords()
    ensures OneLine(" disaster-recovery specification tests")
  {
  }

  lemma HeadingOneLine(k: nat)
    requires k < |SUITES|
    ensures OneLine(SUITES[k].heading)
  {
    hide OneLine;
    HeadingWords();
    MoreHeadingWords();
    LastHeadingWords();
    RecoveryHeadingWords();
    var suffix :=
      if k == 0 then ".Domain specification tests" else if k == 1 then ".Api specification tests"
      else if k == 2 then " mobile web specification tests" else if k == 3 then " OIDC browser protocol E2E tests"
      else if k == 4 then " town-readiness specification tests" else if k == 5 then " PostgreSQL integration tests"
      else " disaster-recovery specification tests";
    OneLineConcat(PRODUCT, suffix);
  }

  // ---------------------------------------------------------------------- reading a test

  function IdsOf(tests: seq<Test>, passed: bool): seq<string> {
    if tests == [] then []
    else (if tests[0].outcome.Pass? == passed then [tests[0].id] else []) + IdsOf(tests[1..], passed)
  }

  function WithTests(r: Report, tests: seq<Test>): Report {
    r.(passedIds := r.passedIds + IdsOf(tests, true), failedIds := r.failedIds + IdsOf(tests, false))
  }

  /** A line that changes nothing while the suite is open: an inert one, or the suite's own heading. */
  predicate Harmless(k: nat, line: string) {
    Inert(line) || Heading(line) == Some(k)
  }

  predicate AllHarmless(k: nat, lines: seq<string>) {
    forall i :: 0 <= i < |lines| ==> Harmless(k, lines[i])
  }

  lemma {:induction false} HarmlessRead(s: State, k: nat, lines: seq<string>)
    requires Ready(s) && s.current == Some(k) && AllHarmless(k, lines)
    ensures ReadAll(s, lines) == s
    decreases |lines|
  {
    hide Heading, MatchTest, MatchResult;
    if lines != [] {
      assert Harmless(k, lines[0]);
      assert ReadLine(s, lines[0]) == s;
      HarmlessRead(s, k, lines[1..]);
    }
  }

  /** The lines of a test after its first one, once the log is split: what follows a boundary in its
      requirement, name or failure message, and the fixed lines of a failure. */
  function TestTail(t: Test): seq<string> {
    (if Fragments(TailText(t)) == [] then [] else Fragments(TailText(t))[1..])
    + if t.outcome.Pass? then [] else ["  ---"] + Fragments("  message: " + SingleLine(t.outcome.error)) + ["  ..."]
  }

  /** An ID of the expected form, and nothing behind a boundary that the parser would take for a test, a
      result or another suite. */
  predicate CleanTest(k: nat, t: Test) {
    ExpectedId(t.id) && AllHarmless(k, TestTail(t))
  }

  /** In particular, text without boundaries is clean; a failure message may hold CR and LF anyway. */
  lemma OneLineIsClean(k: nat, t: Test)
    requires ExpectedId(t.id) && OneLine(t.requirement) && OneLine(t.name)
    requires t.outcome.Fail? ==> OneLine(SingleLine(t.outcome.error))
    ensures CleanTest(k, t)
  {
    hide Heading, MatchTest, MatchResult, SingleLine, ExpectedId, Fragments;
    Words();
    hide OneLine, Inert;
    OneLineConcat("[", t.requirement);
    OneLineConcat("[" + t.requirement, "] ");
    OneLineConcat("[" + t.requirement + "] ", t.name);
    OneFragment(TailText(t));
    if t.outcome.Fail? {
      var m := SingleLine(t.outcome.error);
      OneLineConcat("  message: ", m);
      OneFragment("  message: " + m);
      InertByFirst("  ---");
      InertByFirst("  message: " + m);
      InertByFirst("  ...");
    }
  }

  /** A test is clean when every fragment after the first of its text and of its message is harmless. */
  lemma CleanByFragments(k: nat, t: Test)
    requires ExpectedId(t.id)
    ensures Fragments(TailText(t)) != [] && (t.outcome.Fail? ==> Fragments(SingleLine(t.outcome.error)) != [])
    ensures CleanTest(k, t) <==>
      && AllHarmless(k, Fragments(TailText(t))[1..])
      && (t.outcome.Fail? ==> AllHarmless(k, Fragments(SingleLine(t.outcome.error))[1..]))
  {
    hide SingleLine, ExpectedId, Fragments, Harmless;
    Words();
    hide OneLine;
    FragmentsPrefix("", TailText(t));
    if t.outcome.Fail? {
      var m := SingleLine(t.outcome.error);
      FragmentsPrefix("  message: ", m);
      FixedHarmless(k, Fragments(m)[0]);
      FailureTail(k, Fragments(TailText(t))[1..], "  message: " + Fragments(m)[0], Fragments(m)[1..]);
      assert TestTail(t) == Fragments(TailText(t))[1..]
        + (["  ---"] + ["  message: " + Fragments(m)[0]] + Fragments(m)[1..] + ["  ..."]);
    } else {
      assert TestTail(t) == Fragments(TailText(t))[1..];
    }
  }

  lemma FixedHarmless(k: nat, first: string)
    ensures Harmless(k, "  ---") && Harmless(k, "  message: " + first) && Harmless(k, "  ...")
  {
    hide Heading, MatchTest, MatchResult, Inert;
    InertByFirst("  ---");
    InertByFirst("  message: " + first);
    InertByFirst("  ...");
  }

  lemma FailureTail(k: nat, a: seq<string>, message: string, b: seq<string>)
    requires Harmless(k, "  ---") && Harmless(k, message) && Harmless(k, "  ...")
    ensures AllHarmless(k, a + (["  ---"] + [message] + b + ["  ..."])) <==> AllHarmless(k, a) && AllHarmless(k, b)
  {
    hide Harmless;
    HarmlessConcat(k, a, ["  ---"] + [message] + b + ["  ..."]);
    HarmlessConcat(k, ["  ---"] + [message] + b, ["  ..."]);
    HarmlessConcat(k, ["  ---"] + [message], b);
  }

  lemma HarmlessConcat(k: nat, a: seq<string>, b: seq<string>)
    ensures AllHarmless(k, a + b) <==> AllHarmless(k, a) && AllHarmless(k, b)
  {
    hide Harmless;
    var c := a + b;
    assert forall i :: 0 <= i < |a| ==> c[i] == a[i];
    assert forall i :: 0 <= i < |b| ==> c[|a| + i] == b[i];
  }

  /** A test's first line once split. */
  function HeadLine(t: Test, number: nat): string {
    TestLineWith(t, number, if Fragments(TailText(t)) == [] then "" else Fragments(TailText(t))[0])
  }

  function LinePrefix(t: Test, number: nat): string {
    (if t.outcome.Pass? then "ok " else "not ok ") + (NatText(number) + (" - " + (t.id + " ")))
  }

  lemma LinePrefixIsOneLine(t: Test, number: nat)
    requires ExpectedId(t.id)
    ensures OneLine(LinePrefix(t, number))
  {
    hide NatText, ExpectedId;
    DigitsOneLine(number);
    Words();
    ExpectedIdIsOneLine(t.id);
    hide OneLine;
    OneLineConcat(t.id, " ");
    OneLineConcat(" - ", t.id + " ");
    OneLineConcat(NatText(number), " - " + (t.id + " "));
    OneLineConcat(if t.outcome.Pass? then "ok " else "not ok ", NatText(number) + (" - " + (t.id + " ")));
  }

  lemma LineAfterPrefix(t: Test, number: nat, tail: string)
    ensures TestLineWith(t, number, tail) == LinePrefix(t, number) + tail
  {
    var a, b := if t.outcome.Pass? then "ok " else "not ok ", NatText(number);
    assert t.id + (" " + tail) == t.id + " " + tail;
    assert " - " + (t.id + " " + tail) == " - " + (t.id + " ") + tail;
    assert b + (" - " + (t.id + " ") + tail) == b + (" - " + (t.id + " ")) + tail;
    assert a + (b + (" - " + (t.id + " ")) + tail) == a + (b + (" - " + (t.id + " "))) + tail;
  }

  /** The printed lines of a test, split. */
  lemma TestFlattens(t: Test, number: nat)
    requires ExpectedId(t.id)
    ensures Flatten(TestLines(t, number)) == [HeadLine(t, number)] + TestTail(t)
  {
    hide ExpectedId, TestLineWith, Fragments, SingleLine, TailText;
    LinePrefixIsOneLine(t, number);
    FragmentsPrefix(LinePrefix(t, number), TailText(t));
    LineAfterPrefix(t, number, TailText(t));
    LineAfterPrefix(t, number, Fragments(TailText(t))[0]);
    var line := TestLine(t, number);
    FlattenOne(line);
    if t.outcome.Fail? {
      var message := "  message: " + SingleLine(t.outcome.error);
      FailureFlattens(message);
      FlattenConcat([line], ["  ---", message, "  ..."]);
      assert TestLines(t, number) == [line] + ["  ---", message, "  ..."];
    } else {
      assert TestLines(t, number) == [line];
    }
  }

  lemma FailureFlattens(message: string)
    ensures Flatten(["  ---", message, "  ..."]) == ["  ---"] + Fragments(message) + ["  ..."]
  {
    hide Fragments;
    Words();
    hide OneLine;
    OneFragment("  ---");
    OneFragment("  ...");
    FlattenOne("  ---");
    FlattenOne(message);
    FlattenOne("  ...");
    FlattenConcat(["  ---"], [message]);
    FlattenConcat(["  ---"] + [message], ["  ..."]);
    assert ["  ---", message, "  ..."] == ["  ---"] + [message] + ["  ..."];
  }

  lemma HeadRead(s: State, k: nat, t: Test, number: nat)
    requires Ready(s) && s.current == Some(k) && ExpectedId(t.id)
    ensures ReadAll(s, [HeadLine(t, number)])
      == s.(results := s.results[k := WithTest(s.results[k], t.outcome.Pass?, t.id)])
  {
    hide Heading, MatchTest, MatchResult, ExpectedId, Fragments;
    var tail := if Fragments(TailText(t)) == [] then "" else Fragments(TailText(t))[0];
    var line := HeadLine(t, number);
    TestLineMatches(t, number, tail);
    TestLineHead(t, number, tail);
    NoHeading(line);
    assert [line][1..] == [];
  }

  lemma TestLineHead(t: Test, number: nat, tail: string)
    ensures TestLineWith(t, number, tail) != ""
    ensures TestLineWith(t, number, tail)[0] == if t.outcome.Pass? then 'o' else 'n'
  {
  }

  lemma TestRead(s: State, k: nat, t: Test, number: nat)
    requires Ready(s) && s.current == Some(k) && CleanTest(k, t)
    ensures ReadAll(s, Flatten(TestLines(t, number)))
      == s.(results := s.results[k := WithTest(s.results[k], t.outcome.Pass?, t.id)])
  {
    hide HeadLine, TestTail, ReadAll, ExpectedId, TestLines, Harmless, Flatten;
    TestFlattens(t, number);
    HeadRead(s, k, t, number);
    ReadConcat(s, [HeadLine(t, number)], TestTail(t));
    HarmlessRead(ReadAll(s, [HeadLine(t, number)]), k, TestTail(t));
  }

  lemma {:induction false} TestsRead(s: State, k: nat, tests: seq<Test>, number: nat)
    requires Ready(s) && s.current == Some(k) && forall i :: 0 <= i < |tests| ==> CleanTest(k, tests[i])
    ensures ReadAll(s, Flatten(AllTestLines(tests, number)))
      == s.(results := s.results[k := WithTests(s.results[k], tests)])
    decreases |tests|
  {
    hide TestLines, ReadLine, CleanTest, Flatten;
    if tests == [] {
      assert s.results[k := s.results[k]] == s.results;
      assert s.results[k].passedIds + [] == s.results[k].passedIds
        && s.results[k].failedIds + [] == s.results[k].failedIds;
      assert Flatten([]) == [] by { FlattenNothing(); }
    } else {
      var t, rest := tests[0], tests[1..];
      TestRead(s, k, t, number);
      var r := WithTest(s.results[k], t.outcome.Pass?, t.id);
      var after := s.(results := s.results[k := r]);
      FlattenConcat(TestLines(t, number), AllTestLines(rest, number + 1));
      ReadConcat(s, Flatten(TestLines(t, number)), Flatten(AllTestLines(rest, number + 1)));
      TestsRead(after, k, rest, number + 1);
      WithTestsStep(s.results[k], tests);
      assert s.results[k := r][k := WithTests(r, rest)] == s.results[k := WithTests(s.results[k], tests)];
    }
  }

  lemma FlattenNothing()
    ensures Flatten([]) == []
  {
  }

  lemma WithTestsStep(r: Report, tests: seq<Test>)
    requires tests != []
    ensures WithTests(WithTest(r, tests[0].outcome.Pass?, tests[0].id), tests[1..]) == WithTests(r, tests)
  {
    var next := WithTest(r, tests[0].outcome.Pass?, tests[0].id);
    assert next.passedIds + IdsOf(tests[1..], true) == r.passedIds + IdsOf(tests, true);
    assert next.failedIds + IdsOf(tests[1..], false) == r.failedIds + IdsOf(tests, false);
  }

  // ----------------------------------------------------------------------- reading a run

  predicate NoRepeats(tests: seq<Test>) {
    Order.SortedSet(Repeated(Ids(tests))) == []
  }

  function SuiteName(k: nat): string
    requires k < |SUITES|
  {
    if |SUITES[k].heading| >= 2 then SUITES[k].heading[2..] else ""
  }

  lemma HeadingPrinted(k: nat)
    requires k < |SUITES|
    ensures "# " + SuiteName(k) == SUITES[k].heading
  {
    HeadingShape(k);
    var h := SUITES[k].heading;
    assert h[..2] == "# ";
    assert h == h[..2] + h[2..];
  }

  lemma ResultRead(s: State, k: nat, passed: nat, failed: nat, total: nat)
    requires Ready(s) && s.current == Some(k)
    ensures Flatten([ResultLine(passed, failed, total)]) == [ResultLine(passed, failed, total)]
    ensures ReadAll(s, [ResultLine(passed, failed, total)])
      == State(s.results[k := WithCounts(s.results[k], Counts(passed, failed, total), SUITES[k].expected)], None)
  {
    hide Heading, MatchTest, MatchResult, OneLine, Fragments;
    var line := ResultLine(passed, failed, total);
    ResultOneLine(passed, failed, total);
    OneFragment(line);
    FlattenOne(line);
    ResultMatches(passed, failed, total);
    assert line[0] == '#' && line[2] == 'r';
    NoHeading(line);
    NoTest(line);
    assert [line][1..] == [];
  }

  lemma NoTest(line: string)
    requires line != "" && line[0] == '#'
    ensures MatchTest(line).None?
  {
  }

  lemma HeadingRead(s: State, k: nat)
    requires Ready(s) && k < |SUITES|
    ensures Flatten(["# " + SuiteName(k)]) == ["# " + SuiteName(k)]
    ensures ReadAll(s, ["# " + SuiteName(k)]) == s.(current := Some(k))
  {
    hide Heading, MatchTest, MatchResult, SuiteName, OneLine, Fragments;
    HeadingPrinted(k);
    HeadingFound(k);
    HeadingOneLine(k);
    OneFragment(SUITES[k].heading);
    FlattenOne(SUITES[k].heading);
    assert ["# " + SuiteName(k)][1..] == [];
  }

  lemma PlanRead(s: State, n: nat)
    requires Ready(s)
    ensures Flatten(["1.." + NatText(n)]) == ["1.." + NatText(n)]
    ensures ReadAll(s, ["1.." + NatText(n)]) == s
  {
    hide OneLine, NatText, Fragments, Inert;
    var plan := "1.." + NatText(n);
    Words();
    DigitsOneLine(n);
    OneLineConcat("1..", NatText(n));
    OneFragment(plan);
    FlattenOne(plan);
    InertByFirst(plan);
    InertRead(s, plan);
  }

  lemma {:induction false} BailOutRead(s: State, tests: seq<Test>)
    requires Ready(s) && forall i :: 0 <= i < |tests| ==> ExpectedId(tests[i].id)
    ensures var line := "Bail out! duplicate test IDs: " + JoinComma(Order.SortedSet(Repeated(Ids(tests))));
      Flatten([line]) == [line] && ReadAll(s, [line]) == s
  {
    hide OneLine, Fragments, Inert, ExpectedId, Order.SortedSet, JoinComma;
    var joined := JoinComma(Order.SortedSet(Repeated(Ids(tests))));
    var line := "Bail out! duplicate test IDs: " + joined;
    DuplicatesOneLine(tests);
    BailOutWords();
    OneLineConcat("Bail out! duplicate test IDs: ", joined);
    OneFragment(line);
    FlattenOne(line);
    assert line[0] == 'B';
    InertByFirst(line);
    InertRead(s, line);
  }

  lemma {:induction false} DuplicatesOneLine(tests: seq<Test>)
    requires forall i :: 0 <= i < |tests| ==> ExpectedId(tests[i].id)
    ensures OneLine(JoinComma(Order.SortedSet(Repeated(Ids(tests)))))
  {
    hide OneLine, ExpectedId, Order.SortedSet;
    var ids := Repeated(Ids(tests));
    Order.SortedSetElements(ids);
    var sorted := Order.SortedSet(ids);
    forall i | 0 <= i < |sorted| ensures OneLine(sorted[i]) {
      assert sorted[i] in sorted && sorted[i] in ids;
      var j, k :| 0 <= j < k < |tests| && Ids(tests)[j] == sorted[i] && Ids(tests)[k] == sorted[i];
      ExpectedIdIsOneLine(tests[j].id);
    }
    JoinOneLine(sorted);
  }

  function FinalCounts(tests: seq<Test>): Counts {
    Counts(|tests| - Failures(tests), Failures(tests), |tests|)
  }

  /** What a run of suite k adds to its result. */
  function AfterRun(r: Report, k: nat, tests: seq<Test>): Report
    requires k < |SUITES|
  {
    if NoRepeats(tests) then WithCounts(WithTests(r, tests), FinalCounts(tests), SUITES[k].expected) else r
  }

  /** The lines of a run without repeated IDs, split. */
  lemma {:induction false} RunFlattens(k: nat, tests: seq<Test>)
    requires k < |SUITES| && NoRepeats(tests)
    ensures var c := FinalCounts(tests);
      Flatten(RunLines(SuiteName(k), tests)) ==
        ["# " + SuiteName(k)] + ["1.." + NatText(|tests|)] + Flatten(AllTestLines(tests, 1))
          + [ResultLine(c.passed, c.failed, c.total)]
  {
    hide Flatten, AllTestLines, ResultLine, SuiteName, Order.SortedSet, NatText, ReadAll;
    var c := FinalCounts(tests);
    var a, b, d := ["# " + SuiteName(k)], ["1.." + NatText(|tests|)], [ResultLine(c.passed, c.failed, c.total)];
    var body := AllTestLines(tests, 1);
    HeadingRead(Start(), k);
    PlanRead(Start(), |tests|);
    ResultRead(Start().(current := Some(k)), k, c.passed, c.failed, c.total);
    FlattenConcat(a, b);
    FlattenConcat(a + b, body);
    FlattenConcat(a + b + body, d);
    assert RunLines(SuiteName(k), tests) == a + b + body + d;
  }

  /** Reading the lines of a run, whatever came before: with a repeated ID the suite stays open. */
  lemma RunRead(s: State, k: nat, tests: seq<Test>)
    requires Ready(s) && k < |SUITES| && forall i :: 0 <= i < |tests| ==> CleanTest(k, tests[i])
    ensures ReadAll(s, Flatten(RunLines(SuiteName(k), tests))).results
      == s.results[k := AfterRun(s.results[k], k, tests)]
  {
    hide ReadAll, CleanTest, ResultLine, SuiteName, Order.SortedSet, WithTests, WithCounts, Flatten, AllTestLines;
    hide NatText;
    var first := "# " + SuiteName(k);
    var open := s.(current := Some(k));
    HeadingRead(s, k);
    if NoRepeats(tests) {
      var c := FinalCounts(tests);
      var plan, body, last :=
        "1.." + NatText(|tests|), Flatten(AllTestLines(tests, 1)), ResultLine(c.passed, c.failed, c.total);
      RunFlattens(k, tests);
      PlanRead(open, |tests|);
      TestsRead(open, k, tests, 1);
      var done := open.(results := s.results[k := WithTests(s.results[k], tests)]);
      ResultRead(done, k, c.passed, c.failed, c.total);
      ReadConcat(s, [first], [plan]);
      ReadConcat(s, [first] + [plan], body);
      ReadConcat(s, [first] + [plan] + body, [last]);
    } else {
      var line := "Bail out! duplicate test IDs: " + JoinComma(Order.SortedSet(Repeated(Ids(tests))));
      forall i | 0 <= i < |tests| ensures ExpectedId(tests[i].id) { CleanHasId(k, tests[i]); }
      BailOutRead(open, tests);
      FlattenConcat([first], [line]);
      assert RunLines(SuiteName(k), tests) == [first] + [line];
      ReadConcat(s, [first], [line]);
      assert s.results[k := s.results[k]] == s.results;
    }
  }

  lemma CleanHasId(k: nat, t: Test)
    requires CleanTest(k, t)
    ensures ExpectedId(t.id)
  {
  }

  // ------------------------------------------------------------------------- whole logs

  /** A log holds other output between the runs. */
  datatype Chunk = Noise(line: string) | Run(suite: nat, tests: seq<Test>)

  predicate CleanChunk(c: Chunk) {
    match c
    case Noise(line) => forall i :: 0 <= i < |Fragments(line)| ==> Inert(Fragments(line)[i])
    case Run(k, tests) => k < |SUITES| && forall i :: 0 <= i < |tests| ==> CleanTest(k, tests[i])
  }

  predicate CleanChunks(chunks: seq<Chunk>) {
    forall i :: 0 <= i < |chunks| ==> CleanChunk(chunks[i])
  }

  predicate OneRunPerSuite(chunks: seq<Chunk>) {
    forall i, j :: 0 <= i < j < |chunks| && chunks[i].Run? && chunks[j].Run? ==> chunks[i].suite != chunks[j].suite
  }

  function ChunkLines(c: Chunk): seq<string> {
    match c case Noise(line) => [line] case Run(k, tests) => if k < |SUITES| then RunLines(SuiteName(k), tests) else []
  }

  function LogLines(chunks: seq<Chunk>): seq<string> {
    if chunks == [] then [] else ChunkLines(chunks[0]) + LogLines(chunks[1..])
  }

  lemma {:induction false} LogLinesConcat(a: seq<Chunk>, b: seq<Chunk>)
    ensures LogLines(a + b) == LogLines(a) + LogLines(b)
  {
    hide ChunkLines;
    if a == [] {
      assert a + b == b;
    } else {
      assert (a + b)[0] == a[0] && (a + b)[1..] == a[1..] + b;
      LogLinesConcat(a[1..], b);
    }
  }

  /** The run of suite k, if the log holds one. */
  function FindRun(chunks: seq<Chunk>, k: nat): (r: Option<seq<Test>>)
    ensures r.Some? ==> exists i :: 0 <= i < |chunks| && chunks[i] == Run(k, r.value)
    ensures r.None? ==> forall i :: 0 <= i < |chunks| ==> !(chunks[i].Run? && chunks[i].suite == k)
  {
    if chunks == [] then None
    else if chunks[0].Run? && chunks[0].suite == k then Some(chunks[0].tests)
    else
      var r := FindRun(chunks[1..], k);
      assert forall i :: 0 < i < |chunks| ==> chunks[i] == chunks[1..][i - 1];
      r
  }

  function AfterLog(r: Report, chunks: seq<Chunk>, k: nat): Report
    requires k < |SUITES|
  {
    match FindRun(chunks, k) case Some(tests) => AfterRun(r, k, tests) case None => r
  }

  lemma {:induction false} AllInertRead(s: State, lines: seq<string>)
    requires Ready(s) && forall i :: 0 <= i < |lines| ==> Inert(lines[i])
    ensures ReadAll(s, lines) == s
    decreases |lines|
  {
    hide Inert;
    if lines != [] {
      InertRead(s, lines[0]);
      assert lines == [lines[0]] + lines[1..];
      ReadConcat(s, [lines[0]], lines[1..]);
      AllInertRead(s, lines[1..]);
    }
  }

  lemma ChunkRead(s: State, c: Chunk)
    requires Ready(s) && CleanChunk(c)
    ensures ReadAll(s, Flatten(ChunkLines(c))).results ==
      if c.Run? then s.results[c.suite := AfterRun(s.results[c.suite], c.suite, c.tests)] else s.results
  {
    hide ReadAll, Inert, RunLines, SuiteName, AfterRun, Fragments, CleanTest;
    match c
    case Noise(line) =>
      FlattenOne(line);
      AllInertRead(s, Fragments(line));
    case Run(k, tests) => RunRead(s, k, tests);
  }

  lemma {:induction false} LogRead(s: State, chunks: seq<Chunk>)
    requires Ready(s) && CleanChunks(chunks) && OneRunPerSuite(chunks)
    ensures forall k :: 0 <= k < |SUITES| ==>
      ReadAll(s, Flatten(LogLines(chunks))).results[k] == AfterLog(s.results[k], chunks, k)
    decreases |chunks|
  {
    hide ReadAll, CleanChunk, ChunkLines, AfterRun, Flatten;
    if chunks == [] {
      FlattenNothing();
      ReadNothing(s);
    } else {
      var c, rest := chunks[0], chunks[1..];
      ChunkRead(s, c);
      FlattenConcat(ChunkLines(c), LogLines(rest));
      ReadConcat(s, Flatten(ChunkLines(c)), Flatten(LogLines(rest)));
      assert forall i :: 0 < i < |chunks| ==> chunks[i] == rest[i - 1];
      LogRead(ReadAll(s, Flatten(ChunkLines(c))), rest);
    }
  }

  lemma ReadNothing(s: State)
    requires Ready(s)
    ensures ReadAll(s, []) == s
  {
  }

  /** What parse_suites returns for a printed log. */
  function Parsed(chunks: seq<Chunk>): (results: seq<Report>)
    ensures |results| == |SUITES|
  {
    ReadAll(Start(), SplitLines(LogText(LogLines(chunks)))).results
  }

  /** What a log says about suite k: exact counts, IDs in order and the status they deserve; a suite without
      a run, or whose IDs repeat, is unreported. */
  function Expected(chunks: seq<Chunk>, k: nat): Report
    requires k < |SUITES|
  {
    match FindRun(chunks, k)
    case Some(tests) =>
      if NoRepeats(tests) then
        Report(Some(FinalCounts(tests)), IdsOf(tests, true), IdsOf(tests, false),
          Judged(FinalCounts(tests), SUITES[k].expected))
      else BLANK
    case None => BLANK
  }

  lemma ParsedIsFlat(chunks: seq<Chunk>)
    ensures Parsed(chunks) == ReadAll(Start(), Flatten(LogLines(chunks))).results
  {
    hide ReadAll, LogLines, SplitLines, Flatten, LogText;
    SplitLinesOfLog(LogLines(chunks));
  }

  lemma BlankAfterLog(chunks: seq<Chunk>, k: nat)
    requires k < |SUITES|
    ensures AfterLog(BLANK, chunks, k) == Expected(chunks, k)
  {
    hide NoRepeats, FindRun;
    if FindRun(chunks, k).Some? {
      var tests := FindRun(chunks, k).value;
      assert [] + IdsOf(tests, true) == IdsOf(tests, true) && [] + IdsOf(tests, false) == IdsOf(tests, false);
    }
  }

  /** Parsing a printed log recovers for every registered suite the exact counts, the passed and failed IDs in
      order and the status, as long as whatever stands behind a line boundary is harmless. */
  lemma ParsedLogIsExact(chunks: seq<Chunk>, k: nat)
    requires CleanChunks(chunks) && OneRunPerSuite(chunks) && k < |SUITES|
    ensures Parsed(chunks)[k] == Expected(chunks, k)
  {
    hide ReadAll, CleanChunk, LogLines, AfterLog, Parsed, Expected, Flatten;
    ParsedIsFlat(chunks);
    LogRead(Start(), chunks);
    assert Start().results[k] == BLANK;
    BlankAfterLog(chunks, k);
  }

  // --------------------------------------------------------------------- acceptance

  function Sum(values: seq<nat>): nat {
    if values == [] then 0 else values[0] + Sum(values[1..])
  }

  function Column(results: seq<Report>, pick: Counts -> nat): (r: seq<nat>)
    ensures |r| == |results|
    ensures forall i :: 0 <= i < |r| ==> r[i] == match results[i].counts case Some(c) => pick(c) case None => 0
  {
    if results == [] then []
    else [match results[0].counts case Some(c) => pick(c) case None => 0] + Column(results[1..], pick)
  }

  function ExpectedCounts(suites: seq<Suite>): (r: seq<nat>)
    ensures |r| == |suites| && forall i :: 0 <= i < |r| ==> r[i] == suites[i].expected
  {
    if suites == [] then [] else [suites[0].expected] + ExpectedCounts(suites[1..])
  }

  datatype Totals = Totals(expected: nat, passed: nat, failed: nat, executed: nat, complete: bool, matching: bool)

  function SuiteTotals(results: seq<Report>): Totals {
    var expected := Sum(ExpectedCounts(SUITES));
    var passed := Sum(Column(results, (c: Counts) => c.passed));
    var failed := Sum(Column(results, (c: Counts) => c.failed));
    var executed := Sum(Column(results, (c: Counts) => c.total));
    var complete := forall k :: 0 <= k < |results| ==> results[k].counts.Some?;
    Totals(expected, passed, failed, executed, complete,
      complete && passed == expected && failed == 0 && executed == expected)
  }

  datatype Environment = Environment(gateExitCode: int, uid: int, native: bool, idsUnique: bool, buildClean: bool)

  /** acceptance_status. */
  predicate Accepted(e: Environment, results: seq<Report>) {
    && e.uid != 0 && e.native && e.idsUnique && e.buildClean
    && SuiteTotals(results).complete && SuiteTotals(results).matching
    && (forall k :: 0 <= k < |results| ==> results[k].status == Passed)
    && e.gateExitCode == 0
  }

  /** A status is passed exactly when the suite reported its expected passes and nothing else. */
  ghost predicate Exact(results: seq<Report>) {
    forall k :: 0 <= k < |results| && k < |SUITES| ==>
      (results[k].status == Passed <==> results[k].counts == Some(Counts(SUITES[k].expected, 0, SUITES[k].expected)))
  }

  lemma {:induction false} ReadKeepsExact(s: State, lines: seq<string>)
    requires Ready(s) && Exact(s.results)
    ensures Exact(ReadAll(s, lines).results)
    decreases |lines|
  {
    hide Heading, MatchTest, MatchResult;
    if lines != [] { ReadKeepsExact(ReadLine(s, lines[0]), lines[1..]); }
  }

  lemma {:induction false} SumOfEqual(a: seq<nat>, b: seq<nat>)
    requires |a| == |b| && forall i :: 0 <= i < |a| ==> a[i] == b[i]
    ensures Sum(a) == Sum(b)
  {
    if a != [] { SumOfEqual(a[1..], b[1..]); }
  }

  lemma {:induction false} SumOfZeros(a: seq<nat>)
    requires forall i :: 0 <= i < |a| ==> a[i] == 0
    ensures Sum(a) == 0
  {
    if a != [] { SumOfZeros(a[1..]); }
  }

  /** With exact statuses, the totals match whenever every suite passed. */
  lemma PassedMeansTotalsMatch(results: seq<Report>)
    requires |results| == |SUITES| && Exact(results) && forall k :: 0 <= k < |results| ==> results[k].status == Passed
    ensures SuiteTotals(results).complete && SuiteTotals(results).matching
  {
    var expected := ExpectedCounts(SUITES);
    SumOfEqual(Column(results, (c: Counts) => c.passed), expected);
    SumOfEqual(Column(results, (c: Counts) => c.total), expected);
    SumOfZeros(Column(results, (c: Counts) => c.failed));
  }

  /** For every log text, acceptance holds exactly when the other checks do and every registered suite
      reported its expected passes, no failure and no other test. */
  lemma AcceptedExactly(e: Environment, log: string)
    ensures var results := ReadAll(Start(), SplitLines(log)).results;
      Accepted(e, results) <==>
        && e.uid != 0 && e.native && e.idsUnique && e.buildClean && e.gateExitCode == 0
        && forall k :: 0 <= k < |SUITES| ==>
          results[k].counts == Some(Counts(SUITES[k].expected, 0, SUITES[k].expected))
  {
    hide ReadAll, SplitLines, SuiteTotals;
    ReadKeepsExact(Start(), SplitLines(log));
    var results := ReadAll(Start(), SplitLines(log)).results;
    if forall k :: 0 <= k < |results| ==> results[k].status == Passed { PassedMeansTotalsMatch(results); }
  }

  predicate FullyPassed(tests: seq<Test>, expected: nat) {
    NoRepeats(tests) && |tests| == expected && forall i :: 0 <= i < |tests| ==> tests[i].outcome.Pass?
  }

  /** For a printed log: acceptance means that each registered suite ran, without repeated IDs, exactly its
      expected number of tests, and every one of them passed. */
  lemma AcceptedLogRanEverything(e: Environment, chunks: seq<Chunk>)
    requires CleanChunks(chunks) && OneRunPerSuite(chunks)
    ensures Accepted(e, Parsed(chunks)) <==>
      && e.uid != 0 && e.native && e.idsUnique && e.buildClean && e.gateExitCode == 0
      && forall k :: 0 <= k < |SUITES| ==>
           FindRun(chunks, k).Some? && FullyPassed(FindRun(chunks, k).value, SUITES[k].expected)
  {
    hide ReadAll, SplitLines, Accepted, LogLines, NoRepeats, IdsOf, CleanChunk, FindRun;
    AcceptedExactly(e, LogText(LogLines(chunks)));
    forall k | 0 <= k < |SUITES|
      ensures Parsed(chunks)[k].counts == Some(Counts(SUITES[k].expected, 0, SUITES[k].expected)) <==>
        FindRun(chunks, k).Some? && FullyPassed(FindRun(chunks, k).value, SUITES[k].expected)
    {
      ParsedLogIsExact(chunks, k);
      if FindRun(chunks, k).Some? { NoFailures(FindRun(chunks, k).value); }
    }
  }

  lemma {:induction false} NoFailures(tests: seq<Test>)
    ensures Failures(tests) == 0 <==> forall i :: 0 <= i < |tests| ==> tests[i].outcome.Pass?
  {
    if tests != [] {
      NoFailures(tests[1..]);
      assert forall i :: 0 < i < |tests| ==> tests[i] == tests[1..][i - 1];
    }
  }
}
