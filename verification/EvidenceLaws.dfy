/** What the evidence writer recognises in a log, told as texts. */
module EvidenceLaws {
  import opened Base
  import opened Text
  import opened EvidenceLog
  import opened Evidence
  import Order

  // ------------------------------------------------------------------ lines

  /** The text ends a line: one of the ten boundary characters, or CR LF. */
  ghost predicate EndsLine(sep: string) {
    || sep == "\r\n"
    || (|sep| == 1 && sep[0] as int in {0xA, 0xB, 0xC, 0xD, 0x1C, 0x1D, 0x1E, 0x85, 0x2028, 0x2029})
  }

  ghost predicate Unbroken(line: string) {
    forall i :: 0 <= i < |line| ==> !EndsLine([line[i]])
  }

  /** The text is these lines, each but perhaps the last with an end of line behind it. */
  ghost predicate Broken(s: string, lines: seq<string>)
    decreases lines
  {
    if lines == [] then s == ""
    else
      && Unbroken(lines[0])
      && ((s == lines[0] && s != "" && |lines| == 1)
          || exists sep: string, rest: string ::
               && EndsLine(sep) && s == lines[0] + sep + rest && Broken(rest, lines[1..])
               && (sep == "\r" ==> rest == "" || rest[0] != '\n'))
  }

  lemma BoundaryIs(c: char)
    ensures IsBoundary(c) <==> EndsLine([c])
  {
  }

  lemma OneLineIs(line: string)
    ensures OneLine(line) <==> Unbroken(line)
  {
    hide IsBoundary, EndsLine;
    forall i | 0 <= i < |line| ensures IsBoundary(line[i]) <==> EndsLine([line[i]]) { BoundaryIs(line[i]); }
  }

  lemma BreaksAgain(line: string, sep: string, rest: string, lines: seq<string>)
    requires Unbroken(line) && EndsLine(sep) && Broken(rest, lines) && (sep == "\r" ==> rest == "" || rest[0] != '\n')
    ensures Broken(line + sep + rest, [line] + lines)
  {
    hide Unbroken, EndsLine;
    assert ([line] + lines)[1..] == lines;
  }

  lemma LastLine(line: string)
    requires Unbroken(line) && line != ""
    ensures Broken(line, [line])
  {
  }

  lemma WholeLine(s: string)
    requires s != "" && LineLength(s) == |s|
    ensures SplitLines(s) == [s]
  {
  }

  /** splitlines breaks the text at its ends of line. */
  lemma {:induction false} SplitLinesBreaks(s: string)
    ensures Broken(s, SplitLines(s))
    decreases |s|
  {
    hide IsBoundary, EndsLine, OneLine, Unbroken, Broken, SplitLines, AfterBoundary;
    if s == "" {
      NoLines();
      NothingBroken();
    } else {
      var n := LineLength(s);
      LineLengthIsOneLine(s);
      OneLineIs(s[..n]);
      if n < |s| {
        var next := AfterBoundary(s, n);
        SplitAt(s, n);
        SplitLinesBreaks(s[next..]);
        SeparatorIs(s, n);
        BreaksAgain(s[..n], s[n..next], s[next..], SplitLines(s[next..]));
        assert s == s[..n] + s[n..next] + s[next..];
      } else {
        assert s[..n] == s;
        LastLine(s);
        WholeLine(s);
      }
    }
  }

  lemma NothingBroken()
    ensures Broken("", [])
  {
  }

  lemma SeparatorIs(s: string, n: nat)
    requires n < |s| && IsBoundary(s[n])
    ensures var next := AfterBoundary(s, n); var sep, rest := s[n..next], s[next..];
      EndsLine(sep) && (sep == "\r" ==> rest == "" || rest[0] != '\n')
  {
    BoundaryIs(s[n]);
  }

  lemma AfterSeparator(s: string, line: string, sep: string, rest: string)
    requires s == line + sep + rest && EndsLine(sep) && (sep == "\r" ==> rest == "" || rest[0] != '\n')
    ensures |line| < |s| && IsBoundary(s[|line|]) && s[..|line|] == line
    ensures AfterBoundary(s, |line|) == |line| + |sep| && s[|line| + |sep|..] == rest
  {
    var n := |line|;
    assert s[n] == sep[0];
    BoundaryIs(s[n]);
    if |sep| == 1 {
      assert sep == [sep[0]];
      if rest != "" { assert s[n + 1] == rest[0]; }
    } else {
      assert s[n + 1] == sep[1];
    }
  }

  lemma {:induction false} BrokenIsSplit(s: string, lines: seq<string>)
    requires Broken(s, lines)
    ensures lines == SplitLines(s)
    decreases lines
  {
    hide IsBoundary, EndsLine, OneLine, Unbroken, SplitLines, AfterBoundary;
    if lines == [] {
      NoLines();
    } else {
      OneLineIs(lines[0]);
      if s == lines[0] && s != "" && |lines| == 1 {
        UnbrokenLength(s);
        WholeLine(s);
      } else {
        var sep: string, rest: string :|
          && EndsLine(sep) && s == lines[0] + sep + rest && Broken(rest, lines[1..])
          && (sep == "\r" ==> rest == "" || rest[0] != '\n');
        AfterSeparator(s, lines[0], sep, rest);
        SplitAt(s, |lines[0]|);
        BrokenIsSplit(rest, lines[1..]);
      }
    }
  }

  lemma UnbrokenLength(s: string)
    requires OneLine(s)
    ensures LineLength(s) == |s|
  {
  }

  /** splitlines gives the one way to break the text at its ends of line. */
  lemma SplitLinesExactly(s: string, lines: seq<string>)
    ensures lines == SplitLines(s) <==> Broken(s, lines)
  {
    hide SplitLines, Broken;
    SplitLinesBreaks(s);
    if Broken(s, lines) { BrokenIsSplit(s, lines); }
  }

  // ------------------------------------------------------------------ result lines

  /** Decimal digits with this value. */
  ghost predicate Numeral(s: string, n: nat) {
    s != "" && AllDigits(s) && NatValue(s) == n
  }

  ghost predicate ResultText(line: string, passed: nat, failed: nat, total: nat) {
    exists a: string, b: string, c: string ::
      && Numeral(a, passed) && Numeral(b, failed) && Numeral(c, total)
      && line == "# result: " + a + " passed; " + b + " failed; " + c + " total"
  }

  lemma PrefixSplits(s: string, prefix: string, rest: string)
    ensures AfterPrefix(s, prefix) == Some(rest) <==> s == prefix + rest
  {
    PrefixTaken(prefix, rest);
    assert prefix <= s ==> s == prefix + s[|prefix|..];
  }

  lemma NumeralTaken(a: string, n: nat, rest: string)
    requires Numeral(a, n) && (rest == "" || !IsDigit(rest[0]))
    ensures TakeNumber(a + rest) == Some((n, rest))
  {
    DigitCountStops(a, rest);
    assert (a + rest)[..|a|] == a && (a + rest)[|a|..] == rest;
  }

  lemma NumeralRead(s: string, n: nat, rest: string) returns (a: string)
    requires TakeNumber(s) == Some((n, rest))
    ensures Numeral(a, n) && s == a + rest
  {
    a := s[..DigitCount(s)];
    assert s == a + s[DigitCount(s)..];
  }

  lemma ResultRead(line: string, passed: nat, failed: nat, total: nat)
    requires MatchResult(line) == Some((passed, failed, total))
    ensures ResultText(line, passed, failed, total)
  {
    hide AfterPrefix, TakeNumber, Numeral;
    var a := AfterPrefix(line, "# result: ").value;
    var b := TakeNumber(a).value.1;
    var c := AfterPrefix(b, " passed; ").value;
    var d := TakeNumber(c).value.1;
    var e := AfterPrefix(d, " failed; ").value;
    var f := TakeNumber(e).value.1;
    PrefixSplits(line, "# result: ", a);
    PrefixSplits(b, " passed; ", c);
    PrefixSplits(d, " failed; ", e);
    var p := NumeralRead(a, passed, b);
    var q := NumeralRead(c, failed, d);
    var r := NumeralRead(e, total, f);
    assert line == "# result: " + (p + (" passed; " + (q + (" failed; " + (r + " total")))));
    assert line == "# result: " + p + " passed; " + q + " failed; " + r + " total";
  }

  lemma ResultTaken(line: string, a: string, passed: nat, b: string, failed: nat, c: string, total: nat)
    requires Numeral(a, passed) && Numeral(b, failed) && Numeral(c, total)
    requires line == "# result: " + a + " passed; " + b + " failed; " + c + " total"
    ensures MatchResult(line) == Some((passed, failed, total))
  {
    hide AfterPrefix, TakeNumber, Numeral;
    var f := " total";
    var e := c + f;
    var d := " failed; " + e;
    var g := b + d;
    var h := " passed; " + g;
    var i := a + h;
    assert line == "# result: " + i;
    PrefixSplits(line, "# result: ", i);
    NumeralTaken(a, passed, h);
    PrefixSplits(h, " passed; ", g);
    NumeralTaken(b, failed, d);
    PrefixSplits(d, " failed; ", e);
    NumeralTaken(c, total, f);
  }

  /** A line is read as a result exactly when it has that text. */
  lemma ResultExactly(line: string, passed: nat, failed: nat, total: nat)
    ensures MatchResult(line) == Some((passed, failed, total)) <==> ResultText(line, passed, failed, total)
  {
    hide MatchResult, Numeral;
    if MatchResult(line) == Some((passed, failed, total)) { ResultRead(line, passed, failed, total); }
    if ResultText(line, passed, failed, total) {
      var a: string, b: string, c: string :|
        && Numeral(a, passed) && Numeral(b, failed) && Numeral(c, total)
        && line == "# result: " + a + " passed; " + b + " failed; " + c + " total";
      ResultTaken(line, a, passed, b, failed, c, total);
    }
  }

  // ------------------------------------------------------------------ test lines

  ghost predicate Capital(c: char) {
    'A' <= c <= 'Z'
  }

  ghost predicate Capitals(s: string) {
    s != "" && forall i :: 0 <= i < |s| ==> Capital(s[i])
  }

  /** A test ID and what follows it: a prefix, three digits and, wherever a hyphen and capitals stand, those too. */
  ghost predicate IdText(id: string, rest: string) {
    exists prefix: string, digits: string, suffix: string ::
      && id == prefix + digits + suffix && (prefix == "TC-ACC-MVS01-" || prefix == "TC-PERF-MVS01-")
      && |digits| == 3 && AllDigits(digits) && Suffix(suffix, rest)
  }

  ghost predicate Suffix(suffix: string, rest: string) {
    || (suffix == "" && !(|rest| >= 2 && rest[0] == '-' && Capital(rest[1])))
    || (suffix != "" && suffix[0] == '-' && Capitals(suffix[1..]) && (rest == "" || !Capital(rest[0])))
  }

  lemma {:induction false} UpperCountIs(s: string, n: nat)
    ensures UpperCount(s) == n
      <==> n <= |s| && (forall i :: 0 <= i < n ==> Capital(s[i])) && (n < |s| ==> !Capital(s[n]))
  {
    if s != "" && 'A' <= s[0] <= 'Z' {
      if n > 0 {
        UpperCountIs(s[1..], n - 1);
        assert forall i :: 0 < i < n && n <= |s| ==> s[i] == s[1..][i - 1];
      }
    }
  }

  lemma IdTaken(prefix: string, digits: string, suffix: string, rest: string)
    requires prefix == "TC-ACC-MVS01-" || prefix == "TC-PERF-MVS01-"
    requires |digits| == 3 && AllDigits(digits) && Suffix(suffix, rest)
    ensures IdEnd(prefix + digits + suffix + rest, |prefix|) == Some(|prefix + digits + suffix|)
  {
    var k := |prefix|;
    var s := prefix + digits + suffix + rest;
    assert s[k] == digits[0] && s[k + 1] == digits[1] && s[k + 2] == digits[2];
    if suffix == "" {
      if rest != "" {
        assert s[k + 3] == rest[0] && s[k + 4..] == rest[1..];
        if |rest| >= 2 { UpperCountIs(rest[1..], 0); }
      }
    } else {
      assert s[k + 3] == suffix[0] && s[k + 4..] == suffix[1..] + rest;
      UpperCountIs(suffix[1..] + rest, |suffix| - 1);
    }
  }

  lemma EndRead(s: string, k: nat)
    requires k <= |s| && IdEnd(s, k).Some?
    ensures var end := IdEnd(s, k).value;
      |s[k..k + 3]| == 3 && AllDigits(s[k..k + 3]) && Suffix(s[k + 3..end], s[end..])
  {
    var end := IdEnd(s, k).value;
    if k + 3 < |s| && s[k + 3] == '-' {
      var n := UpperCount(s[k + 4..]);
      UpperCountIs(s[k + 4..], n);
      var tail := s[k + 4..];
      assert forall i :: 0 <= i < n ==> tail[i] == s[k + 4 + i];
    }
  }

  lemma PrefixesDiffer(s: string)
    ensures !("TC-ACC-MVS01-" <= s && "TC-PERF-MVS01-" <= s)
  {
    assert "TC-ACC-MVS01-"[3] == 'A' && "TC-PERF-MVS01-"[3] == 'P';
  }

  lemma IdRead(s: string, id: string)
    requires MatchId(s) == Some(id)
    ensures id <= s && IdText(id, s[|id|..])
  {
    hide IdEnd, Suffix, AllDigits;
    var k := if "TC-ACC-MVS01-" <= s then 13 else 14;
    EndRead(s, k);
    var end := IdEnd(s, k).value;
    assert id == s[..k] + s[k..k + 3] + s[k + 3..end];
  }

  lemma IdGiven(prefix: string, digits: string, suffix: string, rest: string)
    requires prefix == "TC-ACC-MVS01-" || prefix == "TC-PERF-MVS01-"
    requires |digits| == 3 && AllDigits(digits) && Suffix(suffix, rest)
    ensures MatchId(prefix + digits + suffix + rest) == Some(prefix + digits + suffix)
  {
    hide IdEnd, Suffix, AllDigits;
    var s, id := prefix + digits + suffix + rest, prefix + digits + suffix;
    IdTaken(prefix, digits, suffix, rest);
    PrefixesDiffer(s);
    assert s[..|prefix|] == prefix && s[..|id|] == id;
  }

  lemma IdExactly(s: string, id: string)
    ensures MatchId(s) == Some(id) <==> id <= s && IdText(id, s[|id|..])
  {
    hide MatchId, Suffix, AllDigits;
    if MatchId(s) == Some(id) { IdRead(s, id); }
    if id <= s && IdText(id, s[|id|..]) {
      var rest := s[|id|..];
      var prefix: string, digits: string, suffix: string :|
        && id == prefix + digits + suffix && (prefix == "TC-ACC-MVS01-" || prefix == "TC-PERF-MVS01-")
        && |digits| == 3 && AllDigits(digits) && Suffix(suffix, rest);
      IdGiven(prefix, digits, suffix, rest);
      assert s == prefix + digits + suffix + rest;
    }
  }

  ghost predicate TestText(line: string, passed: bool, id: string) {
    exists a: string, n: nat, rest: string ::
      Numeral(a, n) && line == (if passed then "ok " else "not ok ") + a + " - " + id + rest && IdText(id, rest)
  }

  lemma TestSplits(line: string, passed: bool, id: string)
    requires MatchTest(line) == Some((passed, id))
    ensures TestText(line, passed, id)
  {
    hide AfterPrefix, TakeNumber, Numeral, MatchId, IdText;
    var word := if passed then "ok " else "not ok ";
    var a := AfterPrefix(line, word).value;
    var b := TakeNumber(a).value.1;
    var c := AfterPrefix(b, " - ").value;
    PrefixSplits(line, word, a);
    PrefixSplits(b, " - ", c);
    var p := NumeralRead(a, TakeNumber(a).value.0, b);
    IdExactly(c, id);
    var rest := c[|id|..];
    assert c == id + rest;
    assert line == word + (p + (" - " + (id + rest)));
    assert line == word + p + " - " + id + rest;
  }

  lemma TestTaken(line: string, passed: bool, id: string, a: string, n: nat, rest: string)
    requires Numeral(a, n) && line == (if passed then "ok " else "not ok ") + a + " - " + id + rest && IdText(id, rest)
    ensures MatchTest(line) == Some((passed, id))
  {
    hide AfterPrefix, TakeNumber, Numeral, MatchId, IdText;
    var word := if passed then "ok " else "not ok ";
    var c := id + rest;
    var b := " - " + c;
    var d := a + b;
    assert line == word + d;
    assert line[0] == word[0] && "ok "[0] == 'o' && "not ok "[0] == 'n';
    PrefixSplits(line, word, d);
    NumeralTaken(a, n, b);
    PrefixSplits(b, " - ", c);
    assert c[|id|..] == rest;
    IdExactly(c, id);
  }

  /** A line is read as a test exactly when it has that text. */
  lemma TestExactly(line: string, passed: bool, id: string)
    ensures MatchTest(line) == Some((passed, id)) <==> TestText(line, passed, id)
  {
    hide MatchTest, Numeral, IdText;
    if MatchTest(line) == Some((passed, id)) { TestSplits(line, passed, id); }
    if TestText(line, passed, id) {
      var a: string, n: nat, rest: string :|
        Numeral(a, n) && line == (if passed then "ok " else "not ok ") + a + " - " + id + rest && IdText(id, rest);
      TestTaken(line, passed, id, a, n, rest);
    }
  }

  // ------------------------------------------------------------------ printed tests and suites

  /** The text on one line: each CR and each LF is a blank, the rest is as it was. */
  ghost predicate OnOneLine(s: string, t: string) {
    |t| == |s| && forall i :: 0 <= i < |s| ==> t[i] == if s[i] == '\r' || s[i] == '\n' then ' ' else s[i]
  }

  lemma {:induction false} SingleLineIs(s: string)
    ensures OnOneLine(s, SingleLine(s))
  {
    if s != "" { SingleLineIs(s[1..]); }
  }

  /** What is printed for the n-th test: its outcome, number, ID, requirement and name; a failure's message below. */
  lemma TestPrinted(t: Test, number: nat)
    ensures TestLines(t, number)[0] ==
      (if t.outcome.Pass? then "ok " else "not ok ") + NatText(number) + " - " + t.id + " [" + t.requirement + "] "
      + t.name
    ensures t.outcome.Pass? ==> |TestLines(t, number)| == 1
    ensures t.outcome.Fail? ==>
      && |TestLines(t, number)| == 4 && TestLines(t, number)[1] == "  ---" && TestLines(t, number)[3] == "  ..."
      && exists m: string :: OnOneLine(t.outcome.error, m) && TestLines(t, number)[2] == "  message: " + m
  {
    hide OnOneLine, SingleLine, NatText;
    if t.outcome.Fail? { SingleLineIs(t.outcome.error); }
    var word, n := if t.outcome.Pass? then "ok " else "not ok ", NatText(number);
    assert word + (n + (" - " + (t.id + (" " + ("[" + t.requirement + "] " + t.name)))))
      == word + n + " - " + t.id + " [" + t.requirement + "] " + t.name;
  }

  ghost function Failing(tests: seq<Test>): set<int> {
    set i | 0 <= i < |tests| && tests[i].outcome.Fail?
  }

  lemma {:induction false} OneMore(tests: seq<Test>, last: Test)
    ensures Failures(tests + [last]) == Failures(tests) + if last.outcome.Fail? then 1 else 0
  {
    if tests == [] {
      assert [last][1..] == [] && [] + [last] == [last];
    } else {
      OneMore(tests[1..], last);
      assert (tests + [last])[1..] == tests[1..] + [last];
    }
  }

  lemma {:induction false} FailuresCount(tests: seq<Test>)
    ensures Failures(tests) == |Failing(tests)|
    decreases |tests|
  {
    if tests == [] {
      assert Failing(tests) == {};
    } else {
      var before, last := tests[..|tests| - 1], tests[|tests| - 1];
      assert tests == before + [last];
      FailuresCount(before);
      OneMore(before, last);
      assert Failing(tests) == Failing(before) + if last.outcome.Fail? then {|before|} else {};
    }
  }

  ghost predicate CountsLine(line: string, passed: nat, failed: nat, total: nat) {
    line == "# result: " + NatText(passed) + " passed; " + NatText(failed) + " failed; " + NatText(total) + " total"
  }

  /** The line counts the tests that failed, the others, and all of them. */
  ghost predicate CountsTold(line: string, tests: seq<Test>) {
    exists passed: nat, failed: nat ::
      CountsLine(line, passed, failed, |tests|) && passed + failed == |tests| && failed == |Failing(tests)|
  }

  /** The frame of a printed run: its heading, its plan and the counts of its tests; or the bail-out. */
  lemma RunPrinted(suiteName: string, tests: seq<Test>)
    ensures var lines := RunLines(suiteName, tests);
      && |lines| >= 2 && lines[0] == "# " + suiteName
      && (NoRepeats(tests) ==>
            && lines[1] == "1.." + NatText(|tests|)
            && CountsTold(lines[|lines| - 1], tests))
      && (!NoRepeats(tests) ==> |lines| == 2 && "Bail out! duplicate test IDs: " <= lines[1])
  {
    hide NatText, Failures, AllTestLines, Repeated, Order.SortedSet, Failing;
    FailuresCount(tests);
    var passed, failed := |tests| - Failures(tests), Failures(tests);
    var p, f, n := NatText(passed), NatText(failed), NatText(|tests|);
    assert CountsLine(ResultLine(passed, failed, |tests|), passed, failed, |tests|) by {
      assert "# result: " + (p + (" passed; " + (f + (" failed; " + (n + " total")))))
        == "# result: " + p + " passed; " + f + " failed; " + n + " total";
    }
  }

  /** The registered suites: their headings and how many tests each expects. */
  const REGISTER: seq<(string, nat)> :=
    [("# ToiNoMori" + ".Domain specification tests", 12), ("# ToiNoMori" + ".Api specification tests", 41),
     ("# ToiNoMori" + " mobile web specification tests", 7), ("# ToiNoMori" + " OIDC browser protocol E2E tests", 8),
     ("# ToiNoMori" + " town-readiness specification tests", 5), ("# ToiNoMori" + " PostgreSQL integration tests", 12),
     ("# ToiNoMori" + " disaster-recovery specification tests", 5)]

  lemma RegisterIs(k: nat)
    requires k < |SUITES|
    ensures |SUITES| == |REGISTER| && SUITES[k].heading == REGISTER[k].0 && SUITES[k].expected == REGISTER[k].1
  {
  }

  /** A line opens a suite exactly when it is its heading. */
  lemma HeadingExactly(line: string, k: nat)
    ensures Heading(line) == Some(k) <==> k < |REGISTER| && line == REGISTER[k].0
  {
    hide HeadingFrom;
    if k < |SUITES| {
      RegisterIs(k);
      HeadingFound(k);
    }
  }

  ghost predicate Told(results: seq<Report>) {
    |results| == |REGISTER|
    && forall k :: 0 <= k < |results| ==>
         results[k].status ==
           match results[k].counts
           case None => NotRun
           case Some(c) => if c == Counts(REGISTER[k].1, 0, REGISTER[k].1) then Passed else Failed
  }

  lemma {:induction false} ReadKeepsTold(s: State, lines: seq<string>)
    requires Ready(s) && Told(s.results)
    ensures Told(ReadAll(s, lines).results)
    decreases |lines|
  {
    hide Heading, MatchTest, MatchResult;
    if lines != [] {
      if s.current.Some? { RegisterIs(s.current.value); }
      ReadKeepsTold(ReadLine(s, lines[0]), lines[1..]);
    }
  }

  /** For every log: a suite is not run without counts, passed with exactly its expected passes, and else failed. */
  lemma StatusTold(log: string)
    ensures Told(ReadAll(Start(), SplitLines(log)).results)
  {
    hide ReadAll, SplitLines;
    ReadKeepsTold(Start(), SplitLines(log));
  }

  /** Ninety tests are expected in all. */
  lemma NinetyExpected(results: seq<Report>)
    ensures SuiteTotals(results).expected == 90
  {
    hide Column;
    var e := ExpectedCounts(SUITES);
    assert e[0] == 12 && e[1] == 41 && e[2] == 7 && e[3] == 8 && e[4] == 5 && e[5] == 12 && e[6] == 5;
    assert e == [12, 41, 7, 8, 5, 12, 5];
    assert Sum([5]) == 5 && Sum([12, 5]) == 17 && Sum([5, 12, 5]) == 22;
    assert Sum([8, 5, 12, 5]) == 30 && Sum([7, 8, 5, 12, 5]) == 37 && Sum([41, 7, 8, 5, 12, 5]) == 78;
  }
}
