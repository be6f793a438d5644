/** run-all-tests.mjs: format the input (a formatter error exits 1), compare
    the output with the fixture showing at most three differing lines, then
    run the test suite and report its pass/fail counts, or, when the suite
    fails, the names of the failing tests. */
module RunAllTests {
  import opened Lines
  import opened Scan
  import opened Walk
  import opened Process

  const Cap: nat := 3
  const PassTag: string := "\U{2714} pass "
  const FailTag: string := "\U{2716} fail "

  /** The counts of a suite that ran, or the failing names of one that threw. */
  datatype Suite = Counts(passed: nat, failed: nat) | Failing(names: seq<string>)

  datatype Outcome = Outcome(diff: Option<LineDiff>, suite: Option<Suite>, status: int)

  /** Stage 2: a perfect match reports nothing; otherwise the walk runs on
      texts known to differ, so it counts at least one line. */
  method CompareStage(output: string, expected: string) returns (diff: Option<LineDiff>)
    ensures diff.None? <==> output == expected
    ensures diff.Some? ==> diff.value == CappedDiff(SplitLines(output), SplitLines(expected), Cap)
    ensures diff.Some? ==> diff.value.count >= 1
  {
    if output == expected {
      diff := None;
    } else {
      CappedDiffMeaning(output, expected, Cap);
      var d := CappedWalk(SplitLines(output), SplitLines(expected), Cap);
      diff := Some(d);
    }
  }

  /** `match ? parseInt(match[1]) : 0` for both summary counts. */
  function SuiteCounts(testOutput: string): (r: Suite)
    ensures r.Counts?
    ensures (forall q: nat :: !LabelAt(testOutput, FailTag, q)) ==> r.failed == 0
    ensures (forall q: nat :: !LabelAt(testOutput, PassTag, q)) ==> r.passed == 0
  {
    FirstNumberNone(testOutput, PassTag);
    FirstNumberNone(testOutput, FailTag);
    Counts(ParseCount(testOutput, PassTag), ParseCount(testOutput, FailTag))
  }

  /** The summary the two count patterns are written for. */
  function Summary(passed: nat, failed: nat): string
  {
    PassTag + DecimalString(passed) + "\n" + FailTag + DecimalString(failed) + "\n"
  }

  /** The pass count of a printed summary reads back exactly. */
  lemma {:induction false} PassedOfSummary(passed: nat, failed: nat)
    ensures ParseCount(Summary(passed, failed), PassTag) == passed
  {
    var rest := "\n" + FailTag + DecimalString(failed) + "\n";
    assert Summary(passed, failed) == [] + PassTag + DecimalString(passed) + rest;
    ParseCountOfSummary(Summary(passed, failed), [], PassTag, passed, rest);
  }

  /** No `✖` occurs before the fail line of a printed summary. */
  lemma {:induction false} NoCrossInPassLine(p: string)
    requires forall j :: 0 <= j < |p| ==> IsDigit(p[j])
    ensures FailTag[0] !in PassTag + p + "\n"
  {
    var pre := PassTag + p + "\n";
    forall j | 0 <= j < |pre| ensures pre[j] != FailTag[0] {
      if j < |PassTag| {
        assert pre[j] == PassTag[j];
      } else if j < |PassTag| + |p| {
        assert pre[j] == p[j - |PassTag|];
      }
    }
  }

  /** The fail count of a printed summary reads back exactly. */
  lemma {:induction false} FailedOfSummary(passed: nat, failed: nat)
    ensures ParseCount(Summary(passed, failed), FailTag) == failed
  {
    var pre := PassTag + DecimalString(passed) + "\n";
    var rest := FailTag + DecimalString(failed) + "\n";
    NoCrossInPassLine(DecimalString(passed));
    NoLabelBefore(pre, FailTag, rest);
    assert Summary(passed, failed) == pre + rest == pre + FailTag + DecimalString(failed) + "\n";
    ParseCountOfSummary(Summary(passed, failed), pre, FailTag, failed, "\n");
  }

  /** A summary printed by the runner is read back as its own counts. */
  lemma {:induction false} SuiteCountsOfSummary(passed: nat, failed: nat)
    ensures SuiteCounts(Summary(passed, failed)) == Counts(passed, failed)
  {
    PassedOfSummary(passed, failed);
    FailedOfSummary(passed, failed);
  }

  /** The `for…of` loop pushing `match[1]` for every failure line that matches. */
  method CollectFailingTests(lines: seq<string>) returns (failingTests: seq<string>)
    ensures failingTests == FailingNames(lines)
  {
    failingTests := [];
    for i := 0 to |lines|
      invariant failingTests == FailingNames(lines[..i])
    {
      var line := lines[i];
      assert lines[..i + 1][..i] == lines[..i];
      if Contains(line, "\U{2716}") && Contains(line, "ms)") {
        var m := FailingName(line);
        if m.Some? {
          failingTests := failingTests + [m.value];
        }
      }
    }
    assert lines[..|lines|] == lines;
  }

  /** The whole script. The success path of the suite calls `process.exit(0)`
      only when no test failed, and otherwise reaches the end of the script,
      which also ends with status 0; a thrown suite exits 1. */
  method RunAllTests(formatter: Exec, expected: string, tests: Exec) returns (r: Outcome)
    ensures formatter.Threw? ==> r == Outcome(None, None, Failure)
    ensures formatter.Returned? ==>
      && (r.diff.None? <==> formatter.stdout == expected)
      && (r.diff.Some? ==> r.diff.value == CappedDiff(SplitLines(formatter.stdout), SplitLines(expected), Cap))
    ensures formatter.Returned? && tests.Returned? ==>
      r.suite == Some(SuiteCounts(tests.stdout)) && r.status == Finished
    ensures formatter.Returned? && tests.Threw? ==>
      && r.suite == Some(Failing(FailingNames(SplitLines(CaughtOutput(tests.errorStdout)))))
      && r.status == Failure
  {
    if formatter.Threw? {
      return Outcome(None, None, Failure);
    }
    var diff := CompareStage(formatter.stdout, expected);
    match tests
    case Returned(testOutput) =>
      r := Outcome(diff, Some(SuiteCounts(testOutput)), Finished);
    case Threw(e) =>
      var names := CollectFailingTests(SplitLines(CaughtOutput(e)));
      r := Outcome(diff, Some(Failing(names)), Failure);
  }
}
