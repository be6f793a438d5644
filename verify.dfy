/** verify.js: on a perfect match run the test suite; on a mismatch report
    the first differing line, with the following line as context when the
    fixture has one, and exit 1. */
module VerifyScript {
  import opened Lines
  import opened Scan
  import opened Walk
  import opened Process

  const FailZero: string := "\U{2716} fail 0"
  const PassMark: string := "\U{2714} pass"

  /** The test stage: whether "All tests pass!" is printed, and the status. */
  datatype Stage = Stage(allPass: bool, status: int)

  datatype Report = Report(firstLine: Option<nat>, nextLineShown: bool, stage: Option<Stage>, status: int)

  /** A suite that returns passes when its output mentions `✖ fail 0` or
      `✔ pass`, and otherwise runs off the end of the script; a suite that
      throws passes only when its output mentions `✖ fail 0`. */
  function SuiteStage(tests: Exec): (r: Stage)
    ensures r.status == Failure <==> tests.Threw? && !Contains(CaughtOutput(tests.errorStdout), FailZero)
    ensures r.status == Finished <==> !(r.status == Failure)
    ensures tests.Threw? ==> (r.allPass <==> r.status == Finished)
  {
    match tests
    case Returned(t) => Stage(Contains(t, FailZero) || Contains(t, PassMark), Finished)
    case Threw(e) =>
      if Contains(CaughtOutput(e), FailZero) then Stage(true, Finished) else Stage(false, Failure)
  }

  /** The whole script after formatting `output`. */
  method Verify(output: string, expected: string, tests: Exec) returns (r: Report)
    ensures output == expected ==>
      r == Report(None, false, Some(SuiteStage(tests)), SuiteStage(tests).status)
    ensures output != expected ==>
      && FirstDiff(SplitLines(output), SplitLines(expected)).Some?
      && var d := FirstDiff(SplitLines(output), SplitLines(expected)).value;
      && r.firstLine == Some(d + 1)
      && r.nextLineShown == (d + 1 < |SplitLines(expected)|)
      && r.stage == None
      && r.status == Failure
  {
    if output == expected {
      var stage := SuiteStage(tests);
      return Report(None, false, Some(stage), stage.status);
    }
    var outLines := SplitLines(output);
    var expLines := SplitLines(expected);
    FirstDiffMeaning(output, expected);
    var first := FirstDifferingLine(outLines, expLines);
    var i := first.value;
    r := Report(Some(i + 1), i + 1 < |expLines|, None, Failure);
  }
}
