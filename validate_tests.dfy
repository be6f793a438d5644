/** validate-tests.mjs: on a perfect match run the test suite and exit with
    its verdict; on a mismatch show at most five differing lines and the
    total, and exit 1. */
module ValidateTests {
  import opened Lines
  import opened Walk
  import opened Process

  const Cap: nat := 5

  datatype Report = Report(diff: Option<LineDiff>, status: int)

  method ValidateTests(output: string, expected: string, testsSucceed: bool) returns (r: Report)
    ensures output == expected ==> r == Report(None, if testsSucceed then 0 else 1)
    ensures output != expected ==>
      && r.diff == Some(CappedDiff(SplitLines(output), SplitLines(expected), Cap))
      && r.diff.value.count >= 1
      && r.status == Failure
    ensures r.status == 0 <==> output == expected && testsSucceed
  {
    if output == expected {
      return Report(None, if testsSucceed then 0 else 1);
    }
    CappedDiffMeaning(output, expected, Cap);
    var d := CappedWalk(SplitLines(output), SplitLines(expected), Cap);
    r := Report(Some(d), Failure);
  }
}
