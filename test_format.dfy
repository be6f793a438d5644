/** test-format.mjs: equal texts exit 0 at once; otherwise show at most three
    differing lines and the total, and reach the end of the script, so a
    mismatch also ends with status 0. */
module TestFormat {
  import opened Lines
  import opened Walk
  import opened Process

  const Cap: nat := 3

  datatype Report = Report(diff: Option<LineDiff>, status: int)

  method TestFormat(output: string, expected: string) returns (r: Report)
    ensures output == expected ==> r == Report(None, 0)
    ensures output != expected ==>
      && r.diff == Some(CappedDiff(SplitLines(output), SplitLines(expected), Cap))
      && r.diff.value.count >= 1
    ensures r.status == Finished
  {
    if output == expected {
      return Report(None, 0);
    }
    CappedDiffMeaning(output, expected, Cap);
    var d := CappedWalk(SplitLines(output), SplitLines(expected), Cap);
    r := Report(Some(d), Finished);
  }
}
