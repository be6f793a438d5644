/** compare-files.js: read the saved output, exit 0 when it equals the
    fixture, otherwise show at most five differing lines and exit 1. */
module CompareFiles {
  import opened Lines
  import opened Walk
  import opened Process

  const Cap: nat := 5

  method CompareFiles(output: string, expected: string) returns (diff: Option<LineDiff>, status: int)
    ensures diff.None? <==> output == expected
    ensures diff.Some? ==> diff.value == CappedDiff(SplitLines(output), SplitLines(expected), Cap)
    ensures status == (if output == expected then 0 else 1)
  {
    if output == expected {
      return None, 0;
    }
    var d := CappedWalk(SplitLines(output), SplitLines(expected), Cap);
    diff, status := Some(d), Failure;
  }
}
