/** direct-compare.js: on a mismatch show at most ten differing lines, then
    both line counts and the total. No branch calls `process.exit`. */
module DirectCompare {
  import opened Lines
  import opened Walk

  const Cap: nat := 10

  datatype Summary = Summary(diff: LineDiff, expectedLines: nat, actualLines: nat)

  method DirectCompare(output: string, expected: string) returns (r: Option<Summary>)
    ensures r.None? <==> output == expected
    ensures r.Some? ==>
      && r.value.diff == CappedDiff(SplitLines(output), SplitLines(expected), Cap)
      && r.value.diff.count >= 1
      && r.value.expectedLines == |SplitLines(expected)|
      && r.value.actualLines == |SplitLines(output)|
  {
    if output == expected {
      return None;
    }
    var expectedLines := SplitLines(expected);
    var outputLines := SplitLines(output);
    CappedDiffMeaning(output, expected, Cap);
    var d := CappedWalk(outputLines, expectedLines, Cap);
    r := Some(Summary(d, |expectedLines|, |outputLines|));
  }
}
