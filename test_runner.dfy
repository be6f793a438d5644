/** test-runner.mjs, test 4: the line walk over the formatted document and
    the expected fixture, which clears `matches` at every differing line and
    records the first differing index in `firstDiff`, and the exit status
    derived from `matches`. */
module TestRunner {
  import opened Lines

  /** `matches`, `firstDiff`, the line number of the "First difference at
      line" message (None when it is not printed) and the exit status. */
  datatype Report = Report(matches: bool, firstDiff: int, firstLine: Option<nat>, status: int)

  method CompareDocument(output: string, expected: string) returns (r: Report)
    ensures var ds := TextDiffs(output, expected);
      && (r.matches <==> ds == [])
      && r.firstDiff == (if ds == [] then -1 else ds[0])
    ensures r.matches <==> output == expected
    ensures r.firstDiff == -1 <==> r.matches
    ensures r.firstDiff >= 0 ==>
      && Differs(SplitLines(output), SplitLines(expected), r.firstDiff)
      && (forall j: nat :: j < r.firstDiff ==> !Differs(SplitLines(output), SplitLines(expected), j))
    ensures r.firstLine == (if r.matches then None else Some(r.firstDiff + 1))
    ensures r.status == (if r.matches then 0 else 1)
  {
    var outputLines := SplitLines(output);
    var expectedLines := SplitLines(expected);
    var matches := true;
    var firstDiff := -1;
    var firstLine: Option<nat> := None;
    for i := 0 to Max(|outputLines|, |expectedLines|)
      invariant var ds := DiffsBelow(outputLines, expectedLines, i);
        && (matches <==> ds == [])
        && firstDiff == (if ds == [] then -1 else ds[0])
        && firstLine == (if ds == [] then None else Some(ds[0] + 1))
    {
      DiffsBelowStep(outputLines, expectedLines, i);
      if At(outputLines, i) != At(expectedLines, i) {
        if firstDiff == -1 {
          firstDiff := i;
          firstLine := Some(i + 1);
        }
        matches := false;
      }
    }
    FirstTextDiff(output, expected);
    r := Report(matches, firstDiff, firstLine, if matches then 0 else 1);
  }
}
