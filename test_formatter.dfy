/** test-formatter.js: walk every line, count the differences, print the
    first ten (absent lines shown as "" through `|| ''`), and say whether
    everything matched. A formatter error is caught by `main().catch` and
    only printed. */
module TestFormatter {
  import opened Lines

  const Cap: nat := 10

  datatype Report = Report(differences: nat, shown: seq<nat>, allMatch: bool)

  /** The comparison loop, which tests `differences < 10` before counting. */
  method CompareLines(output: string, expected: string) returns (r: Report)
    ensures r.differences == |TextDiffs(output, expected)|
    ensures r.shown == LineNumbers(Take(TextDiffs(output, expected), Cap))
    ensures r.allMatch <==> r.differences == 0
    ensures r.allMatch <==> output == expected
  {
    var expectedLines := SplitLines(expected);
    var outputLines := SplitLines(output);
    var allMatch := true;
    var differences := 0;
    var shown: seq<nat> := [];
    for i := 0 to Max(|expectedLines|, |outputLines|)
      invariant differences == |DiffsBelow(outputLines, expectedLines, i)|
      invariant shown == LineNumbers(Take(DiffsBelow(outputLines, expectedLines, i), Cap))
      invariant allMatch <==> differences == 0
    {
      DiffsBelowStep(outputLines, expectedLines, i);
      TakeSnoc(DiffsBelow(outputLines, expectedLines, i), i, Cap);
      if At(expectedLines, i) != At(outputLines, i) {
        if differences < Cap {
          shown := shown + [i + 1];
        }
        differences := differences + 1;
        allMatch := false;
      }
    }
    NoDiffIffEqual(output, expected);
    r := Report(differences, shown, allMatch);
  }
}
