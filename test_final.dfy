/** test-final.js: on a perfect match run the tests and say whether they
    passed; on a mismatch print the first differing line. No branch calls
    `process.exit`. */
module TestFinal {
  import opened Lines
  import opened Walk

  datatype Report = Report(testsPassed: Option<bool>, firstLine: Option<nat>)

  method TestFinal(output: string, expected: string, testsSucceed: bool) returns (r: Report)
    ensures output == expected ==> r == Report(Some(testsSucceed), None)
    ensures output != expected ==>
      && r.testsPassed.None?
      && FirstDiff(SplitLines(output), SplitLines(expected)).Some?
      && r.firstLine == Some(FirstDiff(SplitLines(output), SplitLines(expected)).value + 1)
  {
    if output == expected {
      return Report(Some(testsSucceed), None);
    }
    FirstDiffMeaning(output, expected);
    var first := FirstDifferingLine(SplitLines(output), SplitLines(expected));
    r := Report(None, Some(first.value + 1));
  }
}
