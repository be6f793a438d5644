/** quick-test.js: format, and on a mismatch print the first differing line.
    The whole script sits in a `try` whose `catch` only prints, so a
    formatter error ends the run without a comparison. */
module QuickTest {
  import opened Lines
  import opened Walk
  import opened Process

  /** The line number of "First difference at line", when it is printed. */
  method QuickTest(formatter: Exec, expected: string) returns (firstLine: Option<nat>)
    ensures formatter.Threw? ==> firstLine.None?
    ensures formatter.Returned? ==>
      (firstLine.None? <==> formatter.stdout == expected)
    ensures formatter.Returned? && firstLine.Some? ==>
      var a, b := SplitLines(formatter.stdout), SplitLines(expected);
      && firstLine.value >= 1
      && Differs(a, b, firstLine.value - 1)
      && (forall j: nat :: j < firstLine.value - 1 ==> !Differs(a, b, j))
  {
    firstLine := None;
    if formatter.Returned? && formatter.stdout != expected {
      var output := formatter.stdout;
      FirstDiffMeaning(output, expected);
      var first := FirstDifferingLine(SplitLines(output), SplitLines(expected));
      firstLine := Some(first.value + 1);
    }
  }
}
