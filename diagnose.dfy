/** diagnose.mjs: always walk the lines, show at most five differences, print
    the total and both line counts, then four feature checks on the output. */
module Diagnose {
  import opened Lines
  import opened Scan
  import opened Walk

  const Cap: nat := 5

  datatype Features = Features(doctypeLowercase: bool, attributesQuoted: bool, selfClosing: bool, twoSpaceIndent: bool)

  datatype Report = Report(diff: LineDiff, outputLines: nat, expectedLines: nat, features: Features)

  /** The four `startsWith`/`includes` checks. */
  function FeatureChecks(output: string): (r: Features)
    ensures r.doctypeLowercase <==> |output| >= 15 && output[..15] == "<!doctype html>"
    ensures r.attributesQuoted <==> exists p: nat :: OccursAt(output, "id=\"main\"", p)
    ensures r.selfClosing <==> exists p: nat :: OccursAt(output, "/>", p)
    ensures r.twoSpaceIndent <==> exists p: nat :: OccursAt(output, "  <head>", p)
  {
    Features(StartsWith(output, "<!doctype html>"), Contains(output, "id=\"main\""),
      Contains(output, "/>"), Contains(output, "  <head>"))
  }

  method Diagnose(output: string, expected: string) returns (r: Report)
    ensures r.diff == CappedDiff(SplitLines(output), SplitLines(expected), Cap)
    ensures r.diff.count == 0 <==> output == expected
    ensures r.outputLines == CountChar('\n', output) + 1
    ensures r.expectedLines == CountChar('\n', expected) + 1
    ensures r.features == FeatureChecks(output)
  {
    var outputLines := SplitLines(output);
    var expectedLines := SplitLines(expected);
    var d := CappedWalk(outputLines, expectedLines, Cap);
    CappedDiffMeaning(output, expected, Cap);
    r := Report(d, |outputLines|, |expectedLines|, FeatureChecks(output));
  }
}
