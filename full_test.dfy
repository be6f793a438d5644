/** full-test.js: a `node:test` case that prints every differing line, with
    absent lines shown as "" through `|| ''`, and then asserts that the two
    texts are strictly equal. */
module FullTest {
  import opened Lines

  datatype Report = Report(shown: seq<nat>, passes: bool)

  /** The uncapped printing loop, then `assert.strictEqual(output, expected)`. */
  method FullTest(output: string, expected: string) returns (r: Report)
    ensures r.shown == LineNumbers(TextDiffs(output, expected))
    ensures r.passes <==> output == expected
    ensures r.shown == [] <==> r.passes
  {
    var expectedLines := SplitLines(expected);
    var outputLines := SplitLines(output);
    var shown: seq<nat> := [];
    for i := 0 to Max(|expectedLines|, |outputLines|)
      invariant shown == LineNumbers(DiffsBelow(outputLines, expectedLines, i))
    {
      DiffsBelowStep(outputLines, expectedLines, i);
      if At(expectedLines, i) != At(outputLines, i) {
        shown := shown + [i + 1];
      }
    }
    NoDiffIffEqual(output, expected);
    r := Report(shown, output == expected);
  }
}
