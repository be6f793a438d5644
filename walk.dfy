/** The two loops the harness scripts share: a walk over every index that
    counts the differing lines and shows the first `k`, and a walk that stops
    at the first differing line. Their bodies are the scripts' own `for`
    loops over `0 .. max(outputLines.length, expectedLines.length) - 1`. */
module Walk {
  import opened Lines

  /** `diffCount++; if (diffCount <= k) show(i + 1)` at every differing index. */
  method CappedWalk(outputLines: seq<string>, expectedLines: seq<string>, k: nat) returns (d: LineDiff)
    ensures d == CappedDiff(outputLines, expectedLines, k)
  {
    var diffCount := 0;
    var shown: seq<nat> := [];
    for i := 0 to Max(|outputLines|, |expectedLines|)
      invariant diffCount == |DiffsBelow(outputLines, expectedLines, i)|
      invariant shown == LineNumbers(Take(DiffsBelow(outputLines, expectedLines, i), k))
    {
      DiffsBelowStep(outputLines, expectedLines, i);
      TakeSnoc(DiffsBelow(outputLines, expectedLines, i), i, k);
      if At(outputLines, i) != At(expectedLines, i) {
        diffCount := diffCount + 1;
        if diffCount <= k {
          shown := shown + [i + 1];
        }
      }
    }
    d := LineDiff(diffCount, shown, if diffCount > k then Some(diffCount - k) else None);
  }

  /** The loop that reports the first differing index and `break`s. */
  method FirstDifferingLine(outputLines: seq<string>, expectedLines: seq<string>) returns (first: Option<nat>)
    ensures first == FirstDiff(outputLines, expectedLines)
  {
    first := None;
    var n := Max(|outputLines|, |expectedLines|);
    for i := 0 to n
      invariant DiffsBelow(outputLines, expectedLines, i) == []
    {
      DiffsBelowStep(outputLines, expectedLines, i);
      if At(outputLines, i) != At(expectedLines, i) {
        DiffsBelowPrefix(outputLines, expectedLines, i + 1, n);
        first := Some(i);
        break;
      }
    }
  }
}
