/** compare-output.js: on a mismatch, print the first character position at
    which the fixture and the output disagree (`findIndex` over the fixture's
    characters) and then the differing lines, with a loop that `continue`s
    past indices below 5 and `break`s after printing the first differing
    index at 5 or beyond. Every character is taken to be one UTF-16 unit. */
module CompareOutput {
  import opened Lines
  import opened Walk

  const Cap: nat := 5

  /** `findIndex((char, i) => char !== output[i])` from position `i` of the fixture. */
  function FindIndexFrom(expected: string, output: string, i: nat): (r: int)
    requires i <= |expected|
    ensures r == -1 || (i <= r < |expected| && At(output, r) != Some(expected[r]))
    ensures r == -1 ==> forall j :: i <= j < |expected| ==> At(output, j) == Some(expected[j])
    ensures r != -1 ==> forall j :: i <= j < r ==> At(output, j) == Some(expected[j])
    decreases |expected| - i
  {
    if i == |expected| then -1
    else if At(output, i) != Some(expected[i]) then i
    else FindIndexFrom(expected, output, i + 1)
  }

  /** `[...expected].findIndex((char, i) => char !== output[i])`. */
  function FirstCharDifference(expected: string, output: string): (r: int)
    ensures r == -1 <==> forall j :: 0 <= j < |expected| ==> At(output, j) == Some(expected[j])
    ensures r != -1 ==> 0 <= r < |expected| && At(output, r) != Some(expected[r])
    ensures r != -1 ==> forall j :: 0 <= j < r ==> At(output, j) == Some(expected[j])
  {
    FindIndexFrom(expected, output, 0)
  }

  /** When the fixture is a proper prefix of the output, -1 is printed
      although the texts differ: the search never looks past the fixture. */
  lemma {:induction false} FixturePrefixGivesMinusOne(expected: string, rest: string)
    requires rest != []
    ensures expected + rest != expected
    ensures FirstCharDifference(expected, expected + rest) == -1
  {
    var output := expected + rest;
    assert |output| > |expected|;
    forall j | 0 <= j < |expected| ensures At(output, j) == Some(expected[j]) {
      assert output[j] == expected[j];
    }
  }

  /** When the output is a proper prefix of the fixture, the printed index is
      the output's length (the first position where `output[i]` is undefined). */
  lemma {:induction false} OutputPrefixGivesItsLength(output: string, rest: string)
    requires rest != []
    ensures FirstCharDifference(output + rest, output) == |output|
  {
    var expected := output + rest;
    forall j | 0 <= j < |output| ensures At(output, j) == Some(expected[j]) {
      assert expected[j] == output[j];
    }
    assert At(output, |output|) == None;
  }

  /** The differing indices as far as the first one at `k` or beyond,
      inclusive: what the `continue`/`break` loop prints. */
  function UpTo(ds: seq<nat>, k: nat): seq<nat>
  {
    if ds == [] then []
    else if ds[0] >= k then [ds[0]]
    else [ds[0]] + UpTo(ds[1..], k)
  }

  /** UpTo keeps a prefix, and only its last entry may be `k` or beyond. */
  lemma {:induction false} UpToShape(ds: seq<nat>, k: nat)
    ensures |UpTo(ds, k)| <= |ds|
    ensures UpTo(ds, k) == ds[..|UpTo(ds, k)|]
    ensures forall j :: 0 <= j < |UpTo(ds, k)| - 1 ==> UpTo(ds, k)[j] < k
    ensures |UpTo(ds, k)| < |ds| ==> UpTo(ds, k) != [] && UpTo(ds, k)[|UpTo(ds, k)| - 1] >= k
  {
    if ds != [] && ds[0] < k {
      UpToShape(ds[1..], k);
    }
  }

  /** Stopping after the first entry at `k` or beyond. */
  lemma {:induction false} UpToStops(p: seq<nat>, x: nat, rest: seq<nat>, k: nat)
    requires forall j :: 0 <= j < |p| ==> p[j] < k
    requires x >= k
    ensures UpTo(p + [x] + rest, k) == p + [x]
  {
    if p != [] {
      assert (p + [x] + rest)[1..] == p[1..] + [x] + rest;
      UpToStops(p[1..], x, rest, k);
    }
  }

  /** Nothing at `k` or beyond: UpTo keeps everything. */
  lemma {:induction false} UpToAllBelow(ds: seq<nat>, k: nat)
    requires forall j :: 0 <= j < |ds| ==> ds[j] < k
    ensures UpTo(ds, k) == ds
  {
    if ds != [] {
      UpToAllBelow(ds[1..], k);
    }
  }

  /** Where the loop breaks, at a differing index `i` at `Cap` or beyond with
      every earlier differing index below `Cap`, it has shown UpTo. */
  lemma {:induction false} UpToAtBreak(a: seq<string>, b: seq<string>, i: nat)
    requires i < Max(|a|, |b|) && Differs(a, b, i) && i >= Cap
    requires forall j :: 0 <= j < |DiffsBelow(a, b, i)| ==> DiffsBelow(a, b, i)[j] < Cap
    ensures UpTo(DiffIndices(a, b), Cap) == DiffsBelow(a, b, i) + [i]
  {
    var p := DiffsBelow(a, b, i);
    DiffsBelowStep(a, b, i);
    DiffsBelowPrefix(a, b, i + 1, Max(|a|, |b|));
    var ds := DiffIndices(a, b);
    assert ds == p + [i] + ds[|p| + 1..];
    UpToStops(p, i, ds[|p| + 1..], Cap);
  }

  /** The line loop as written. */
  method ShowDifferingLines(outputLines: seq<string>, expectedLines: seq<string>) returns (shown: seq<nat>)
    ensures shown == LineNumbers(UpTo(DiffIndices(outputLines, expectedLines), Cap))
  {
    shown := [];
    var n := Max(|expectedLines|, |outputLines|);
    ghost var stopped := false;
    DiffsBelowSpec(outputLines, expectedLines, 0);
    for i := 0 to n
      invariant !stopped
      invariant shown == LineNumbers(DiffsBelow(outputLines, expectedLines, i))
      invariant forall j :: 0 <= j < |DiffsBelow(outputLines, expectedLines, i)| ==>
        DiffsBelow(outputLines, expectedLines, i)[j] < Cap
    {
      DiffsBelowStep(outputLines, expectedLines, i);
      if At(expectedLines, i) != At(outputLines, i) {
        LineNumbersSnoc(DiffsBelow(outputLines, expectedLines, i), i);
        shown := shown + [i + 1];
        if i < Cap {
          continue;
        } else {
          UpToAtBreak(outputLines, expectedLines, i);
          stopped := true;
          break;
        }
      }
    }
    if !stopped {
      UpToAllBelow(DiffIndices(outputLines, expectedLines), Cap);
    }
  }

  datatype Report = Report(firstChar: Option<int>, shown: seq<nat>)

  /** The whole comparison: nothing is searched when the texts are equal. */
  method CompareOutput(output: string, expected: string) returns (r: Report)
    ensures output == expected ==> r == Report(None, [])
    ensures output != expected ==>
      && r.firstChar == Some(FirstCharDifference(expected, output))
      && r.shown == LineNumbers(UpTo(TextDiffs(output, expected), Cap))
  {
    if output == expected {
      return Report(None, []);
    }
    var shown := ShowDifferingLines(SplitLines(output), SplitLines(expected));
    r := Report(Some(FirstCharDifference(expected, output)), shown);
  }

  /** When each of the first six lines differs, six lines are shown, one more
      than the five the loop is meant to show. */
  lemma {:induction false} SixLinesShown(outputLines: seq<string>, expectedLines: seq<string>)
    requires |outputLines| >= 6 && |expectedLines| >= 6
    requires forall i :: 0 <= i < 6 ==> outputLines[i] != expectedLines[i]
    ensures |LineNumbers(UpTo(DiffIndices(outputLines, expectedLines), Cap))| == 6
  {
    var a, b := outputLines, expectedLines;
    forall i: nat | i < 6 ensures Differs(a, b, i) {
      assert At(a, i) == Some(a[i]) && At(b, i) == Some(b[i]);
    }
    var n := Max(|a|, |b|);
    DiffsBelowStep(a, b, 0);
    DiffsBelowStep(a, b, 1);
    DiffsBelowStep(a, b, 2);
    DiffsBelowStep(a, b, 3);
    DiffsBelowStep(a, b, 4);
    DiffsBelowStep(a, b, 5);
    assert DiffsBelow(a, b, 5) == [0, 1, 2, 3, 4];
    assert DiffsBelow(a, b, 6) == [0, 1, 2, 3, 4, 5];
    DiffsBelowPrefix(a, b, 6, n);
    var ds := DiffIndices(a, b);
    assert ds == [0, 1, 2, 3, 4] + [5] + ds[6..];
    UpToStops([0, 1, 2, 3, 4], 5, ds[6..], Cap);
  }

  /** The display the comment describes: the first five differing lines. */
  method ShowFirstDifferences(outputLines: seq<string>, expectedLines: seq<string>) returns (shown: seq<nat>)
    ensures shown == LineNumbers(Take(DiffIndices(outputLines, expectedLines), Cap))
    ensures |shown| == Min(Cap, |DiffIndices(outputLines, expectedLines)|)
  {
    var d := CappedWalk(outputLines, expectedLines, Cap);
    CappedDisplay(outputLines, expectedLines, Cap);
    shown := d.shown;
  }
}
