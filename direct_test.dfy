/** direct-test.mjs: find the first character position where output and
    fixture differ, the fixture line it falls on, a window of up to 50
    characters either side of it in both texts, and the two lines at that
    line number. A formatter error exits 1; every other run ends normally. */
module DirectTest {
  import opened Lines
  import opened Process

  /** The least position where the two texts disagree (one of them may be
      undefined there), or -1 when there is none. */
  function CharDiffFrom(output: string, expected: string, i: nat): (r: int)
    requires i <= Max(|output|, |expected|)
    ensures r == -1 || (i <= r < Max(|output|, |expected|) && At(output, r) != At(expected, r))
    ensures r == -1 ==> forall j :: i <= j < Max(|output|, |expected|) ==> At(output, j) == At(expected, j)
    ensures r != -1 ==> forall j :: i <= j < r ==> At(output, j) == At(expected, j)
    decreases Max(|output|, |expected|) - i
  {
    if i == Max(|output|, |expected|) then -1
    else if At(output, i) != At(expected, i) then i
    else CharDiffFrom(output, expected, i + 1)
  }

  /** The character-by-character loop, which stops at the first difference. */
  method FirstCharDiff(output: string, expected: string) returns (firstDiff: int)
    ensures firstDiff == CharDiffFrom(output, expected, 0)
  {
    firstDiff := -1;
    var n := Max(|output|, |expected|);
    for i := 0 to n
      invariant CharDiffFrom(output, expected, 0) == CharDiffFrom(output, expected, i)
    {
      if At(output, i) != At(expected, i) {
        firstDiff := i;
        break;
      }
    }
  }

  /** The search finds no difference exactly when the texts are equal. */
  lemma {:induction false} CharDiffNoneIffEqual(output: string, expected: string)
    ensures CharDiffFrom(output, expected, 0) == -1 <==> output == expected
  {
    if CharDiffFrom(output, expected, 0) == -1 {
      var m := Min(|output|, |expected|);
      assert At(output, m) == At(expected, m);
      assert |output| == |expected|;
      forall j | 0 <= j < |output| ensures output[j] == expected[j] {
        assert At(output, j) == At(expected, j);
      }
    }
  }

  /** When one text is a proper prefix of the other, the first difference is
      at the shorter length. */
  lemma {:induction false} PrefixDiffersAtShorterLength(shorter: string, rest: string)
    requires rest != []
    ensures CharDiffFrom(shorter, shorter + rest, 0) == |shorter|
    ensures CharDiffFrom(shorter + rest, shorter, 0) == |shorter|
  {
    var longer := shorter + rest;
    forall j | 0 <= j < |shorter| ensures At(shorter, j) == At(longer, j) {
      assert longer[j] == shorter[j];
    }
    assert At(shorter, |shorter|) == None;
  }

  /** The first difference lies within the fixture or right at its end. */
  lemma {:induction false} FirstDiffWithinFixture(output: string, expected: string)
    requires CharDiffFrom(output, expected, 0) != -1
    ensures CharDiffFrom(output, expected, 0) <= |expected|
  {
    if |expected| < |output| {
      assert At(output, |expected|) != At(expected, |expected|);
    }
  }

  /** `s.substring(start, end)`: both ends clamped to the text, swapped when
      the start is past the end. */
  function Substring(s: string, start: int, end: int): (r: string)
    ensures |r| <= |s|
  {
    var a := if start < 0 then 0 else if start > |s| then |s| else start;
    var b := if end < 0 then 0 else if end > |s| then |s| else end;
    if a <= b then s[a..b] else s[b..a]
  }

  /** `expected.substring(0, firstDiff).split('\n').length`. */
  function LineNumber(expected: string, firstDiff: int): (r: nat)
    requires 0 <= firstDiff <= |expected|
    ensures r == CountChar('\n', expected[..firstDiff]) + 1
  {
    assert Substring(expected, 0, firstDiff) == expected[..firstDiff];
    |SplitLines(Substring(expected, 0, firstDiff))|
  }

  /** A prefix holds no more newlines than the whole text. */
  lemma {:induction false} CountCharPrefix(c: char, s: string, n: nat)
    requires n <= |s|
    ensures CountChar(c, s[..n]) <= CountChar(c, s)
  {
    if n > 0 {
      assert s[..n][1..] == s[1..][..n - 1];
      CountCharPrefix(c, s[1..], n - 1);
    }
  }

  /** The line number names an existing fixture line. */
  lemma {:induction false} LineNumberInRange(expected: string, firstDiff: int)
    requires 0 <= firstDiff <= |expected|
    ensures 1 <= LineNumber(expected, firstDiff) <= |SplitLines(expected)|
  {
    CountCharPrefix('\n', expected, firstDiff);
  }

  /** `Math.max(0, firstDiff - 50)` and `Math.min(expected.length, firstDiff + 50)`. */
  function Window(expected: string, firstDiff: int): (nat, nat)
    requires 0 <= firstDiff
  {
    (if firstDiff - 50 < 0 then 0 else firstDiff - 50,
     if |expected| < firstDiff + 50 then |expected| else firstDiff + 50)
  }

  /** The window lies inside the fixture, holds at most 100 characters, and
      contains the first difference unless that is the fixture's end. */
  lemma {:induction false} WindowInBounds(expected: string, firstDiff: int)
    requires 0 <= firstDiff <= |expected|
    ensures var (start, end) := Window(expected, firstDiff);
      && start <= firstDiff <= end <= |expected|
      && end - start <= 100
      && (firstDiff < |expected| ==> start <= firstDiff < end)
  {
  }

  /** The same bounds cut a slice of at most 100 characters out of the output. */
  lemma {:induction false} OutputSliceBounded(output: string, expected: string, firstDiff: int)
    requires 0 <= firstDiff <= |expected|
    ensures var (start, end) := Window(expected, firstDiff);
      |Substring(output, start, end)| <= 100
  {
  }

  datatype Report = Report(
    firstDiff: int,
    lineNum: Option<nat>,
    expectedAround: string,
    actualAround: string,
    expectedLine: Option<string>,
    actualLine: Option<string>,
    status: int)

  /** The whole script. */
  method DirectTest(formatter: Exec, expected: string) returns (r: Report)
    ensures formatter.Threw? ==> r.status == Failure && r.lineNum.None?
    ensures formatter.Returned? ==> r.status == Finished
    ensures formatter.Returned? ==>
      var output := formatter.stdout;
      && r.firstDiff == CharDiffFrom(output, expected, 0)
      && (r.firstDiff == -1 <==> output == expected)
      && (r.firstDiff == -1 ==> r.lineNum.None?)
      && (r.firstDiff != -1 ==>
            && 0 <= r.firstDiff <= |expected|
            && r.lineNum == Some(LineNumber(expected, r.firstDiff))
            && r.expectedAround == Substring(expected, Window(expected, r.firstDiff).0, Window(expected, r.firstDiff).1)
            && r.actualAround == Substring(output, Window(expected, r.firstDiff).0, Window(expected, r.firstDiff).1)
            && r.expectedLine.Some?
            && r.expectedLine == At(SplitLines(expected), r.lineNum.value - 1)
            && r.actualLine == At(SplitLines(output), r.lineNum.value - 1))
  {
    if formatter.Threw? {
      return Report(-1, None, "", "", None, None, Failure);
    }
    var output := formatter.stdout;
    var firstDiff := FirstCharDiff(output, expected);
    CharDiffNoneIffEqual(output, expected);
    if firstDiff == -1 {
      return Report(-1, None, "", "", None, None, Finished);
    }
    FirstDiffWithinFixture(output, expected);
    var lineNum := LineNumber(expected, firstDiff);
    LineNumberInRange(expected, firstDiff);
    var (start, end) := Window(expected, firstDiff);
    var expectedLines := SplitLines(expected);
    var outputLines := SplitLines(output);
    r := Report(firstDiff, Some(lineNum), Substring(expected, start, end), Substring(output, start, end),
      At(expectedLines, lineNum - 1), At(outputLines, lineNum - 1), Finished);
  }

  /** The line number comes from the fixture alone: when the output only adds
      a new line after the whole fixture, the two lines shown are equal. */
  lemma {:induction false} AppendedLineShowsEqualLines()
    ensures CharDiffFrom("a\nb", "a", 0) == 1
    ensures LineNumber("a", 1) == 1
    ensures At(SplitLines("a"), 0) == At(SplitLines("a\nb"), 0) == Some("a")
  {
    PrefixDiffersAtShorterLength("a", "\nb");
    assert "a" + "\nb" == "a\nb";
    assert "a"[1..] == "" && "b"[1..] == "";
    assert SplitLines("") == [""];
    assert ['a'] + "" == "a" && ['b'] + "" == "b";
    assert SplitLines("a") == ["a"];
    assert SplitLines("b") == ["b"];
    assert "a\nb"[1..] == "\nb" && "\nb"[1..] == "b";
    assert SplitLines("\nb") == ["", "b"];
    assert SplitLines("a\nb") == ["a", "b"];
  }
}
