/** Line splitting and the line-by-line comparison that the HTML harness
    scripts repeat: split both texts on '\n' exactly as JavaScript's
    `String.prototype.split('\n')` does, walk every index below the larger
    line count, and call an index "differing" when the two entries are not
    strictly equal (an index past the end of one array yields `undefined`,
    modelled as None, which differs from every string, "" included). */
module Lines {

  datatype Option<T> = None | Some(value: T)

  function Max(a: nat, b: nat): nat { if a < b then b else a }

  function Min(a: nat, b: nat): nat { if a < b then a else b }

  /** Number of occurrences of `c` in `s`. */
  function CountChar(c: char, s: string): nat
  {
    if s == [] then 0 else (if s[0] == c then 1 else 0) + CountChar(c, s[1..])
  }

  /** `s.split('\n')`: no trimming, so "" gives [""] and "a\n" gives ["a", ""]. */
  function SplitLines(s: string): (r: seq<string>)
    ensures |r| == CountChar('\n', s) + 1
  {
    if s == [] then [""]
    else
      var rest := SplitLines(s[1..]);
      if s[0] == '\n' then [""] + rest
      else [[s[0]] + rest[0]] + rest[1..]
  }

  /** No piece of a split holds the separator. */
  lemma {:induction false} SplitLinesHaveNoNewline(s: string)
    ensures forall i :: 0 <= i < |SplitLines(s)| ==> '\n' !in SplitLines(s)[i]
  {
    if s != [] {
      SplitLinesHaveNoNewline(s[1..]);
    }
  }

  /** `lines.join(sep)`. */
  function Join(lines: seq<string>, sep: string): string
  {
    if |lines| == 0 then ""
    else if |lines| == 1 then lines[0]
    else lines[0] + sep + Join(lines[1..], sep)
  }

  /** Splitting loses nothing: joining the pieces with '\n' gives the text back. */
  lemma {:induction false} JoinSplitLines(s: string)
    ensures Join(SplitLines(s), "\n") == s
  {
    if s != [] {
      JoinSplitLines(s[1..]);
      var rest := SplitLines(s[1..]);
      assert s == [s[0]] + s[1..];
      if s[0] == '\n' {
        assert ([""] + rest)[1..] == rest;
      } else if |rest| > 1 {
        var t := [[s[0]] + rest[0]] + rest[1..];
        assert t[1..] == rest[1..];
        assert Join(rest, "\n") == rest[0] + "\n" + Join(rest[1..], "\n");
      }
    }
  }

  /** Two texts with the same line arrays are the same text. */
  lemma {:induction false} SplitLinesInjective(x: string, y: string)
    requires SplitLines(x) == SplitLines(y)
    ensures x == y
  {
    JoinSplitLines(x);
    JoinSplitLines(y);
  }

  /** `xs[i]` on an array or a string: the element, or `undefined` (None)
      past the end. */
  function At<T>(xs: seq<T>, i: nat): (r: Option<T>)
    ensures r.Some? <==> i < |xs|
    ensures r.Some? ==> r.value == xs[i]
  {
    if i < |xs| then Some(xs[i]) else None
  }

  /** `a[i] !== b[i]` on two line arrays. */
  predicate Differs(a: seq<string>, b: seq<string>, i: nat)
  {
    At(a, i) != At(b, i)
  }

  /** The differing indices below `n`, in the order a loop from 0 meets them. */
  function DiffsBelow(a: seq<string>, b: seq<string>, n: nat): seq<nat>
  {
    if n == 0 then []
    else DiffsBelow(a, b, n - 1) + (if Differs(a, b, n - 1) then [n - 1] else [])
  }

  /** DiffsBelow lists every differing index below `n`, only those, ascending. */
  lemma {:induction false} DiffsBelowSpec(a: seq<string>, b: seq<string>, n: nat)
    ensures var r := DiffsBelow(a, b, n);
      && |r| <= n
      && (forall j :: 0 <= j < |r| ==> r[j] < n && Differs(a, b, r[j]))
      && (forall i: nat :: i < n && Differs(a, b, i) ==> i in r)
      && (forall j, k :: 0 <= j < k < |r| ==> r[j] < r[k])
  {
    if n > 0 {
      DiffsBelowSpec(a, b, n - 1);
    }
  }

  /** Every differing index of the walk over `0 .. max(|a|, |b|) - 1`, ascending. */
  function DiffIndices(a: seq<string>, b: seq<string>): seq<nat>
  {
    DiffsBelow(a, b, Max(|a|, |b|))
  }

  /** The walk never misses a difference: beyond max(|a|, |b|) both sides are
      `undefined`, so every differing index is in DiffIndices. */
  lemma {:induction false} DiffIndicesComplete(a: seq<string>, b: seq<string>, i: nat)
    ensures i in DiffIndices(a, b) <==> Differs(a, b, i)
  {
    DiffsBelowSpec(a, b, Max(|a|, |b|));
    if i >= Max(|a|, |b|) {
      assert At(a, i) == None == At(b, i);
    }
  }

  /** The set of differing indices below `n`. */
  function DiffSetBelow(a: seq<string>, b: seq<string>, n: nat): set<nat>
  {
    set i: nat | i < n && Differs(a, b, i)
  }

  /** Extending the range `0 .. m - 1` by the index `m` adds at most `m`. */
  lemma {:induction false} DiffSetStep(a: seq<string>, b: seq<string>, m: nat, n: nat)
    requires n == m + 1
    ensures m !in DiffSetBelow(a, b, m)
    ensures DiffSetBelow(a, b, n) ==
      DiffSetBelow(a, b, m) + (if Differs(a, b, m) then {m} else {})
  {
    var s, t := DiffSetBelow(a, b, m), DiffSetBelow(a, b, n);
    assert forall i :: i in t <==> i in s + (if Differs(a, b, m) then {m} else {});
  }

  /** A counter incremented at each differing index ends equal to the number
      of differing indices, counted as a set. */
  lemma {:induction false} DiffCountIsCardinality(a: seq<string>, b: seq<string>, n: nat)
    ensures |DiffsBelow(a, b, n)| == |DiffSetBelow(a, b, n)|
  {
    if n == 0 {
      assert DiffSetBelow(a, b, 0) == {};
    } else {
      var m := n - 1;
      DiffCountIsCardinality(a, b, m);
      DiffSetStep(a, b, m, n);
      var s := DiffSetBelow(a, b, m);
      assert DiffsBelow(a, b, n) == DiffsBelow(a, b, m) + (if Differs(a, b, m) then [m] else []);
      if Differs(a, b, m) {
        assert |s + {m}| == |s| + 1;
      }
    }
  }

  /** A line array shows no difference against itself. */
  lemma {:induction false} NoSelfDiff(a: seq<string>, n: nat)
    ensures DiffsBelow(a, a, n) == []
  {
    if n > 0 {
      NoSelfDiff(a, n - 1);
      assert !Differs(a, a, n - 1);
    }
  }

  /** The walk shows no difference exactly when the two texts are equal. */
  lemma {:induction false} NoDiffIffEqual(x: string, y: string)
    ensures DiffIndices(SplitLines(x), SplitLines(y)) == [] <==> x == y
  {
    var a, b := SplitLines(x), SplitLines(y);
    if DiffIndices(a, b) == [] {
      var m := Min(|a|, |b|);
      DiffIndicesComplete(a, b, m);
      assert !Differs(a, b, m);
      assert |a| == |b|;
      forall i | 0 <= i < |a| ensures a[i] == b[i] {
        DiffIndicesComplete(a, b, i);
        assert !Differs(a, b, i);
        assert At(a, i) == Some(a[i]) && At(b, i) == Some(b[i]);
      }
      assert a == b;
      SplitLinesInjective(x, y);
    }
    if x == y {
      NoSelfDiff(a, |a|);
    }
  }

  /** The first entry of DiffIndices is the least differing index. */
  lemma {:induction false} FirstDiffIsLeast(a: seq<string>, b: seq<string>)
    requires DiffIndices(a, b) != []
    ensures Differs(a, b, DiffIndices(a, b)[0])
    ensures forall j: nat :: j < DiffIndices(a, b)[0] ==> !Differs(a, b, j)
  {
    var ds := DiffIndices(a, b);
    DiffsBelowSpec(a, b, Max(|a|, |b|));
    forall j: nat | j < ds[0] ensures !Differs(a, b, j) {
      assert forall k :: 0 <= k < |ds| ==> ds[k] != j;
      assert j !in ds;
      DiffIndicesComplete(a, b, j);
    }
  }

  /** What a first-difference walk over two texts can rely on. */
  lemma {:induction false} FirstTextDiff(x: string, y: string)
    ensures TextDiffs(x, y) == [] <==> x == y
    ensures TextDiffs(x, y) != [] ==>
      var a, b, d := SplitLines(x), SplitLines(y), TextDiffs(x, y)[0];
      && Differs(a, b, d)
      && (forall j: nat :: j < d ==> !Differs(a, b, j))
  {
    NoDiffIffEqual(x, y);
    if TextDiffs(x, y) != [] {
      FirstDiffIsLeast(SplitLines(x), SplitLines(y));
    }
  }

  /** A difference count of a failed comparison is at least one. */
  lemma {:induction false} MismatchHasDifference(x: string, y: string)
    requires x != y
    ensures |DiffIndices(SplitLines(x), SplitLines(y))| >= 1
  {
    NoDiffIffEqual(x, y);
  }

  /** Adding the next index to the walk. */
  lemma {:induction false} DiffsBelowStep(a: seq<string>, b: seq<string>, i: nat)
    ensures DiffsBelow(a, b, i + 1) ==
      DiffsBelow(a, b, i) + (if Differs(a, b, i) then [i] else [])
  {
  }

  /** An earlier stop of the walk sees a prefix of what a later stop sees. */
  lemma {:induction false} DiffsBelowPrefix(a: seq<string>, b: seq<string>, i: nat, n: nat)
    requires i <= n
    ensures |DiffsBelow(a, b, i)| <= |DiffsBelow(a, b, n)|
    ensures DiffsBelow(a, b, i) == DiffsBelow(a, b, n)[..|DiffsBelow(a, b, i)|]
  {
    if i < n {
      DiffsBelowPrefix(a, b, i, n - 1);
      var p, q := DiffsBelow(a, b, i), DiffsBelow(a, b, n - 1);
      assert DiffsBelow(a, b, n)[..|q|] == q;
      assert q[..|p|] == p;
    }
  }

  /** The differing line indices of two texts, ascending. */
  function TextDiffs(x: string, y: string): seq<nat>
  {
    DiffIndices(SplitLines(x), SplitLines(y))
  }

  /** The set of differing line indices of two texts. */
  function DifferingLines(x: string, y: string): set<nat>
  {
    var a, b := SplitLines(x), SplitLines(y);
    DiffSetBelow(a, b, Max(|a|, |b|))
  }

  /** What a reporting script derives from a capped walk: the number of
      differing lines, the line numbers it shows, and the N of its
      "... and N more differences" line when it prints one. */
  datatype LineDiff = LineDiff(count: nat, shown: seq<nat>, more: Option<nat>)

  /** The first `k` entries of `ds`, or all of them when there are fewer. */
  function Take(ds: seq<nat>, k: nat): seq<nat>
  {
    ds[..Min(k, |ds|)]
  }

  /** Indices as the 1-based line numbers the scripts print (`i + 1`). */
  function LineNumbers(ds: seq<nat>): seq<nat>
  {
    seq(|ds|, j requires 0 <= j < |ds| => ds[j] + 1)
  }

  /** One more index adds one more line number at the end. */
  lemma {:induction false} LineNumbersSnoc(ds: seq<nat>, x: nat)
    ensures LineNumbers(ds + [x]) == LineNumbers(ds) + [x + 1]
  {
    assert forall j :: 0 <= j < |ds| ==> (ds + [x])[j] == ds[j];
  }

  /** What a capped display shows after one more differing index `x`. */
  lemma {:induction false} TakeSnoc(ds: seq<nat>, x: nat, k: nat)
    ensures LineNumbers(Take(ds + [x], k)) ==
      if |ds| < k then LineNumbers(Take(ds, k)) + [x + 1] else LineNumbers(Take(ds, k))
  {
    if |ds| < k {
      assert Take(ds + [x], k) == Take(ds, k) + [x];
    } else {
      assert Take(ds + [x], k) == Take(ds, k);
    }
  }

  /** Every differing index below the `j`-th entry of DiffIndices comes
      before that entry. */
  lemma {:induction false} LowerDiffsListedFirst(a: seq<string>, b: seq<string>, j: nat, i: nat)
    requires j < |DiffIndices(a, b)|
    requires i < DiffIndices(a, b)[j] && Differs(a, b, i)
    ensures exists m :: 0 <= m < j && DiffIndices(a, b)[m] == i
  {
    var ds := DiffIndices(a, b);
    DiffsBelowSpec(a, b, Max(|a|, |b|));
    DiffIndicesComplete(a, b, i);
    var m :| 0 <= m < |ds| && ds[m] == i;
    assert forall l :: j <= l < |ds| ==> ds[j] <= ds[l];
    assert m < j;
  }

  /** The `j`-th shown line number is the `j`-th index plus one. */
  lemma {:induction false} ShownEntries(ds: seq<nat>, k: nat)
    ensures |LineNumbers(Take(ds, k))| == Min(k, |ds|)
    ensures forall j :: 0 <= j < Min(k, |ds|) ==> LineNumbers(Take(ds, k))[j] == ds[j] + 1
  {
  }

  /** A display capped at `k` shows `min(k, count)` differing indices,
      ascending, each as its line number. */
  lemma {:induction false} CappedDisplay(a: seq<string>, b: seq<string>, k: nat)
    ensures var shown := LineNumbers(Take(DiffIndices(a, b), k));
      && |shown| == Min(k, |DiffIndices(a, b)|)
      && (forall j :: 0 <= j < |shown| ==> Differs(a, b, shown[j] - 1))
      && (forall j, l :: 0 <= j < l < |shown| ==> shown[j] < shown[l])
  {
    ShownEntries(DiffIndices(a, b), k);
    DiffsBelowSpec(a, b, Max(|a|, |b|));
  }

  /** The shown indices are the lowest ones: a differing index below a shown
      one is itself shown, earlier. */
  lemma {:induction false} CappedDisplayShowsLowest(a: seq<string>, b: seq<string>, k: nat, j: nat, i: nat)
    requires j < |LineNumbers(Take(DiffIndices(a, b), k))|
    requires i + 1 < LineNumbers(Take(DiffIndices(a, b), k))[j] && Differs(a, b, i)
    ensures i + 1 in LineNumbers(Take(DiffIndices(a, b), k))[..j]
  {
    var ds := DiffIndices(a, b);
    var shown := LineNumbers(Take(ds, k));
    ShownEntries(ds, k);
    LowerDiffsListedFirst(a, b, j, i);
    var m :| 0 <= m < j && ds[m] == i;
    assert shown[..j][m] == i + 1;
  }

  /** What a walk capped at `k` produces: the count, the first `k` differing
      indices as line numbers, and the number in the "... and N more" line. */
  function CappedDiff(a: seq<string>, b: seq<string>, k: nat): LineDiff
  {
    var ds := DiffIndices(a, b);
    LineDiff(|ds|, LineNumbers(Take(ds, k)), if |ds| > k then Some(|ds| - k) else None)
  }

  /** The capped report of two texts: the count is the number of differing
      lines and is zero only for equal texts; the shown and the further ones
      add up to the count, and "more" is printed exactly when the count
      exceeds the cap. */
  lemma {:induction false} CappedDiffMeaning(x: string, y: string, k: nat)
    ensures var d := CappedDiff(SplitLines(x), SplitLines(y), k);
      && d.count == |DifferingLines(x, y)|
      && (d.count == 0 <==> x == y)
      && (d.more.Some? <==> d.count > k)
      && |d.shown| + (if d.more.Some? then d.more.value else 0) == d.count
  {
    var a, b := SplitLines(x), SplitLines(y);
    DiffCountIsCardinality(a, b, Max(|a|, |b|));
    NoDiffIffEqual(x, y);
    ShownEntries(DiffIndices(a, b), k);
  }

  /** The first differing index, as a walk that stops there finds it. */
  function FirstDiff(a: seq<string>, b: seq<string>): Option<nat>
  {
    var ds := DiffIndices(a, b);
    if ds == [] then None else Some(ds[0])
  }

  /** The first differing line of two texts: none exactly when they are
      equal, otherwise a differing index below which every line agrees. */
  lemma {:induction false} FirstDiffMeaning(x: string, y: string)
    ensures var a, b := SplitLines(x), SplitLines(y);
      && (FirstDiff(a, b).None? <==> x == y)
      && (FirstDiff(a, b).Some? ==>
            && Differs(a, b, FirstDiff(a, b).value)
            && (forall j: nat :: j < FirstDiff(a, b).value ==> !Differs(a, b, j)))
  {
    FirstTextDiff(x, y);
  }

  /** `x || d` on a line value: `undefined` and "" are both falsy. */
  function OrDefault(line: Option<string>, d: string): (r: string)
    ensures line.Some? && line.value != "" ==> r == line.value
    ensures line == None || line == Some("") ==> r == d
  {
    match line
    case None => d
    case Some(s) => if s == "" then d else s
  }

  /** A display with `|| ''` renders an absent line and a present empty line
      alike, yet the walk counts that index as differing. */
  lemma {:induction false} AbsentLooksEmpty(a: seq<string>, b: seq<string>, i: nat)
    requires i >= |a| && i < |b| && b[i] == ""
    ensures OrDefault(At(a, i), "") == OrDefault(At(b, i), "")
    ensures Differs(a, b, i)
  {
  }
}
