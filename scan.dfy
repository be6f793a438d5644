/** The substring tests and the small regular expressions the harness scripts
    apply to their captured texts: `includes`, `startsWith`, the test-runner
    summary counts `/tag(\d+)/` with `parseInt`, the failing-test name
    `/✖ (.+?) \(/`, and the failing-line filter. JavaScript strings are
    sequences of UTF-16 units; every character these patterns name ('✖',
    '✔', digits, ASCII punctuation) is a single unit, so a `char` stands
    for one unit. */
module Scan {
  import opened Lines

  /** `t` occurs in `s` starting at offset `p`. */
  predicate OccursAt(s: string, t: string, p: nat)
  {
    p + |t| <= |s| && s[p..p + |t|] == t
  }

  /** `s.startsWith(t)`. */
  predicate StartsWith(s: string, t: string)
  {
    OccursAt(s, t, 0)
  }

  /** Scan from offset `from` for an occurrence of `t`. */
  function ContainsFrom(s: string, t: string, from: nat): (r: bool)
    ensures r <==> exists p: nat :: from <= p && OccursAt(s, t, p)
    decreases |s| - from
  {
    if from + |t| > |s| then false
    else if OccursAt(s, t, from) then true
    else ContainsFrom(s, t, from + 1)
  }

  /** `s.includes(t)`. */
  function Contains(s: string, t: string): (r: bool)
    ensures r <==> exists p: nat :: OccursAt(s, t, p)
  {
    ContainsFrom(s, t, 0)
  }

  /** A text that starts with `t` contains `t`. */
  lemma {:induction false} StartsWithContains(s: string, t: string)
    requires StartsWith(s, t)
    ensures Contains(s, t)
  {
    assert OccursAt(s, t, 0);
  }

  predicate IsDigit(c: char) { '0' <= c <= '9' }

  /** `/tag(\d+)/` can start matching at `p`: the tag, then a digit. */
  predicate LabelAt(s: string, tag: string, p: nat)
  {
    OccursAt(s, tag, p) && p + |tag| < |s| && IsDigit(s[p + |tag|])
  }

  /** The leftmost match position at or after `from`. */
  function FindLabel(s: string, tag: string, from: nat): Option<nat>
    decreases |s| - from
  {
    if from + |tag| >= |s| then None
    else if LabelAt(s, tag, from) then Some(from)
    else FindLabel(s, tag, from + 1)
  }

  /** The search finds a match position, the least one at or after `from`,
      or reports that there is none. */
  lemma {:induction false} FindLabelSpec(s: string, tag: string, from: nat)
    ensures var r := FindLabel(s, tag, from);
      && (r.Some? ==> from <= r.value && LabelAt(s, tag, r.value))
      && (r.Some? ==> forall q: nat :: from <= q < r.value ==> !LabelAt(s, tag, q))
      && (r.None? ==> forall q: nat :: from <= q ==> !LabelAt(s, tag, q))
    decreases |s| - from
  {
    if from + |tag| < |s| && !LabelAt(s, tag, from) {
      FindLabelSpec(s, tag, from + 1);
    }
  }

  /** The search from `from` stops at the first place a match can begin. */
  lemma {:induction false} FindLabelFirst(s: string, tag: string, from: nat, p: nat)
    requires from <= p && LabelAt(s, tag, p)
    requires forall q: nat :: from <= q < p ==> !LabelAt(s, tag, q)
    ensures FindLabel(s, tag, from) == Some(p)
    decreases p - from
  {
    if from < p {
      FindLabelFirst(s, tag, from + 1, p);
    }
  }

  /** The greedy `\d+` run starting at `i`. */
  function DigitRun(s: string, i: nat): (r: string)
    ensures i + |r| <= |s| || r == []
    ensures r != [] ==> r == s[i..i + |r|]
    ensures forall j :: 0 <= j < |r| ==> IsDigit(r[j])
    ensures i + |r| < |s| ==> !IsDigit(s[i + |r|])
    decreases |s| - i
  {
    if i < |s| && IsDigit(s[i]) then [s[i]] + DigitRun(s, i + 1) else []
  }

  /** A run of digits that ends at a non-digit (or at the end) is the greedy run. */
  lemma {:induction false} DigitRunUnique(s: string, i: nat, j: nat)
    requires i <= j <= |s|
    requires forall m :: i <= m < j ==> IsDigit(s[m])
    requires j == |s| || !IsDigit(s[j])
    ensures DigitRun(s, i) == s[i..j]
    decreases j - i
  {
    if i < j {
      DigitRunUnique(s, i + 1, j);
      assert s[i..j] == [s[i]] + s[i + 1..j];
    }
  }

  /** `s.match(/tag(\d+)/)`, giving group 1 when there is a match. */
  function FirstNumber(s: string, tag: string): Option<string>
  {
    match FindLabel(s, tag, 0)
    case None => None
    case Some(p) => Some(DigitRun(s, p + |tag|))
  }

  /** There is no match exactly when no position can start one. */
  lemma FirstNumberNone(s: string, tag: string)
    ensures FirstNumber(s, tag).None? <==> forall q: nat :: !LabelAt(s, tag, q)
  {
    FindLabelSpec(s, tag, 0);
  }

  function DigitValue(c: char): nat
  {
    if IsDigit(c) then c as int - '0' as int else 0
  }

  /** `parseInt` of a string of decimal digits. */
  function DecimalValue(d: string): nat
  {
    if d == [] then 0 else DecimalValue(d[..|d| - 1]) * 10 + DigitValue(d[|d| - 1])
  }

  /** The decimal numeral of `n`, as a test runner prints its counts. */
  function DecimalString(n: nat): (r: string)
    ensures r != []
    ensures forall j :: 0 <= j < |r| ==> IsDigit(r[j])
  {
    var c := (('0' as int) + n % 10) as char;
    if n < 10 then [c] else DecimalString(n / 10) + [c]
  }

  /** Reading back a printed count gives the count. */
  lemma {:induction false} DecimalRoundTrip(n: nat)
    ensures DecimalValue(DecimalString(n)) == n
  {
    var d := DecimalString(n);
    if n >= 10 {
      DecimalRoundTrip(n / 10);
      assert d[..|d| - 1] == DecimalString(n / 10);
    }
  }

  /** `match ? parseInt(match[1]) : 0`. */
  function ParseCount(s: string, tag: string): nat
  {
    match FirstNumber(s, tag)
    case None => 0
    case Some(d) => DecimalValue(d)
  }

  /** When the first place a match can begin is `p`, the count is read from
      the digits right after the tag there. */
  lemma {:induction false} ParseCountAt(s: string, tag: string, p: nat, n: nat)
    requires LabelAt(s, tag, p)
    requires forall q: nat :: q < p ==> !LabelAt(s, tag, q)
    requires DigitRun(s, p + |tag|) == DecimalString(n)
    ensures ParseCount(s, tag) == n
  {
    FindLabelFirst(s, tag, 0, p);
    DecimalRoundTrip(n);
  }

  /** In `pre + tag + d + post`, with `d` a non-empty run of digits, a match
      can begin right after `pre`. */
  lemma {:induction false} LabelAfterPrefix(s: string, pre: string, tag: string, d: string, post: string)
    requires s == pre + tag + d + post && d != []
    requires forall j :: 0 <= j < |d| ==> IsDigit(d[j])
    ensures LabelAt(s, tag, |pre|)
  {
    assert s[|pre|..|pre| + |tag|] == tag;
    assert s[|pre| + |tag|] == d[0];
  }

  /** In the same text, when `post` does not start with a digit, the greedy
      run after the tag is exactly `d`. */
  lemma {:induction false} NumeralAfterTag(s: string, pre: string, tag: string, d: string, post: string)
    requires s == pre + tag + d + post
    requires forall j :: 0 <= j < |d| ==> IsDigit(d[j])
    requires post == [] || !IsDigit(post[0])
    ensures DigitRun(s, |pre| + |tag|) == d
  {
    var i := |pre| + |tag|;
    assert s[i..i + |d|] == d;
    if post != [] {
      assert s[i + |d|] == post[0];
    }
    DigitRunOf(s, i, d);
    assert DigitRun(s, |pre| + |tag|) == d;
  }

  /** A run of digits ending at a non-digit, found at `i`, is the greedy run there. */
  lemma {:induction false} DigitRunOf(s: string, i: nat, d: string)
    requires i + |d| <= |s| && s[i..i + |d|] == d
    requires forall j :: 0 <= j < |d| ==> IsDigit(d[j])
    requires i + |d| == |s| || !IsDigit(s[i + |d|])
    ensures DigitRun(s, i) == d
  {
    forall m | i <= m < i + |d| ensures IsDigit(s[m]) {
      assert s[m] == s[i..i + |d|][m - i];
    }
    DigitRunUnique(s, i, i + |d|);
  }

  /** A summary whose first `tag<n>` is the one printed yields `n`. */
  lemma {:induction false} ParseCountOfSummary(s: string, pre: string, tag: string, n: nat, post: string)
    requires s == pre + tag + DecimalString(n) + post
    requires forall q: nat :: q < |pre| ==> !LabelAt(s, tag, q)
    requires post == [] || !IsDigit(post[0])
    ensures ParseCount(s, tag) == n
  {
    var d := DecimalString(n);
    LabelAfterPrefix(s, pre, tag, d, post);
    NumeralAfterTag(s, pre, tag, d, post);
    ParseCountAt(s, tag, |pre|, n);
  }

  /** No match can start inside a prefix that lacks the tag's first character. */
  lemma {:induction false} NoLabelBefore(pre: string, tag: string, rest: string)
    requires |tag| >= 1 && tag[0] !in pre
    ensures forall q: nat :: q < |pre| ==> !LabelAt(pre + rest, tag, q)
  {
    var s := pre + rest;
    forall q: nat | q < |pre| ensures !OccursAt(s, tag, q) {
      assert s[q] == pre[q];
      if q + |tag| <= |s| {
        assert s[q..q + |tag|][0] == s[q];
      }
    }
  }

  /** The characters JavaScript's `.` does not match. */
  predicate IsLineTerminator(c: char)
  {
    c == '\n' || c == '\r' || c == '\U{2028}' || c == '\U{2029}'
  }

  const Cross: string := "\U{2716} "

  /** `/✖ (.+?) \(/` matches at `p` with a group of `k` characters. */
  predicate NameMatch(line: string, p: nat, k: nat)
  {
    && OccursAt(line, Cross, p)
    && 1 <= k
    && (forall m :: p + 2 <= m < p + 2 + k && m < |line| ==> !IsLineTerminator(line[m]))
    && OccursAt(line, " (", p + 2 + k)
  }

  /** The lazy group: the least length `>= k` that `" ("` follows. */
  function LazyFrom(line: string, p: nat, k: nat): (r: Option<nat>)
    requires OccursAt(line, Cross, p) && 1 <= k && p + 2 + k <= |line|
    requires forall m :: p + 2 <= m < p + 2 + k ==> !IsLineTerminator(line[m])
    ensures r.Some? ==> k <= r.value && NameMatch(line, p, r.value)
    ensures r.Some? ==> forall j: nat :: k <= j < r.value ==> !NameMatch(line, p, j)
    ensures r.None? ==> forall j: nat :: k <= j ==> !NameMatch(line, p, j)
    decreases |line| - k
  {
    if OccursAt(line, " (", p + 2 + k) then Some(k)
    else if p + 2 + k < |line| && !IsLineTerminator(line[p + 2 + k]) then
      LazyFrom(line, p, k + 1)
    else
      assert forall j: nat :: k < j ==> !NameMatch(line, p, j) by {
        forall j: nat | k < j ensures !NameMatch(line, p, j) {
          if p + 2 + k < |line| {
            assert IsLineTerminator(line[p + 2 + k]);
          }
        }
      }
      None
  }

  /** The shortest group of a match at `p`, if there is one. */
  function ShortestAt(line: string, p: nat): (r: Option<nat>)
    requires OccursAt(line, Cross, p)
    ensures r.Some? ==> NameMatch(line, p, r.value)
    ensures r.Some? ==> forall j: nat :: j < r.value ==> !NameMatch(line, p, j)
    ensures r.None? ==> forall j: nat :: !NameMatch(line, p, j)
  {
    if p + 2 < |line| && !IsLineTerminator(line[p + 2]) then LazyFrom(line, p, 1)
    else None
  }

  /** Leftmost match at or after `from`: start and group length. */
  function FindName(line: string, from: nat): (r: Option<(nat, nat)>)
    ensures r.Some? ==> from <= r.value.0 && NameMatch(line, r.value.0, r.value.1)
    ensures r.Some? ==> forall j: nat :: j < r.value.1 ==> !NameMatch(line, r.value.0, j)
    ensures r.Some? ==> forall q: nat, j: nat :: from <= q < r.value.0 ==> !NameMatch(line, q, j)
    ensures r.None? ==> forall q: nat, j: nat :: from <= q ==> !NameMatch(line, q, j)
    decreases |line| - from
  {
    if from + 2 > |line| then None
    else if OccursAt(line, Cross, from) && ShortestAt(line, from).Some? then
      Some((from, ShortestAt(line, from).value))
    else FindName(line, from + 1)
  }

  /** `line.match(/✖ (.+?) \(/)?.[1]`: the group of the leftmost match, as
      short as it can be. */
  function FailingName(line: string): Option<string>
  {
    match FindName(line, 0)
    case None => None
    case Some((p, k)) => Some(line[p + 2..p + 2 + k])
  }

  /** The name is missing exactly when the pattern matches nowhere; otherwise
      it is the group of the leftmost match, as short as it can be. */
  lemma FailingNameMeaning(line: string)
    ensures FailingName(line).None? <==> forall q: nat, j: nat :: !NameMatch(line, q, j)
    ensures FailingName(line).Some? ==> exists q: nat, j: nat ::
      && NameMatch(line, q, j)
      && FailingName(line).value == line[q + 2..q + 2 + j]
      && (forall q': nat, j': nat :: q' < q ==> !NameMatch(line, q', j'))
      && (forall j': nat :: j' < j ==> !NameMatch(line, q, j'))
  {
  }

  /** `line.includes('✖') && line.includes('ms)')`. */
  predicate IsFailureLine(line: string)
  {
    Contains(line, "\U{2716}") && Contains(line, "ms)")
  }

  /** `lines.filter(isFailureLine)`. */
  function FailureLines(lines: seq<string>): (r: seq<string>)
  {
    if lines == [] then []
    else FailureLines(lines[..|lines| - 1]) + (if IsFailureLine(lines[|lines| - 1]) then [lines[|lines| - 1]] else [])
  }

  /** The filter keeps exactly the failure lines. */
  lemma {:induction false} FailureLinesMembers(lines: seq<string>, l: string)
    ensures l in FailureLines(lines) <==> l in lines && IsFailureLine(l)
  {
    if lines != [] {
      var init := lines[..|lines| - 1];
      FailureLinesMembers(init, l);
      assert lines == init + [lines[|lines| - 1]];
    }
  }

  /** The filter keeps line order: filtering a concatenation concatenates the results. */
  lemma {:induction false} FailureLinesAppend(a: seq<string>, b: seq<string>)
    ensures FailureLines(a + b) == FailureLines(a) + FailureLines(b)
    decreases |b|
  {
    if b != [] {
      var init := b[..|b| - 1];
      FailureLinesAppend(a, init);
      assert (a + b)[..|a + b| - 1] == a + init;
    } else {
      assert a + b == a;
    }
  }

  /** The names the failure-line loop pushes: one per failure line whose
      name pattern matches, in line order. */
  function FailingNames(lines: seq<string>): seq<string>
  {
    if lines == [] then []
    else
      var last := lines[|lines| - 1];
      FailingNames(lines[..|lines| - 1])
        + (if IsFailureLine(last) && FailingName(last).Some? then [FailingName(last).value] else [])
  }

  /** The names the name pattern yields on the given lines, in line order. */
  function MatchedNames(ls: seq<string>): seq<string>
  {
    if ls == [] then []
    else
      var last := ls[|ls| - 1];
      MatchedNames(ls[..|ls| - 1]) + (if FailingName(last).Some? then [FailingName(last).value] else [])
  }

  /** A name is matched exactly when one of the lines yields it. */
  lemma {:induction false} MatchedNamesMembers(ls: seq<string>, name: string)
    ensures name in MatchedNames(ls) <==> exists l :: l in ls && FailingName(l) == Some(name)
  {
    if ls != [] {
      var init := ls[..|ls| - 1];
      var last := ls[|ls| - 1];
      MatchedNamesMembers(init, name);
      assert ls == init + [last];
      assert forall l :: l in ls <==> l in init || l == last;
    }
  }

  /** The loop pushes, in order, the names of exactly the lines the filter
      keeps: filtering and then matching. */
  lemma {:induction false} FailingNamesFilterThenMatch(lines: seq<string>)
    ensures FailingNames(lines) == MatchedNames(FailureLines(lines))
  {
    if lines != [] {
      var init := lines[..|lines| - 1];
      var last := lines[|lines| - 1];
      FailingNamesFilterThenMatch(init);
      var kept := FailureLines(init);
      if IsFailureLine(last) {
        assert FailureLines(lines) == kept + [last];
        assert (kept + [last])[..|kept|] == kept;
        assert MatchedNames(kept + [last]) == MatchedNames(kept)
          + (if FailingName(last).Some? then [FailingName(last).value] else []);
      } else {
        assert FailureLines(lines) == kept + [] == kept;
        assert FailingNames(lines) == FailingNames(init) + [] == FailingNames(init);
      }
    }
  }

  /** A name is collected exactly when some failure line yields it. */
  lemma {:induction false} FailingNamesMembers(lines: seq<string>, name: string)
    ensures name in FailingNames(lines) <==>
      exists l :: l in lines && IsFailureLine(l) && FailingName(l) == Some(name)
  {
    FailingNamesFilterThenMatch(lines);
    MatchedNamesMembers(FailureLines(lines), name);
    forall l | FailingName(l) == Some(name)
      ensures l in FailureLines(lines) <==> l in lines && IsFailureLine(l)
    {
      FailureLinesMembers(lines, l);
    }
  }

  /** The names keep line order: names of a concatenation concatenate. */
  lemma {:induction false} FailingNamesAppend(a: seq<string>, b: seq<string>)
    ensures FailingNames(a + b) == FailingNames(a) + FailingNames(b)
    decreases |b|
  {
    if b != [] {
      var init := b[..|b| - 1];
      FailingNamesAppend(a, init);
      assert (a + b)[..|a + b| - 1] == a + init;
    } else {
      assert a + b == a;
    }
  }
}
