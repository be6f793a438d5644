/** The anchored character-class regular expressions the two YAML formatters
    use to recognise "simple" strings: a word `^[cls]+$`, and two words
    joined by a separator `^[cls]+<sep>[cls]+$`. Without the `m` flag a
    JavaScript `$` matches only at the very end of the text. */
module Patterns {
  import opened Lines

  /** The two character classes that occur: `[a-zA-Z0-9_-]` and `[a-zA-Z0-9_.-]`. */
  datatype CharClass = Word | Path

  predicate IsAsciiLetterOrDigit(c: char)
  {
    ('a' <= c <= 'z') || ('A' <= c <= 'Z') || ('0' <= c <= '9')
  }

  predicate InClass(c: char, k: CharClass)
  {
    match k
    case Word => IsAsciiLetterOrDigit(c) || c == '_' || c == '-'
    case Path => IsAsciiLetterOrDigit(c) || c == '_' || c == '.' || c == '-'
  }

  /** Every character of `s` is in class `k`. */
  predicate AllIn(s: string, k: CharClass)
  {
    forall i :: 0 <= i < |s| ==> InClass(s[i], k)
  }

  /** `^[k]+$`. */
  predicate IsRun(s: string, k: CharClass)
  {
    |s| >= 1 && AllIn(s, k)
  }

  /** The first position of `c` in `s`. */
  function IndexOf(s: string, c: char): (r: Option<nat>)
    ensures r.Some? ==> r.value < |s| && s[r.value] == c
    ensures r.Some? ==> forall j :: 0 <= j < r.value ==> s[j] != c
    ensures r.None? <==> c !in s
  {
    if s == [] then None
    else if s[0] == c then Some(0)
    else match IndexOf(s[1..], c)
      case None => None
      case Some(p) => Some(p + 1)
  }

  /** `^[k]+<sep>[k]+$`, decided by splitting at the first separator. Since
      the separator is outside the class, there is at most one place to split. */
  function Joined(s: string, sep: char, k: CharClass): (r: bool)
    requires !InClass(sep, k)
    ensures r <==> exists p :: 0 < p < |s| && s[p] == sep && IsRun(s[..p], k) && IsRun(s[p + 1..], k)
  {
    match IndexOf(s, sep)
    case None => false
    case Some(p) =>
      var ok := 0 < p && IsRun(s[..p], k) && IsRun(s[p + 1..], k);
      assert !ok ==> forall q :: 0 < q < |s| && s[q] == sep ==> !(IsRun(s[..q], k) && IsRun(s[q + 1..], k)) by {
        forall q | 0 < q < |s| && s[q] == sep && IsRun(s[..q], k) && IsRun(s[q + 1..], k)
          ensures ok
        {
          assert forall j :: 0 <= j < q ==> s[..q][j] == s[j];
          assert p == q;
        }
      }
      ok
  }

  /** `^\d` */
  predicate StartsWithDigit(s: string)
  {
    |s| >= 1 && '0' <= s[0] <= '9'
  }

  /** `s.match(/^[a-zA-Z0-9_-]+$/) && !s.match(/^\d/)`, the last pattern of both formatters. */
  predicate IsBareWord(s: string)
  {
    IsRun(s, Word) && !StartsWithDigit(s)
  }
}
