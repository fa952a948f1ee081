/** The string operations the Python code leans on: prefix and suffix
    tests, `str.replace`, the greedy `(?P<name>.*)<suffix>` regex capture,
    and `str.split('.')[-1]`. */
module Strings {
  import opened Wrappers

  predicate StartsWith(s: string, p: string) {
    |p| <= |s| && s[..|p|] == p
  }

  predicate EndsWith(s: string, p: string) {
    |p| <= |s| && s[|s| - |p|..] == p
  }

  /** `p` occurs in `s` starting at index `i`. */
  predicate OccursAt(s: string, p: string, i: nat) {
    i + |p| <= |s| && s[i..i + |p|] == p
  }

  /** Python's `s.replace(pat, rep)` for a non-empty pattern: every
      occurrence, found left to right without overlap, is replaced. */
  function ReplaceAll(s: string, pat: string, rep: string): string
    requires |pat| > 0
    decreases |s|
  {
    if |s| == 0 then []
    else if StartsWith(s, pat) then rep + ReplaceAll(s[|pat|..], pat, rep)
    else [s[0]] + ReplaceAll(s[1..], pat, rep)
  }

  /** A string in which the pattern never occurs is left alone. */
  lemma {:induction false} ReplaceAllAbsent(s: string, pat: string, rep: string)
    requires |pat| > 0
    requires forall i: nat :: !OccursAt(s, pat, i)
    ensures ReplaceAll(s, pat, rep) == s
    decreases |s|
  {
    if |s| > 0 {
      assert !OccursAt(s, pat, 0);
      assert !StartsWith(s, pat);
      forall i: nat ensures !OccursAt(s[1..], pat, i) {
        assert !OccursAt(s, pat, i + 1);
        if i + |pat| <= |s[1..]| {
          assert s[1..][i..i + |pat|] == s[i + 1..i + 1 + |pat|];
        }
      }
      ReplaceAllAbsent(s[1..], pat, rep);
    }
  }

  /** Removing a suffix whose first occurrence is the suffix itself gives
      back the stem: `(x + pat).replace(pat, "") == x`. */
  lemma {:induction false} ReplaceAllStripsSuffix(x: string, pat: string)
    requires |pat| > 0
    requires forall i: nat :: i < |x| ==> !OccursAt(x + pat, pat, i)
    ensures ReplaceAll(x + pat, pat, "") == x
    decreases |x|
  {
    var s := x + pat;
    if |x| == 0 {
      assert s == pat;
      assert StartsWith(s, pat);
      assert s[|pat|..] == [];
    } else {
      assert !OccursAt(s, pat, 0);
      assert !StartsWith(s, pat);
      assert s[1..] == x[1..] + pat;
      forall i: nat | i < |x[1..]| ensures !OccursAt(x[1..] + pat, pat, i) {
        assert !OccursAt(s, pat, i + 1);
        assert (x[1..] + pat)[i..i + |pat|] == s[i + 1..i + 1 + |pat|];
      }
      ReplaceAllStripsSuffix(x[1..], pat);
      assert [s[0]] + x[1..] == x;
    }
  }

  /** The last index at most `k` where `p` occurs in `s`. */
  function LastIndexUpTo(s: string, p: string, k: nat): (r: Option<nat>)
    ensures r.Some? ==> r.value <= k && OccursAt(s, p, r.value)
    ensures r.Some? ==> forall j: nat :: r.value < j <= k ==> !OccursAt(s, p, j)
    ensures r.None? ==> forall j: nat :: j <= k ==> !OccursAt(s, p, j)
    decreases k
  {
    if OccursAt(s, p, k) then Some(k)
    else if k == 0 then None
    else LastIndexUpTo(s, p, k - 1)
  }

  /** The last index where `p` occurs in `s`. */
  function LastIndexOf(s: string, p: string): (r: Option<nat>)
    ensures r.Some? ==> OccursAt(s, p, r.value)
    ensures r.Some? ==> forall j: nat :: r.value < j ==> !OccursAt(s, p, j)
    ensures r.None? ==> forall j: nat :: !OccursAt(s, p, j)
  {
    LastIndexUpTo(s, p, |s|)
  }

  /** `re.match(prefix + "(?P<name>.*)" + suffix, s)` followed by
      `search and search.groupdict()["name"] or None`: the greedy `.*`
      backs off to the LAST occurrence of the suffix after the prefix, and
      an empty capture counts as no match. */
  function CaptureBefore(s: string, prefix: string, suffix: string): (r: Option<string>)
    requires |suffix| > 0
    ensures r.Some? ==> r.value != [] && StartsWith(s, prefix)
    ensures r.Some? ==> OccursAt(s, suffix, |prefix| + |r.value|) && s[|prefix|..|prefix| + |r.value|] == r.value
    ensures r.Some? ==> forall j: nat :: |prefix| + |r.value| < j ==> !OccursAt(s, suffix, j)
    ensures r.Some? <==> StartsWith(s, prefix) && exists j: nat :: |prefix| < j && OccursAt(s, suffix, j)
  {
    if !StartsWith(s, prefix) then None
    else
      var rest := s[|prefix|..];
      var k := LastIndexOf(rest, suffix);
      ShiftOccurrences(s, prefix, suffix);
      if k.None? || k.value == 0 then None
      else Some(rest[..k.value])
  }

  /** Occurrences in `s[|prefix|..]` are the occurrences in `s` after the prefix. */
  lemma ShiftOccurrences(s: string, prefix: string, suffix: string)
    requires StartsWith(s, prefix)
    ensures forall j: nat :: OccursAt(s[|prefix|..], suffix, j) ==> OccursAt(s, suffix, |prefix| + j)
    ensures forall j: nat :: |prefix| <= j && OccursAt(s, suffix, j) ==> OccursAt(s[|prefix|..], suffix, j - |prefix|)
  {
    forall j: nat ensures OccursAt(s[|prefix|..], suffix, j) <==> OccursAt(s, suffix, |prefix| + j) {
      if j + |suffix| <= |s| - |prefix| {
        assert s[|prefix|..][j..j + |suffix|] == s[|prefix| + j..|prefix| + j + |suffix|];
      }
    }
  }

  /** `s.split(sep)[-1]`: the text after the last separator, or all of `s`. */
  function LastSegment(s: string, sep: char): (r: string)
    ensures sep !in r
    ensures EndsWith(s, r)
    ensures |r| < |s| ==> s[|s| - |r| - 1] == sep
    decreases |s|
  {
    if |s| == 0 || s[|s| - 1] == sep then []
    else
      var t := LastSegment(s[..|s| - 1], sep);
      EndsWithSnoc(s, t);
      t + [s[|s| - 1]]
  }

  /** A suffix of `s` without its last character, extended by that
      character, is a suffix of `s`. */
  lemma EndsWithSnoc(s: string, t: string)
    requires |s| > 0 && EndsWith(s[..|s| - 1], t)
    ensures EndsWith(s, t + [s[|s| - 1]])
    ensures |t| + 1 < |s| ==> s[|s| - |t| - 2] == s[..|s| - 1][|s| - 1 - |t| - 1]
  {
    assert s[|s| - |t| - 1..] == s[..|s| - 1][|s| - 1 - |t|..] + [s[|s| - 1]];
  }

  /** `s.split(sep)[0]`: the text before the first occurrence of `sep`, or
      all of `s`. */
  function FirstField(s: string, sep: string): (r: string)
    requires |sep| > 0
    ensures StartsWith(s, r)
    ensures forall j: nat :: j < |r| ==> !OccursAt(s, sep, j)
    ensures |r| < |s| ==> OccursAt(s, sep, |r|)
    decreases |s|
  {
    if |s| == 0 || StartsWith(s, sep) then []
    else
      var t := FirstField(s[1..], sep);
      ShiftOccurrences(s, s[..1], sep);
      assert !OccursAt(s, sep, 0);
      [s[0]] + t
  }
}
