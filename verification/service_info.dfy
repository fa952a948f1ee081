/** The flat service record used by the route scaffolding, and its
    CamelCase to snake_case conversion
    (`re.sub('([a-z0-9])([A-Z])', r'\1_\2', re.sub('(.)([A-Z][a-z]+)', r'\1_\2', name)).lower()`). */
module ServiceInfo {

  /** `ServiceInfo(pb2_name, service_name, methods)`: the constructor stores
      its three arguments as they are. `methods` is the order in which the
      method-name set iterates. */
  datatype Info = Info(pb2Name: string, serviceName: string, methods: seq<string>)

  predicate IsUpper(c: char) { 'A' <= c <= 'Z' }
  predicate IsLower(c: char) { 'a' <= c <= 'z' }
  predicate IsLowerOrDigit(c: char) { IsLower(c) || '0' <= c <= '9' }

  predicate NoUpper(s: string) {
    forall i :: 0 <= i < |s| ==> !IsUpper(s[i])
  }

  function ToLower(c: char): (d: char)
    ensures !IsUpper(d)
    ensures !IsUpper(c) ==> d == c
  {
    if IsUpper(c) then (c as int + 32) as char else c
  }

  /** `str.lower()` on ASCII letters. */
  function LowerAll(s: string): (r: string)
    ensures |r| == |s|
    ensures forall i :: 0 <= i < |s| ==> r[i] == ToLower(s[i])
  {
    seq(|s|, i requires 0 <= i < |s| => ToLower(s[i]))
  }

  /** Length of the longest prefix made of lower-case letters (`[a-z]+` is greedy). */
  function LowerRun(s: string): (n: nat)
    ensures n <= |s|
    ensures forall i :: 0 <= i < n ==> IsLower(s[i])
    ensures n < |s| ==> !IsLower(s[n])
  {
    if |s| == 0 || !IsLower(s[0]) then 0 else 1 + LowerRun(s[1..])
  }

  /** `re.sub('(.)([A-Z][a-z]+)', r'\1_\2', s)`: scanning left to right, a
      character other than a line break followed by an upper-case letter and
      a run of lower-case letters gets an underscore between the two; the
      scan resumes after the run. */
  function SplitWords(s: string): string
    decreases |s|
  {
    if |s| < 3 then s
    else if s[0] != '\n' && IsUpper(s[1]) && IsLower(s[2]) then
      var j := 2 + LowerRun(s[2..]);
      [s[0], '_'] + s[1..j] + SplitWords(s[j..])
    else [s[0]] + SplitWords(s[1..])
  }

  /** `re.sub('([a-z0-9])([A-Z])', r'\1_\2', s)`. */
  function SplitPairs(s: string): string
    decreases |s|
  {
    if |s| < 2 then s
    else if IsLowerOrDigit(s[0]) && IsUpper(s[1]) then [s[0], '_', s[1]] + SplitPairs(s[2..])
    else [s[0]] + SplitPairs(s[1..])
  }

  /** `ServiceInfo.service_name_lower`. */
  function SnakeCase(name: string): (r: string)
    ensures NoUpper(r)
  {
    LowerAll(SplitPairs(SplitWords(name)))
  }

  // ---------------------------------------------------------------------
  // Reference description: the result is the input, lower-cased, with an
  // underscore inserted before the positions a mask selects.

  /** `s` with `'_'` inserted before every `s[i]` whose `m[i]` is set. */
  function Insert(s: string, m: seq<bool>): string
    requires |m| == |s|
    decreases |s|
  {
    if |s| == 0 then []
    else (if m[0] then "_" else "") + [s[0]] + Insert(s[1..], m[1..])
  }

  function NoMask(n: nat): (m: seq<bool>)
    ensures |m| == n && forall i :: 0 <= i < n ==> !m[i]
  {
    seq(n, _ => false)
  }

  /** Where the first substitution inserts underscores. */
  function WordMask(s: string): (m: seq<bool>)
    ensures |m| == |s|
    ensures forall i :: 0 <= i < |s| && m[i] ==> i > 0 && IsUpper(s[i])
    decreases |s|
  {
    if |s| < 3 then NoMask(|s|)
    else if s[0] != '\n' && IsUpper(s[1]) && IsLower(s[2]) then
      var j := 2 + LowerRun(s[2..]);
      [false, true] + NoMask(j - 2) + WordMask(s[j..])
    else [false] + WordMask(s[1..])
  }

  /** `m`, plus every position holding an upper-case letter right after a
      lower-case letter or digit. */
  function PairMask(s: string, m: seq<bool>): (r: seq<bool>)
    requires |m| == |s|
    ensures |r| == |s|
    ensures forall i :: 0 <= i < |s| ==> r[i] == (m[i] || (i > 0 && IsLowerOrDigit(s[i - 1]) && IsUpper(s[i])))
  {
    seq(|s|, i requires 0 <= i < |s| => m[i] || (i > 0 && IsLowerOrDigit(s[i - 1]) && IsUpper(s[i])))
  }

  /** Where the whole conversion inserts underscores. */
  function SnakeMask(s: string): (m: seq<bool>)
    ensures |m| == |s|
  {
    PairMask(s, WordMask(s))
  }

  lemma {:induction false} InsertAppend(a: string, ma: seq<bool>, b: string, mb: seq<bool>)
    requires |ma| == |a| && |mb| == |b|
    ensures Insert(a + b, ma + mb) == Insert(a, ma) + Insert(b, mb)
    decreases |a|
  {
    if |a| > 0 {
      assert (a + b)[1..] == a[1..] + b;
      assert (ma + mb)[1..] == ma[1..] + mb;
      InsertAppend(a[1..], ma[1..], b, mb);
    } else {
      assert a + b == b && ma + mb == mb;
    }
  }

  lemma {:induction false} InsertNothing(s: string)
    ensures Insert(s, NoMask(|s|)) == s
    decreases |s|
  {
    if |s| > 0 {
      assert NoMask(|s|)[1..] == NoMask(|s| - 1);
      InsertNothing(s[1..]);
    }
  }

  /** The marks of one matched word: an underscore before its capital only. */
  lemma InsertCapitalPair(a: char, b: char)
    ensures Insert([a, b], [false, true]) == [a, '_', b]
  {
    assert [b][1..] == [];
    assert Insert([b], [true]) == ['_', b];
    assert [a, b][1..] == [b];
    assert [false, true][1..] == [true];
  }

  lemma InsertWordHead(a: char, b: char, u: string)
    ensures Insert([a, b] + u, [false, true] + NoMask(|u|)) == [a, '_', b] + u
  {
    InsertAppend([a, b], [false, true], u, NoMask(|u|));
    InsertNothing(u);
    InsertCapitalPair(a, b);
  }

  /** The first substitution only inserts underscores, exactly where `WordMask` says. */
  lemma {:induction false} SplitWordsInserts(s: string)
    ensures SplitWords(s) == Insert(s, WordMask(s))
    decreases |s|
  {
    if |s| < 3 {
      InsertNothing(s);
    } else if s[0] != '\n' && IsUpper(s[1]) && IsLower(s[2]) {
      SplitWordsInsertsAtWord(s);
    } else {
      SplitWordsInserts(s[1..]);
    }
  }

  lemma {:induction false} SplitWordsInsertsAtWord(s: string)
    requires |s| >= 3 && s[0] != '\n' && IsUpper(s[1]) && IsLower(s[2])
    ensures SplitWords(s) == Insert(s, WordMask(s))
    decreases |s|, 0
  {
    var j := 2 + LowerRun(s[2..]);
    var word, after := s[2..j], s[j..];
    SplitWordsAtWord(s);
    WordMaskAtWord(s);
    SplitWordsInserts(after);
    InsertWordHead(s[0], s[1], word);
    InsertAppend([s[0], s[1]] + word, [false, true] + NoMask(|word|), after, WordMask(after));
  }

  /** One step of the first substitution at a matched word. */
  lemma SplitWordsAtWord(s: string)
    requires |s| >= 3 && s[0] != '\n' && IsUpper(s[1]) && IsLower(s[2])
    ensures var j := 2 + LowerRun(s[2..]);
      SplitWords(s) == [s[0], '_', s[1]] + s[2..j] + SplitWords(s[j..])
  {
    var j := 2 + LowerRun(s[2..]);
    SliceAfterHead(s, j);
    Regroup(s[0], s[1], s[2..j], SplitWords(s[j..]));
  }

  lemma SliceAfterHead(s: string, j: nat)
    requires 2 <= j <= |s|
    ensures s[1..j] == [s[1]] + s[2..j]
  {
  }

  lemma Regroup(a: char, b: char, w: string, x: string)
    ensures [a, '_'] + ([b] + w) + x == [a, '_', b] + w + x
  {
  }

  /** The marks of a matched word, with the input split the same way. */
  lemma WordMaskAtWord(s: string)
    requires |s| >= 3 && s[0] != '\n' && IsUpper(s[1]) && IsLower(s[2])
    ensures var j := 2 + LowerRun(s[2..]);
      Insert(s, WordMask(s)) == Insert(([s[0], s[1]] + s[2..j]) + s[j..], ([false, true] + NoMask(j - 2)) + WordMask(s[j..]))
  {
    var j := 2 + LowerRun(s[2..]);
    var front, after := [s[0], s[1]] + s[2..j], s[j..];
    WordMaskUnfold(s);
    SplitAtWord(s, j);
    InsertSame(s, front + after, WordMask(s), ([false, true] + NoMask(j - 2)) + WordMask(after));
  }

  lemma SplitAtWord(s: string, j: nat)
    requires 2 <= j <= |s|
    ensures s == ([s[0], s[1]] + s[2..j]) + s[j..]
  {
    assert s == [s[0], s[1]] + s[2..];
    assert s[2..] == s[2..j] + s[j..];
  }

  lemma InsertSame(s: string, t: string, m: seq<bool>, n: seq<bool>)
    requires |m| == |s| && s == t && m == n
    ensures Insert(s, m) == Insert(t, n)
  {
  }

  lemma WordMaskUnfold(s: string)
    requires |s| >= 3 && s[0] != '\n' && IsUpper(s[1]) && IsLower(s[2])
    ensures var j := 2 + LowerRun(s[2..]);
      WordMask(s) == ([false, true] + NoMask(j - 2)) + WordMask(s[j..])
  {
  }

  /** A character that cannot start a pair match passes straight through. */
  lemma SplitPairsSkip(c: char, x: string)
    requires !(IsLowerOrDigit(c) && |x| > 0 && IsUpper(x[0]))
    ensures SplitPairs([c] + x) == [c] + SplitPairs(x)
  {
    if |x| > 0 {
      assert ([c] + x)[1..] == x;
    }
  }

  /** A lower-case letter or digit followed by a capital is split. */
  lemma SplitPairsSplit(c: char, d: char, x: string)
    requires IsLowerOrDigit(c) && IsUpper(d)
    ensures SplitPairs([c, d] + x) == [c, '_', d] + SplitPairs(x)
  {
    assert ([c, d] + x)[2..] == x;
  }

  /** The second substitution, run on a string that already carries
      inserted underscores, adds underscores before every upper-case letter
      that directly follows a lower-case letter or digit of the input. */
  lemma {:induction false} SplitPairsInserts(s: string, m: seq<bool>)
    requires |m| == |s|
    ensures SplitPairs(Insert(s, m)) == Insert(s, PairMask(s, m))
    decreases |s|, 2
  {
    if |s| > 0 {
      var pm := PairMask(s, m);
      var tail := [s[0]] + Insert(s[1..], m[1..]);
      InsertUnfold(s, m);
      InsertUnfold(s, pm);
      SplitPairsTail(s, m);
      assert pm[0] == m[0];
      if m[0] {
        SplitPairsSkip('_', tail);
      } else {
        assert Insert(s, m) == tail;
      }
    }
  }

  lemma InsertUnfold(s: string, m: seq<bool>)
    requires |m| == |s| && |s| > 0
    ensures Insert(s, m) == (if m[0] then ['_'] else []) + ([s[0]] + Insert(s[1..], m[1..]))
  {
  }

  /** The part of `SplitPairsInserts` after any underscore before `s[0]`. */
  lemma {:induction false} SplitPairsTail(s: string, m: seq<bool>)
    requires |m| == |s| && |s| > 0
    ensures SplitPairs([s[0]] + Insert(s[1..], m[1..])) == [s[0]] + Insert(s[1..], PairMask(s, m)[1..])
    decreases |s|, 1
  {
    if |s| > 1 {
      if IsLowerOrDigit(s[0]) && !m[1] && IsUpper(s[1]) {
        SplitPairsTailSplit(s, m);
      } else {
        SplitPairsTailSkip(s, m);
      }
    }
  }

  /** `s[0] s[1]` is a lower-case letter or digit then a capital, with no
      underscore between them yet: the second substitution adds one. */
  lemma {:induction false} SplitPairsTailSplit(s: string, m: seq<bool>)
    requires |m| == |s| && |s| > 1
    requires IsLowerOrDigit(s[0]) && !m[1] && IsUpper(s[1])
    ensures SplitPairs([s[0]] + Insert(s[1..], m[1..])) == [s[0]] + Insert(s[1..], PairMask(s, m)[1..])
    decreases |s|, 0
  {
    var pm := PairMask(s, m);
    var rest2 := Insert(s[2..], m[2..]);
    InsertSecond(s, m);
    InsertSecond(s, pm);
    PairMaskDrop(s, m, 2);
    Regroup2(s[0], s[1], rest2);
    SplitPairsSplit(s[0], s[1], rest2);
    SplitPairsInserts(s[2..], m[2..]);
  }

  /** Otherwise `s[0]` passes through and the scan goes on from `s[1]`. */
  lemma {:induction false} SplitPairsTailSkip(s: string, m: seq<bool>)
    requires |m| == |s| && |s| > 1
    requires !(IsLowerOrDigit(s[0]) && !m[1] && IsUpper(s[1]))
    ensures SplitPairs([s[0]] + Insert(s[1..], m[1..])) == [s[0]] + Insert(s[1..], PairMask(s, m)[1..])
    decreases |s|, 0
  {
    var rest := Insert(s[1..], m[1..]);
    InsertSecond(s, m);
    assert rest[0] == (if m[1] then '_' else s[1]);
    SplitPairsSkip(s[0], rest);
    SplitPairsInserts(s[1..], m[1..]);
    PairMaskKeep(s, m);
  }

  /** `Insert` on `s[1..]`, unfolded once. */
  lemma InsertSecond(s: string, m: seq<bool>)
    requires |m| == |s| && |s| > 1
    ensures Insert(s[1..], m[1..]) == (if m[1] then ['_'] else []) + ([s[1]] + Insert(s[2..], m[2..]))
  {
    InsertUnfold(s[1..], m[1..]);
    assert s[1..][1..] == s[2..] && m[1..][1..] == m[2..];
  }

  lemma Regroup2(a: char, b: char, x: string)
    ensures [a] + (['_'] + ([b] + x)) == [a, '_', b] + x
    ensures [a] + ([] + ([b] + x)) == [a, b] + x
  {
  }

  /** Dropping the first `k` positions commutes with `PairMask` when no
      pair straddles the cut. */
  lemma PairMaskDrop(s: string, m: seq<bool>, k: nat)
    requires |m| == |s| && 1 <= k <= |s|
    requires k < |s| ==> !(IsLowerOrDigit(s[k - 1]) && IsUpper(s[k]))
    ensures PairMask(s, m)[k..] == PairMask(s[k..], m[k..])
  {
  }

  /** Only the first mark can change when the first character is dropped. */
  lemma PairMaskKeep(s: string, m: seq<bool>)
    requires |m| == |s| && |s| > 1
    requires !(IsLowerOrDigit(s[0]) && !m[1] && IsUpper(s[1]))
    ensures Insert(s[1..], PairMask(s, m)[1..]) == Insert(s[1..], PairMask(s[1..], m[1..]))
  {
    assert PairMask(s, m)[1..] == PairMask(s[1..], m[1..]);
  }

  lemma {:induction false} LowerAllInsert(s: string, m: seq<bool>)
    requires |m| == |s|
    ensures LowerAll(Insert(s, m)) == Insert(LowerAll(s), m)
    decreases |s|
  {
    if |s| > 0 {
      LowerAllInsert(s[1..], m[1..]);
      var pre: string := if m[0] then "_" else "";
      assert Insert(s, m) == pre + [s[0]] + Insert(s[1..], m[1..]);
      assert LowerAll(s)[1..] == LowerAll(s[1..]);
      LowerAllAppend(pre + [s[0]], Insert(s[1..], m[1..]));
      LowerAllAppend(pre, [s[0]]);
    }
  }

  lemma LowerAllAppend(a: string, b: string)
    ensures LowerAll(a + b) == LowerAll(a) + LowerAll(b)
  {
  }

  /** With no upper-case letter there is nothing to mark. */
  lemma {:induction false} WordMaskEmptyWithoutUpper(s: string)
    requires NoUpper(s)
    ensures WordMask(s) == NoMask(|s|)
    decreases |s|
  {
    if |s| >= 3 {
      assert !IsUpper(s[1]);
      WordMaskEmptyWithoutUpper(s[1..]);
    }
  }

  /** The conversion in full: lower-case the input, then insert underscores
      before the positions `SnakeMask` selects. Every selected position
      holds an upper-case letter of the input, and every upper-case letter
      that follows a lower-case letter or digit is selected. */
  lemma SnakeCaseSpec(name: string)
    ensures SnakeCase(name) == Insert(LowerAll(name), SnakeMask(name))
    ensures forall i :: 0 <= i < |name| && SnakeMask(name)[i] ==> i > 0 && IsUpper(name[i])
    ensures forall i :: 0 < i < |name| && IsLowerOrDigit(name[i - 1]) && IsUpper(name[i]) ==> SnakeMask(name)[i]
  {
    SplitWordsInserts(name);
    SplitPairsInserts(name, WordMask(name));
    LowerAllInsert(name, SnakeMask(name));
  }

  /** A name without upper-case letters comes back unchanged. */
  lemma SnakeCaseKeepsLowerNames(name: string)
    requires NoUpper(name)
    ensures SnakeCase(name) == name
  {
    SnakeCaseSpec(name);
    WordMaskEmptyWithoutUpper(name);
    assert SnakeMask(name) == NoMask(|name|);
    assert LowerAll(name) == name;
    InsertNothing(name);
  }
}
