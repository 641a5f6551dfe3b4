/**
  The parts of Python's built-in `str` type and of `posixpath` that the hpsum
  controller relies on, with Python's semantics: `str.find`, the `in`
  operator on strings, slicing with negative and out-of-range bounds,
  `re.split` with a literal separator, `str.join`, `str.strip()`, `str()` of
  a non-negative integer and `os.path.join` of two components.
*/
module PyLib {

  /** `pat` occurs in `s` starting at index `i`. */
  predicate OccursAt(s: string, pat: string, i: nat) {
    i + |pat| <= |s| && s[i..i + |pat|] == pat
  }

  /** `s.find(pat, from)`: the lowest index at or after `from` where `pat` occurs, or -1. */
  function FindFrom(s: string, pat: string, from: nat): (r: int)
    ensures r == -1 || (from <= r && OccursAt(s, pat, r))
    ensures forall i: nat :: from <= i && (r == -1 || i < r) ==> !OccursAt(s, pat, i)
    decreases |s| - from
  {
    if from + |pat| > |s| then -1
    else if s[from..from + |pat|] == pat then from
    else FindFrom(s, pat, from + 1)
  }

  /** A pattern whose first character does not appear in `s` does not occur in `s`. */
  lemma AbsentFirstChar(s: string, pat: string)
    requires pat != [] && forall k :: 0 <= k < |s| ==> s[k] != pat[0]
    ensures forall i: nat :: !OccursAt(s, pat, i)
  {
    forall i: nat ensures !OccursAt(s, pat, i) {
      if i + |pat| <= |s| {
        assert s[i..i + |pat|][0] == s[i] != pat[0];
      }
    }
  }

  /** `s.find(pat)`. */
  function Find(s: string, pat: string): (r: int)
    ensures r == -1 || (0 <= r && OccursAt(s, pat, r))
    ensures forall i: nat :: (r == -1 || i < r) ==> !OccursAt(s, pat, i)
    ensures r == -1 <==> forall i: nat :: !OccursAt(s, pat, i)
  {
    FindFrom(s, pat, 0)
  }

  /** An occurrence with none before it is what `str.find` returns. */
  lemma FindIsFirstOccurrence(s: string, pat: string, i: nat)
    requires OccursAt(s, pat, i)
    requires forall j: nat :: j < i ==> !OccursAt(s, pat, j)
    ensures Find(s, pat) == i
  {
  }

  /** No character of `s` is `c`. */
  predicate Lacks(s: string, c: char) {
    forall k :: 0 <= k < |s| ==> s[k] != c
  }

  lemma LacksAppend(a: string, b: string, c: char)
    requires Lacks(a, c) && Lacks(b, c)
    ensures Lacks(a + b, c)
  {
    forall k | 0 <= k < |a + b| ensures (a + b)[k] != c {
      if k >= |a| {
        assert (a + b)[k] == b[k - |a|];
      }
    }
  }

  /** In `a + pat + rest`, where `a` never holds the pattern's first character, `str.find` stops right after `a`. */
  lemma FindAfter(a: string, pat: string, rest: string)
    requires pat != [] && Lacks(a, pat[0])
    ensures Find(a + pat + rest, pat) == |a|
  {
    var s := a + pat + rest;
    assert s[|a|..|a| + |pat|] == pat;
    forall j: nat | j < |a| ensures !OccursAt(s, pat, j) {
      if j + |pat| <= |s| {
        assert s[j..j + |pat|][0] == s[j] == a[j];
      }
    }
    FindIsFirstOccurrence(s, pat, |a|);
  }

  /** `sub in s`. */
  function Contains(s: string, sub: string): (b: bool)
    ensures b <==> exists i: nat :: OccursAt(s, sub, i)
  {
    Find(s, sub) >= 0
  }

  /** A slice bound normalised against a length `n`: negative bounds count from the end, and the result is clamped to `[0, n]`. */
  function SliceBound(i: int, n: nat): (r: nat)
    ensures r <= n
  {
    if i < 0 then (if n + i < 0 then 0 else n + i)
    else if i > n then n
    else i
  }

  /** `s[start:stop]`: empty when the normalised start is not below the normalised stop. */
  function Slice(s: string, start: int, stop: int): (r: string)
    ensures |r| <= |s|
    ensures 0 <= start <= stop <= |s| ==> r == s[start..stop]
    ensures r == [] <==> SliceBound(start, |s|) >= SliceBound(stop, |s|)
    ensures 0 <= start && -|s| <= stop < 0 && start <= |s| + stop ==> r == s[start..|s| + stop]
  {
    var lo, hi := SliceBound(start, |s|), SliceBound(stop, |s|);
    if lo < hi then s[lo..hi] else []
  }

  /**
    `re.split(sep, s)` for a pattern `sep` that matches only itself: the
    occurrences of `sep` are found left to right without overlapping, and the
    pieces between them are returned (empty pieces included).
  */
  function Split(s: string, sep: string): (parts: seq<string>)
    requires sep != []
    ensures |parts| >= 1
    decreases |s|
  {
    var i := Find(s, sep);
    if i < 0 then [s] else [s[..i]] + Split(s[i + |sep|..], sep)
  }

  /** `sep.join(parts)`. */
  function Join(parts: seq<string>, sep: string): string
  {
    if |parts| == 0 then []
    else if |parts| == 1 then parts[0]
    else parts[0] + sep + Join(parts[1..], sep)
  }

  /** Joining the pieces of a split with the separator gives back the original string. */
  lemma {:induction false} JoinSplit(s: string, sep: string)
    requires sep != []
    ensures Join(Split(s, sep), sep) == s
    decreases |s|
  {
    var i := Find(s, sep);
    if i >= 0 {
      var head, rest := s[..i], s[i + |sep|..];
      var parts := Split(s, sep);
      assert parts == [head] + Split(rest, sep);
      assert parts[1..] == Split(rest, sep);
      assert Join(parts, sep) == head + sep + Join(Split(rest, sep), sep);
      JoinSplit(rest, sep);
      assert s == head + s[i..i + |sep|] + rest;
    }
  }

  /** No piece of a split contains the separator. */
  lemma {:induction false} SplitPiecesAvoidSeparator(s: string, sep: string)
    requires sep != []
    ensures forall k :: 0 <= k < |Split(s, sep)| ==> !Contains(Split(s, sep)[k], sep)
    decreases |s|
  {
    var i := Find(s, sep);
    if i >= 0 {
      var rest := s[i + |sep|..];
      SplitPiecesAvoidSeparator(rest, sep);
      var head := s[..i];
      forall j: nat | OccursAt(head, sep, j) ensures false {
        assert head[j..j + |sep|] == s[j..j + |sep|];
        assert OccursAt(s, sep, j);
      }
      assert Split(s, sep) == [head] + Split(rest, sep);
    }
  }

  /**
    The split is the leftmost, non-overlapping one: every piece but the last
    is followed by the separator's first occurrence in that piece followed by
    the separator.
  */
  lemma {:induction false} LeftmostPieces(s: string, sep: string)
    requires sep != []
    ensures forall k :: 0 <= k < |Split(s, sep)| - 1 ==> Find(Split(s, sep)[k] + sep, sep) == |Split(s, sep)[k]|
    decreases |s|
  {
    var i := Find(s, sep);
    if i >= 0 {
      var head, rest := s[..i], s[i + |sep|..];
      LeftmostPieces(rest, sep);
      var t := head + sep;
      assert t == s[..i + |sep|];
      assert t[i..i + |sep|] == sep;
      forall j: nat | j < i ensures !OccursAt(t, sep, j) {
        assert t[j..j + |sep|] == s[j..j + |sep|];
        assert !OccursAt(s, sep, j);
      }
      FindIsFirstOccurrence(t, sep, i);
      var parts := Split(s, sep);
      assert parts == [head] + Split(rest, sep);
      forall k | 0 <= k < |parts| - 1 ensures Find(parts[k] + sep, sep) == |parts[k]| {
        if k > 0 {
          assert parts[k] == Split(rest, sep)[k - 1];
        }
      }
    }
  }

  /** A text that starts with the pattern finds it at index 0. */
  lemma FindAtStart(pat: string, rest: string)
    requires pat != []
    ensures Find(pat + rest, pat) == 0
  {
    FindAfter([], pat, rest);
    assert [] + pat + rest == pat + rest;
  }

  /** `FindAfter` for a first piece made of two parts, associated to the right. */
  lemma FindAfterBoth(a: string, b: string, pat: string, rest: string)
    requires pat != [] && Lacks(a + b, pat[0])
    ensures Find(a + (b + (pat + rest)), pat) == |a| + |b|
  {
    FindAfter(a + b, pat, rest);
    assert a + b + pat + rest == a + (b + (pat + rest));
  }

  /**
    In `m1 + region + m2 + tail`, where neither `m1` nor `region` holds the
    first character of `m2`, slicing from the end of the first `m1` to the
    first `m2` gives `region`.
  */
  lemma SliceBetween(m1: string, region: string, m2: string, tail: string)
    requires m1 != [] && m2 != [] && Lacks(m1 + region, m2[0])
    ensures var s := m1 + (region + (m2 + tail));
      Slice(s, Find(s, m1) + |m1|, Find(s, m2)) == region
  {
    var s := m1 + (region + (m2 + tail));
    FindAtStart(m1, region + (m2 + tail));
    FindAfterBoth(m1, region, m2, tail);
    assert s[|m1|..|m1| + |region|] == region;
  }

  /** A text whose first piece lacks the separator's first character and whose rest never holds the separator splits into those two. */
  lemma SplitAtFirst(a: string, sep: string, rest: string)
    requires sep != [] && Lacks(a, sep[0])
    requires forall j: nat :: !OccursAt(rest, sep, j)
    ensures Split(a + (sep + rest), sep) == [a, rest]
  {
    var s := a + (sep + rest);
    assert s == a + sep + rest;
    FindAfter(a, sep, rest);
    assert s[..|a|] == a && s[|a| + |sep|..] == rest;
    assert Find(rest, sep) == -1;
  }

  /** The characters `str.isspace()` accepts. */
  predicate IsSpace(c: char) {
    c == ' ' || ('\t' <= c <= '\r') || ('\U{1c}' <= c <= '\U{1f}') ||
    c == '\U{85}' || c == '\U{a0}' || c == '\U{1680}' || ('\U{2000}' <= c <= '\U{200a}') ||
    c == '\U{2028}' || c == '\U{2029}' || c == '\U{202f}' || c == '\U{205f}' || c == '\U{3000}'
  }

  /** `s.lstrip()`: the suffix of `s` left after dropping its leading whitespace. */
  function StripLeading(s: string): (r: string)
    ensures |r| <= |s| && r == s[|s| - |r|..]
    ensures r == [] || !IsSpace(r[0])
    ensures forall k :: 0 <= k < |s| - |r| ==> IsSpace(s[k])
  {
    if s != [] && IsSpace(s[0]) then
      var r := StripLeading(s[1..]);
      assert s[1..][|s| - 1 - |r|..] == s[|s| - |r|..];
      assert forall k :: 1 <= k < |s| - |r| ==> s[k] == s[1..][k - 1];
      r
    else s
  }

  /** `s.rstrip()`: the prefix of `s` left after dropping its trailing whitespace. */
  function StripTrailing(s: string): (r: string)
    ensures |r| <= |s| && r == s[..|r|]
    ensures r == [] || !IsSpace(r[|r| - 1])
    ensures forall k :: |r| <= k < |s| ==> IsSpace(s[k])
  {
    if s != [] && IsSpace(s[|s| - 1]) then
      var r := StripTrailing(s[..|s| - 1]);
      assert s[..|s| - 1][..|r|] == s[..|r|];
      assert forall k :: |r| <= k < |s| - 1 ==> s[k] == s[..|s| - 1][k];
      r
    else s
  }

  /** `s.strip()`: neither end of the result is whitespace. */
  function Strip(s: string): (r: string)
    ensures |r| <= |s|
    ensures r == [] || (!IsSpace(r[0]) && !IsSpace(r[|r| - 1]))
  {
    var left := StripLeading(s);
    var r := StripTrailing(left);
    assert r != [] ==> r[0] == left[0];
    r
  }

  /** `s[lo..hi]` is what is left of `s` once the whitespace before `lo` and from `hi` on is dropped. */
  ghost predicate InnerPart(s: string, lo: int, hi: int) {
    && 0 <= lo <= hi <= |s|
    && Strip(s) == s[lo..hi]
    && (forall k :: 0 <= k < lo ==> IsSpace(s[k]))
    && (forall k :: hi <= k < |s| ==> IsSpace(s[k]))
  }

  /** A prefix `r` of a suffix `left` of `s`, where `left` holds only whitespace after `r`, sits in `s` right before whitespace only. */
  lemma PrefixOfSuffix(s: string, left: string, r: string)
    requires |left| <= |s| && left == s[|s| - |left|..]
    requires |r| <= |left| && r == left[..|r|]
    requires forall k :: |r| <= k < |left| ==> IsSpace(left[k])
    ensures r == s[|s| - |left|..|s| - |left| + |r|]
    ensures forall k :: |s| - |left| + |r| <= k < |s| ==> IsSpace(s[k])
  {
    var lo := |s| - |left|;
    assert s[lo..][..|r|] == s[lo..lo + |r|];
    forall k | lo + |r| <= k < |s| ensures IsSpace(s[k]) {
      assert s[k] == left[k - lo];
    }
  }

  /** `s.strip()` removes whitespace only, and only at the two ends. */
  lemma StripRemovesOnlyOuterSpace(s: string)
    ensures exists lo, hi :: InnerPart(s, lo, hi)
  {
    var left := StripLeading(s);
    var r := StripTrailing(left);
    var lo := |s| - |left|;
    PrefixOfSuffix(s, left, r);
    assert InnerPart(s, lo, lo + |r|);
  }

  function DigitChar(d: nat): char
    requires d < 10
  {
    (d + '0' as int) as char
  }

  predicate IsDigit(c: char) {
    '0' <= c <= '9'
  }

  /** `str(n)` for a non-negative integer: its decimal digits, without leading zeros. */
  function NatToString(n: nat): (s: string)
    ensures |s| >= 1
    ensures forall k :: 0 <= k < |s| ==> IsDigit(s[k])
    ensures s[0] == '0' ==> n == 0 && |s| == 1
  {
    if n < 10 then [DigitChar(n)] else NatToString(n / 10) + [DigitChar(n % 10)]
  }

  /** The number a string of decimal digits denotes. */
  function DigitsValue(s: string): nat
    requires forall k :: 0 <= k < |s| ==> IsDigit(s[k])
  {
    if s == [] then 0
    else
      assert IsDigit(s[|s| - 1]);
      10 * DigitsValue(s[..|s| - 1]) + (s[|s| - 1] as int - '0' as int)
  }

  /** `str(n)` is read back as `n`: the decimal form loses nothing. */
  lemma {:induction false} NatToStringRoundTrip(n: nat)
    ensures DigitsValue(NatToString(n)) == n
  {
    if n >= 10 {
      NatToStringRoundTrip(n / 10);
      var s := NatToString(n);
      assert s[..|s| - 1] == NatToString(n / 10);
    }
  }

  /** Distinct numbers print differently. */
  lemma NatToStringInjective(m: nat, n: nat)
    requires NatToString(m) == NatToString(n)
    ensures m == n
  {
    NatToStringRoundTrip(m);
    NatToStringRoundTrip(n);
  }

  /** `os.path.join(a, b)` on POSIX. */
  function PathJoin(a: string, b: string): string
  {
    if b != [] && b[0] == '/' then b
    else if a == [] || a[|a| - 1] == '/' then a + b
    else a + "/" + b
  }

  /**
    The joined path ends with the second component; it starts with the first
    unless the second is absolute, in which case it is the second alone; and
    exactly one slash separates the two when the first does not end in one.
  */
  lemma PathJoinParts(a: string, b: string)
    ensures var p := PathJoin(a, b);
      |b| <= |p| && p[|p| - |b|..] == b
    ensures (b == [] || b[0] != '/') ==>
      var p := PathJoin(a, b);
      |a| <= |p| && p[..|a|] == a
    ensures b != [] && b[0] == '/' ==> PathJoin(a, b) == b
    ensures (b == [] || b[0] != '/') && a != [] && a[|a| - 1] != '/' ==> PathJoin(a, b) == a + "/" + b
    ensures (b == [] || b[0] != '/') && (a == [] || a[|a| - 1] == '/') ==> |PathJoin(a, b)| == |a| + |b|
  {
  }
}
