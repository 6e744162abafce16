/**
 * Whitespace and Python's `str.strip()` with no argument.
 *
 * `strip()` removes the longest prefix and the longest suffix made only of
 * whitespace, where "whitespace" is what `str.isspace()` accepts.
 */
module Text {

  /** The code points Python's `str.isspace()` accepts: the separators and
      the characters of bidirectional class WS, B or S. */
  predicate IsWs(c: char) {
    || ('\t' <= c <= '\r')                    // U+0009 .. U+000D
    || ('\U{1C}' <= c <= '\U{1F}')            // file, group, record, unit separators
    || c == ' '
    || c == '\U{85}' || c == '\U{A0}' || c == '\U{1680}'
    || ('\U{2000}' <= c <= '\U{200A}')
    || c == '\U{2028}' || c == '\U{2029}' || c == '\U{202F}' || c == '\U{205F}'
    || c == '\U{3000}'
  }

  /** Every character of s[lo..hi] is whitespace. */
  predicate WsBetween(s: string, lo: int, hi: int)
    requires 0 <= lo <= hi <= |s|
  {
    forall i :: lo <= i < hi ==> IsWs(s[i])
  }

  /** Neither end of s is whitespace (vacuously true of the empty string). */
  predicate IsTrimmed(s: string) {
    |s| == 0 || (!IsWs(s[0]) && !IsWs(s[|s| - 1]))
  }

  /** r occurs in s starting at index lo. */
  predicate IsSliceAt(s: string, r: string, lo: nat) {
    lo + |r| <= |s| && s[lo..lo + |r|] == r
  }

  /** r occurs in s at lo, and everything around it is whitespace. */
  predicate IsWsPadded(s: string, r: string, lo: nat) {
    IsSliceAt(s, r, lo) && WsBetween(s, 0, lo) && WsBetween(s, lo + |r|, |s|)
  }

  /** Length of the longest all-whitespace prefix of s. */
  function LeadingWs(s: string): (k: nat)
    ensures k <= |s|
    ensures WsBetween(s, 0, k)
    ensures k < |s| ==> !IsWs(s[k])
  {
    if |s| > 0 && IsWs(s[0]) then 1 + LeadingWs(s[1..]) else 0
  }

  /** Length of the longest all-whitespace suffix of s. */
  function TrailingWs(s: string): (k: nat)
    ensures k <= |s|
    ensures WsBetween(s, |s| - k, |s|)
    ensures k < |s| ==> !IsWs(s[|s| - 1 - k])
  {
    if |s| > 0 && IsWs(s[|s| - 1]) then 1 + TrailingWs(s[..|s| - 1]) else 0
  }

  /** Python's `s.strip()`: the result is trimmed, and it is what is left of
      s once whitespace is removed from both ends. */
  function Trim(s: string): (r: string)
    ensures IsTrimmed(r)
    ensures exists lo: nat :: IsWsPadded(s, r, lo)
  {
    var lo := LeadingWs(s);
    var hi := |s| - TrailingWs(s[lo..]);
    assert IsWsPadded(s, s[lo..hi], lo);
    s[lo..hi]
  }

  /** The characterisation of Trim is complete: a trimmed string surrounded by
      whitespace in s is exactly what Trim returns. */
  lemma TrimUnique(s: string, r: string, lo: nat)
    requires IsTrimmed(r) && IsWsPadded(s, r, lo)
    ensures Trim(s) == r
  {
    var a := LeadingWs(s);
    if |r| == 0 {
      assert a == |s|;
    } else {
      assert s[lo] == r[0];
      assert a == lo;
      var t := s[lo..];
      assert t[|r| - 1] == r[|r| - 1];
      assert TrailingWs(t) == |t| - |r|;
    }
  }

  /** Trimming twice is trimming once. */
  lemma TrimIdempotent(s: string)
    ensures Trim(Trim(s)) == Trim(s)
  {
    TrimUnique(Trim(s), Trim(s), 0);
  }

  /** Whitespace added around a trimmed string is removed again by Trim. */
  lemma TrimPadded(w1: string, r: string, w2: string)
    requires WsBetween(w1, 0, |w1|) && WsBetween(w2, 0, |w2|) && IsTrimmed(r)
    ensures Trim(w1 + r + w2) == r
  {
    var s := w1 + r + w2;
    assert s[|w1|..|w1| + |r|] == r;
    assert WsBetween(s, 0, |w1|) by {
      forall i | 0 <= i < |w1| ensures IsWs(s[i]) { assert s[i] == w1[i]; }
    }
    assert WsBetween(s, |w1| + |r|, |s|) by {
      forall i | |w1| + |r| <= i < |s| ensures IsWs(s[i]) {
        assert s[i] == w2[i - |w1| - |r|];
      }
    }
    TrimUnique(s, r, |w1|);
  }

  /** A slice of a slice is a slice of the whole. */
  lemma SliceOfSlice(s: string, m: string, r: string, i: nat, j: nat)
    requires IsSliceAt(s, m, i) && IsSliceAt(m, r, j)
    ensures IsSliceAt(s, r, i + j)
  {
    forall k | 0 <= k < |r| ensures s[i + j + k] == r[k] {
      assert s[i..i + |m|][j + k] == m[j + k];
    }
  }
}
