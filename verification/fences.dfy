/**
 * Removal of the Markdown code fences a model may wrap around its reply
 * (backend/main.py:72-78 and 137-142): strip, drop a leading "```json", then
 * a leading "```", then a trailing "```", strip again.
 */
module Fences {
  import opened Text

  const JsonFence: string := "```json"
  const Fence: string := "```"
  const FenceNewline: string := "```\n"

  predicate StartsWith(s: string, p: string) {
    |p| <= |s| && forall i :: 0 <= i < |p| ==> s[i] == p[i]
  }

  predicate EndsWith(s: string, q: string) {
    |q| <= |s| && forall i :: 0 <= i < |q| ==> s[|s| - |q| + i] == q[i]
  }

  /** `re.sub(r"^p", "", s)` for a literal p: `^` without MULTILINE anchors
      only at index 0, so at most one occurrence, at the front, goes. */
  function DropLeading(s: string, p: string): (r: string)
    ensures StartsWith(s, p) ==> s == p + r
    ensures !StartsWith(s, p) ==> r == s
  {
    if StartsWith(s, p) then s[|p|..] else s
  }

  /** `re.sub(r"```$", "", s)`: Python's `$` without MULTILINE matches at the
      very end and also just before a final "\n", so a fence followed by one
      newline is removed too and the newline kept. */
  function DropTrailingFence(s: string): string {
    if EndsWith(s, Fence) then s[..|s| - |Fence|]
    else if EndsWith(s, FenceNewline) then s[..|s| - |Fence| - 1] + "\n"
    else s
  }

  /** The cleaned reply: stripped, unfenced, stripped again. */
  function Clean(raw: string): (r: string)
    ensures IsTrimmed(r)
  {
    Unfence(Trim(raw))
  }

  /** The three substitutions and the second strip, applied to the already
      stripped reply t. */
  function Unfence(t: string): (r: string)
    ensures IsTrimmed(r)
  {
    var a := DropLeading(t, JsonFence);
    var b := DropLeading(a, Fence);
    Trim(DropTrailingFence(b))
  }

  /** The opening fence the two leading substitutions remove together: the
      longest of "```json```", "```json", "```" and "" that t starts with. */
  function OpeningFence(t: string): string {
    if StartsWith(t, JsonFence + Fence) then JsonFence + Fence
    else if StartsWith(t, JsonFence) then JsonFence
    else if StartsWith(t, Fence) then Fence
    else ""
  }

  /** The closing fence removed once an opening fence of length k is gone:
      a final "```" that does not overlap it. */
  function ClosingFence(t: string, k: nat): string {
    if k + |Fence| <= |t| && EndsWith(t, Fence) then Fence else ""
  }

  /** The two leading substitutions, run in sequence, remove exactly the
      opening fence. */
  lemma OpeningFenceRemoved(t: string)
    ensures |OpeningFence(t)| <= |t|
    ensures DropLeading(DropLeading(t, JsonFence), Fence) == t[|OpeningFence(t)|..]
  {
    var a := DropLeading(t, JsonFence);
    if StartsWith(t, JsonFence + Fence) {
      assert t[..7] == (JsonFence + Fence)[..7];
      assert a[..3] == t[7..10];
    } else if StartsWith(t, JsonFence) {
      assert !StartsWith(a, Fence);
    }
  }

  /** The opening fence is one of the four candidates, and t starts with it. */
  lemma OpeningFenceIsPrefix(t: string)
    ensures OpeningFence(t) in {"", Fence, JsonFence, JsonFence + Fence}
    ensures StartsWith(t, OpeningFence(t))
  {
  }

  /** Once an opening fence of length k is gone from the stripped text t,
      the trailing substitution removes exactly the closing fence. Python's
      `$` could also match before a final newline, but t cannot end in one. */
  lemma ClosingFenceRemoved(t: string, k: nat)
    requires IsTrimmed(t) && k <= |t|
    ensures var q := ClosingFence(t, k);
            && k + |q| <= |t|
            && EndsWith(t, q)
            && DropTrailingFence(t[k..]) == t[k..|t| - |q|]
  {
    var b := t[k..];
    NoFinalNewline(t, k);
    if k + |Fence| <= |t| {
      SuffixEndsWith(t, k, Fence);
      if EndsWith(t, Fence) {
        assert b[..|b| - |Fence|] == t[k..|t| - |Fence|];
      }
    } else {
      assert !EndsWith(b, Fence);
    }
  }

  /** Whether t ends with q does not change when a prefix shorter than
      |t| - |q| is cut off. */
  lemma SuffixEndsWith(t: string, k: nat, q: string)
    requires k + |q| <= |t|
    ensures EndsWith(t[k..], q) <==> EndsWith(t, q)
  {
    assert t[k..][|t| - k - |q|..] == t[|t| - |q|..];
  }

  /** A suffix of a stripped string does not end in a newline. */
  lemma NoFinalNewline(t: string, k: nat)
    requires IsTrimmed(t) && k <= |t|
    ensures !EndsWith(t[k..], FenceNewline)
  {
    var b := t[k..];
    if |b| >= |FenceNewline| {
      assert b[|b| - 1] == t[|t| - 1];
      assert FenceNewline[3] == '\n';
      assert IsWs('\n');
    }
  }

  /** A string with prefix p and a non-overlapping suffix q is p, the middle,
      then q. */
  lemma SplitEnds(t: string, p: string, q: string)
    requires StartsWith(t, p) && EndsWith(t, q) && |p| + |q| <= |t|
    ensures t == p + t[|p|..|t| - |q|] + q
  {
    assert t == t[..|p|] + t[|p|..|t| - |q|] + t[|t| - |q|..];
  }

  /** The stripped reply splits into opening fence, middle, closing fence. */
  lemma FenceSplit(t: string)
    requires IsTrimmed(t)
    ensures var p := OpeningFence(t);
            var q := ClosingFence(t, |p|);
            && |p| + |q| <= |t|
            && t == p + t[|p|..|t| - |q|] + q
  {
    var p := OpeningFence(t);
    OpeningFenceIsPrefix(t);
    ClosingFenceRemoved(t, |p|);
    SplitEnds(t, p, ClosingFence(t, |p|));
  }

  /** Unfencing keeps exactly the stripped middle. */
  lemma UnfenceKeepsMiddle(t: string)
    requires IsTrimmed(t)
    ensures var p := OpeningFence(t);
            var q := ClosingFence(t, |p|);
            && |p| + |q| <= |t|
            && Unfence(t) == Trim(t[|p|..|t| - |q|])
  {
    var p := OpeningFence(t);
    OpeningFenceRemoved(t);
    ClosingFenceRemoved(t, |p|);
    var b := DropLeading(DropLeading(t, JsonFence), Fence);
    assert b == t[|p|..];
    assert DropTrailingFence(b) == t[|p|..|t| - |ClosingFence(t, |p|)|];
  }

  /** Fence removal only ever takes characters from the two ends of the
      stripped reply: one opening fence (chosen longest first) and at most
      one closing "```"; the cleaned text is the stripped middle. */
  lemma CleanStripsOnlyEnds(raw: string)
    ensures var t := Trim(raw);
            var p := OpeningFence(t);
            var q := ClosingFence(t, |p|);
            && p in {"", Fence, JsonFence, JsonFence + Fence}
            && q in {"", Fence}
            && |p| + |q| <= |t|
            && t == p + t[|p|..|t| - |q|] + q
            && Clean(raw) == Trim(t[|p|..|t| - |q|])
  {
    var t := Trim(raw);
    OpeningFenceIsPrefix(t);
    FenceSplit(t);
    UnfenceKeepsMiddle(t);
  }

  /** Stripping a piece of t leaves a piece of t. */
  lemma TrimOfSlice(t: string, m: string, k: nat)
    requires IsSliceAt(t, m, k)
    ensures exists lo: nat :: IsSliceAt(t, Trim(m), lo)
  {
    var lo: nat :| IsWsPadded(m, Trim(m), lo);
    SliceOfSlice(t, m, Trim(m), k, lo);
  }

  /** Unfencing a stripped reply keeps a contiguous piece of it. */
  lemma UnfenceIsSlice(t: string)
    requires IsTrimmed(t)
    ensures exists lo: nat :: IsSliceAt(t, Unfence(t), lo)
  {
    UnfenceKeepsMiddle(t);
    var p := OpeningFence(t);
    var q := ClosingFence(t, |p|);
    TrimOfSlice(t, t[|p|..|t| - |q|], |p|);
  }

  /** The cleaned text is a contiguous piece of the raw reply. */
  lemma CleanIsSlice(raw: string)
    ensures exists lo: nat :: IsSliceAt(raw, Clean(raw), lo)
  {
    var t := Trim(raw);
    var i: nat :| IsWsPadded(raw, t, i);
    UnfenceIsSlice(t);
    var j: nat :| IsSliceAt(t, Unfence(t), j);
    SliceOfSlice(raw, t, Clean(raw), i, j);
  }
}
