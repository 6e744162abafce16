/**
 * The extraction `re.search(r"\{.*\}", content, re.DOTALL)` of
 * backend/main.py:82 and 145, computed from brace positions.
 */
module BraceSearch {
  import opened Wrappers

  /** Index of the first c in s. */
  function FirstIndexOf(s: string, c: char): (r: Option<nat>)
    ensures r.Some? ==> r.value < |s| && s[r.value] == c
    ensures r.Some? ==> forall k :: 0 <= k < r.value ==> s[k] != c
    ensures r.None? ==> forall k :: 0 <= k < |s| ==> s[k] != c
  {
    if |s| == 0 then None
    else if s[0] == c then Some(0)
    else match FirstIndexOf(s[1..], c)
      case None => None
      case Some(i) => Some(i + 1)
  }

  /** Index of the last c in s. */
  function LastIndexOf(s: string, c: char): (r: Option<nat>)
    ensures r.Some? ==> r.value < |s| && s[r.value] == c
    ensures r.Some? ==> forall k :: r.value < k < |s| ==> s[k] != c
    ensures r.None? ==> forall k :: 0 <= k < |s| ==> s[k] != c
  {
    if |s| == 0 then None
    else if s[|s| - 1] == c then Some(|s| - 1)
    else LastIndexOf(s[..|s| - 1], c)
  }

  /** A half-open index range s[lo..hi]. */
  datatype Span = Span(lo: nat, hi: nat)

  /** s[lo..hi] matches `\{.*\}` under DOTALL: it opens with '{', closes with
      '}', and anything at all, newlines included, may come between. */
  ghost predicate IsMatch(s: string, lo: int, hi: int) {
    0 <= lo && lo + 2 <= hi <= |s| && s[lo] == '{' && s[hi - 1] == '}'
  }

  /** What `re.search` returns for this pattern: among all matches the one
      that starts leftmost, and at that start the longest, since the only
      quantifier `.*` is greedy. */
  ghost predicate IsSearchResult(s: string, lo: int, hi: int) {
    && IsMatch(s, lo, hi)
    && (forall lo', hi' :: IsMatch(s, lo', hi') ==> lo <= lo')
    && (forall hi' :: IsMatch(s, lo, hi') ==> hi' <= hi)
  }

  /** From the first '{' to the last '}', when the first comes before the
      last; no span otherwise. */
  function FindSpan(s: string): (r: Option<Span>)
    ensures r.Some? ==> IsMatch(s, r.value.lo, r.value.hi)
    ensures r.Some? ==> forall k :: 0 <= k < r.value.lo ==> s[k] != '{'
    ensures r.Some? ==> forall k :: r.value.hi <= k < |s| ==> s[k] != '}'
    ensures r.None? <==> forall i, j :: 0 <= i < j < |s| && s[i] == '{' ==> s[j] != '}'
  {
    match FirstIndexOf(s, '{')
    case None => None
    case Some(i) =>
      match LastIndexOf(s, '}')
      case None => None
      case Some(j) => if i < j then Some(Span(i, j + 1)) else None
  }

  /** The brace computation is the regular-expression search: it finds a span
      exactly when some match exists, and then the very span `re.search`
      reports, which contains every other match. */
  lemma FindSpanIsSearch(s: string)
    ensures FindSpan(s).None? <==> forall lo, hi :: !IsMatch(s, lo, hi)
    ensures FindSpan(s).Some? ==>
              && IsSearchResult(s, FindSpan(s).value.lo, FindSpan(s).value.hi)
              && forall lo, hi :: IsMatch(s, lo, hi) ==>
                   FindSpan(s).value.lo <= lo && hi <= FindSpan(s).value.hi
    ensures forall lo, hi :: IsSearchResult(s, lo, hi) ==> FindSpan(s) == Some(Span(lo, hi))
  {
    forall lo, hi | IsSearchResult(s, lo, hi) ensures FindSpan(s) == Some(Span(lo, hi)) {
      assert s[hi - 1] == '}';
      var sp := FindSpan(s).value;
      assert IsMatch(s, sp.lo, sp.hi);
      assert IsMatch(s, lo, sp.hi);
      assert IsMatch(s, sp.lo, hi);
    }
  }

  /** `json_match.group()`: the matched text, if any. */
  function ExtractJson(s: string): (r: Option<string>)
    ensures r.Some? ==> |r.value| >= 2 && r.value[0] == '{' && r.value[|r.value| - 1] == '}'
    ensures r.Some? ==> exists lo, hi :: IsSearchResult(s, lo, hi) && r.value == s[lo..hi]
    ensures r.None? <==> forall lo, hi :: !IsMatch(s, lo, hi)
  {
    FindSpanIsSearch(s);
    match FindSpan(s)
    case None => None
    case Some(sp) => Some(s[sp.lo..sp.hi])
  }
}
