/**
 * The reply normaliser shared by `generate_recipe` (backend/main.py:72-96)
 * and `generate_grocery` (backend/main.py:137-153): clean the model's reply,
 * extract the greedy `{...}` span, decode it, and fall back to a fixed value
 * for the endpoint when there is no span or it does not decode.
 *
 * `json.loads` is a library call; it is a parameter here, `decode`, that
 * yields None exactly where `json.loads` raises. Every property below holds
 * for every decoder.
 */
module Normalizer {
  import opened Wrappers
  import opened Text
  import opened Fences
  import opened JsonValue
  import opened BraceSearch

  /** Which endpoint is normalising its reply. */
  datatype Kind = Recipe | Grocery

  /** The decoder, `json.loads`: None where it raises. */
  type Decoder = string -> Option<Json>

  const FallbackName: string := "AI Generated Recipe"
  const NotAvailable: string := "Not available"

  /** The value an endpoint returns when its reply cannot be parsed. */
  function Fallback(kind: Kind, cleaned: string): (r: Json)
    ensures kind == Recipe ==> IsRecipe(r)
    ensures kind == Grocery ==> IsGroceryList(r)
  {
    match kind
    case Recipe =>
      var ms := [
        ("name", JString(FallbackName)),
        ("ingredients", JArray([])),
        ("steps", JArray([JString(cleaned)])),
        ("total_calories", JString(NotAvailable)),
        ("protein", JString(NotAvailable))
      ];
      FindFirst(ms, "name", 0, 0);
      FindFirst(ms, "ingredients", 0, 1);
      FindFirst(ms, "steps", 0, 2);
      FindFirst(ms, "total_calories", 0, 3);
      FindFirst(ms, "protein", 0, 4);
      JObject(ms)
    case Grocery =>
      JObject([("items", JArray([]))])
  }

  /** The whole normaliser: never fails; it returns either what the decoder
      made of the span `re.search` reports in the cleaned reply, or the
      endpoint's fallback for the cleaned reply. */
  function Normalize(kind: Kind, reply: string, decode: Decoder): (r: Json)
    ensures || r == Fallback(kind, Clean(reply))
            || exists lo, hi :: IsSearchResult(Clean(reply), lo, hi) && decode(Clean(reply)[lo..hi]) == Some(r)
  {
    Resolve(kind, Clean(reply), decode)
  }

  /** The `try` block and its handler, on the cleaned reply `content`:
      extract, decode, or fall back. */
  function Resolve(kind: Kind, content: string, decode: Decoder): (r: Json)
    ensures || r == Fallback(kind, content)
            || exists lo, hi :: IsSearchResult(content, lo, hi) && decode(content[lo..hi]) == Some(r)
  {
    match ExtractJson(content)
    case None => Fallback(kind, content)
    case Some(text) =>
      match decode(text)
      case Some(v) => v
      case None => Fallback(kind, content)
  }

  /** Text that opens with '{' and closes with '}', as the serialisation of
      any JSON object does. */
  predicate IsObjectText(s: string) {
    |s| >= 2 && s[0] == '{' && s[|s| - 1] == '}'
  }

  /** The recipe fallback: the fixed name, no ingredients, the cleaned reply
      (not the raw one) as its single step, calories and protein unavailable. */
  lemma RecipeFallbackFields(cleaned: string)
    ensures var r := Fallback(Recipe, cleaned);
            && Field(r, "name") == Some(JString("AI Generated Recipe"))
            && Field(r, "ingredients") == Some(JArray([]))
            && Field(r, "steps") == Some(JArray([JString(cleaned)]))
            && Field(r, "total_calories") == Some(JString("Not available"))
            && Field(r, "protein") == Some(JString("Not available"))
            && |r.members| == 5
  {
    var ms := Fallback(Recipe, cleaned).members;
    FindFirst(ms, "name", 0, 0);
    FindFirst(ms, "ingredients", 0, 1);
    FindFirst(ms, "steps", 0, 2);
    FindFirst(ms, "total_calories", 0, 3);
    FindFirst(ms, "protein", 0, 4);
  }

  /** The grocery fallback is `{"items": []}` whatever the reply said. */
  lemma GroceryFallbackIgnoresReply(cleaned: string, other: string)
    ensures Fallback(Grocery, cleaned) == Fallback(Grocery, other)
    ensures Fallback(Grocery, cleaned).members == [("items", JArray([]))]
  {
  }

  /** A span from the first '{' to the last '}' of the cleaned reply that
      decodes is returned exactly as decoded: no key added or removed, no
      check against the endpoint's schema. */
  lemma ResolveReturnsDecoded(kind: Kind, content: string, decode: Decoder, lo: nat, hi: nat, v: Json)
    requires lo < hi <= |content| && content[lo] == '{' && content[hi - 1] == '}'
    requires forall k :: 0 <= k < lo ==> content[k] != '{'
    requires forall k :: hi <= k < |content| ==> content[k] != '}'
    requires decode(content[lo..hi]) == Some(v)
    ensures Resolve(kind, content, decode) == v
  {
    SpanFromBraces(content, lo, hi);
  }

  /** A span that does not decode yields the fallback. */
  lemma ResolveFallsBackOnBadJson(kind: Kind, content: string, decode: Decoder, lo: nat, hi: nat)
    requires lo < hi <= |content| && content[lo] == '{' && content[hi - 1] == '}'
    requires forall k :: 0 <= k < lo ==> content[k] != '{'
    requires forall k :: hi <= k < |content| ==> content[k] != '}'
    requires decode(content[lo..hi]).None?
    ensures Resolve(kind, content, decode) == Fallback(kind, content)
  {
    SpanFromBraces(content, lo, hi);
  }

  /** The span the search reports is pinned down by the first '{' and the
      last '}'. */
  lemma SpanFromBraces(c: string, lo: nat, hi: nat)
    requires lo < hi <= |c| && c[lo] == '{' && c[hi - 1] == '}'
    requires forall k :: 0 <= k < lo ==> c[k] != '{'
    requires forall k :: hi <= k < |c| ==> c[k] != '}'
    ensures ExtractJson(c) == Some(c[lo..hi])
  {
    var sp := FindSpan(c).value;
    assert sp.lo == lo;
    assert sp.hi == hi;
  }

  /** No '}' after any '{' of the cleaned reply: the fallback. */
  lemma ResolveFallsBackWithoutMatch(kind: Kind, content: string, decode: Decoder)
    requires forall i, j :: 0 <= i < j < |content| && content[i] == '{' ==> content[j] != '}'
    ensures Resolve(kind, content, decode) == Fallback(kind, content)
  {
    assert FindSpan(content).None?;
  }

  /** A reply of plain prose with no '{' at all yields the fallback. */
  lemma NormalizeProseWithoutBraces(kind: Kind, reply: string, decode: Decoder)
    requires forall i :: 0 <= i < |reply| ==> reply[i] != '{'
    ensures Normalize(kind, reply, decode) == Fallback(kind, Clean(reply))
  {
    var c := Clean(reply);
    CleanIsSlice(reply);
    var lo: nat :| IsSliceAt(reply, c, lo);
    forall k | 0 <= k < |c| ensures c[k] != '{' {
      assert c[k] == reply[lo + k];
    }
    ResolveFallsBackWithoutMatch(kind, c, decode);
  }

  /** Object text is its own cleaned form. */
  lemma CleanObjectText(s: string)
    requires IsObjectText(s)
    ensures Clean(s) == s
  {
    TrimUnique(s, s, 0);
    CleanStripsOnlyEnds(s);
  }

  /** Cleaned text that is exactly object text is decoded as a whole. */
  lemma ResolveObjectText(kind: Kind, s: string, decode: Decoder)
    requires IsObjectText(s)
    ensures Resolve(kind, s, decode) == match decode(s)
                                        case Some(v) => v
                                        case None => Fallback(kind, s)
  {
    assert s[0..|s|] == s;
    SpanFromBraces(s, 0, |s|);
  }

  /** A reply that is exactly object text is decoded as a whole. */
  lemma NormalizeObjectText(kind: Kind, s: string, decode: Decoder)
    requires IsObjectText(s)
    ensures Normalize(kind, s, decode) == match decode(s)
                                          case Some(v) => v
                                          case None => Fallback(kind, s)
  {
    CleanObjectText(s);
    ResolveObjectText(kind, s, decode);
  }

  /** Normalising the fallback again, once serialised, gives the same
      fallback, provided the decoder reads that serialisation back. */
  lemma FallbackIsStable(kind: Kind, cleaned: string, s: string, decode: Decoder)
    requires IsObjectText(s) && decode(s) == Some(Fallback(kind, cleaned))
    ensures Normalize(kind, s, decode) == Fallback(kind, cleaned)
  {
    NormalizeObjectText(kind, s, decode);
  }

  /** The stripped form of a fenced object keeps its fences. */
  lemma TrimFenced(w0: string, w1: string, body: string, w2: string, w3: string)
    requires WsBetween(w0, 0, |w0|) && WsBetween(w3, 0, |w3|)
    requires IsObjectText(body)
    ensures Trim(w0 + JsonFence + w1 + body + w2 + Fence + w3) == JsonFence + w1 + body + w2 + Fence
  {
    var t := JsonFence + w1 + body + w2 + Fence;
    assert w0 + JsonFence + w1 + body + w2 + Fence + w3 == w0 + t + w3;
    assert t[0] == '`' && t[|t| - 1] == '`';
    TrimPadded(w0, t, w3);
  }

  /** In "```json" w1 body w2 "```" the opening fence is "```json" alone
      and the closing fence is the final "```". */
  lemma FencesOfFenced(w1: string, body: string, w2: string)
    requires WsBetween(w1, 0, |w1|) && IsObjectText(body)
    ensures var t := JsonFence + w1 + body + w2 + Fence;
            && IsTrimmed(t)
            && OpeningFence(t) == JsonFence
            && ClosingFence(t, |JsonFence|) == Fence
            && t[|JsonFence|..|t| - |Fence|] == w1 + body + w2
  {
    var t := JsonFence + w1 + body + w2 + Fence;
    assert t[0] == '`' && t[|t| - 1] == '`';
    assert t[..7] == JsonFence;
    assert t[7] == if |w1| > 0 then w1[0] else body[0];
    assert !StartsWith(t, JsonFence + Fence) by {
      assert (JsonFence + Fence)[7] == '`';
      assert |t| >= 10 ==> t[..10][7] == t[7];
    }
    assert t[|t| - 3..] == Fence;
    assert t[7..|t| - 3] == w1 + body + w2;
  }

  /** Unfencing "```json" w1 body w2 "```" keeps the stripped middle. */
  lemma UnfenceFencedMiddle(w1: string, body: string, w2: string)
    requires WsBetween(w1, 0, |w1|) && IsObjectText(body)
    ensures Unfence(JsonFence + w1 + body + w2 + Fence) == Trim(w1 + body + w2)
  {
    var t := JsonFence + w1 + body + w2 + Fence;
    FencesOfFenced(w1, body, w2);
    UnfenceKeepsMiddle(t);
  }

  /** Unfencing "```json" w1 body w2 "```" keeps exactly the body. */
  lemma UnfenceFenced(w1: string, body: string, w2: string)
    requires WsBetween(w1, 0, |w1|) && WsBetween(w2, 0, |w2|)
    requires IsObjectText(body)
    ensures Unfence(JsonFence + w1 + body + w2 + Fence) == body
  {
    UnfenceFencedMiddle(w1, body, w2);
    TrimPadded(w1, body, w2);
  }

  /** An object wrapped in a "```json" ... "```" fence, with any whitespace
      around the fences and around the object, is normalised as the bare
      object. */
  lemma NormalizeFencedObject(kind: Kind, w0: string, w1: string, body: string, w2: string, w3: string, decode: Decoder)
    requires WsBetween(w0, 0, |w0|) && WsBetween(w1, 0, |w1|)
    requires WsBetween(w2, 0, |w2|) && WsBetween(w3, 0, |w3|)
    requires IsObjectText(body)
    ensures Normalize(kind, w0 + JsonFence + w1 + body + w2 + Fence + w3, decode)
         == Normalize(kind, body, decode)
  {
    TrimFenced(w0, w1, body, w2, w3);
    UnfenceFenced(w1, body, w2);
    CleanObjectText(body);
  }
}
