# Recipe-bot reply normaliser, modelled in Dafny

The backend of Recipe-bot has two endpoints, `POST /generate-recipe` and
`POST /generate-grocery`. Each sends a prompt to a hosted language model and
turns the model's text reply into the JSON value it returns. That last step,
the reply normaliser, is the only logic in the backend, and both endpoints use
the same code for it:

1. strip the reply, drop a leading "```json", then a leading "```", then a
   trailing "```", and strip again;
2. find the greedy match of `\{.*\}` (with `re.DOTALL`): from the first `{` to
   the last `}`;
3. decode that span with `json.loads` and return the result as it is; when
   there is no span or it does not decode, return a fixed fallback. For a
   recipe the fallback carries the cleaned reply as its only step. For a
   grocery list it is `{"items": []}`.

The model has one normaliser, `Normalizer.Normalize`, parameterised by the
endpoint (`Kind = Recipe | Grocery`). `json.loads` is a library call, so the
normaliser takes it as a parameter `decode: string -> Option<Json>`, which
gives `None` wherever `json.loads` would raise. Every property holds for every
decoder. The whitespace that `strip()` removes is Python's `str.isspace()` set,
written out code point by code point in `Text.IsWs`.

Files, one module each:

- `wrappers.dfy`: `Option`.
- `text.dfy`: Python's whitespace set and `str.strip()` (`Trim`), with the
  uniqueness lemma that characterises it.
- `fences.dfy`: the three fence substitutions and `Clean`, plus the lemmas
  saying fence removal only takes characters from the two ends.
- `json.dfy`: JSON values and the recipe and grocery response shapes.
- `braces.dfy`: the brace-index search and its equivalence with the
  leftmost-longest regular-expression match.
- `normalizer.dfy`: fallbacks, `Normalize` and the end-to-end lemmas.

The model follows the code in three places where a reader might expect
something else:

- The recipe fallback holds the *cleaned* reply in `steps`
  (backend/main.py:93), not the raw reply.
- Only the literal tag `json` is removed from an opening fence. Any other tag,
  such as "```python", loses its backticks and keeps the word `python`. The
  brace search then still finds the object.
- The greedy search over-captures: with two objects in the reply, the span
  runs from the first object's `{` to the second object's `}`. The model keeps
  this behaviour (see `Normalizer.ResolveObjectText`: text from a `{` to a `}` is decoded whole).

## Model

| member | source | states |
|---|---|---|
| Text.Trim | backend/main.py:72 | `strip()` returns a string with no whitespace at either end, found in the input with only whitespace before and after it |
| Text.TrimUnique | backend/main.py:72 | that description of `strip()` is complete: any trimmed piece with only whitespace around it is exactly what `strip()` returns |
| Text.TrimIdempotent | backend/main.py:78 | stripping an already stripped string changes nothing |
| Text.LeadingWs | backend/main.py:72 | the whitespace run that `strip()` removes at the front is the longest such run |
| Text.TrailingWs | backend/main.py:72 | the whitespace run that `strip()` removes at the back is the longest such run |
| Fences.DropLeading | backend/main.py:75-76 | `re.sub(r"^p", "", s)` removes one copy of p at the front if s starts with p, and otherwise leaves s unchanged |
| Fences.Clean | backend/main.py:72-78 | the cleaned reply never starts or ends with whitespace |
| Fences.Unfence | backend/main.py:75-78 | after the three substitutions and the second strip, the text never starts or ends with whitespace |
| Fences.OpeningFenceRemoved | backend/main.py:75-76 | the "```json" and "```" substitutions, applied in that order, remove together exactly the longest of "```json```", "```json", "```", "" that the reply starts with |
| Fences.ClosingFenceRemoved | backend/main.py:77 | once the opening fence is gone, `re.sub(r"```$", "", ...)` on the stripped reply removes exactly one final "```" if the reply ends with one (and does not overlap the opening fence), and otherwise changes nothing |
| Fences.NoFinalNewline | backend/main.py:77 | on the stripped reply, Python's `$` can match only at the very end, never before a final newline |
| Fences.UnfenceKeepsMiddle | backend/main.py:75-78 | the three substitutions and the second strip keep exactly the stripped text between the opening and the closing fence |
| Fences.CleanStripsOnlyEnds | backend/main.py:72-78 | the stripped reply is opening fence + middle + closing fence, each fence removed at most once and the closing one only after the opening one; the cleaned text is the stripped middle |
| Fences.CleanIsSlice | backend/main.py:72-78 | the cleaned text is a contiguous piece of the raw reply |
| BraceSearch.FirstIndexOf | backend/main.py:82 | finds the first occurrence of a character, or reports that there is none |
| BraceSearch.LastIndexOf | backend/main.py:82 | finds the last occurrence of a character, or reports that there is none |
| BraceSearch.FindSpan | backend/main.py:82 | the span runs from the first '{' to the last '}'. No '{' comes before it and no '}' after it. There is no span exactly when no '}' follows any '{' |
| BraceSearch.FindSpanIsSearch | backend/main.py:82 | the brace-index span is what `re.search(r"\{.*\}", s, re.DOTALL)` reports: a span exists iff some match exists, the reported span is the leftmost-longest match, and it contains every other match |
| BraceSearch.ExtractJson | backend/main.py:82-84 | `json_match.group()` is a piece of the cleaned text that opens with '{' and closes with '}'. It is the search result, and it is absent exactly when nothing matches |
| Normalizer.Fallback | backend/main.py:88-96 | the fallback always has its endpoint's response shape: a valid recipe or a valid grocery list |
| Normalizer.RecipeFallbackFields | backend/main.py:90-96 | the recipe fallback has exactly five fields: the fixed name, an empty ingredient list, the cleaned reply as its only step, and "Not available" for calories and for protein |
| Normalizer.GroceryFallbackIgnoresReply | backend/main.py:153 | the grocery fallback is `{"items": []}` whatever the reply was |
| Normalizer.Normalize | backend/main.py:72-96 | the normaliser is total. It returns either the endpoint's fallback for the cleaned reply, or what the decoder made of the span `re.search` reports in the cleaned reply |
| Normalizer.Resolve | backend/main.py:80-96 | on the cleaned reply, the `try` block and its handler never fail. They return either the fallback for that text, or the decoded search span |
| Normalizer.SpanFromBraces | backend/main.py:82-84 | the first '{' and the last '}' of the cleaned text fix the extracted span |
| Normalizer.ResolveReturnsDecoded | backend/main.py:82-85 | when the span from the first '{' to the last '}' decodes, that decoded value is returned unchanged, with no schema check |
| Normalizer.ResolveFallsBackOnBadJson | backend/main.py:88-96 | when that span does not decode, the fallback is returned |
| Normalizer.ResolveFallsBackWithoutMatch | backend/main.py:145-153 | when no '}' follows any '{' in the cleaned text, the fallback is returned |
| Normalizer.NormalizeProseWithoutBraces | backend/main.py:137-153 | a reply with no '{' at all yields the fallback, `{"items": []}` for a grocery list |
| Normalizer.CleanObjectText | backend/main.py:72-78 | text that opens with '{' and closes with '}' comes out of cleaning unchanged |
| Normalizer.ResolveObjectText | backend/main.py:82-96 | cleaned text that opens with '{' and closes with '}' is decoded as a whole: the decoded value if it decodes, otherwise the fallback |
| Normalizer.NormalizeObjectText | backend/main.py:80-96 | a reply that is exactly object text is decoded whole: the decoded value if it decodes, otherwise the fallback |
| Normalizer.FallbackIsStable | backend/main.py:88-96 | normalising a serialised fallback returns the same fallback, provided the decoder reads that serialisation back |
| Normalizer.FencesOfFenced | backend/main.py:75-77 | in "```json" + object + "```" the opening fence is just "```json" and the closing fence is the final "```" |
| Normalizer.NormalizeFencedObject | backend/main.py:72-85 | an object inside a "```json" … "```" fence, with any whitespace around it, is normalised exactly like the bare object |

## Left out

- The chat-completion calls to the hosted model (backend/main.py:56-70, 121-135): network I/O whose failures the code does not handle. The reply text is the normaliser's input.
- The FastAPI app, the CORS middleware, the route decorators and the health endpoint (backend/main.py:11-25): framework plumbing.
- `load_dotenv` and `os.getenv` (backend/main.py:9, 21): environment loading.
- Prompt templating (backend/main.py:36-54, 106-119): plain string interpolation.
- The internals of `json.loads`: a foreign library, modelled as the `decode` parameter.
- The `print` of the parse error (backend/main.py:89, 152): a logging side effect only.
- A reply whose `content` is `None`: `.strip()` then raises outside the `try`, and this error is not modelled.
- Lone surrogates: Python strings may hold them, but the model's strings are sequences of Unicode scalar values.
- Normalizer.FallbackIsStable: the serialisation of the fallback is not modelled. The lemma holds for any text that opens with '{' and closes with '}', as every serialised JSON object does, and it assumes the decoder reads that text back.
