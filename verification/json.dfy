/**
 * JSON values as `json.loads` returns them, and the response shapes the two
 * endpoints promise their callers (a recipe, a grocery list).
 */
module JsonValue {
  import opened Wrappers

  /** A decoded JSON value. Numbers keep their source text; object members
      keep their order, as a Python dict keeps insertion order. A dict never
      repeats a key (`json.loads` keeps the last value of a repeated key), so
      a decoder that models it returns objects with each key once. The
      lookup below lets the first occurrence win; that choice only matters
      for values the model builds itself, such as the fallbacks. */
  datatype Json =
    | JNull
    | JBool(b: bool)
    | JNumber(text: string)
    | JString(s: string)
    | JArray(elems: seq<Json>)
    | JObject(members: seq<(string, Json)>)

  /** The value stored under key among members[i..], first occurrence wins. */
  function FindFrom(members: seq<(string, Json)>, key: string, i: nat): Option<Json>
    decreases |members| - i
  {
    if i >= |members| then None
    else if members[i].0 == key then Some(members[i].1)
    else FindFrom(members, key, i + 1)
  }

  /** The first member whose key is key determines the lookup. */
  lemma {:induction false} FindFirst(members: seq<(string, Json)>, key: string, i: nat, j: nat)
    requires i <= j < |members| && members[j].0 == key
    requires forall k :: i <= k < j ==> members[k].0 != key
    ensures FindFrom(members, key, i) == Some(members[j].1)
    decreases j - i
  {
    if i < j {
      FindFirst(members, key, i + 1, j);
    }
  }

  /** `v[key]` for an object v; nothing for any other value. */
  function Field(v: Json, key: string): Option<Json> {
    if v.JObject? then FindFrom(v.members, key, 0) else None
  }

  predicate HasString(v: Json, key: string) {
    Field(v, key).Some? && Field(v, key).value.JString?
  }

  predicate IsIngredient(e: Json) {
    HasString(e, "item") && HasString(e, "calories")
  }

  predicate IsGroceryItem(e: Json) {
    HasString(e, "name") && HasString(e, "quantity")
  }

  predicate IsIngredientList(a: Json) {
    a.JArray? && forall i :: 0 <= i < |a.elems| ==> IsIngredient(a.elems[i])
  }

  predicate IsStringList(a: Json) {
    a.JArray? && forall i :: 0 <= i < |a.elems| ==> a.elems[i].JString?
  }

  predicate IsGroceryItemList(a: Json) {
    a.JArray? && forall i :: 0 <= i < |a.elems| ==> IsGroceryItem(a.elems[i])
  }

  /** The recipe response: name, ingredients as {item, calories} pairs,
      steps as strings, total_calories and protein as opaque strings. */
  predicate IsRecipe(v: Json) {
    && HasString(v, "name")
    && Field(v, "ingredients").Some? && IsIngredientList(Field(v, "ingredients").value)
    && Field(v, "steps").Some? && IsStringList(Field(v, "steps").value)
    && HasString(v, "total_calories")
    && HasString(v, "protein")
  }

  /** The grocery response: items as {name, quantity} pairs. */
  predicate IsGroceryList(v: Json) {
    Field(v, "items").Some? && IsGroceryItemList(Field(v, "items").value)
  }
}
