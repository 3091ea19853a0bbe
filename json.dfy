/**
 * A decoded JSON document as Python's `json.load` returns it, and the two
 * Python operations the corpus loader applies to such values: the `in`
 * test and `dict.get` with a default.
 */
module Json {
  import opened Wrappers
  import opened Text

  /** null, true/false, numbers, strings, lists and dicts. */
  datatype Json =
    | JNull
    | JBool(b: bool)
    | JNumber(n: real)
    | JString(s: string)
    | JArray(items: seq<Json>)
    | JObject(fields: map<string, Json>)

  /** Python's `key in v`: a key test on a dict, an element test on a list,
      a substring test on a string; `None` stands for the TypeError raised
      for null, booleans and numbers, which are not containers. */
  function In(v: Json, key: string): (r: Option<bool>)
    ensures r.None? <==> v.JNull? || v.JBool? || v.JNumber?
    ensures v.JObject? ==> r == Some(key in v.fields)
    ensures v.JArray? ==> r == Some(JString(key) in v.items)
    ensures v.JString? ==> r == Some(Contains(v.s, key))
  {
    match v
    case JObject(fields) => Some(key in fields)
    case JArray(items) => Some(JString(key) in items)
    case JString(s) => Some(Contains(s, key))
    case _ => None
  }

  /** Python's `d.get(key, default)` on a dict. */
  function Get(fields: map<string, Json>, key: string, default: Json): Json {
    if key in fields then fields[key] else default
  }
}
