/**
 * A JSON value as `JSON.parse` produces it. An object is a map from keys to
 * values: when a text repeats a key, `JSON.parse` keeps the last one, so a
 * parsed object never holds two entries for one key.
 */
module Json {

  datatype Json =
    | JNull
    | JBool(b: bool)
    | JNumber(n: int)
    | JString(s: string)
    | JArray(elems: seq<Json>)
    | JObject(fields: map<string, Json>)
}
