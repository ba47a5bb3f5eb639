/** A parsed JSON document, as Python's `json.load` returns it. */
module Json {

  /** JSON numbers are modelled as integers; floating-point values are not part of this model. */
  datatype Json =
    | JNull
    | JBool(b: bool)
    | JNumber(n: int)
    | JString(s: string)
    | JArray(items: seq<Json>)
    | JObject(members: map<string, Json>)
}
