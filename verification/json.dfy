/**
 * JSON values as `JSON.parse` returns them, with JavaScript's truthiness. Key order,
 * duplicate keys and the exact text `JSON.stringify` produces are not modelled.
 */
module Json {
  datatype Json =
    | JNull
    | JBool(b: bool)
    | JNumber(n: real)
    | JString(s: string)
    | JArray(items: seq<Json>)
    | JObject(fields: map<string, Json>)

  /** JavaScript truthiness: `null`, `false`, `0` and `""` are falsy; arrays and objects are truthy. */
  predicate Truthy(v: Json) {
    match v
    case JNull => false
    case JBool(b) => b
    case JNumber(n) => n != 0.0
    case JString(s) => s != ""
    case JArray(_) => true
    case JObject(_) => true
  }

  /** `obj.key` as a condition: a missing key reads as `undefined`, which is falsy. */
  predicate HasTruthy(fields: map<string, Json>, key: string) {
    key in fields && Truthy(fields[key])
  }
}
