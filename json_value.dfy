/**
 * The Python values `json.loads` produces, as far as the request handlers
 * look at them, and the outcome of decoding a text.
 */
module JsonValue {

  /** A decoded JSON value: `None`, `bool`, a number, `str`, `list` or `dict`. */
  datatype Json =
    | JNull
    | JBool(b: bool)
    | JNumber(n: real)
    | JString(s: string)
    | JArray(items: seq<Json>)
    | JObject(fields: map<string, Json>)

  /** Python's truth value of a decoded value (`bool(v)`). */
  predicate Truthy(v: Json) {
    match v
    case JNull => false
    case JBool(b) => b
    case JNumber(n) => n != 0.0
    case JString(s) => s != []
    case JArray(items) => items != []
    case JObject(fields) => fields != map[]
  }

  /** What `json.loads(text)` does: returns a value or raises
      `JSONDecodeError` with a message. */
  datatype Decoded = Parsed(value: Json) | DecodeError(message: string)
}
