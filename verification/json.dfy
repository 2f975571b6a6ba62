/**
  Decoded JSON values as the relay handlers see them after `request.json` or
  `response.json()`, with Python's truthiness and `dict.get`.
 */
module JsonValues {

  /** A decoded JSON value. Objects are unordered here: key order never
      changes what the handlers decide. */
  datatype Json =
    | Null
    | Bool(b: bool)
    | Num(n: real)
    | Str(s: string)
    | Arr(items: seq<Json>)
    | Obj(fields: map<string, Json>)

  /** Python's `bool(v)` on the decoded value: `None`, `False`, zero and the
      empty string, list and dict are false. */
  predicate Truthy(v: Json) {
    match v
    case Null => false
    case Bool(b) => b
    case Num(n) => n != 0.0
    case Str(s) => s != []
    case Arr(items) => items != []
    case Obj(fields) => fields != map[]
  }

  /** Python's `d.get(key, default)`: a key that is present keeps its value, even `null`. */
  function Get(fields: map<string, Json>, key: string, default: Json): Json {
    if key in fields then fields[key] else default
  }

  /** `{'error': message}`. */
  function ErrorBody(message: string): Json {
    Obj(map["error" := Str(message)])
  }
}
