/** JSON documents as Python holds them: objects are dictionaries with string keys. */
module JsonValue {
  datatype Json =
    | Null
    | Bool(flag: bool)
    | Int(whole: int)
    | Float(value: real)
    | Str(text: string)
    | Arr(items: seq<Json>)
    | Obj(fields: map<string, Json>)

  /** `m.get(key)`. */
  function Get(m: map<string, Json>, key: string): Json { if key in m then m[key] else Null }

  /** `bool(value)`. */
  predicate Truthy(v: Json) {
    match v
    case Null => false
    case Bool(b) => b
    case Int(n) => n != 0
    case Float(r) => r != 0.0
    case Str(s) => s != ""
    case Arr(items) => items != []
    case Obj(fields) => fields != map[]
  }
}
