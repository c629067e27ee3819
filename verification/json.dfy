/** The values a cache record can hold: whatever `json.dump` writes and `json.load` reads back. */
module Json {

  /** A JSON value. Numbers are integers here; floating point is not modelled. */
  datatype Value =
    | Null
    | Bool(b: bool)
    | Number(n: int)
    | Str(s: string)
    | Array(items: seq<Value>)
    | Object(fields: map<string, Value>)

  /** Python truthiness of the value `json.load` produces: `None`, `False`, `0`,
      `''`, `[]` and `{}` are false, everything else is true. */
  predicate Truthy(v: Value) {
    match v
    case Null => false
    case Bool(b) => b
    case Number(n) => n != 0
    case Str(s) => |s| > 0
    case Array(items) => |items| > 0
    case Object(fields) => |fields| > 0
  }
}
