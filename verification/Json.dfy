/** Decoded JSON values. */
module Json {
  datatype Value = Null | Bool(b: bool) | Number(n: int) | Text(s: string) | List(items: seq<Value>) | Object(fields: map<string, Value>)

  /** Python truth of a decoded value. */
  predicate Truthy(v: Value) {
    match v
    case Null => false
    case Bool(b) => b
    case Number(n) => n != 0
    case Text(s) => s != ""
    case List(items) => items != []
    case Object(fields) => fields != map[]
  }
}
