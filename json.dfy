/** Request bodies as parsed JSON values, and JavaScript's truthiness on them. */
module Json {

  /** A value read from a parsed body; `Undefined` is a missing member. */
  datatype Value =
    | Undefined
    | Null
    | Bool(b: bool)
    | Number(n: real)
    | Str(s: string)
    | Arr(items: seq<Value>)
    | Obj(members: seq<(string, Value)>)

  /** JavaScript's ToBoolean: `undefined`, `null`, `false`, `0` and `""` are
      false; every other value, arrays and objects included, is true. */
  predicate Truthy(v: Value) {
    match v
    case Undefined => false
    case Null => false
    case Bool(b) => b
    case Number(n) => n != 0.0
    case Str(s) => s != ""
    case Arr(_) => true
    case Obj(_) => true
  }
}
