/**
 * The values the remote configuration API returns, as Python sees them once
 * decoded from JSON: dictionaries with string keys, lists, strings, numbers,
 * booleans and None.
 */
module Values {

  datatype Value =
    | Null
    | Bool(b: bool)
    | Int(i: int)
    | Float(x: real)
    | Str(s: string)
    | List(items: seq<Value>)
    | Dict(entries: map<string, Value>)

  /** Python truthiness: None, False, zero and empty containers are false. */
  predicate Truthy(v: Value) {
    match v
    case Null => false
    case Bool(b) => b
    case Int(i) => i != 0
    case Float(x) => x != 0.0
    case Str(s) => s != []
    case List(items) => items != []
    case Dict(entries) => entries != map[]
  }

  /** `d.get(key)` on a dictionary: the value, or None when the key is absent. */
  function Get(entries: map<string, Value>, key: string): Value {
    if key in entries then entries[key] else Null
  }
}
