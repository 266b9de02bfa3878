/** Decoded JSON values as the controller returns them, and the Python
    dictionaries the connection layer builds from them. */
module Json {

  datatype Value =
    | JNull
    | JBool(b: bool)
    | JInt(i: int)
    | JStr(s: string)
    | JList(items: seq<Value>)
    | JObj(fields: Dict)

  /** A Python `dict` with string keys. */
  type Dict = map<string, Value>

  /** Python truthiness of a decoded value: `None`, `False`, `0`, `""`,
      `[]` and `{}` are false, everything else is true. */
  predicate Truthy(v: Value) {
    match v
    case JNull => false
    case JBool(b) => b
    case JInt(i) => i != 0
    case JStr(s) => |s| > 0
    case JList(items) => |items| > 0
    case JObj(fields) => |fields| > 0
  }

  /** `d.get(key)` followed by a truthiness test. */
  predicate HasTruthy(d: Dict, key: string) {
    key in d && Truthy(d[key])
  }
}
