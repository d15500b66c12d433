/**
 * The JavaScript values that the edge functions pass around (request payloads,
 * flattened database rows, RPC results), and JavaScript's notion of truthiness,
 * which the guards `!batch`, `!auth_header`, `!server_secret` and
 * `response.status || 500` rely on.
 */
module JsValue {

  /** A JavaScript value. Numbers are modelled as integers. */
  datatype Value =
    | Undefined
    | Null
    | Bool(b: bool)
    | Num(n: int)
    | Str(s: string)
    | Arr(items: seq<Value>)
    | Obj(fields: map<string, Value>)

  /** JavaScript truthiness: `undefined`, `null`, `false`, `0` and `""` are falsy. */
  predicate Truthy(v: Value)
  {
    match v
    case Undefined => false
    case Null => false
    case Bool(b) => b
    case Num(n) => n != 0
    case Str(s) => s != ""
    case Arr(_) => true
    case Obj(_) => true
  }

  /** Property access `o[k]` on a plain object: a missing key reads as `undefined`. */
  function Get(o: map<string, Value>, k: string): Value
  {
    if k in o then o[k] else Undefined
  }
}
