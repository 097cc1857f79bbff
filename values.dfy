/**
 * The JavaScript values the row filter and the schema validators look at, and
 * `String(v)`, the text a value turns into when it is compared or searched.
 * Numbers are integers here; objects and arrays keep only their text.
 */
module JsValues {
  import opened Text

  datatype Value =
    | Undefined
    | Null
    | Bool(b: bool)
    | Num(n: int)
    | Str(s: string)
    | Other(shown: string)

  /** `String(v)`. */
  function Show(v: Value): string {
    match v
    case Undefined => "undefined"
    case Null => "null"
    case Bool(b) => if b then "true" else "false"
    case Num(n) => IntToString(n)
    case Str(s) => s
    case Other(shown) => shown
  }

  /** A plain object: its own properties by name; a missing name reads as `undefined`. */
  type Object = map<string, Value>

  /** `o[name]`. */
  function Get(o: Object, name: string): Value {
    if name in o then o[name] else Undefined
  }
}
