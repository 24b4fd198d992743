/** The Python values the engine passes around: fixed keyword arguments of a
    command, captured words, and the scalar and list values of a data file. */
module Values {

  datatype Value =
    | Null                        // Python's None
    | Flag(b: bool)
    | Number(n: int)
    | Str(s: string)
    | StrList(items: seq<string>)

  /** Python truthiness of a value (`if v:`). */
  predicate Truthy(v: Value) {
    match v
    case Null => false
    case Flag(b) => b
    case Number(n) => n != 0
    case Str(s) => |s| > 0
    case StrList(items) => |items| > 0
  }
}
