/** JavaScript values as the two handlers see them in a request body or in a
    reply from the commerce platform, and the truthiness tests (`!x`, `x || y`,
    `if (x)`) the handlers apply to them. */
module Js {

  datatype Option<T> = None | Some(value: T)

  /** A decoded JSON value. Numbers are integers (identifiers); objects and
      arrays are `Object`, whose contents no truthiness test looks at. */
  datatype JsValue =
    | Undefined
    | Null
    | Bool(b: bool)
    | Num(n: int)
    | NaN
    | Str(s: string)
    | Object

  /** `!!v`: every value is truthy except the six falsy ones. */
  function Truthy(v: JsValue): (r: bool)
    ensures !r <==> v in {Undefined, Null, Bool(false), Num(0), NaN, Str("")}
  {
    match v
    case Undefined => false
    case Null => false
    case Bool(b) => b
    case Num(n) => n != 0
    case NaN => false
    case Str(s) => s != ""
    case Object => true
  }
}
