/** An abstraction of the JavaScript values the handlers read from a parsed
    JSON request body. The handlers only ever ask three things of such a
    value: is it a string, is it truthy, and what is its `String(...)`
    rendering. */
module JsValues {

  /** `Undefined` is a missing field; `Str` is a string; `Other` is any other
      value (number, boolean, null, object, array), described by its
      truthiness and by the text `String(v)` produces for it. */
  datatype JsValue =
    | Undefined
    | Str(s: string)
    | Other(truthy: bool, text: string)

  /** JavaScript truthiness: `undefined` and the empty string are falsy. */
  predicate Truthy(v: JsValue) {
    match v
    case Undefined => false
    case Str(s) => s != ""
    case Other(t, _) => t
  }

  /** `String(v)`, which is also what a template literal `${v}` inserts. */
  function ToText(v: JsValue): string {
    match v
    case Undefined => "undefined"
    case Str(s) => s
    case Other(_, t) => t
  }

  /** The expression `v || fallback`. */
  function OrElse(v: JsValue, fallback: JsValue): JsValue {
    if Truthy(v) then v else fallback
  }
}
