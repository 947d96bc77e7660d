/**
  The JavaScript values the lotto page handles: what `JSON.parse` can give
  back and what the page builds in memory. Numbers are finite, as JSON
  numbers are; property lookup on anything but a plain object finds no
  own data property.
*/
module Js {
  import opened Options

  datatype JsValue =
    | JsNull
    | JsBool(b: bool)
    | JsNumber(n: real)
    | JsString(s: string)
    | JsArray(items: seq<JsValue>)
    | JsObject(fields: map<string, JsValue>)

  /** `Number.isInteger(v)`. */
  predicate IsInteger(v: JsValue) {
    v.JsNumber? && v.n.Floor as real == v.n
  }

  /**
    `v.key`: the property of a plain object, `None` standing for
    `undefined`. The built-in methods of strings and arrays that share a
    name with a key (such as `at`) are functions, so they are never the
    string or array a caller tests for; they are `None` here as well.
  */
  function Prop(v: JsValue, key: string): Option<JsValue> {
    if v.JsObject? && key in v.fields then Some(v.fields[key]) else None
  }

  /** `Boolean(v)`. */
  predicate Truthy(v: JsValue) {
    match v
    case JsNull => false
    case JsBool(b) => b
    case JsNumber(n) => n != 0.0
    case JsString(s) => s != ""
    case _ => true
  }

  /** An integer as a JavaScript number. */
  function IntValue(k: int): (v: JsValue)
    ensures IsInteger(v) && v.n.Floor == k
  {
    JsNumber(k as real)
  }
}
