/**
  The JavaScript values the front end receives in a JSON response body, with
  `undefined` for a missing field, and the truthiness `||` tests them by.
 */
module JsValues {

  /** A JSON value as JavaScript holds it, or `undefined` for a field that is not there. */
  datatype JsValue =
    | JsUndefined
    | JsNull
    | JsBool(b: bool)
    | JsNumber(n: real)
    | JsString(s: string)
    | JsArray(items: seq<JsValue>)
    | JsObject(fields: map<string, JsValue>)

  /** JavaScript truthiness: `undefined`, `null`, `false`, `0` and `""` are falsy; every array and object is truthy. */
  predicate Truthy(v: JsValue) {
    match v
    case JsUndefined => false
    case JsNull => false
    case JsBool(b) => b
    case JsNumber(n) => n != 0.0
    case JsString(s) => s != []
    case JsArray(_) => true
    case JsObject(_) => true
  }
}
