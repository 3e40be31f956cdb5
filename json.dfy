/**
 * JSON values as the app receives them from `JSON.parse` and hands them to
 * `JSON.stringify`, together with JavaScript's truthiness on them.
 * Numbers are integers here; floating point, NaN and `undefined` are not values
 * of this type (an absent property is an absent map key).
 */
module JsonValues {
  datatype Json =
    | JNull
    | JBool(b: bool)
    | JNum(n: int)
    | JStr(s: string)
    | JArr(items: seq<Json>)
    | JObj(fields: map<string, Json>)

  /** JavaScript's `!!v`: null, false, 0 and "" are falsy, every array and object is truthy. */
  predicate Truthy(v: Json) {
    match v
    case JNull => false
    case JBool(b) => b
    case JNum(n) => n != 0
    case JStr(s) => s != ""
    case JArr(_) => true
    case JObj(_) => true
  }

  /** The result of `typeof v` for a parsed JSON value. */
  function TypeOf(v: Json): string {
    match v
    case JNull => "object"
    case JBool(_) => "boolean"
    case JNum(_) => "number"
    case JStr(_) => "string"
    case JArr(_) => "object"
    case JObj(_) => "object"
  }
}
