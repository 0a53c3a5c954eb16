/**
  The JavaScript values the source passes around untyped: JSON-shaped data,
  thrown values, and the truthiness tests the source applies to them.
 */
module JsValues {
  import opened Wrappers

  /** A JSON value; numbers are exact reals (floating point and NaN are not modelled). */
  datatype Json =
    | JNull
    | JBool(b: bool)
    | JNum(n: real)
    | JStr(s: string)
    | JArr(items: seq<Json>)
    | JObj(fields: map<string, Json>)

  /** A thrown value: an `Error` instance carrying a message, or anything else. */
  datatype Thrown = ErrorObject(message: string) | OtherValue(value: Json)

  /** `error instanceof Error ? error.message : fallback`. */
  function MessageOr(t: Thrown, fallback: string): (m: string)
    ensures t.ErrorObject? ==> m == t.message
    ensures t.OtherValue? ==> m == fallback
  {
    match t
    case ErrorObject(msg) => msg
    case OtherValue(_) => fallback
  }

  /** JavaScript truthiness of a possibly-undefined JSON value. */
  predicate Truthy(v: Option<Json>) {
    match v
    case None => false
    case Some(j) =>
      match j
      case JNull => false
      case JBool(b) => b
      case JNum(n) => n != 0.0
      case JStr(s) => s != ""
      case JArr(_) => true
      case JObj(_) => true
  }

  /** Truthiness of a possibly-undefined string: defined and non-empty. */
  predicate Filled(s: Option<string>) {
    s.Some? && s.value != ""
  }

  /** A possibly-undefined string interpolated into a template literal. */
  function Interpolated(s: Option<string>): (t: string)
    ensures s.Some? ==> t == s.value
    ensures s.None? ==> t == "undefined"
  {
    match s
    case Some(v) => v
    case None => "undefined"
  }

  /** Property access `v.key`; undefined unless `v` is an object holding `key`. */
  function Field(v: Option<Json>, key: string): Option<Json> {
    if v.Some? && v.value.JObj? && key in v.value.fields then Some(v.value.fields[key]) else None
  }
}
