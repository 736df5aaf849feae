/** Optional values: `None` stands for JavaScript's `undefined`, `null` or `NaN`,
    depending on where it is used. */
module Wrappers {
  datatype Option<+T> = None | Some(value: T)
}

/** JSON values as `JSON.parse` produces them, with JavaScript's truthiness. */
module Json {
  import opened Wrappers

  datatype Value =
    | JNull
    | JBool(b: bool)
    | JNum(n: real)
    | JStr(s: string)
    | JArr(elems: seq<Value>)
    | JObj(members: seq<(string, Value)>)

  /** A parsed request body: a property absent from the map is `undefined`. */
  type Body = map<string, Value>

  /** ToBoolean of ECMA-262: `null`, `false`, `0` and `""` are falsy, every array
      and object is truthy. `JSON.parse` never yields `NaN`. */
  predicate Truthy(v: Value) {
    match v
    case JNull => false
    case JBool(b) => b
    case JNum(n) => n != 0.0
    case JStr(s) => s != ""
    case JArr(_) => true
    case JObj(_) => true
  }

  /** `!!body[field]`: the property is defined and truthy. */
  predicate Given(body: Body, field: string) {
    field in body && Truthy(body[field])
  }

  /** `body[field] || fallback` */
  function OrElse(body: Body, field: string, fallback: Value): Value
  {
    if Given(body, field) then body[field] else fallback
  }

  /** `body[field] !== undefined ? body[field] : fallback` */
  function DefinedOr(body: Body, field: string, fallback: Value): Value
  {
    if field in body then body[field] else fallback
  }
}
