/** JavaScript value semantics the two route handlers rely on: optional
    values, `null` versus `undefined`, parsed JSON and truthiness. */
module Js {

  datatype Option<+T> = None | Some(value: T)

  /** A JavaScript value of static type `T | null | undefined`.  Optional
      chaining (`x?.f`) yields `Undef` when `x` is `null` or `undefined`. */
  datatype JsOpt<+T> = Val(v: T) | Null | Undef

  /** A value produced by `JSON.parse`.  JSON numbers are modelled as reals. */
  datatype Json =
    | JNull
    | JBool(b: bool)
    | JNum(n: real)
    | JStr(s: string)
    | JArr(elems: seq<Json>)
    | JObj(fields: map<string, Json>)

  /** JavaScript truthiness of a property read, where `None` is `undefined`:
      `undefined`, `null`, `false`, `0` and `""` are falsy, everything else
      (including every array and object) is truthy. */
  predicate Truthy(v: Option<Json>)
  {
    match v
    case None => false
    case Some(j) =>
      match j
      case JNull => false
      case JBool(b) => b
      case JNum(n) => n != 0.0
      case JStr(s) => s != ""
      case JArr(_) => true
      case JObj(_) => true
  }

  /** `v || ''` for a value of type `string | null | undefined`. */
  function OrEmpty(v: JsOpt<string>): (r: string)
    ensures r != "" <==> v.Val? && v.v != ""
    ensures r != "" ==> r == v.v
  {
    match v
    case Val(s) => s
    case _ => ""
  }
}
