/** The JavaScript values the server route and the page inspect with duck typing: truthiness,
    `typeof`, `Array.isArray` and optional-chained property reads. */
module Js {

  /** A JSON-like JavaScript value. Numbers are integers here; the only
      number the server route or the page ever tests is for truthiness, where 0 is falsy. */
  datatype JsValue =
    | Undefined
    | Null
    | Bool(b: bool)
    | Num(n: int)
    | Str(s: string)
    | Arr(items: seq<JsValue>)
    | Obj(fields: map<string, JsValue>)

  /** JavaScript truthiness: `undefined`, `null`, `false`, `0` and `''` are falsy. */
  predicate Truthy(v: JsValue) {
    match v
    case Undefined => false
    case Null => false
    case Bool(b) => b
    case Num(n) => n != 0
    case Str(s) => s != ""
    case Arr(_) => true
    case Obj(_) => true
  }

  /** `v?.[key]`: a field of an object, or `undefined` for a missing field and
      for every value that is not an object (optional chaining on `null` and
      `undefined`; a string or number has none of the fields the server route and the page read). */
  function Get(v: JsValue, key: string): (r: JsValue)
    ensures r != Undefined ==> v.Obj? && key in v.fields && r == v.fields[key]
    ensures v.Obj? && key in v.fields ==> r == v.fields[key]
  {
    if v.Obj? && key in v.fields then v.fields[key] else Undefined
  }
}
