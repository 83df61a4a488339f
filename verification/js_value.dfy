/**
 * The JavaScript values that cross the boundaries of the modelled code: the
 * decoded JSON of a response body, the `analysis` object handed to the
 * display, and the objects built from them.
 */
module JsValue {
  import opened Wrappers

  /**
   * A JSON-shaped JavaScript value. A number keeps only whether it is truthy
   * (`nonZero` is false for 0, -0 and NaN): the modelled code never does
   * arithmetic on a number it receives, it only tests it.
   */
  datatype JsVal =
    | Undefined
    | Null
    | Bool(b: bool)
    | Num(nonZero: bool)
    | Str(s: string)
    | Arr(items: seq<JsVal>)
    | Obj(fields: map<string, JsVal>)

  /** JavaScript's ToBoolean. */
  predicate Truthy(v: JsVal) {
    match v
    case Undefined => false
    case Null => false
    case Bool(b) => b
    case Num(nonZero) => nonZero
    case Str(s) => s != ""
    case Arr(_) => true
    case Obj(_) => true
  }

  predicate IsNullish(v: JsVal) {
    v.Undefined? || v.Null?
  }

  /**
   * The property read `v.key`. Reading any property of `undefined` or `null`
   * throws a TypeError, shown as `None`. Otherwise an object yields its own
   * field or `undefined`; every other value yields `undefined`, since none of
   * the keys the modelled code reads (`pdfType`, `error`, `success`, ...) is
   * an own or inherited property of a string, array, number or boolean.
   */
  function Get(v: JsVal, key: string): (r: Option<JsVal>)
    ensures r.None? <==> IsNullish(v)
    ensures r.Some? && !(v.Obj? && key in v.fields) ==> r.value == Undefined
  {
    match v
    case Undefined => None
    case Null => None
    case Obj(fields) => Some(if key in fields then fields[key] else Undefined)
    case _ => Some(Undefined)
  }

  /** The property read `v.key` on a value already known not to be nullish. */
  function Prop(v: JsVal, key: string): (r: JsVal)
    requires !IsNullish(v)
    ensures v.Obj? && key in v.fields ==> r == v.fields[key]
    ensures !(v.Obj? && key in v.fields) ==> r == Undefined
  {
    Get(v, key).value
  }

  /** JavaScript's `a || b`: the left operand when it is truthy, otherwise the right one. */
  function Or(a: JsVal, b: JsVal): (r: JsVal)
    ensures Truthy(r) <==> Truthy(a) || Truthy(b)
    ensures r == a || r == b
  {
    if Truthy(a) then a else b
  }
}
