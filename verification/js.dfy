/** The JavaScript values that cross the JSON boundary between the browser
    client and the judge endpoint, with the three JavaScript operations the
    core applies to them: truthiness (`!!v`, `v || d`), property access
    through optional chaining (`v?.key`) and template-literal interpolation
    (`${v}`). */
module Js {
  import Digits
  import opened Wrappers

  /** A JSON-representable value, plus `undefined` for a missing property.
      Numbers are exact reals, and no arithmetic is done on them here. */
  datatype Value =
    | Undefined
    | Null
    | Bool(b: bool)
    | Num(x: real)
    | Str(s: string)
    | Arr(items: seq<Value>)
    | Obj(fields: map<string, Value>)

  /** JavaScript's ToBoolean: `undefined`, `null`, `false`, `0` and `""` are
      falsy; every other value, including every array and object, is truthy. */
  predicate Truthy(v: Value) {
    match v
    case Undefined => false
    case Null => false
    case Bool(b) => b
    case Num(x) => x != 0.0
    case Str(s) => |s| > 0
    case Arr(_) => true
    case Obj(_) => true
  }

  /** `v?.key` for a key that names no built-in property: the field's value
      when `v` is an object that has it, `undefined` otherwise (including
      when `v` is `null` or `undefined`). */
  function Get(v: Value, key: string): (r: Value)
    ensures r != Undefined ==> v.Obj? && key in v.fields && v.fields[key] == r
    ensures v.Obj? && key in v.fields ==> r == v.fields[key]
  {
    if v.Obj? && key in v.fields then v.fields[key] else Undefined
  }

  /** `v || fallback`. */
  function Or(v: Value, fallback: Value): (r: Value)
    ensures Truthy(v) ==> r == v
    ensures !Truthy(v) ==> r == fallback
  {
    if Truthy(v) then v else fallback
  }

  /** Decimal rendering of an integer, with a leading minus sign when negative. */
  function IntToString(i: int): (s: string)
    ensures i >= 0 ==> s == Digits.NatToString(i)
    ensures i < 0 ==> s == "-" + Digits.NatToString(-i)
  {
    if i < 0 then "-" + Digits.NatToString(-i) else Digits.NatToString(i)
  }

  /** The integer part of a real, rounded toward zero. */
  function Truncate(x: real): int {
    if x >= 0.0 then x.Floor else -((-x).Floor)
  }

  /** The text `${v}` produces, or `None` when producing it throws. Strings
      are inserted verbatim; arrays are joined with commas, with `null` and
      `undefined` elements rendered as the empty string. An object converts
      through its `toString` method: a JSON object inherits the one that
      yields `[object Object]`, unless it has an own `toString` field, which
      is never callable, and then neither is `valueOf` yielding a primitive,
      so the conversion throws a TypeError. */
  function Text(v: Value): (r: Option<string>)
    ensures v.Str? ==> r == Some(v.s)
    ensures v.Obj? ==> (r.None? <==> "toString" in v.fields)
    ensures v.Arr? ==> (r.None? <==> exists k :: 0 <= k < |v.items| && Throws(v.items[k]))
    decreases v, 1
  {
    match v
    case Undefined => Some("undefined")
    case Null => Some("null")
    case Bool(b) => if b then Some("true") else Some("false")
    case Num(x) => Some(IntToString(Truncate(x)))
    case Str(s) => Some(s)
    case Arr(items) => JoinTexts(v, items, 0)
    case Obj(fields) => if "toString" in fields then None else Some("[object Object]")
  }

  /** Whether `Array.prototype.join` throws on this element: `null` and
      `undefined` are skipped, every other element is converted as by `${v}`. */
  predicate Throws(v: Value)
    decreases v, 2
  {
    !v.Undefined? && !v.Null? && Text(v).None?
  }

  /** The comma-separated texts of the elements of the array `whole` from
      position `from` on, or `None` when converting one of them throws. */
  function JoinTexts(ghost whole: Value, items: seq<Value>, from: nat): (r: Option<string>)
    requires whole.Arr? && items == whole.items && from <= |items|
    ensures r.None? <==> exists k :: from <= k < |items| && Throws(items[k])
    decreases whole, 0, |items| - from
  {
    if from == |items| then Some("")
    else
      assert items[from] in whole.items;
      var first := if items[from].Undefined? || items[from].Null? then Some("") else Text(items[from]);
      if first.None? then None
      else if from + 1 == |items| then first
      else
        match JoinTexts(whole, items, from + 1)
        case None => None
        case Some(rest) => Some(first.value + "," + rest)
  }
}
