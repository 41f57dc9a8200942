/**
 The untyped JavaScript values a JSON request body and a decoded token
 carry, with the coercions the route handler applies to them: truthiness,
 `typeof x === 'object'`, property access and `Number(x)`.
 */
module Js {

  /** A JavaScript number: finite, one of the two infinities, or NaN. */
  datatype Num = Finite(v: real) | Infinite(negative: bool) | NaN

  /** A JavaScript value as it can appear in a parsed request body. */
  datatype Value =
    | Undefined
    | Null
    | Bool(b: bool)
    | Number(n: Num)
    | Str(s: string)
    | Arr(items: seq<Value>)
    | Obj(fields: map<string, Value>)

  /** `if (v)`: false for undefined, null, false, 0, NaN and "" only. */
  predicate Truthy(v: Value) {
    match v
    case Undefined => false
    case Null => false
    case Bool(b) => b
    case Number(n) => n != NaN && n != Finite(0.0)
    case Str(s) => s != ""
    case Arr(_) => true
    case Obj(_) => true
  }

  /** `typeof v === 'object'`, which holds for null and arrays too. */
  predicate IsObjectType(v: Value) {
    v.Null? || v.Arr? || v.Obj?
  }

  /** `v && typeof v === 'object'`: an array or a plain object, never null. */
  predicate IsRecord(v: Value) {
    Truthy(v) && IsObjectType(v)
  }

  /**
   `v.name` for the data-field names the route reads (`score`,
   `breakdown`): an own field of a plain object, otherwise `undefined`.
   Only called on records.
   */
  function Prop(v: Value, name: string): Value {
    if v.Obj? && name in v.fields then v.fields[name] else Undefined
  }

  /** A destructured request-body field: absent keys read as `undefined`. */
  function BodyField(body: map<string, Value>, name: string): Value {
    if name in body then body[name] else Undefined
  }

  /**
   `Number(v)`. Parsing a string is left to `parseNumeric`; an array goes
   through its string form: `[]` is 0, `[x]` converts `x` (with null and
   undefined printing as "" and so giving 0, booleans printing as words and
   so giving NaN), and two or more elements print with a comma, which no
   numeric literal contains, so they give NaN.
   */
  function ToNumber(v: Value, parseNumeric: string -> Num): Num
    decreases v
  {
    match v
    case Undefined => NaN
    case Null => Finite(0.0)
    case Bool(b) => Finite(if b then 1.0 else 0.0)
    case Number(n) => n
    case Str(s) => parseNumeric(s)
    case Arr(items) =>
      if |items| == 0 then Finite(0.0)
      else if |items| > 1 then NaN
      else if items[0].Undefined? || items[0].Null? then Finite(0.0)
      else if items[0].Bool? then NaN
      else ToNumber(items[0], parseNumeric)
    case Obj(_) => NaN
  }
}
