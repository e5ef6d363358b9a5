/**
 * The fragment of JavaScript value semantics that the creation endpoint
 * relies on: the values a parsed request body can hold, truthiness
 * (ToBoolean, section 7.1.2 of ECMA-262), the `typeof` operator
 * (section 13.5.3 of ECMA-262) and `new Date(value)` for a string or a
 * Date argument (section 21.4.2.1 of ECMA-262).
 */
module Js {
  import opened Wrappers

  /** An IEEE-754 double, abstracted to the classes JavaScript tells apart
      here: NaN, a finite value (+0 and -0 both are `Finite(0.0)`), and the
      two infinities. */
  datatype Number = NaN | Finite(value: real) | Infinity(positive: bool)

  /** The largest magnitude of a Date's time value, in milliseconds from
      the epoch (section 21.4.1.1 of ECMA-262). */
  const MaxTime: int := 8_640_000_000_000_000

  type TimeValue = t: int | -MaxTime <= t <= MaxTime

  /** A JavaScript value. `DateVal(None)` is a Date object whose time value
      is NaN (an "Invalid Date"). */
  datatype JsValue =
    | Undefined
    | Null
    | Bool(b: bool)
    | Num(n: Number)
    | Str(s: string)
    | Arr(elems: seq<JsValue>)
    | Obj(props: map<string, JsValue>)
    | DateVal(time: Option<TimeValue>)

  /** ToBoolean: the falsy values are undefined, null, false, +0, -0, NaN
      and the empty string; every object (arrays, Dates, even an Invalid
      Date) is truthy. */
  predicate Truthy(v: JsValue) {
    match v
    case Undefined => false
    case Null => false
    case Bool(b) => b
    case Num(n) => !(n.NaN? || n == Finite(0.0))
    case Str(s) => s != ""
    case Arr(_) => true
    case Obj(_) => true
    case DateVal(_) => true
  }

  /** The `typeof` operator; note that `typeof null` is "object". */
  function TypeOf(v: JsValue): (r: string)
    ensures r == "string" <==> v.Str?
    ensures r == "number" <==> v.Num?
    ensures r == "undefined" <==> v.Undefined?
  {
    match v
    case Undefined => "undefined"
    case Null => "object"
    case Bool(_) => "boolean"
    case Num(_) => "number"
    case Str(_) => "string"
    case Arr(_) => "object"
    case Obj(_) => "object"
    case DateVal(_) => "object"
  }

  /** `v instanceof Date`. */
  predicate IsDateObject(v: JsValue) {
    v.DateVal?
  }

  /** The values `JSON.parse` can produce: no undefined, no NaN and no Date
      objects (an overflowing literal such as 1e400 does give Infinity). */
  predicate IsJson(v: JsValue) {
    match v
    case Undefined => false
    case Null => true
    case Bool(_) => true
    case Num(n) => !n.NaN?
    case Str(_) => true
    case Arr(xs) => forall i :: 0 <= i < |xs| ==> IsJson(xs[i])
    case Obj(m) => forall k :: k in m ==> IsJson(m[k])
    case DateVal(_) => false
  }

  /** The engine's date-string parser behind `new Date(string)`: the time
      value of a valid date, or None where the result is an Invalid Date.
      Its calendar rules are platform-defined and are not modelled. */
  type DateParser = string -> Option<TimeValue>

  /** The time value of `new Date(v)` for a string or a Date argument, None
      when it is NaN: a string goes through the parser, a Date is copied. */
  function NewDate(v: JsValue, parse: DateParser): (t: Option<TimeValue>)
    requires v.Str? || IsDateObject(v)
  {
    match v
    case Str(s) => parse(s)
    case DateVal(time) => time
  }
}
