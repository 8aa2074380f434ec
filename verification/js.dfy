/**
  JavaScript values as the route handlers see them after `req.json()`:
  every field of a request body is one of these, `Undefined` when absent.
  Numbers are IEEE doubles in JavaScript; here a finite number is a `real`
  and the three non-finite values are separate constructors.
 */
module Js {

  datatype Option<+T> = None | Some(value: T) {
    /** `x ?? d` for a header or an environment variable that may be absent */
    function GetOr(default: T): T {
      match this
      case Some(v) => v
      case None => default
    }
  }

  /** A JavaScript number */
  datatype Number = Finite(value: real) | NaN | PosInfinity | NegInfinity

  /**
    A parsed JSON value. `Obj` stands for an object or an array and carries
    the text `String()` gives for it, which is what `Number()` parses.
   */
  datatype Value =
    | Undefined
    | Null
    | Bool(b: bool)
    | Num(n: Number)
    | Str(s: string)
    | Obj(text: string)

  /** The JavaScript truthiness of a value: `!v` is `!Truthy(v)` */
  predicate Truthy(v: Value) {
    match v
    case Undefined => false
    case Null => false
    case Bool(b) => b
    case Num(n) => !n.NaN? && (n.Finite? ==> n.value != 0.0)
    case Str(s) => s != ""
    case Obj(_) => true
  }

  /** `v ?? d`: the default replaces only `undefined` and `null` */
  function Coalesce(v: Value, d: Value): Value {
    if v.Undefined? || v.Null? then d else v
  }

  /**
    `Number(v)`. Converting text to a number is not modelled: the caller
    supplies `parse`, the engine's string-to-number conversion.
   */
  function ToNumber(parse: string -> Number, v: Value): Number {
    match v
    case Undefined => NaN
    case Null => Finite(0.0)
    case Bool(b) => Finite(if b then 1.0 else 0.0)
    case Num(n) => n
    case Str(s) => parse(s)
    case Obj(text) => parse(text)
  }

  /** `n > 0` on JavaScript numbers: false for NaN */
  predicate Positive(n: Number) {
    match n
    case Finite(r) => r > 0.0
    case PosInfinity => true
    case NaN => false
    case NegInfinity => false
  }

  /** `Number.isFinite(n)` for a value already known to be a number */
  predicate IsFinite(n: Number) {
    n.Finite?
  }

  /** `Number.isNaN(n)` for a value already known to be a number */
  predicate IsNaN(n: Number) {
    n.NaN?
  }
}
