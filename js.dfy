/**
 * The few JavaScript notions the server's handlers depend on: values that may be
 * missing, the outcome of code that may throw, and JavaScript's truthiness with the
 * `||` operator built on it.
 */
module Js {

  /** A value that may be absent (`undefined` or `null` on the JavaScript side). */
  datatype Option<+T> = None | Some(value: T)

  /**
   * The outcome of a computation that may throw. A thrown exception carries no
   * payload here: every `catch` in the modelled code discards it.
   */
  datatype Result<+T> = Ok(value: T) | Error

  /**
   * A JavaScript value, as far as truthiness tells values apart. Numbers are reals,
   * with `NaN` apart; every object and every array, whatever it holds, is one
   * opaque `Object`.
   */
  datatype Value =
    | Undefined
    | Null
    | Bool(b: bool)
    | Number(x: real)
    | NaN
    | BigInt(i: int)
    | Str(s: string)
    | Object(id: nat)

  /** The values JavaScript converts to `false`. */
  function Falsy(v: Value): (f: bool)
    ensures f <==> v in {Undefined, Null, Bool(false), Number(0.0), NaN, BigInt(0), Str("")}
  {
    match v
    case Undefined => true
    case Null => true
    case Bool(b) => !b
    case Number(x) => x == 0.0
    case NaN => true
    case BigInt(i) => i == 0
    case Str(s) => s == ""
    case Object(_) => false
  }

  /** JavaScript `a || b`: `a` when it is truthy, otherwise `b`. */
  function Or(a: Value, b: Value): (r: Value)
    ensures r == a || r == b
    ensures Falsy(r) <==> Falsy(a) && Falsy(b)
  {
    if Falsy(a) then b else a
  }

  /** `a || null` never yields a falsy value other than `null`. */
  lemma OrNullNeverFalsy(a: Value)
    ensures Or(a, Null) == Null || !Falsy(Or(a, Null))
    ensures Or(a, Null) == Null <==> Falsy(a)
  {
  }
}
