/**
  The JavaScript values the server receives from clients and from the identity provider,
  and the truthiness rules its `if (x)`, `!x` and `x || y` tests apply to them.
*/
module Js {
  import opened Options

  /** A dynamically typed value as it arrives in a socket payload or request body.
      Numbers are integers: NaN and fractions are not modelled. `Object` stands for any
      object or array, which has no `trim` or `match` method. */
  datatype JsValue = Undefined | Null | Bool(b: bool) | Num(n: int) | Str(s: string) | Object

  /** JavaScript truthiness: `undefined`, `null`, `false`, `0` and `""` are falsy. */
  predicate Truthy(v: JsValue) {
    match v
    case Undefined => false
    case Null => false
    case Bool(b) => b
    case Num(n) => n != 0
    case Str(s) => s != ""
    case Object => true
  }

  /** Truthiness of an optional string field (absent, or the empty string, is falsy). */
  predicate Present(o: Option<string>) {
    o.Some? && o.value != ""
  }

  /** `o || fallback` for an optional string. */
  function Or(o: Option<string>, fallback: string): string {
    if Present(o) then o.value else fallback
  }

  /** `o || null`: a falsy value is normalised to null. */
  function OrNull(o: Option<string>): Option<string> {
    if Present(o) then o else None
  }
}
