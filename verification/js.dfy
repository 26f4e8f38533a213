/** The JavaScript primitive values that reach the option checks and message
    templates, with `String(v)` and truthiness. Objects and fractional numbers
    are not modelled. */
module Js {
  import Text
  import Wrappers

  datatype Value = Undefined | Null | Bool(b: bool) | Num(n: int) | Str(s: string)

  /** `String(v)`, which is also what a template literal `${v}` and `'...' + v` produce. */
  function ToString(v: Value): (r: string)
    ensures v.Str? ==> r == v.s
    ensures v.Num? ==> Text.IsCanonicalDecimal(r) && Text.ParseInt(r) == v.n
  {
    match v
    case Undefined => "undefined"
    case Null => "null"
    case Bool(b) => if b then "true" else "false"
    case Num(n) => Text.IntToStringRoundTrip(n); Text.IntToString(n)
    case Str(s) => s
  }

  /** How `Array.prototype.join` renders one element: `undefined` and `null` become "". */
  function JoinText(v: Value): (r: string)
    ensures v.Undefined? || v.Null? ==> r == ""
    ensures !v.Undefined? && !v.Null? ==> r == ToString(v)
  {
    if v.Undefined? || v.Null? then "" else ToString(v)
  }

  /** An optional number as JavaScript sees it: missing is `undefined`. */
  function FromOptionalInt(o: Wrappers.Option<int>): Value {
    match o
    case None => Undefined
    case Some(n) => Num(n)
  }
}
