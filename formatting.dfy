/**
  The display helpers of `lib/utils.ts` that decide something: the colour
  classes picked by the sign of a variance, the sign and the `%` of a
  formatted percentage, and the text shown for a missing amount.
*/
module Formatting {
  import opened Wrappers
  import opened JsText

  /** The three cases a variance falls into. */
  datatype Sign = Positive | Negative | Zero

  function SignOf(value: real): Sign {
    if value > 0.0 then Positive else if value < 0.0 then Negative else Zero
  }

  /** `getVarianceColor`: green above 0, red below 0, gray at 0. */
  function VarianceColor(value: real): (c: string)
    ensures value > 0.0 <==> c == "text-green-600"
    ensures value < 0.0 <==> c == "text-red-600"
    ensures value == 0.0 <==> c == "text-gray-600"
  {
    if value > 0.0 then "text-green-600"
    else if value < 0.0 then "text-red-600"
    else "text-gray-600"
  }

  /** `getVarianceBgColor`: the same three-way split, as background and text classes. */
  function VarianceBgColor(value: real): (c: string)
    ensures value > 0.0 <==> c == "bg-green-100 text-green-800"
    ensures value < 0.0 <==> c == "bg-red-100 text-red-800"
    ensures value == 0.0 <==> c == "bg-gray-100 text-gray-800"
  {
    if value > 0.0 then "bg-green-100 text-green-800"
    else if value < 0.0 then "bg-red-100 text-red-800"
    else "bg-gray-100 text-gray-800"
  }

  /** Both colourings depend on the sign alone and split the values the same way. */
  lemma ColoursFollowSign(a: real, b: real)
    ensures VarianceColor(a) == VarianceColor(b) <==> SignOf(a) == SignOf(b)
    ensures VarianceBgColor(a) == VarianceBgColor(b) <==> SignOf(a) == SignOf(b)
  {
  }

  /**
    `formatPercentage`: `0%` for `undefined`; otherwise a `+` exactly for a
    positive value, the value to one decimal, and `%` at the end.
  */
  function FormatPercentage(value: Option<real>): (s: string)
    ensures value.None? ==> s == "0%"
    ensures s != [] && s[|s| - 1] == '%'
    ensures value.Some? ==> (s[0] == '+' <==> value.value > 0.0)
    ensures value.Some? ==> (s[0] == '-' <==> value.value < 0.0)
  {
    if value.None? then "0%"
    else
      var x := value.value;
      (if x > 0.0 then "+" else "") + ToFixed1(x) + "%"
  }

  /** `formatCurrency(undefined)`; defined amounts go through `Intl.NumberFormat`. */
  function FormatCurrency(value: Option<real>, formatted: real -> string): (s: string)
    ensures value.None? ==> s == "Rp 0"
    ensures value.Some? ==> s == formatted(value.value)
  {
    if value.None? then "Rp 0" else formatted(value.value)
  }
}
