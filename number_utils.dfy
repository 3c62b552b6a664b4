/** Numeric helpers of src/utils/number.ts. */
module NumberUtils {
  import opened Wrappers
  import opened JsBuiltins

  /** clamp: NaN becomes the lower bound, out-of-range values the nearer bound. */
  function Clamp(value: JsNumber, min: real, max: real): (r: real)
    ensures value.NaN? ==> r == min
    ensures min <= max ==> min <= r <= max
    ensures value.Finite? && min <= value.value <= max ==> r == value.value
  {
    if value.NaN? then min
    else if value.NegInfinity? || (value.Finite? && value.value < min) then min
    else if value.PosInfinity? || (value.Finite? && value.value > max) then max
    else value.value
  }

  /** JavaScript's `<=` between two numbers neither of which is NaN. */
  predicate NotAbove(v: JsNumber, w: JsNumber)
    requires !v.NaN? && !w.NaN?
  {
    v.NegInfinity? || w.PosInfinity? || (v.Finite? && w.Finite? && v.value <= w.value)
  }

  lemma ClampIdempotent(value: JsNumber, min: real, max: real)
    requires min <= max
    ensures Clamp(Finite(Clamp(value, min, max)), min, max) == Clamp(value, min, max)
  {
  }

  lemma ClampMonotone(v: JsNumber, w: JsNumber, min: real, max: real)
    requires min <= max && !v.NaN? && !w.NaN? && NotAbove(v, w)
    ensures Clamp(v, min, max) <= Clamp(w, min, max)
  {
  }

  predicate IsInteger(v: real) { v.Floor as real == v }

  /**
   * formatNumberInput: String(value). Integers below 1e21 print as their
   * decimal digits; every other number's text is the platform's `numberText`.
   */
  function FormatNumberInput(value: real, numberText: real -> string): (s: string)
    ensures IsInteger(value) && -1e21 < value < 1e21 ==> s == IntToString(value.Floor)
  {
    if IsInteger(value) && -1e21 < value < 1e21 then IntToString(value.Floor) else numberText(value)
  }

  /** The text of an integral value reads back as that value. */
  lemma FormatIntegerReadsBack(n: int, numberText: real -> string)
    requires -1000000000000000000000 < n < 1000000000000000000000
    ensures ParseInt(FormatNumberInput(n as real, numberText)) == Some(n)
  {
    assert (n as real).Floor == n;
    ParseIntOfIntToString(n);
  }
}
