/**
  The optional-value coercions `to_int` and `to_float`: a blank or absent value becomes
  "no value", anything else goes to Python's `int` or `float`, which raise `ValueError`
  on anything that is no literal.
 */
module Coerce {

  import opened Wrappers
  import opened Text
  import opened Numeric

  /** What a coercion gives: `None`, a number, or the `ValueError` that escapes it. */
  datatype Coerced<T> = NoValue | Value(value: T) | FormatError

  /** `to_int(value)`; note that `int` is handed the value as it is, not stripped. */
  function ToInt(v: Option<string>): Coerced<int> {
    if Blank(v) then NoValue
    else match ParseInt(v.value)
      case None => FormatError
      case Some(n) => Value(n)
  }

  /** `to_float(value)`. */
  function ToFloat(v: Option<string>): Coerced<real> {
    if Blank(v) then NoValue
    else match ParseFloat(v.value)
      case None => FormatError
      case Some(x) => Value(x)
  }

  /** Both coercions give "no value" exactly for an absent value or one made only of
      whitespace. */
  lemma NoValueIffBlank(v: Option<string>)
    ensures ToInt(v) == NoValue <==> v.None? || AllSpace(v.value)
    ensures ToFloat(v) == NoValue <==> v.None? || AllSpace(v.value)
  {
    BlankIffSpaces(v);
  }

  /** A padded integer literal coerces to its value, under either coercion. */
  lemma CoerceIntLiteral(pre: string, n: int, post: string)
    requires AllSpace(pre) && AllSpace(post)
    ensures ToInt(Some(pre + IntToString(n) + post)) == Value(n)
    ensures ToFloat(Some(pre + IntToString(n) + post)) == Value(n as real)
  {
    var s := pre + IntToString(n) + post;
    ParseIntToString(pre, n, post);
    IntIsFloat(s);
    if AllSpace(s) {
      BlankIsNoNumber(s);
    }
    BlankIffSpaces(Some(s));
  }

  /** A padded decimal literal `[-]whole.fraction` coerces under `to_float` to the number
      it writes, and makes `to_int` raise, as `int` refuses the point. */
  lemma CoerceDecimalLiteral(pre: string, neg: bool, whole: string, fraction: string, post: string)
    requires AllSpace(pre) && AllSpace(post) && AllDigits(whole) && AllDigits(fraction)
    requires whole + fraction != []
    ensures var s := pre + (if neg then "-" else "") + whole + "." + fraction + post;
      var v := DecimalValue(whole, fraction);
      ToFloat(Some(s)) == Value(if neg then -v else v) && ToInt(Some(s)) == FormatError
  {
    var sign: string := if neg then "-" else "";
    var s := pre + sign + whole + "." + fraction + post;
    ParseDecimalLiteral(pre, neg, whole, fraction, post);
    if AllSpace(s) {
      BlankIsNoNumber(s);
    }
    BlankIffSpaces(Some(s));
    var p := |pre| + |sign| + |whole|;
    assert s[p] == '.';
    ToIntRaises(s, p);
  }

  /** A non-numeric value raises: it is neither "no value" nor some clamped number. */
  lemma ToIntRaises(s: string, i: nat)
    requires i < |s| && !IsDigit(s[i]) && !IsSpace(s[i]) && s[i] != '+' && s[i] != '-'
    ensures ToInt(Some(s)) == FormatError
  {
    ParseIntRejectsForeign(s, i);
    BlankIffSpaces(Some(s));
  }

  /** The same for `to_float`, where a decimal point is also part of a literal. */
  lemma ToFloatRaises(s: string, i: nat)
    requires i < |s| && !IsDigit(s[i]) && !IsSpace(s[i]) && s[i] != '+' && s[i] != '-' && s[i] != '.'
    ensures ToFloat(Some(s)) == FormatError
  {
    ParseFloatRejectsForeign(s, i);
    BlankIffSpaces(Some(s));
  }

  /** Whatever `to_int` turns into a number, `to_float` turns into the same number. */
  lemma ToFloatWidensToInt(v: Option<string>)
    requires ToInt(v).Value?
    ensures ToFloat(v) == Value(ToInt(v).value as real)
  {
    IntIsFloat(v.value);
  }
}
