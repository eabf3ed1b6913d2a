/**
  The numeric literals the pipeline accepts: Python's `int(s)` on a string (base 10),
  and Python's `float(s)` restricted to plain decimal literals. Both discard the
  whitespace `str.strip()` discards and accept one leading sign.
 */
module Numeric {

  import opened Wrappers
  import opened Text

  predicate IsDigit(c: char) {
    '0' <= c <= '9'
  }

  predicate AllDigits(s: string) {
    forall i :: 0 <= i < |s| ==> IsDigit(s[i])
  }

  /** The value of a string of decimal digits, most significant first. */
  function DigitsValue(d: string): nat
    requires AllDigits(d)
  {
    if d == [] then 0 else 10 * DigitsValue(d[..|d| - 1]) + (d[|d| - 1] as int - '0' as int)
  }

  function Pow10(n: nat): (r: nat)
    ensures r >= 1
  {
    if n == 0 then 1 else 10 * Pow10(n - 1)
  }

  /** Splits off one optional leading `+` or `-`; the flag says whether it was `-`. */
  function SplitSign(t: string): (bool, string) {
    if t != [] && (t[0] == '+' || t[0] == '-') then (t[0] == '-', t[1..]) else (false, t)
  }

  /** Python's `int(s)`: `None` stands for the `ValueError` it raises. */
  function ParseInt(s: string): Option<int> {
    SignedInteger(Strip(s))
  }

  /** An optional sign followed by at least one digit, and nothing else. */
  function SignedInteger(t: string): Option<int> {
    var (negative, d) := SplitSign(t);
    if d != [] && AllDigits(d) then
      Some(if negative then -(DigitsValue(d) as int) else DigitsValue(d))
    else
      None
  }

  /** The position of the first `c` in `s`. */
  function IndexOf(s: string, c: char): (r: Option<nat>)
    ensures r.Some? ==> r.value < |s| && s[r.value] == c && c !in s[..r.value]
    ensures r.None? ==> c !in s
  {
    if s == [] then None
    else if s[0] == c then Some(0)
    else match IndexOf(s[1..], c)
      case None => None
      case Some(i) => Some(i + 1)
  }

  /** An unsigned decimal literal: digits, optionally a point and more digits, with at
      least one digit in all. */
  function UnsignedDecimal(b: string): Option<real> {
    match IndexOf(b, '.')
    case None =>
      if b != [] && AllDigits(b) then Some(DigitsValue(b) as real) else None
    case Some(i) =>
      var whole, fraction := b[..i], b[i + 1..];
      if AllDigits(whole) && AllDigits(fraction) && (whole != [] || fraction != []) then
        Some(DecimalValue(whole, fraction))
      else
        None
  }

  /** The value of the literal `whole.fraction`. */
  function DecimalValue(whole: string, fraction: string): real
    requires AllDigits(whole) && AllDigits(fraction)
  {
    DigitsValue(whole) as real + DigitsValue(fraction) as real / Pow10(|fraction|) as real
  }

  /** Python's `float(s)` on decimal literals: `None` stands for the `ValueError` it raises. */
  function ParseFloat(s: string): Option<real> {
    SignedDecimal(Strip(s))
  }

  /** An optional sign followed by an unsigned decimal literal, and nothing else. */
  function SignedDecimal(t: string): Option<real> {
    var (negative, body) := SplitSign(t);
    match UnsignedDecimal(body)
    case None => None
    case Some(v) => Some(if negative then -v else v)
  }

  /** Python's `str(n)` for a natural number. */
  function NatToString(n: nat): string {
    if n < 10 then [('0' as int + n) as char]
    else NatToString(n / 10) + [('0' as int + n % 10) as char]
  }

  /** Python's `str(n)` for an integer. */
  function IntToString(n: int): string {
    if n < 0 then "-" + NatToString(-n) else NatToString(n)
  }

  /** `str(n)` is a non-empty string of digits whose value is `n`. */
  lemma {:induction false} NatToStringDigits(n: nat)
    ensures NatToString(n) != [] && AllDigits(NatToString(n))
    ensures DigitsValue(NatToString(n)) == n
  {
    if n >= 10 {
      NatToStringDigits(n / 10);
      var d := NatToString(n);
      assert d[..|d| - 1] == NatToString(n / 10);
    }
  }

  /** `int(str(n)) == n`, whatever whitespace surrounds the literal. */
  lemma ParseIntToString(pre: string, n: int, post: string)
    requires AllSpace(pre) && AllSpace(post)
    ensures ParseInt(pre + IntToString(n) + post) == Some(n)
  {
    var lit := IntToString(n);
    SignedIntegerOfString(n);
    StripPadded(pre, lit, post);
  }

  lemma SignedIntegerOfString(n: int)
    ensures SignedInteger(IntToString(n)) == Some(n)
    ensures !IsSpace(IntToString(n)[0]) && !IsSpace(IntToString(n)[|IntToString(n)| - 1])
  {
    var m: nat := if n < 0 then -n else n;
    NatToStringDigits(m);
    if n < 0 {
      assert SplitSign(IntToString(n)) == (true, NatToString(m));
    } else {
      assert SplitSign(IntToString(n)) == (false, NatToString(m));
    }
  }

  /** `int` discards surrounding whitespace itself, so stripping first changes nothing. */
  lemma ParseIntStripped(s: string)
    ensures ParseInt(Strip(s)) == ParseInt(s)
  {
    StripIdempotent(s);
  }

  /** The same for `float`. */
  lemma ParseFloatStripped(s: string)
    ensures ParseFloat(Strip(s)) == ParseFloat(s)
  {
    StripIdempotent(s);
  }

  /** A whitespace-only value is never an integer nor a number. */
  lemma BlankIsNoNumber(s: string)
    requires AllSpace(s)
    ensures ParseInt(s).None? && ParseFloat(s).None?
  {
    StripEmptyIffAllSpace(s);
  }

  /** A character that is no digit, sign or whitespace makes `int` fail. */
  lemma ParseIntRejectsForeign(s: string, i: nat)
    requires i < |s| && !IsDigit(s[i]) && !IsSpace(s[i]) && s[i] != '+' && s[i] != '-'
    ensures ParseInt(s).None?
  {
    StripKeeps(s, i);
    var t := Strip(s);
    var k :| 0 <= k < |t| && t[k] == s[i];
    var d := SplitSign(t).1;
    var j: nat := if t != [] && (t[0] == '+' || t[0] == '-') then k - 1 else k;
    assert j < |d| && d[j] == s[i];
  }

  /** A character that is no digit, sign, point or whitespace makes `float` fail. */
  lemma ParseFloatRejectsForeign(s: string, i: nat)
    requires i < |s| && !IsDigit(s[i]) && !IsSpace(s[i]) && s[i] != '+' && s[i] != '-' && s[i] != '.'
    ensures ParseFloat(s).None?
  {
    StripKeeps(s, i);
    var t := Strip(s);
    var k :| 0 <= k < |t| && t[k] == s[i];
    var b := SplitSign(t).1;
    var j: nat := if t != [] && (t[0] == '+' || t[0] == '-') then k - 1 else k;
    assert j < |b| && b[j] == s[i];
    UnsignedDecimalRejects(b, j);
  }

  lemma UnsignedDecimalRejects(b: string, j: nat)
    requires j < |b| && !IsDigit(b[j]) && b[j] != '.'
    ensures UnsignedDecimal(b).None?
  {
    match IndexOf(b, '.')
    case None =>
    case Some(p) =>
      if j < p {
        assert b[..p][j] == b[j];
      } else {
        assert b[p + 1..][j - p - 1] == b[j];
      }
  }

  /** The first point of digits, a point and digits is the one between them. */
  lemma PointAt(whole: string, fraction: string)
    requires AllDigits(whole)
    ensures IndexOf(whole + "." + fraction, '.') == Some(|whole|)
  {
    var s := whole + "." + fraction;
    assert s[|whole|] == '.';
  }

  /** A literal whose first point splits it into two runs of digits, not both empty, is
      a decimal. */
  lemma PointSplits(b: string, i: nat)
    requires IndexOf(b, '.') == Some(i)
    requires AllDigits(b[..i]) && AllDigits(b[i + 1..]) && (i > 0 || i + 1 < |b|)
    ensures UnsignedDecimal(b) == Some(DecimalValue(b[..i], b[i + 1..]))
  {
  }

  /** Digits, a point and digits, not both runs empty, form the decimal they write. */
  lemma UnsignedDecimalText(whole: string, fraction: string)
    requires AllDigits(whole) && AllDigits(fraction) && whole + fraction != []
    ensures UnsignedDecimal(whole + "." + fraction) == Some(DecimalValue(whole, fraction))
  {
    var body := whole + "." + fraction;
    PointAt(whole, fraction);
    assert body[..|whole|] == whole && body[|whole| + 1..] == fraction;
    PointSplits(body, |whole|);
  }

  /** The same with an optional minus sign in front. */
  lemma SignedDecimalText(neg: bool, whole: string, fraction: string)
    requires AllDigits(whole) && AllDigits(fraction) && whole + fraction != []
    ensures var v := DecimalValue(whole, fraction);
      SignedDecimal((if neg then "-" else "") + (whole + "." + fraction)) == Some(if neg then -v else v)
  {
    var body := whole + "." + fraction;
    var lit := (if neg then "-" else "") + body;
    if neg {
      assert lit[0] == '-' && lit[1..] == body;
    } else {
      assert body[0] == if whole == [] then '.' else whole[0];
      assert lit == body && body[0] != '+' && body[0] != '-';
    }
    assert SplitSign(lit) == (neg, body);
    UnsignedDecimalText(whole, fraction);
  }

  /** `float` of a padded literal `[-]whole.fraction` is the number it writes; either run
      of digits may be empty, but not both. */
  lemma ParseDecimalLiteral(pre: string, neg: bool, whole: string, fraction: string, post: string)
    requires AllSpace(pre) && AllSpace(post) && AllDigits(whole) && AllDigits(fraction)
    requires whole + fraction != []
    ensures var v := DecimalValue(whole, fraction);
      ParseFloat(pre + (if neg then "-" else "") + whole + "." + fraction + post) == Some(if neg then -v else v)
  {
    var sign: string := if neg then "-" else "";
    var body := whole + "." + fraction;
    var lit := sign + body;
    assert pre + sign + whole + "." + fraction + post == pre + lit + post;
    assert body[0] == if whole == [] then '.' else whole[0];
    assert body[|body| - 1] == if fraction == [] then '.' else fraction[|fraction| - 1];
    assert lit[0] == if neg then '-' else body[0];
    assert lit[|lit| - 1] == body[|body| - 1];
    StripPadded(pre, lit, post);
    SignedDecimalText(neg, whole, fraction);
  }

  /** Every integer literal is a decimal literal with the same value. */
  lemma IntIsFloat(s: string)
    requires ParseInt(s).Some?
    ensures ParseFloat(s) == Some(ParseInt(s).value as real)
  {
  }
}
