/**
 * Decimal text and numbers: Rust's `Display` for integers, zero padding,
 * `i32::from_str` and the float grammar of `f32::from_str`.
 */
module Numbers {
  import opened Wrappers

  const I32Min: int := -0x8000_0000
  const I32Max: int := 0x7fff_ffff

  /** A value that fits Rust's `i32`. */
  type i32 = x: int | I32Min <= x <= I32Max

  predicate IsDigit(c: char) { '0' <= c <= '9' }

  predicate AllDigits(s: string) { forall i :: 0 <= i < |s| ==> IsDigit(s[i]) }

  function DigitValue(c: char): nat
    requires IsDigit(c)
  {
    c as int - '0' as int
  }

  function DigitChar(d: nat): (c: char)
    requires d < 10
    ensures IsDigit(c) && DigitValue(c) == d
  {
    ('0' as int + d) as char
  }

  /** The value of a string of decimal digits, most significant first. */
  function DigitsValue(s: string): nat
    requires AllDigits(s)
  {
    if s == [] then 0 else DigitsValue(s[..|s| - 1]) * 10 + DigitValue(s[|s| - 1])
  }

  function Pow10(n: nat): (p: nat)
    ensures p >= 1
  {
    if n == 0 then 1 else 10 * Pow10(n - 1)
  }

  /** `Display` of a natural number: its digits, without leading zeros. */
  function NatToString(n: nat): (r: string)
    ensures |r| >= 1 && AllDigits(r) && DigitsValue(r) == n
    ensures |r| > 1 ==> r[0] != '0'
  {
    if n < 10 then [DigitChar(n)]
    else
      var r := NatToString(n / 10) + [DigitChar(n % 10)];
      assert r[..|r| - 1] == NatToString(n / 10);
      r
  }

  /** A number below `10^w` (with `w >= 1`) has at most `w` digits. */
  lemma {:induction false} NatToStringLength(n: nat, w: nat)
    requires w >= 1 && n < Pow10(w)
    ensures |NatToString(n)| <= w
  {
    if n >= 10 {
      NatToStringLength(n / 10, w - 1);
    }
  }

  /** `Display` of an integer: a minus sign before the digits of a negative one. */
  function IntToString(i: int): (r: string)
    ensures |r| >= 1 && (r[0] == '-' || IsDigit(r[0])) && IsDigit(r[|r| - 1])
  {
    if i < 0 then "-" + NatToString(-i) else NatToString(i)
  }

  /** Leading zeros do not change the value of a digit string. */
  lemma {:induction false} LeadingZeros(z: string, t: string)
    requires forall i :: 0 <= i < |z| ==> z[i] == '0'
    requires AllDigits(t)
    ensures AllDigits(z + t) && DigitsValue(z + t) == DigitsValue(t)
    decreases |t|
  {
    assert AllDigits(z + t);
    if t == [] {
      assert z + t == z;
      AllZeros(z);
    } else {
      assert (z + t)[..|z + t| - 1] == z + t[..|t| - 1];
      LeadingZeros(z, t[..|t| - 1]);
    }
  }

  lemma {:induction false} AllZeros(z: string)
    requires forall i :: 0 <= i < |z| ==> z[i] == '0'
    ensures AllDigits(z) && DigitsValue(z) == 0
    decreases |z|
  {
    if z != [] {
      AllZeros(z[..|z| - 1]);
    }
  }

  /** `format!("{:0w$}", n)`: the digits of `n`, padded on the left with zeros to width `w`. */
  function ZeroPad(n: nat, w: nat): (r: string)
    ensures AllDigits(r) && DigitsValue(r) == n
    ensures |r| >= w
    ensures w >= 1 && n < Pow10(w) ==> |r| == w
  {
    var t := NatToString(n);
    if w >= 1 && n < Pow10(w) then NatToStringLength(n, w); PadTo(t, w) else PadTo(t, w)
  }

  /** `t` preceded by enough zeros to make it at least `w` long. */
  function PadTo(t: string, w: nat): (r: string)
    requires AllDigits(t)
    ensures AllDigits(r) && DigitsValue(r) == DigitsValue(t)
    ensures |r| == if |t| >= w then |t| else w
  {
    if |t| >= w then t
    else
      var z := seq(w - |t|, _ => '0');
      LeadingZeros(z, t);
      z + t
  }

  /** The value of a digit string that starts with a sign. */
  function SignedValue(negative: bool, digits: string): int
    requires AllDigits(digits)
  {
    if negative then -(DigitsValue(digits) as int) else DigitsValue(digits)
  }

  /**
   * `str::parse::<i32>`: an optional `+` or `-`, then one or more ASCII
   * digits and nothing else, with a value in the range of `i32`.
   */
  function ParseI32(s: string): (r: Option<i32>)
    ensures r.Some? ==> s != [] && (s[0] == '-' || s[0] == '+' || IsDigit(s[0]))
  {
    if s == [] then None
    else
      var signed := s[0] == '-' || s[0] == '+';
      var digits := if signed then s[1..] else s;
      if digits == [] || !AllDigits(digits) then None
      else
        var v := SignedValue(s[0] == '-', digits);
        if I32Min <= v <= I32Max then Some(v) else None
  }

  /** Parsing the `Display` text of an `i32` gives the value back. */
  lemma ParseI32OfDisplay(x: i32)
    ensures ParseI32(IntToString(x)) == Some(x)
  {
    var s := IntToString(x);
    if x < 0 {
      assert s[1..] == NatToString(-(x as int));
    }
  }

  // ----- floating-point literals, as `f32::from_str` reads them -----

  /** `10^e` for any integer exponent. */
  function Scale(e: int): (r: real)
    ensures r > 0.0
  {
    if e >= 0 then Pow10(e) as real else 1.0 / (Pow10(-e) as real)
  }

  /** Index of the first `e` or `E` in `s`, or `|s|`. */
  function ExponentMark(s: string): (k: nat)
    ensures k <= |s|
    ensures forall i :: 0 <= i < k ==> s[i] != 'e' && s[i] != 'E'
    ensures k < |s| ==> s[k] == 'e' || s[k] == 'E'
  {
    if s == [] then 0
    else if s[0] == 'e' || s[0] == 'E' then 0
    else 1 + ExponentMark(s[1..])
  }

  /** Index of the first `.` in `s`, or `|s|`. */
  function PointMark(s: string): (k: nat)
    ensures k <= |s|
    ensures forall i :: 0 <= i < k ==> s[i] != '.'
    ensures k < |s| ==> s[k] == '.'
  {
    if s == [] then 0
    else if s[0] == '.' then 0
    else 1 + PointMark(s[1..])
  }

  /** An optionally signed exponent of one or more digits. */
  function ParseExponent(s: string): Option<int> {
    var negative := s != [] && s[0] == '-';
    var digits := if s != [] && (s[0] == '-' || s[0] == '+') then s[1..] else s;
    if digits == [] || !AllDigits(digits) then None
    else Some(SignedValue(negative, digits))
  }

  /**
   * The decimal part of a float literal: `digits`, `digits.`, `digits.digits`
   * or `.digits`, valued exactly.
   */
  function ParseMantissa(s: string): Option<real> {
    var p := PointMark(s);
    var whole := s[..p];
    var frac := if p < |s| then s[p + 1..] else "";
    if whole == [] && frac == [] then None
    else if !AllDigits(whole) || !AllDigits(frac) then None
    else Some((DigitsValue(whole) as real) + (DigitsValue(frac) as real) * Scale(-|frac|))
  }

  /**
   * `str::parse::<f32>` on finite decimal literals: an optional sign, a
   * mantissa and an optional exponent (`e` or `E`), valued exactly.
   */
  function ParseFloat(s: string): Option<real> {
    var negative := s != [] && s[0] == '-';
    var body := if s != [] && (s[0] == '-' || s[0] == '+') then s[1..] else s;
    var k := ExponentMark(body);
    var mantissa :- ParseMantissa(body[..k]);
    var exponent :- if k < |body| then ParseExponent(body[k + 1..]) else Some(0);
    var magnitude := mantissa * Scale(exponent);
    Some(if negative then -magnitude else magnitude)
  }

  /** A plain run of digits reads as the whole number it spells. */
  lemma ParseFloatOfDigits(s: string)
    requires s != [] && AllDigits(s)
    ensures ParseFloat(s) == Some(DigitsValue(s) as real)
  {
    assert !IsDigit('e') && !IsDigit('E') && !IsDigit('.');
    assert ExponentMark(s) == |s| by { ExponentFree(s); }
    assert PointMark(s) == |s| by { PointFree(s); }
    assert s[..|s|] == s;
  }

  lemma {:induction false} ExponentFree(s: string)
    requires AllDigits(s)
    ensures ExponentMark(s) == |s|
  {
    if s != [] {
      ExponentFree(s[1..]);
    }
  }

  lemma {:induction false} PointFree(s: string)
    requires AllDigits(s)
    ensures PointMark(s) == |s|
  {
    if s != [] {
      PointFree(s[1..]);
    }
  }
}
