/**
 * Decimal numerals: Rust's `u32::from_str`, a decimal reading of
 * `f32`/`f64::from_str`, the saturating `f32 as u64` cast, and the numerals
 * that `nvidia-smi --format=csv,nounits` prints.
 */
module Numbers {
  import opened Wrappers

  const U32Max: nat := 0xFFFF_FFFF
  const U64Max: nat := 0xFFFF_FFFF_FFFF_FFFF

  predicate IsDigit(c: char) {
    '0' <= c <= '9'
  }

  predicate AllDigits(s: string) {
    forall i :: 0 <= i < |s| ==> IsDigit(s[i])
  }

  function DigitValue(c: char): (d: nat)
    requires IsDigit(c)
    ensures d < 10
  {
    c as int - '0' as int
  }

  function DigitChar(d: nat): (c: char)
    requires d < 10
    ensures IsDigit(c) && DigitValue(c) == d
  {
    (d + '0' as int) as char
  }

  /** The value of a string of decimal digits, most significant first. */
  function DigitsValue(s: string): nat
    requires AllDigits(s)
  {
    if s == [] then 0 else DigitsValue(s[..|s| - 1]) * 10 + DigitValue(s[|s| - 1])
  }

  /** The shortest decimal numeral of `n`, as `to_string` prints it. */
  function NatToString(n: nat): (s: string)
    ensures s != [] && AllDigits(s)
    decreases n
  {
    if n < 10 then [DigitChar(n)] else NatToString(n / 10) + [DigitChar(n % 10)]
  }

  /** Reading back a printed numeral gives the number. */
  lemma {:induction false} NatToStringValue(n: nat)
    ensures DigitsValue(NatToString(n)) == n
    decreases n
  {
    if n >= 10 {
      NatToStringValue(n / 10);
      var s := NatToString(n);
      assert s[..|s| - 1] == NatToString(n / 10);
    }
  }

  /** `u32::from_str`: an optional `+`, then one or more ASCII digits, no overflow. */
  function ParseU32(s: string): (r: Option<nat>)
    ensures r.Some? ==> r.value <= U32Max
    ensures s == [] ==> r.None?
    ensures s != [] && s[0] == '-' ==> r.None?
    ensures var b := if |s| > 0 && s[0] == '+' then s[1..] else s;
            (r.Some? <==> b != [] && AllDigits(b) && DigitsValue(b) <= U32Max)
            && (r.Some? ==> AllDigits(b) && r.value == DigitsValue(b))
  {
    var body := if |s| > 0 && s[0] == '+' then s[1..] else s;
    if body == [] || !AllDigits(body) then None
    else
      var v := DigitsValue(body);
      if v <= U32Max then Some(v) else None
  }

  /** A character other than a digit, or than a leading `+`, makes the parse fail. */
  lemma ParseU32RejectsNonDigit(s: string, i: nat)
    requires i < |s| && !IsDigit(s[i]) && !(i == 0 && s[i] == '+')
    ensures ParseU32(s).None?
  {
    if |s| > 0 && s[0] == '+' {
      assert s[1..][i - 1] == s[i];
    }
  }

  /** A plain digit string within range parses as a `u32`. */
  lemma ParseU32OfDigits(s: string)
    requires s != [] && AllDigits(s) && DigitsValue(s) <= U32Max
    ensures ParseU32(s) == Some(DigitsValue(s))
  {
    assert IsDigit(s[0]);
  }

  /** Every `u32` numeral parses back to its value. */
  lemma ParseU32RoundTrip(n: nat)
    requires n <= U32Max
    ensures ParseU32(NatToString(n)) == Some(n)
  {
    NatToStringValue(n);
    ParseU32OfDigits(NatToString(n));
  }

  /** The first index of `c` in `s`, if any. */
  function IndexOf(s: string, c: char): (r: Option<nat>)
    ensures r.None? <==> c !in s
    ensures r.Some? ==> r.value < |s| && s[r.value] == c && c !in s[..r.value]
  {
    if s == [] then None
    else if s[0] == c then Some(0)
    else
      var r := IndexOf(s[1..], c);
      if r.Some? then
        assert s[..r.value + 1] == [s[0]] + s[1..][..r.value];
        Some(r.value + 1)
      else None
  }

  /** The value of the digits after a decimal point: `0.d1d2...`. */
  function FractionValue(digits: string): (v: real)
    requires AllDigits(digits)
    ensures 0.0 <= v < 1.0
  {
    if digits == [] then 0.0 else (DigitValue(digits[0]) as real + FractionValue(digits[1..])) / 10.0
  }

  /** The value of the numeral `whole.fraction`. */
  function DecimalValue(whole: string, fraction: string): (v: real)
    requires AllDigits(whole) && AllDigits(fraction)
    ensures DigitsValue(whole) as real <= v < DigitsValue(whole) as real + 1.0
  {
    DigitsValue(whole) as real + FractionValue(fraction)
  }

  /** Digits with an optional `.` and more digits, at least one digit in all. */
  function ParseUnsignedDecimal(body: string): (r: Option<real>)
    ensures r.Some? ==> forall i :: 0 <= i < |body| ==> IsDigit(body[i]) || body[i] == '.'
  {
    var dot := IndexOf(body, '.');
    var whole := if dot.Some? then body[..dot.value] else body;
    var fraction := if dot.Some? then body[dot.value + 1..] else [];
    if |whole| + |fraction| == 0 || !AllDigits(whole) || !AllDigits(fraction) then None
    else Some(DecimalValue(whole, fraction))
  }

  /**
   * The decimal floating-point numerals Rust's `f32`/`f64` parser accepts
   * without an exponent: an optional sign before an unsigned numeral.
   */
  function ParseDecimal(s: string): (r: Option<real>)
    ensures s == [] ==> r.None?
    ensures r.Some? && s[0] != '-' ==> r.value >= 0.0
    ensures r.Some? ==> forall i :: 0 <= i < |s| ==> IsDigit(s[i]) || s[i] == '.' || (i == 0 && s[i] in "+-")
  {
    var negative := |s| > 0 && s[0] == '-';
    var body := if |s| > 0 && (s[0] == '+' || s[0] == '-') then s[1..] else s;
    match ParseUnsignedDecimal(body)
    case None => None
    case Some(v) => Some(if negative then -v else v)
  }

  /**
   * A string whose first character is neither a digit, a point nor a sign,
   * such as `[N/A]`, is not a float numeral.
   */
  lemma ParseDecimalRejects(s: string)
    requires s != [] && !IsDigit(s[0]) && s[0] !in ".+-"
    ensures ParseDecimal(s).None?
  {
  }

  /** A string of digits holds no other character. */
  lemma DigitsExclude(s: string, c: char)
    requires AllDigits(s) && !IsDigit(c)
    ensures c !in s
  {
    forall i | 0 <= i < |s| ensures s[i] != c {
      assert IsDigit(s[i]);
    }
  }

  /** A plain digit string parses as a float with the same value. */
  lemma ParseDecimalOfDigits(s: string)
    requires s != [] && AllDigits(s)
    ensures ParseDecimal(s) == Some(DigitsValue(s) as real)
  {
    DigitsExclude(s, '.');
    assert IsDigit(s[0]);
    assert ParseUnsignedDecimal(s) == Some(DecimalValue(s, []));
  }

  /** Integer numerals, which is what `nounits` output holds, parse to their value. */
  lemma ParseDecimalOfNat(n: nat)
    ensures ParseDecimal(NatToString(n)) == Some(n as real)
  {
    NatToStringValue(n);
    ParseDecimalOfDigits(NatToString(n));
  }

  lemma {:induction false} IndexOfAfter(w: string, c: char, rest: string)
    requires c !in w && rest != [] && rest[0] == c
    ensures IndexOf(w + rest, c) == Some(|w|)
    decreases |w|
  {
    if w != [] {
      assert (w + rest)[1..] == w[1..] + rest;
      IndexOfAfter(w[1..], c, rest);
    }
  }

  /** A fractional numeral such as `12.5` parses to its value. */
  lemma ParseDecimalOfFraction(whole: nat, digits: string)
    requires digits != [] && AllDigits(digits)
    ensures ParseDecimal(NatToString(whole) + "." + digits) == Some(whole as real + FractionValue(digits))
  {
    var w := NatToString(whole);
    FractionParts(w, digits);
    NatToStringValue(whole);
  }

  lemma FractionParts(w: string, digits: string)
    requires w != [] && AllDigits(w) && AllDigits(digits)
    ensures ParseDecimal(w + "." + digits) == Some(DecimalValue(w, digits))
  {
    var s := w + "." + digits;
    FractionDot(w, digits);
    assert s[..|w|] == w;
    assert s[|w| + 1..] == digits;
    assert IsDigit(s[0]);
  }

  lemma FractionDot(w: string, digits: string)
    requires AllDigits(w)
    ensures IndexOf(w + "." + digits, '.') == Some(|w|)
  {
    DigitsExclude(w, '.');
    IndexOfAfter(w, '.', "." + digits);
    assert w + "." + digits == w + ("." + digits);
  }

  /**
   * Rust's `f32 as u64`: rounds toward zero and saturates at both ends of
   * the `u64` range (NaN is not a real number and is not modelled).
   */
  function AsU64(x: real): (n: nat)
    ensures n <= U64Max
    ensures x <= 0.0 ==> n == 0
    ensures 0.0 <= x < U64Max as real ==> n as real <= x < n as real + 1.0
    ensures x >= U64Max as real ==> n == U64Max
  {
    if x <= 0.0 then 0 else if x.Floor >= U64Max then U64Max else x.Floor
  }
}
