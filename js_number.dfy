/**
 * The JavaScript number conversions the core relies on, over exact numbers:
 * `parseInt(s)` (radix 10), `parseFloat(s)` and the decimal text of an
 * integer. `None` stands for the `NaN` the built-ins return when no digit
 * can be read.
 */
module JsNumber {
  import opened Wrappers
  import opened JsText

  predicate IsDigit(c: char) {
    '0' <= c <= '9'
  }

  function DigitValue(c: char): (d: nat)
    requires IsDigit(c)
    ensures d < 10
  {
    (c as int) - ('0' as int)
  }

  /** The digit character for `d`. */
  function DigitChar(d: nat): (c: char)
    requires d < 10
    ensures IsDigit(c) && DigitValue(c) == d
  {
    (d + '0' as int) as char
  }

  predicate AllDigits(s: string) {
    forall i :: 0 <= i < |s| ==> IsDigit(s[i])
  }

  /** The longest prefix of `s` made of decimal digits. */
  function DigitRun(s: string): (r: string)
    ensures |r| <= |s| && r == s[..|r|]
    ensures AllDigits(r)
    ensures |r| == |s| || !IsDigit(s[|r|])
  {
    if |s| > 0 && IsDigit(s[0]) then [s[0]] + DigitRun(s[1..]) else ""
  }

  /** The number a run of decimal digits denotes, most significant digit first. */
  function DigitsValue(ds: string): nat
    requires AllDigits(ds)
  {
    if ds == [] then 0 else DigitsValue(ds[..|ds| - 1]) * 10 + DigitValue(ds[|ds| - 1])
  }

  /** The value of the digits written after a decimal point: "25" is 0.25. */
  function FractionValue(ds: string): (r: real)
    requires AllDigits(ds)
    ensures 0.0 <= r < 1.0
  {
    if ds == [] then 0.0 else (DigitValue(ds[0]) as real + FractionValue(ds[1..])) / 10.0
  }

  /** The sign a number literal starts with (`-` or `+`, default `+`) and the text after it. */
  function SplitSign(s: string): (int, string) {
    if |s| > 0 && s[0] == '-' then (-1, s[1..])
    else if |s| > 0 && s[0] == '+' then (1, s[1..])
    else (1, s)
  }

  /**
   * `parseInt(s)` with radix 10: leading white space is skipped, then an
   * optional sign, then the longest run of digits; anything after it is
   * ignored. No digit at all gives `NaN`.
   */
  function ParseInt(s: string): (r: Option<int>)
    ensures r.None? <==> (var t := SplitSign(TrimStart(s)).1; t == [] || !IsDigit(t[0]))
  {
    var signed := SplitSign(TrimStart(s));
    var ds := DigitRun(signed.1);
    if ds == [] then None else Some(signed.0 * DigitsValue(ds))
  }

  /**
   * `parseFloat(s)` for decimal literals: leading white space, an optional
   * sign, whole digits, then optionally `.` and fraction digits; the rest of
   * the text is ignored. No digit on either side of the point gives `NaN`.
   */
  function ParseFloat(s: string): (r: Option<real>)
    ensures r.None? <==> (var t := SplitSign(TrimStart(s)).1;
      !((t != [] && IsDigit(t[0])) || (|t| >= 2 && t[0] == '.' && IsDigit(t[1]))))
  {
    var signed := SplitSign(TrimStart(s));
    match DecimalMagnitude(signed.1)
    case None => None
    case Some(magnitude) => Some(if signed.0 < 0 then -magnitude else magnitude)
  }

  /**
   * The number the unsigned decimal literal at the start of `s` denotes:
   * whole digits, then optionally `.` and fraction digits. `None` when there
   * is no digit on either side of the point.
   */
  function DecimalMagnitude(s: string): Option<real> {
    var whole := DigitRun(s);
    var afterWhole := s[|whole|..];
    var frac := if |afterWhole| > 0 && afterWhole[0] == '.' then DigitRun(afterWhole[1..]) else "";
    if whole == [] && frac == [] then None
    else Some(DigitsValue(whole) as real + FractionValue(frac))
  }

  /** The decimal text of a natural number, without leading zeros. */
  function NatToString(n: nat): (s: string)
    ensures |s| >= 1 && AllDigits(s)
    ensures DigitsValue(s) == n
  {
    if n < 10 then [DigitChar(n)]
    else
      var s := NatToString(n / 10) + [DigitChar(n % 10)];
      assert s[..|s| - 1] == NatToString(n / 10);
      s
  }

  /** `String(n)` for an integer `n`: a minus sign before negative values. */
  function IntToString(n: int): (s: string)
    ensures |s| >= 1
  {
    if n < 0 then "-" + NatToString(-n) else NatToString(n)
  }

  /** A whole digit run is its own longest digit prefix. */
  lemma DigitRunOfDigits(s: string)
    requires AllDigits(s)
    ensures DigitRun(s) == s
  {
    var r := DigitRun(s);
    assert |r| == |s|;
  }

  /** `parseInt` reads back the text of every integer. */
  lemma ParseIntOfIntToString(n: int)
    ensures ParseInt(IntToString(n)) == Some(n)
  {
    var m := if n < 0 then -n else n;
    var digits := NatToString(m);
    DigitRunOfDigits(digits);
    var s := IntToString(n);
    assert !IsWhitespace(s[0]);
    TrimStartOfUnspaced(s);
    var signed := SplitSign(s);
    if n < 0 {
      assert s == "-" + digits;
      assert signed == (-1, digits);
    } else {
      assert IsDigit(s[0]);
      assert signed == (1, digits);
    }
    assert DigitRun(signed.1) == digits;
  }

  /** Text that does not start with white space is its own `TrimStart`. */
  lemma TrimStartOfUnspaced(s: string)
    requires s == [] || !IsWhitespace(s[0])
    ensures TrimStart(s) == s
  {
  }

  /** `parseInt` reads the digit run at the start and ignores what follows it. */
  lemma ParseIntOfDigitsThen(digits: string, rest: string)
    requires digits != [] && AllDigits(digits)
    requires rest == [] || !IsDigit(rest[0])
    ensures ParseInt(digits + rest) == Some(DigitsValue(digits))
  {
    var s := digits + rest;
    assert s[0] == digits[0] && IsDigit(s[0]);
    TrimStartOfUnspaced(s);
    var signed := SplitSign(TrimStart(s));
    assert signed == (1, s);
    DigitRunOfPrefix(digits, rest);
    var ds := DigitRun(signed.1);
    assert ds == digits;
  }

  /** The digit run of `digits + rest` is `digits` when `rest` starts with no digit. */
  lemma {:induction false} DigitRunOfPrefix(digits: string, rest: string)
    requires AllDigits(digits)
    requires rest == [] || !IsDigit(rest[0])
    ensures DigitRun(digits + rest) == digits
  {
    if digits != [] {
      assert (digits + rest)[1..] == digits[1..] + rest;
      DigitRunOfPrefix(digits[1..], rest);
    }
  }

  /** `parseFloat` applies the sign it reads to the magnitude after it. */
  lemma ParseFloatOfSigned(s: string, negative: bool, body: string, m: real)
    requires SplitSign(TrimStart(s)) == (if negative then -1 else 1, body)
    requires DecimalMagnitude(body) == Some(m)
    ensures ParseFloat(s) == Some(if negative then -m else m)
  {
    SignApplied(TrimStart(s), negative, body, m);
  }

  /** The sign and magnitude read from `t` give the signed magnitude. */
  lemma SignApplied(t: string, negative: bool, body: string, m: real)
    requires SplitSign(t) == (if negative then -1 else 1, body)
    requires DecimalMagnitude(body) == Some(m)
    ensures match DecimalMagnitude(SplitSign(t).1)
      case None => false
      case Some(x) => (if SplitSign(t).0 < 0 then -x else x) == (if negative then -m else m)
  {
  }

  /** `parseFloat` reads back the text of every natural number. */
  lemma ParseFloatOfNatToString(n: nat)
    ensures ParseFloat(NatToString(n)) == Some(n as real)
  {
    var s := NatToString(n);
    assert IsDigit(s[0]);
    TrimStartOfUnspaced(s);
    assert SplitSign(s) == (1, s);
    MagnitudeOfDigits(s);
    ParseFloatOfSigned(s, false, s, n as real);
  }

  /** A run of digits alone denotes the whole number it writes. */
  lemma MagnitudeOfDigits(s: string)
    requires s != [] && AllDigits(s)
    ensures DecimalMagnitude(s) == Some(DigitsValue(s) as real)
  {
    DigitRunOfDigits(s);
    assert s[|s|..] == [];
  }

  /** `parseFloat` of a one-decimal literal such as "4.5". */
  lemma ParseFloatOneDecimal(whole: char, tenth: char)
    requires IsDigit(whole) && IsDigit(tenth)
    ensures ParseFloat([whole, '.', tenth]) == Some(DigitValue(whole) as real + DigitValue(tenth) as real / 10.0)
  {
    var s := [whole, '.', tenth];
    assert [whole] + ['.', tenth] == s;
    TrimStartOfUnspaced(s);
    var signed := SplitSign(TrimStart(s));
    assert signed == (1, s);
    DigitRunOfPrefix([whole], ['.', tenth]);
    var w := DigitRun(signed.1);
    assert w == [whole];
    var afterWhole := signed.1[|w|..];
    assert afterWhole == ['.', tenth];
    assert afterWhole[1..] == [tenth];
    DigitRunOfDigits([tenth]);
    var frac := DigitRun(afterWhole[1..]);
    assert frac == [tenth];
    assert DigitsValue(w) == DigitValue(whole) by {
      assert [whole][..0] == [];
    }
    assert FractionValue(frac) == DigitValue(tenth) as real / 10.0 by {
      assert [tenth][1..] == [];
    }
  }

  /** Text with no digit before or after an optional point is `NaN` to `parseFloat`. */
  lemma ParseFloatWithoutDigits(s: string)
    requires s == [] || (!IsDigit(s[0]) && s[0] != '.' && s[0] != '-' && s[0] != '+' && !IsWhitespace(s[0]))
    ensures ParseFloat(s) == None && ParseInt(s) == None
  {
    assert TrimStart(s) == s;
    assert SplitSign(s) == (1, s);
    assert s[0..] == s;
  }
}
