/**
 * The `decimal(5, 2)` columns of the database (`jobs.fuel_surcharge` and
 * `towing_services.rate`). The database reads the text a statement supplies
 * as a decimal number and rounds it half away from zero to two decimals. It
 * refuses the statement when the text is not a number or when the rounded
 * magnitude needs more than three digits before the point. A read gives the
 * number back as text with exactly two decimals.
 */
module SqlDecimal {
  import opened Wrappers
  import opened JsText
  import opened JsNumber

  /** The white space PostgreSQL's numeric input skips before and after a number. */
  predicate IsSqlSpace(c: char) {
    c == ' ' || c == '\t' || c == '\n' || c == '\r' || c == '\U{000B}' || c == '\U{000C}'
  }

  /** `s` without its leading white space. */
  function SkipSpaces(s: string): (r: string)
    ensures |r| <= |s| && r == s[|s| - |r|..]
    ensures r == [] || !IsSqlSpace(r[0])
  {
    if |s| > 0 && IsSqlSpace(s[0]) then SkipSpaces(s[1..]) else s
  }

  predicate AllSpaces(s: string) {
    forall i :: 0 <= i < |s| ==> IsSqlSpace(s[i])
  }

  /** A decimal literal: its sign, the digits before the point and the digits after it. */
  datatype Literal = Literal(negative: bool, whole: string, fraction: string)

  predicate WellFormed(lit: Literal) {
    AllDigits(lit.whole) && AllDigits(lit.fraction) && (lit.whole != [] || lit.fraction != [])
  }

  /**
   * The literal `text` writes: white space, an optional sign, digits with at
   * most one point and at least one digit, then white space only. Any other
   * text is invalid input.
   */
  function ReadLiteral(text: string): (r: Option<Literal>)
    ensures r.Some? ==> WellFormed(r.value)
  {
    var signed := SplitSign(SkipSpaces(text));
    ReadDigits(signed.0 < 0, signed.1)
  }

  /** The part of a literal after its sign: digits, at most one point, then white space only. */
  function ReadDigits(negative: bool, s: string): (r: Option<Literal>)
    ensures r.Some? ==> WellFormed(r.value) && r.value.negative == negative
  {
    var whole := DigitRun(s);
    var afterWhole := s[|whole|..];
    var hasPoint := |afterWhole| > 0 && afterWhole[0] == '.';
    var fraction := if hasPoint then DigitRun(afterWhole[1..]) else "";
    var rest := if hasPoint then afterWhole[1 + |fraction|..] else afterWhole;
    if (whole == [] && fraction == []) || !AllSpaces(rest) then None
    else Some(Literal(negative, whole, fraction))
  }

  /** The `k`-th digit after the point; 0 past the last one. */
  function FractionDigit(fraction: string, k: nat): (d: nat)
    requires AllDigits(fraction)
    ensures d < 10
  {
    if k < |fraction| then DigitValue(fraction[k]) else 0
  }

  /** The literal's magnitude in hundredths, rounded half away from zero. */
  function RoundedHundredths(lit: Literal): nat
    requires WellFormed(lit)
  {
    DigitsValue(lit.whole) * 100 + FractionDigit(lit.fraction, 0) * 10 + FractionDigit(lit.fraction, 1)
      + (if FractionDigit(lit.fraction, 2) >= 5 then 1 else 0)
  }

  /** The literal's exact magnitude. */
  function Magnitude(lit: Literal): real
    requires WellFormed(lit)
  {
    DigitsValue(lit.whole) as real + FractionValue(lit.fraction)
  }

  /** One more than the largest magnitude, in hundredths, that five digits with two decimals hold. */
  const Limit: int := 100000

  /**
   * The value, in hundredths, that the column stores for `text`. `None`
   * means the database refuses the statement: the text is not a number, or
   * its rounded magnitude is 1000 or more.
   */
  function ColumnValue(text: string): (r: Option<int>)
    ensures r.Some? ==> ReadLiteral(text).Some? && -Limit < r.value < Limit
  {
    match ReadLiteral(text)
    case None => None
    case Some(lit) =>
      var m: int := RoundedHundredths(lit);
      if m >= Limit then None else Some(if lit.negative then -m else m)
  }

  /**
   * The database refuses exactly the texts that are no number and the
   * numbers whose rounded magnitude reaches 1000; otherwise it stores the
   * rounded magnitude with the literal's sign (a negative zero is zero).
   */
  lemma ColumnValueMeaning(text: string)
    ensures ColumnValue(text).None? <==> ReadLiteral(text).None? || RoundedHundredths(ReadLiteral(text).value) >= Limit
    ensures ColumnValue(text).Some? ==>
      var lit := ReadLiteral(text).value;
      && (ColumnValue(text).value < 0 ==> lit.negative)
      && (ColumnValue(text).value > 0 ==> !lit.negative)
      && (if ColumnValue(text).value < 0 then -ColumnValue(text).value else ColumnValue(text).value) == RoundedHundredths(lit)
  {
  }

  /** An optional minus, the whole digits, a point and the two decimals `d1`, `d2`. */
  function Written(negative: bool, digits: string, d1: nat, d2: nat): (t: string)
    requires d1 < 10 && d2 < 10
    ensures |t| >= 3 && t[|t| - 3] == '.'
  {
    (if negative then "-" else "") + (digits + ['.', DigitChar(d1), DigitChar(d2)])
  }

  /** The text the column reads back for `h` hundredths: an optional minus, the whole part without leading zeros, a point and two digits. */
  function ColumnText(h: int): (t: string)
    ensures |t| >= 4 && t[|t| - 3] == '.'
  {
    var m := if h < 0 then -h else h;
    Written(h < 0, NatToString(m / 100), m % 100 / 10, m % 10)
  }

  /** The text is accepted exactly when the column stores some value for it. */
  predicate Accepts(text: string) {
    ColumnValue(text).Some?
  }

  /** What the column gives back for an accepted text. */
  function Stored(text: string): (t: string)
    requires Accepts(text)
  {
    ColumnText(ColumnValue(text).value)
  }

  /** The digits `ColumnText(h)` is written with. */
  lemma ColumnTextParts(h: int) returns (digits: string, d1: nat, d2: nat)
    ensures digits != [] && AllDigits(digits) && d1 < 10 && d2 < 10
    ensures (if h < 0 then -h else h) == 100 * DigitsValue(digits) + 10 * d1 + d2
    ensures ColumnText(h) == Written(h < 0, digits, d1, d2)
  {
    var m := if h < 0 then -h else h;
    digits, d1, d2 := NatToString(m / 100), m % 100 / 10, m % 10;
  }

  /** The part of a written text after its sign is read as the digits it writes. */
  lemma ReadDigitsOfWritten(negative: bool, digits: string, d1: nat, d2: nat)
    requires digits != [] && AllDigits(digits) && d1 < 10 && d2 < 10
    ensures ReadDigits(negative, digits + ['.', DigitChar(d1), DigitChar(d2)])
         == Some(Literal(negative, digits, [DigitChar(d1), DigitChar(d2)]))
  {
    var two := [DigitChar(d1), DigitChar(d2)];
    var body := digits + ['.', DigitChar(d1), DigitChar(d2)];
    DigitRunOfPrefix(digits, ['.', DigitChar(d1), DigitChar(d2)]);
    var whole := DigitRun(body);
    assert whole == digits;
    var afterWhole := body[|whole|..];
    assert afterWhole == ['.', DigitChar(d1), DigitChar(d2)];
    assert afterWhole[1..] == two;
    DigitRunOfDigits(two);
    var fraction := DigitRun(afterWhole[1..]);
    assert fraction == two;
    assert afterWhole[1 + |fraction|..] == [];
  }

  /** A written text starts with its sign and then its whole digits. */
  lemma SignOfWritten(negative: bool, digits: string, d1: nat, d2: nat)
    requires digits != [] && AllDigits(digits) && d1 < 10 && d2 < 10
    ensures var text := Written(negative, digits, d1, d2);
      && SkipSpaces(text) == text && TrimStart(text) == text
      && SplitSign(text) == (if negative then -1 else 1, digits + ['.', DigitChar(d1), DigitChar(d2)])
  {
    var body := digits + ['.', DigitChar(d1), DigitChar(d2)];
    var text := Written(negative, digits, d1, d2);
    if negative {
      assert text == "-" + body;
      assert text[0] == '-';
      assert text[1..] == body;
    } else {
      assert text == body;
      assert IsDigit(text[0]);
    }
    assert !IsWhitespace(text[0]);
    TrimStartOfUnspaced(text);
  }

  /** A written text is read as the literal it writes. */
  lemma ReadWritten(negative: bool, digits: string, d1: nat, d2: nat)
    requires digits != [] && AllDigits(digits) && d1 < 10 && d2 < 10
    ensures ReadLiteral(Written(negative, digits, d1, d2)) == Some(Literal(negative, digits, [DigitChar(d1), DigitChar(d2)]))
  {
    SignOfWritten(negative, digits, d1, d2);
    ReadDigitsOfWritten(negative, digits, d1, d2);
  }

  /** A column text is read as the literal it writes. */
  lemma ReadColumnText(h: int) returns (digits: string, d1: nat, d2: nat)
    ensures digits != [] && AllDigits(digits) && d1 < 10 && d2 < 10
    ensures (if h < 0 then -h else h) == 100 * DigitsValue(digits) + 10 * d1 + d2
    ensures ReadLiteral(ColumnText(h)) == Some(Literal(h < 0, digits, [DigitChar(d1), DigitChar(d2)]))
  {
    digits, d1, d2 := ColumnTextParts(h);
    ReadWritten(h < 0, digits, d1, d2);
  }

  /** Storing the text the column reads back stores the same value again. */
  lemma StoredTextRoundTrip(h: int)
    requires -Limit < h < Limit
    ensures ColumnValue(ColumnText(h)) == Some(h)
  {
    var digits, d1, d2 := ReadColumnText(h);
    var lit := Literal(h < 0, digits, [DigitChar(d1), DigitChar(d2)]);
    assert WellFormed(lit) && RoundedHundredths(lit) == (if h < 0 then -h else h) by {
      RoundedOfTwoDecimals(h < 0, digits, d1, d2);
    }
    ColumnValueOf(ColumnText(h), lit);
  }

  /** A literal with exactly two decimals needs no rounding. */
  lemma RoundedOfTwoDecimals(negative: bool, digits: string, d1: nat, d2: nat)
    requires digits != [] && AllDigits(digits) && d1 < 10 && d2 < 10
    ensures WellFormed(Literal(negative, digits, [DigitChar(d1), DigitChar(d2)]))
    ensures RoundedHundredths(Literal(negative, digits, [DigitChar(d1), DigitChar(d2)])) == 100 * DigitsValue(digits) + 10 * d1 + d2
  {
    var two := [DigitChar(d1), DigitChar(d2)];
    assert FractionDigit(two, 0) == d1 && FractionDigit(two, 1) == d2 && FractionDigit(two, 2) == 0;
  }

  /** The value stored for a text read as `lit`, when it fits. */
  lemma ColumnValueOf(text: string, lit: Literal)
    requires ReadLiteral(text) == Some(lit)
    requires RoundedHundredths(lit) < Limit
    ensures ColumnValue(text) == Some(if lit.negative then -(RoundedHundredths(lit) as int) else RoundedHundredths(lit))
  {
    match ReadLiteral(text)
    case Some(l) =>
      assert l == lit;
  }

  /** The column's own text is a fixed point: storing it again gives it back. */
  lemma StoredIsFixed(text: string)
    requires Accepts(text)
    ensures Accepts(Stored(text)) && Stored(Stored(text)) == Stored(text)
  {
    StoredTextRoundTrip(ColumnValue(text).value);
  }

  /** `parseFloat` of a written text is its whole digits plus two decimals, negated when it has a minus. */
  lemma ParseFloatOfWritten(negative: bool, digits: string, d1: nat, d2: nat) returns (v: real)
    requires digits != [] && AllDigits(digits) && d1 < 10 && d2 < 10
    ensures v == DigitsValue(digits) as real + (d1 as real / 10.0 + d2 as real / 100.0)
    ensures ParseFloat(Written(negative, digits, d1, d2)) == Some(if negative then -v else v)
  {
    v := DigitsValue(digits) as real + (d1 as real / 10.0 + d2 as real / 100.0);
    assert DecimalMagnitude(digits + ['.', DigitChar(d1), DigitChar(d2)]) == Some(v) by {
      var f := MagnitudeOfWritten(digits, d1, d2);
    }
    SignedWritten(negative, digits, d1, d2, v);
  }

  /** `parseFloat` of a written text negates the magnitude of its unsigned part when it has a minus. */
  lemma SignedWritten(negative: bool, digits: string, d1: nat, d2: nat, m: real)
    requires digits != [] && AllDigits(digits) && d1 < 10 && d2 < 10
    requires DecimalMagnitude(digits + ['.', DigitChar(d1), DigitChar(d2)]) == Some(m)
    ensures ParseFloat(Written(negative, digits, d1, d2)) == Some(if negative then -m else m)
  {
    SignOfWritten(negative, digits, d1, d2);
    ParseFloatOfSigned(Written(negative, digits, d1, d2), negative, digits + ['.', DigitChar(d1), DigitChar(d2)], m);
  }

  /** The unsigned part of a written text denotes its whole digits plus two decimals. */
  lemma MagnitudeOfWritten(digits: string, d1: nat, d2: nat) returns (f: real)
    requires digits != [] && AllDigits(digits) && d1 < 10 && d2 < 10
    ensures f == d1 as real / 10.0 + d2 as real / 100.0
    ensures DecimalMagnitude(digits + ['.', DigitChar(d1), DigitChar(d2)]) == Some(DigitsValue(digits) as real + f)
  {
    var tail := ['.', DigitChar(d1), DigitChar(d2)];
    var body := digits + tail;
    DigitRunOfPrefix(digits, tail);
    var afterWhole := body[|digits|..];
    assert afterWhole == tail;
    var two := [DigitChar(d1), DigitChar(d2)];
    assert afterWhole[1..] == two;
    DigitRunOfDigits(two);
    f := TwoDecimalsValue(d1, d2);
  }

  /** The value of two digits after a point. */
  lemma TwoDecimalsValue(d1: nat, d2: nat) returns (f: real)
    requires d1 < 10 && d2 < 10
    ensures f == FractionValue([DigitChar(d1), DigitChar(d2)])
    ensures f == d1 as real / 10.0 + d2 as real / 100.0
  {
    var two := [DigitChar(d1), DigitChar(d2)];
    var last := two[1..];
    assert last == [DigitChar(d2)];
    assert last[1..] == [];
    assert FractionValue(last) == (d2 as real + FractionValue(last[1..])) / 10.0;
    assert FractionValue(last) == d2 as real / 10.0;
    f := FractionValue(two);
    assert f == (d1 as real + FractionValue(last)) / 10.0;
  }

  /** The fraction digits after the first one. */
  function Later(fraction: string): (r: string)
    requires AllDigits(fraction)
    ensures AllDigits(r)
  {
    if fraction == [] then [] else fraction[1..]
  }

  /** A fraction is its first digit plus a tenth of the fraction after it. */
  lemma FractionSplits(fraction: string)
    requires AllDigits(fraction)
    ensures FractionValue(fraction) == (FractionDigit(fraction, 0) as real + FractionValue(Later(fraction))) / 10.0
    ensures forall k: nat :: FractionDigit(Later(fraction), k) == FractionDigit(fraction, k + 1)
  {
  }

  /**
   * The stored magnitude is the literal's rounded half away from zero: it
   * lies in (-1/2, 1/2] hundredths of the exact magnitude, and equals it
   * when the literal has at most two decimals.
   */
  lemma RoundingIsNearest(lit: Literal)
    requires WellFormed(lit)
    ensures -0.5 < RoundedHundredths(lit) as real - 100.0 * Magnitude(lit) <= 0.5
    ensures |lit.fraction| <= 2 ==> RoundedHundredths(lit) as real == 100.0 * Magnitude(lit)
  {
    var f0 := lit.fraction;
    var f1 := Later(f0);
    var f2 := Later(f1);
    var f3 := Later(f2);
    FractionSplits(f0);
    FractionSplits(f1);
    FractionSplits(f2);
    var a, b, c := FractionDigit(f0, 0), FractionDigit(f0, 1), FractionDigit(f0, 2);
    assert FractionDigit(f1, 0) == b && FractionDigit(f2, 0) == c;
    var rest := FractionValue(f3);
    assert 0.0 <= rest < 1.0;
    assert 100.0 * FractionValue(f0) == (10 * a + b) as real + (c as real + rest) / 10.0;
    if |f0| <= 2 {
      assert f3 == [] && c == 0;
    }
  }

  /** A whole number below 1000, written without a point, is stored as that many units. */
  lemma WholeNumberStored(n: nat)
    requires n < 1000
    ensures ColumnValue(NatToString(n)) == Some(100 * n)
  {
    var digits := NatToString(n);
    ReadWholeNumber(digits);
    var lit := Literal(false, digits, "");
    assert RoundedHundredths(lit) == 100 * n;
    ColumnValueOf(digits, lit);
  }

  /** The stored 15 reads back as "15.00". */
  lemma FifteenReadsBack()
    ensures ColumnText(1500) == "15.00"
  {
    assert NatToString(15) == "15" by {
      assert NatToString(1) == "1";
    }
    assert DigitChar(0) == '0';
    assert ColumnText(1500) == Written(false, "15", 0, 0);
    assert "15" + ['.', '0', '0'] == "15.00";
  }

  /** A one-decimal text `w.t` is stored as `w` units and `t` tenths. */
  lemma OneDecimalStored(w: nat, t: nat)
    requires w < 10 && t < 10
    ensures ColumnValue([DigitChar(w), '.', DigitChar(t)]) == Some(100 * w + 10 * t)
  {
    OneDecimalRead(w, t);
    OneDecimalRounded(w, t);
    ColumnValueOf([DigitChar(w), '.', DigitChar(t)], Literal(false, [DigitChar(w)], [DigitChar(t)]));
  }

  /** A one-decimal text `w.t` is read as the literal with whole digit `w` and fraction digit `t`. */
  lemma OneDecimalRead(w: nat, t: nat)
    requires w < 10 && t < 10
    ensures ReadLiteral([DigitChar(w), '.', DigitChar(t)]) == Some(Literal(false, [DigitChar(w)], [DigitChar(t)]))
  {
    assert [DigitChar(w), '.', DigitChar(t)] == [DigitChar(w)] + ['.'] + [DigitChar(t)];
    ReadPointed([DigitChar(w)], [DigitChar(t)]);
  }

  /** Unsigned whole digits, a point and fraction digits are read as that literal. */
  lemma ReadPointed(whole: string, fraction: string)
    requires whole != [] && AllDigits(whole) && AllDigits(fraction)
    ensures ReadLiteral(whole + ['.'] + fraction) == Some(Literal(false, whole, fraction))
  {
    var text := whole + ['.'] + fraction;
    assert text[0] == whole[0];
    assert SkipSpaces(text) == text;
    assert SplitSign(text) == (1, text);
    ReadDigitsOfPointed(false, whole, fraction);
  }

  /** Whole digits, a point and fraction digits are read as that literal. */
  lemma ReadDigitsOfPointed(negative: bool, whole: string, fraction: string)
    requires whole != [] && AllDigits(whole) && AllDigits(fraction)
    ensures ReadDigits(negative, whole + ['.'] + fraction) == Some(Literal(negative, whole, fraction))
  {
    var body := whole + ['.'] + fraction;
    DigitRunOfPrefix(whole, ['.'] + fraction);
    assert body == whole + (['.'] + fraction);
    var afterWhole := body[|whole|..];
    assert afterWhole == ['.'] + fraction;
    assert afterWhole[1..] == fraction;
    DigitRunOfDigits(fraction);
    assert afterWhole[1 + |fraction|..] == [];
  }

  /** The literal `w.t` is `w` units and `t` tenths in hundredths. */
  lemma OneDecimalRounded(w: nat, t: nat)
    requires w < 10 && t < 10
    ensures WellFormed(Literal(false, [DigitChar(w)], [DigitChar(t)]))
    ensures RoundedHundredths(Literal(false, [DigitChar(w)], [DigitChar(t)])) == 100 * w + 10 * t
  {
    var whole := [DigitChar(w)];
    var lit := Literal(false, whole, [DigitChar(t)]);
    assert DigitsValue(whole) == w by {
      assert whole[..0] == [];
    }
    assert FractionDigit(lit.fraction, 0) == t && FractionDigit(lit.fraction, 1) == 0;
  }

  /** `w` units and `t` tenths read back as `w.t0`. */
  lemma OneDecimalReadsBack(w: nat, t: nat)
    requires w < 10 && t < 10
    ensures ColumnText(100 * w + 10 * t) == Written(false, [DigitChar(w)], t, 0)
  {
    var m := 100 * w + 10 * t;
    assert m / 100 == w && m % 100 / 10 == t && m % 10 == 0;
  }

  /** Digits alone are read as a whole number. */
  lemma ReadWholeNumber(digits: string)
    requires digits != [] && AllDigits(digits)
    ensures ReadLiteral(digits) == Some(Literal(false, digits, ""))
  {
    assert SkipSpaces(digits) == digits;
    assert SplitSign(digits) == (1, digits);
    DigitRunOfDigits(digits);
    assert digits[|digits|..] == [];
  }
}
