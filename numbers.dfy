/**
 * `Integer.parseInt` and `new BigDecimal(String)` on the strings the sheet
 * parser hands them, plus decimal rendering of integers (Java's and
 * JavaScript's `String(n)` agree on integers).
 */
module Numbers {
  import opened Wrappers
  import opened Text

  /** The range of a Java `int`. */
  const IntMin: int := -0x8000_0000
  const IntMax: int := 0x7FFF_FFFF

  predicate AllDigits(s: string) {
    forall i :: 0 <= i < |s| ==> IsAsciiDigit(s[i])
  }

  function DigitValue(c: char): (d: nat)
    requires IsAsciiDigit(c)
    ensures d < 10
  {
    c as int - '0' as int
  }

  function DigitChar(d: nat): (c: char)
    requires d < 10
    ensures IsAsciiDigit(c) && DigitValue(c) == d
  {
    ('0' as int + d) as char
  }

  /** The value of a string of decimal digits, most significant first. */
  function DigitsValue(s: string): nat
    requires AllDigits(s)
  {
    if s == [] then 0 else DigitsValue(s[..|s| - 1]) * 10 + DigitValue(s[|s| - 1])
  }

  /** The decimal digits of `n`, without leading zeros ("0" for zero). */
  function NatToDigits(n: nat): (s: string)
    ensures s != [] && AllDigits(s)
    ensures DigitsValue(s) == n
    ensures n > 0 ==> s[0] != '0'
  {
    if n < 10 then [DigitChar(n)]
    else
      var prefix := NatToDigits(n / 10);
      var s := prefix + [DigitChar(n % 10)];
      assert s[..|s| - 1] == prefix;
      s
  }

  /** The decimal rendering of `n`: a '-' for a negative value, then its digits. */
  function IntToString(n: int): (s: string)
    ensures s != []
    ensures forall i :: 0 <= i < |s| ==> IsAsciiDigit(s[i]) || (i == 0 && s[i] == '-')
    ensures (s[0] == '-') <==> n < 0
  {
    if n < 0 then "-" + NatToDigits(-n) else NatToDigits(n)
  }

  /** `Integer.parseInt(s)`: an optional sign then one or more ASCII digits
    * whose value fits in an `int`; anything else is a NumberFormatException,
    * which is `None` here. (`parseInt` also accepts non-ASCII digits; the
    * strings handed to it here never contain any.) */
  function ParseJavaInt(s: string): (r: Option<int>)
    ensures r.Some? ==> IntMin <= r.value <= IntMax
    ensures r.Some? ==> s != [] && AllDigits(if s[0] == '-' || s[0] == '+' then s[1..] else s)
    ensures s == [] || s == "-" || s == "+" ==> r.None?
  {
    if s == [] then None
    else if s[0] == '-' || s[0] == '+' then
      var ds := s[1..];
      if ds != [] && AllDigits(ds) then
        var v: int := if s[0] == '-' then -(DigitsValue(ds) as int) else DigitsValue(ds);
        if IntMin <= v <= IntMax then Some(v) else None
      else None
    else if AllDigits(s) && DigitsValue(s) <= IntMax then Some(DigitsValue(s))
    else None
  }

  /** Rendering an `int` and parsing it back gives the same value. */
  lemma IntRoundTrip(n: int)
    requires IntMin <= n <= IntMax
    ensures ParseJavaInt(IntToString(n)) == Some(n)
  {
    var s := IntToString(n);
    if n < 0 {
      assert s[1..] == NatToDigits(-n);
    }
  }

  /** Only '-' is a sign in the value `[^0-9-]` leaves, and a second '-'
    * makes the text unparsable. */
  lemma InnerMinusRejected(a: string, b: string)
    requires AllDigits(a) && AllDigits(b) && a != []
    ensures ParseJavaInt(a + "-" + b).None?
  {
    var s := a + "-" + b;
    assert s[|a|] == '-';
    assert !AllDigits(s);
    assert s[0] == a[0] && IsAsciiDigit(s[0]);
  }

  /** A `java.math.BigDecimal`: `unscaled` times ten to the power `-scale`.
    * "4.0" is Decimal(40, 1), as `new BigDecimal("4.0")` keeps its scale. */
  datatype Decimal = Decimal(unscaled: int, scale: nat)

  predicate IsDecimalAlphabet(s: string) {
    forall i :: 0 <= i < |s| ==> IsAsciiDigit(s[i]) || s[i] == '.'
  }

  predicate HasDigit(s: string) {
    exists i :: 0 <= i < |s| && IsAsciiDigit(s[i])
  }

  /** `new BigDecimal(s)` for a string of digits and dots: the integer
    * digits, an optional '.' and the fraction digits, with at least one
    * digit in all ("4.", ".5" and "4" parse; ".", "" and "1.2.3" do not). */
  function ParseDecimal(s: string): (r: Option<Decimal>)
    requires IsDecimalAlphabet(s)
    ensures r.Some? <==> |Fields(s, {'.'})| <= 2 && HasDigit(s)
    ensures r.Some? && |Fields(s, {'.'})| == 2 ==> r.value.scale == |Fields(s, {'.'})[1]|
    ensures r.Some? && |Fields(s, {'.'})| == 1 ==> r.value.scale == 0 && r.value.unscaled == DigitsValue(s)
  {
    var parts := Fields(s, {'.'});
    FieldsOfDecimal(s);
    if |parts| == 1 then
      if s != [] then Some(Decimal(DigitsValue(s), 0)) else None
    else if |parts| == 2 && |parts[0]| + |parts[1]| > 0 then
      Some(Decimal(DigitsValue(parts[0] + parts[1]), |parts[1]|))
    else None
  }

  /** The fields of a decimal string between its dots are digit strings, and
    * the string has a digit exactly when some field is non-empty. */
  lemma {:induction false} FieldsOfDecimal(s: string)
    requires IsDecimalAlphabet(s)
    ensures forall k :: 0 <= k < |Fields(s, {'.'})| ==> AllDigits(Fields(s, {'.'})[k])
    ensures |Fields(s, {'.'})| == 2 ==> (HasDigit(s) <==> |Fields(s, {'.'})[0]| + |Fields(s, {'.'})[1]| > 0)
    ensures |Fields(s, {'.'})| == 1 ==> (HasDigit(s) <==> s != [])
  {
    var parts := Fields(s, {'.'});
    if |parts| == 2 {
      FieldsTwo(s, '.');
      var a, b := parts[0], parts[1];
      assert s == a + "." + b;
      if HasDigit(s) {
        var i :| 0 <= i < |s| && IsAsciiDigit(s[i]);
        assert |a| + |b| > 0;
      }
      if |a| > 0 {
        assert IsAsciiDigit(s[0]);
      } else if |b| > 0 {
        assert s[|a| + 1] == b[0];
      }
    } else if |parts| == 1 {
      if s != [] {
        assert IsAsciiDigit(s[0]);
      }
    }
  }

  /** "digits.digits" parses with the fraction's length as its scale. */
  lemma ParseDecimalForm(a: string, b: string)
    requires AllDigits(a) && AllDigits(b) && |a| + |b| > 0
    ensures ParseDecimal(a + "." + b) == Some(Decimal(DigitsValue(a + b), |b|))
  {
    var s := a + "." + b;
    FieldsOfConcat(a, b, '.');
    assert Fields(s, {'.'}) == [a, b];
  }

  /** "1.2.3" has three fields and does not parse. */
  lemma TwoDotsRejected()
    ensures ParseDecimal("1.2.3").None?
  {
    var dot := {'.'};
    assert "1.2.3"[1..] == ".2.3" && ".2.3"[1..] == "2.3" && "2.3"[1..] == ".3" && ".3"[1..] == "3";
    FieldsOfConcat("2", "3", '.');
    assert "2" + ['.'] + "3" == "2.3";
    assert Fields("2.3", dot) == ["2", "3"];
    assert Fields(".2.3", dot) == ["", "2", "3"];
    assert |Fields("1.2.3", dot)| == 3;
  }
}
