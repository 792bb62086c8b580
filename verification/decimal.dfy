/** Python's `float(price_str)` on the strings the price filter produces:
    strings of digits and decimal points. On such a string `float` succeeds
    exactly when there is at most one point and at least one digit ("5", "5.",
    ".5" parse; "." and "1.2.3" raise ValueError). The value is modelled as
    the exact rational the decimal denotes, not an IEEE double. */
module Decimal {
  import opened Optional
  import opened Text

  predicate AllDigits(s: string) {
    forall i :: 0 <= i < |s| ==> IsDigit(s[i])
  }

  function DigitValue(c: char): (d: nat)
    requires IsDigit(c)
    ensures d < 10
  {
    (c as int) - ('0' as int)
  }

  /** The natural number a string of decimal digits denotes; 0 for "". */
  function DigitsValue(s: string): nat
    requires AllDigits(s)
    decreases |s|
  {
    if s == [] then 0 else 10 * DigitsValue(s[..|s| - 1]) + DigitValue(s[|s| - 1])
  }

  function Pow10(k: nat): (p: nat)
    ensures p >= 1
  {
    if k == 0 then 1 else 10 * Pow10(k - 1)
  }

  /** The index of the first decimal point in `s`, if any. */
  function FirstPoint(s: string): (r: Option<nat>)
    ensures r.None? ==> '.' !in s
    ensures r.Some? ==> r.value < |s| && s[r.value] == '.' && '.' !in s[..r.value]
  {
    if s == [] then None
    else if s[0] == '.' then Some(0)
    else
      match FirstPoint(s[1..])
      case None => None
      case Some(k) =>
        assert s[..k + 1] == [s[0]] + s[1..][..k];
        Some(k + 1)
  }

  /** When `float` accepts a digits-and-points string, stated by counting:
      at most one point, and not made of points alone. */
  predicate IsDecimalLiteral(s: string) {
    multiset(s)['.'] <= 1 && multiset(s)['.'] < |s|
  }

  /** The value of the decimal `whole.frac`. */
  function PointValue(whole: string, frac: string): (v: real)
    requires AllDigits(whole) && AllDigits(frac)
    ensures v >= 0.0
  {
    DigitsValue(whole) as real + DigitsValue(frac) as real / Pow10(|frac|) as real
  }

  /** `float(s)` for a string of digits and decimal points: None where
      Python raises ValueError. */
  function ParseDecimal(s: string): (r: Option<real>)
    requires AllPriceChars(s)
    ensures r.Some? <==> IsDecimalLiteral(s)
    ensures r.Some? ==> r.value >= 0.0
  {
    match FirstPoint(s)
    case None =>
      assert AllDigits(s);
      assert multiset(s)['.'] == 0;
      if s == [] then None else Some(DigitsValue(s) as real)
    case Some(k) =>
      var whole, frac := s[..k], s[k + 1..];
      assert s == whole + [s[k]] + frac;
      assert multiset(whole)['.'] == 0;
      assert AllDigits(whole);
      assert multiset(s)['.'] == 1 + multiset(frac)['.'];
      assert AllDigits(frac) <==> '.' !in frac by {
        assert forall i :: 0 <= i < |frac| ==> frac[i] == s[k + 1 + i];
      }
      if AllDigits(frac) && (whole != [] || frac != []) then Some(PointValue(whole, frac)) else None
  }

  /** A non-empty run of digits parses as the number it denotes. */
  lemma ParseWholeNumber(w: string)
    requires AllDigits(w) && w != []
    ensures AllPriceChars(w)
    ensures ParseDecimal(w) == Some(DigitsValue(w) as real)
  {
  }

  /** A decimal with one point parses to its whole part plus its fraction,
      whichever of the two is empty ("5." and ".5" included). */
  lemma ParseWithPoint(whole: string, frac: string)
    requires AllDigits(whole) && AllDigits(frac) && (whole != [] || frac != [])
    ensures AllPriceChars(whole + "." + frac)
    ensures ParseDecimal(whole + "." + frac) == Some(PointValue(whole, frac))
  {
    var s := whole + "." + frac;
    assert s[|whole|] == '.';
    assert s[..|whole|] == whole;
    assert s[|whole| + 1..] == frac;
    assert forall i :: 0 <= i < |whole| ==> s[i] == whole[i];
  }

  function DigitChar(d: nat): (c: char)
    requires d < 10
    ensures IsDigit(c) && DigitValue(c) == d
  {
    (('0' as int) + d) as char
  }

  /** The shortest decimal rendering of a natural number, as `str(n)`. */
  function NatDigits(n: nat): (s: string)
    ensures AllDigits(s) && s != []
  {
    if n < 10 then [DigitChar(n)] else NatDigits(n / 10) + [DigitChar(n % 10)]
  }

  /** Rendering a natural number and reading it back gives the number. */
  lemma {:induction false} NatDigitsRoundTrip(n: nat)
    ensures DigitsValue(NatDigits(n)) == n
  {
    var s := NatDigits(n);
    if n >= 10 {
      NatDigitsRoundTrip(n / 10);
      assert s[..|s| - 1] == NatDigits(n / 10);
    }
  }

  /** `float(str(n)) == n` for every natural number n. */
  lemma ParseRenderedNat(n: nat)
    ensures AllPriceChars(NatDigits(n))
    ensures ParseDecimal(NatDigits(n)) == Some(n as real)
  {
    NatDigitsRoundTrip(n);
    ParseWholeNumber(NatDigits(n));
  }

  /** Leading zeros do not change the number a digit string denotes. */
  lemma {:induction false} LeadingZeroValue(w: string)
    requires AllDigits(w)
    ensures AllDigits("0" + w) && DigitsValue("0" + w) == DigitsValue(w)
    decreases |w|
  {
    if w != [] {
      var v := "0" + w;
      assert v[..|v| - 1] == "0" + w[..|w| - 1];
      LeadingZeroValue(w[..|w| - 1]);
    }
  }

  /** A leading zero never changes what `float` makes of a literal it
      accepts: "0.5" and ".5", "007" and "7" parse alike. */
  lemma ParseIgnoresLeadingZero(s: string)
    requires AllPriceChars(s) && IsDecimalLiteral(s)
    ensures AllPriceChars("0" + s) && ParseDecimal("0" + s) == ParseDecimal(s)
  {
    var p := FirstPoint(s);
    if p.None? {
      assert AllDigits(s);
      LeadingZeroWholeNumber(s);
    } else {
      var k := p.value;
      var whole, frac := s[..k], s[k + 1..];
      assert s == whole + "." + frac;
      assert multiset(s) == multiset(whole) + multiset{'.'} + multiset(frac);
      assert AllDigits(frac) by {
        assert forall i :: 0 <= i < |frac| ==> frac[i] == s[k + 1 + i] && frac[i] in multiset(frac);
      }
      LeadingZeroWithPoint(whole, frac);
    }
  }

  lemma LeadingZeroWholeNumber(w: string)
    requires AllDigits(w) && w != []
    ensures AllPriceChars(w) && AllPriceChars("0" + w)
    ensures ParseDecimal("0" + w) == ParseDecimal(w)
  {
    LeadingZeroValue(w);
    ParseWholeNumber(w);
    ParseWholeNumber("0" + w);
  }

  lemma LeadingZeroWithPoint(whole: string, frac: string)
    requires AllDigits(whole) && AllDigits(frac) && (whole != [] || frac != [])
    ensures AllPriceChars(whole + "." + frac) && AllPriceChars("0" + (whole + "." + frac))
    ensures ParseDecimal("0" + (whole + "." + frac)) == ParseDecimal(whole + "." + frac)
  {
    LeadingZeroValue(whole);
    ParseWithPoint(whole, frac);
    assert "0" + (whole + "." + frac) == ("0" + whole) + "." + frac;
    ParseWithPoint("0" + whole, frac);
    assert PointValue("0" + whole, frac) == PointValue(whole, frac);
  }

  /** Trailing zeros of the fraction do not change the value of a decimal. */
  lemma TrailingZeroValue(whole: string, frac: string)
    requires AllDigits(whole) && AllDigits(frac)
    ensures AllDigits(frac + "0") && PointValue(whole, frac + "0") == PointValue(whole, frac)
  {
    var f := frac + "0";
    assert f[..|f| - 1] == frac;
    var x, p := DigitsValue(frac) as real, Pow10(|frac|) as real;
    assert DigitsValue(f) as real == 10.0 * x;
    assert Pow10(|f|) as real == 10.0 * p;
    var q := x / p;
    assert x == q * p;
    assert 10.0 * x == q * (10.0 * p);
  }

  /** Python's `float` accepts a bare integer ... */
  lemma ParseAcceptsInteger()
    ensures ParseDecimal("5") == Some(5.0)
  {
    ParseWholeNumber("5");
  }

  /** ... a trailing point ... */
  lemma ParseAcceptsTrailingPoint()
    ensures ParseDecimal("5.") == Some(5.0)
  {
    assert ParseDecimal("5.") == Some(PointValue("5", "")) by {
      assert "5." == "5" + "." + "";
      ParseWithPoint("5", "");
    }
  }

  /** ... and a leading point. */
  lemma ParseAcceptsLeadingPoint()
    ensures ParseDecimal(".5") == Some(0.5)
  {
    FiveTenths();
    assert ParseDecimal(".5") == Some(PointValue("", "5")) by {
      assert ".5" == "" + "." + "5";
      ParseWithPoint("", "5");
    }
  }

  lemma FiveTenths()
    ensures AllDigits("5") && PointValue("", "5") == 0.5
  {
    assert "5"[..0] == [];
    assert DigitsValue("5") == 5 && Pow10(1) == 10;
  }

  lemma NineNineNine()
    ensures AllDigits("999") && DigitsValue("999") == 999
  {
    assert "999"[..2] == "99" && "99"[..1] == "9" && "9"[..0] == "";
  }

  lemma DoubleZero()
    ensures AllDigits("00") && DigitsValue("00") == 0
  {
    assert "00"[..1] == "0" && "0"[..0] == "";
  }

  /** A price with cents, as the filter leaves "₹999.00". */
  lemma ParsePriceWithCents()
    ensures ParseDecimal("999.00") == Some(999.0)
  {
    NineNineNine();
    DoubleZero();
    assert PointValue("999", "00") == 999.0;
    assert ParseDecimal("999.00") == Some(PointValue("999", "00")) by {
      assert "999.00" == "999" + "." + "00";
      ParseWithPoint("999", "00");
    }
  }

  /** A lone point is rejected. */
  lemma ParseRejectsLonePoint()
    ensures ParseDecimal(".") == None
  {
    assert multiset(".")['.'] == 1;
  }

  /** More than one point is rejected: after the first point, "2.3" is not
      a run of digits. */
  lemma ParseRejectsTwoPoints()
    ensures ParseDecimal("1.2.3") == None
  {
    var s := "1.2.3";
    assert s[0] != '.' && s[1] == '.';
    assert FirstPoint(s) == Some(1);
    assert s[2..][1] == '.';
  }
}
