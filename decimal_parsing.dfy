/**
 * `Decimal(string:locale:)` as the coordinator uses it: on a NumberString only.
 * A value is an exact rational (`real`), never a floating-point number. The
 * whole digits and the fraction digits of "123.45" read as 12345 / 10^2.
 */
module DecimalParsing {
  import opened Wrappers
  import opened NumberFilter

  function Pow10(k: nat): (p: nat)
    ensures p >= 1
  {
    if k == 0 then 1 else 10 * Pow10(k - 1)
  }

  function DigitValue(c: char): (d: nat)
    requires IsDigit(c)
    ensures d < 10
  {
    c as int - '0' as int
  }

  function DigitChar(d: nat): (c: char)
    requires d < 10
    ensures IsDigit(c) && DigitValue(c) == d
  {
    ('0' as int + d) as char
  }

  /** The natural number written by a string of decimal digits (0 for none). */
  function DigitsValue(ds: seq<char>): (n: nat)
    requires AllDigits(ds)
    ensures n < Pow10(|ds|)
  {
    if ds == [] then 0 else 10 * DigitsValue(ds[..|ds| - 1]) + DigitValue(ds[|ds| - 1])
  }

  lemma ShiftDigit(va: int, vb: int, p: int, d: int)
    ensures 10 * (va * p + vb) + d == va * (10 * p) + (10 * vb + d)
  {
  }

  lemma {:induction false} DigitsValueAppend(a: seq<char>, b: seq<char>)
    requires AllDigits(a) && AllDigits(b)
    ensures AllDigits(a + b)
    ensures DigitsValue(a + b) == DigitsValue(a) * Pow10(|b|) + DigitsValue(b)
  {
    assert AllDigits(a + b) by {
      forall i | 0 <= i < |a + b| ensures IsDigit((a + b)[i]) {
        if i >= |a| { assert (a + b)[i] == b[i - |a|]; }
      }
    }
    if b == [] {
      assert a + b == a;
    } else {
      var b', last := b[..|b| - 1], b[|b| - 1];
      assert (a + b)[..|a + b| - 1] == a + b';
      assert (a + b)[|a + b| - 1] == last;
      DigitsValueAppend(a, b');
      ShiftDigit(DigitsValue(a), DigitsValue(b'), Pow10(|b'|), DigitValue(last));
    }
  }

  /** How many digits follow the separator of a NumberString (0 without one). */
  function FractionLength(s: seq<char>, sep: char): (r: nat)
  {
    if sep in s then |s| - FirstIndex(s, sep) - 1 else 0
  }

  lemma RealQuotient(q: nat, r: nat, p: nat)
    requires p >= 1
    ensures q as real + r as real / p as real == (q * p + r) as real / p as real
    ensures (q * p + r) as real / p as real >= 0.0
  {
    assert (q * p + r) as real == q as real * p as real + r as real;
  }

  /** Whole digits plus fraction digits over 10^|fraction| is all digits over 10^|fraction|. */
  lemma WholeAndFraction(whole: seq<char>, fraction: seq<char>)
    requires AllDigits(whole) && AllDigits(fraction)
    ensures AllDigits(whole + fraction)
    ensures DigitsValue(whole) as real + DigitsValue(fraction) as real / Pow10(|fraction|) as real
         == DigitsValue(whole + fraction) as real / Pow10(|fraction|) as real
  {
    DigitsValueAppend(whole, fraction);
    RealQuotient(DigitsValue(whole), DigitsValue(fraction), Pow10(|fraction|));
  }

  /**
   * `Decimal(string: s, locale: locale)` for a non-empty NumberString: the
   * whole digits plus the fraction digits over 10^(their count). The string
   * made of the separator alone is left to the platform: its outcome is the
   * oracle value `bare`.
   */
  function DecimalFromString(s: seq<char>, sep: NonDigit, bare: Option<real>): (r: Option<real>)
    requires IsNumberString(s, sep) && s != []
    ensures s != [sep] ==>
      r == Some(DigitsValue(Digits(s)) as real / Pow10(FractionLength(s, sep)) as real)
  {
    if s == [sep] then bare
    else if sep !in s then Some(WholeReading(s, sep))
    else Some(FractionReading(s, sep))
  }

  /** A NumberString without separator reads as the integer its digits write. */
  function WholeReading(s: seq<char>, sep: NonDigit): (v: real)
    requires IsNumberString(s, sep) && sep !in s
    ensures v == DigitsValue(Digits(s)) as real / Pow10(FractionLength(s, sep)) as real
  {
    NumberStringWithoutSeparator(s, sep);
    DigitsOfAllDigits(s);
    DigitsValue(s) as real
  }

  /** A NumberString with a separator reads as its whole digits plus its fraction digits over 10^(their count). */
  function FractionReading(s: seq<char>, sep: NonDigit): (v: real)
    requires IsNumberString(s, sep) && sep in s
    ensures v == DigitsValue(Digits(s)) as real / Pow10(FractionLength(s, sep)) as real
  {
    var k := FirstIndex(s, sep);
    var whole, fraction := s[..k], s[k + 1..];
    WholeAndFractionOf(s, sep);
    DigitsValue(whole) as real + DigitsValue(fraction) as real / Pow10(|fraction|) as real
  }

  /** Reading the whole and fraction digits apart gives all digits over 10^(fraction length). */
  lemma WholeAndFractionOf(s: seq<char>, sep: NonDigit)
    requires IsNumberString(s, sep) && sep in s
    ensures AllDigits(s[..FirstIndex(s, sep)]) && AllDigits(s[FirstIndex(s, sep) + 1..])
    ensures var k := FirstIndex(s, sep);
            DigitsValue(s[..k]) as real + DigitsValue(s[k + 1..]) as real / Pow10(|s[k + 1..]|) as real
              == DigitsValue(Digits(s)) as real / Pow10(FractionLength(s, sep)) as real
  {
    var k := FirstIndex(s, sep);
    NumberStringParts(s, sep);
    NumberStringDigits(s, sep);
    WholeAndFraction(s[..k], s[k + 1..]);
  }

  lemma NonNegativeQuotient(n: nat, p: nat)
    requires p >= 1
    ensures n as real / p as real >= 0.0
  {
    RealQuotient(0, n, p);
  }

  /**
   * The guard shared by `_assignPercent` and `_assignDecimal`: an empty
   * NumberString, or one `Decimal(string:locale:)` rejects, gives `nil`.
   */
  function ParsedValue(s: seq<char>, sep: NonDigit, bare: Option<real>): (r: Option<real>)
    requires IsNumberString(s, sep)
    ensures r.None? <==> s == [] || (s == [sep] && bare.None?)
    ensures r.Some? && s != [sep] ==> r.value >= 0.0
  {
    if s == [] then None
    else if s == [sep] then DecimalFromString(s, sep, bare)
    else
      NonNegativeQuotient(DigitsValue(Digits(s)), Pow10(FractionLength(s, sep)));
      DecimalFromString(s, sep, bare)
  }

  /** `_assignPercent`: the parsed number divided by 100 ("100" is 1). */
  function PercentValue(s: seq<char>, sep: NonDigit, bare: Option<real>): (r: Option<real>)
    requires IsNumberString(s, sep)
    ensures r.None? <==> ParsedValue(s, sep, bare).None?
    ensures r.Some? ==> r.value * 100.0 == ParsedValue(s, sep, bare).value
  {
    match ParsedValue(s, sep, bare)
    case None => None
    case Some(percent) => Some(percent / 100.0)
  }

  /** A trailing separator does not change the value: "123." reads as 123. */
  lemma TrailingSeparatorIgnored(ds: seq<char>, sep: NonDigit, bare: Option<real>)
    requires AllDigits(ds) && ds != []
    ensures IsNumberString(ds, sep) && IsNumberString(ds + [sep], sep)
    ensures ParsedValue(ds + [sep], sep, bare) == ParsedValue(ds, sep, bare) == Some(DigitsValue(ds) as real)
  {
    var s := ds + [sep];
    assert sep !in ds;
    assert s + [] == s;
    JoinIsNumberString(ds, [], sep);
    DigitsAroundSeparator(ds, sep, []);
    DigitsOfAllDigits(ds);
    assert |s| > 1;
    assert FractionLength(s, sep) == 0 && FractionLength(ds, sep) == 0;
    ParsedWithoutFraction(s, ds, sep, bare);
    ParsedWithoutFraction(ds, ds, sep, bare);
  }

  /** The value of a NumberString, given its digits and its fraction length. */
  lemma ParsedFromParts(s: seq<char>, ds: seq<char>, k: nat, sep: NonDigit, bare: Option<real>)
    requires IsNumberString(s, sep) && s != [] && s != [sep]
    requires FractionLength(s, sep) == k && Digits(s) == ds
    ensures ParsedValue(s, sep, bare) == Some(DigitsValue(ds) as real / Pow10(k) as real)
  {
  }

  /** With no fraction digit, the value is the number the digits write. */
  lemma ParsedWithoutFraction(s: seq<char>, ds: seq<char>, sep: NonDigit, bare: Option<real>)
    requires IsNumberString(s, sep) && s != [] && s != [sep]
    requires FractionLength(s, sep) == 0 && Digits(s) == ds
    ensures ParsedValue(s, sep, bare) == Some(DigitsValue(ds) as real)
  {
    ParsedFromParts(s, ds, 0, sep, bare);
    var v := DigitsValue(ds) as real;
    assert Pow10(0) as real == 1.0;
    assert v / 1.0 == v;
  }

  // ----- Canonical NumberStrings: the inverse direction -----

  /** The decimal digits of `n`, without leading zeros ("0" for zero). */
  function NatDigits(n: nat): (ds: seq<char>)
    ensures AllDigits(ds) && ds != []
    ensures DigitsValue(ds) == n
  {
    if n < 10 then [DigitChar(n)]
    else
      var ds := NatDigits(n / 10) + [DigitChar(n % 10)];
      assert ds[..|ds| - 1] == NatDigits(n / 10);
      ds
  }

  /** The digits of `n` padded with leading zeros to exactly `width` places. */
  function PaddedDigits(n: nat, width: nat): (ds: seq<char>)
    requires n < Pow10(width)
    ensures |ds| == width && AllDigits(ds)
    ensures DigitsValue(ds) == n
  {
    if width == 0 then []
    else
      var ds := PaddedDigits(n / 10, width - 1) + [DigitChar(n % 10)];
      assert ds[..|ds| - 1] == PaddedDigits(n / 10, width - 1);
      ds
  }

  /**
   * The NumberString a user types for a number with whole part `whole` and
   * `k` fraction digits `fraction`: "1234.05" for whole 1234, fraction 5, k 2.
   */
  function CanonicalString(whole: nat, fraction: nat, k: nat, sep: NonDigit): (r: seq<char>)
    requires fraction < Pow10(k)
  {
    if k == 0 then NatDigits(whole) else NatDigits(whole) + [sep] + PaddedDigits(fraction, k)
  }

  /** The number whole + fraction / 10^k, as an exact rational. */
  function DecimalValue(whole: nat, fraction: nat, k: nat): (r: real)
  {
    (whole * Pow10(k) + fraction) as real / Pow10(k) as real
  }

  /**
   * Round trip: the canonical NumberString of whole + fraction / 10^k passes
   * the filter unchanged and parses back to exactly that number.
   */
  lemma CanonicalRoundTrip(whole: nat, fraction: nat, k: nat, sep: NonDigit, bare: Option<real>)
    requires fraction < Pow10(k)
    ensures IsNumberString(CanonicalString(whole, fraction, k, sep), sep)
    ensures Filter(CanonicalString(whole, fraction, k, sep), sep) == CanonicalString(whole, fraction, k, sep)
    ensures ParsedValue(CanonicalString(whole, fraction, k, sep), sep, bare)
         == Some(DecimalValue(whole, fraction, k))
  {
    var s := CanonicalString(whole, fraction, k, sep);
    var w := NatDigits(whole);
    if k == 0 {
      assert sep !in s;
      DigitsOfAllDigits(s);
      ParsedWithoutFraction(s, s, sep, bare);
      assert fraction == 0 && Pow10(k) == 1;
      assert (whole * 1 + 0) as real / 1.0 == whole as real;
    } else {
      var f := PaddedDigits(fraction, k);
      JoinIsNumberString(w, f, sep);
      assert s[FirstIndex(s, sep) + 1..] == f;
      assert FractionLength(s, sep) == k;
      DigitsAroundSeparator(w, sep, f);
      DigitsValueAppend(w, f);
      assert s != [sep];
      ParsedFromParts(s, w + f, k, sep, bare);
    }
    NumberStringIsFixedPoint(s, sep);
  }
}
