/**
 * The decisions behind `_setDecimalSeparator` and `_setMinimumFractionalDigits`:
 * from the text being typed, the values the formatter's
 * `alwaysShowsDecimalSeparator` and `minimumFractionDigits` take while editing,
 * so that formatting keeps a trailing separator ("123.") and typed trailing
 * zeros ("1.50"). The `isEditing` guard is applied by the coordinator.
 */
module FractionRegulator {
  import opened Wrappers
  import opened NumberFilter
  import opened DecimalParsing

  /**
   * `alwaysShowsDecimalSeparator` as `_setDecimalSeparator` sets it: shown
   * when fraction digits are allowed and the text holds the separator.
   */
  function SeparatorShown(maximumFractionDigits: int, text: Option<seq<char>>, sep: char): (r: bool)
  {
    if maximumFractionDigits > 0 && text.Some? then sep in text.value else false
  }

  /** The count of digits from the separator on, in a filtered text. */
  function FractionDigitCount(numString: seq<char>, sep: char): (r: nat)
    requires sep in numString
  {
    |Digits(numString[FirstIndex(numString, sep)..])|
  }

  /** The digits typed after the first separator of the raw text. */
  function TypedFractionDigits(text: seq<char>, sep: char): (r: nat)
    requires sep in text
  {
    |Digits(text[FirstIndex(text, sep) + 1..])|
  }

  function Min(a: int, b: int): (r: int) {
    if a < b then a else b
  }

  /**
   * `minimumFractionDigits` as `_setMinimumFractionalDigits` sets it: zero
   * without a separator; otherwise as many as the digits typed after the
   * first separator, capped at `maximumFractionDigits`.
   */
  function MinimumDigits(maximumFractionDigits: int, text: Option<seq<char>>, sep: NonDigit): (m: int)
    ensures text.None? || sep !in text.value ==> m == 0
    ensures text.Some? && sep in text.value ==>
      m == Min(TypedFractionDigits(text.value, sep), maximumFractionDigits)
    ensures maximumFractionDigits >= 0 ==> 0 <= m <= maximumFractionDigits
  {
    if text.None? || sep !in text.value then 0
    else
      var numString := Filter(text.value, sep);
      var count := FractionDigitCount(numString, sep);
      FilteredFractionCount(text.value, sep);
      if count < maximumFractionDigits then count else maximumFractionDigits
  }

  /**
   * Counting the digits after the separator of the filtered text counts the
   * digits typed after the raw text's first separator.
   */
  lemma FilteredFractionCount(text: seq<char>, sep: NonDigit)
    requires sep in text
    ensures sep in Filter(text, sep)
    ensures FractionDigitCount(Filter(text, sep), sep) == TypedFractionDigits(text, sep)
  {
    var r := Filter(text, sep);
    FilterAroundSeparator(text, sep);
    var j := FirstIndex(r, sep);
    DigitsAfterSeparator(r, j, sep);
    DigitsOfAllDigits(r[j + 1..]);
    DigitsAfterSeparator(text, FirstIndex(text, sep), sep);
  }

  /**
   * The regulated minimum is the fraction length of the NumberString the
   * value is parsed from (capped at the maximum): formatting with it shows
   * every typed fraction digit, trailing zeros included.
   */
  lemma MinimumMatchesParsedFraction(maximumFractionDigits: int, text: seq<char>, sep: NonDigit)
    requires sep in text
    ensures MinimumDigits(maximumFractionDigits, Some(text), sep)
         == Min(FractionLength(Filter(text, sep), sep), maximumFractionDigits)
  {
    var r := Filter(text, sep);
    FilterAroundSeparator(text, sep);
    FilteredFractionCount(text, sep);
    var j := FirstIndex(r, sep);
    DigitsAfterSeparator(text, FirstIndex(text, sep), sep);
    assert |r[j + 1..]| == |r| - j - 1;
  }

  /** "123." with two fraction digits allowed: separator kept, no digit reserved. */
  lemma TrailingSeparatorExample()
    ensures SeparatorShown(2, Some("123."), '.')
    ensures MinimumDigits(2, Some("123."), '.') == 0
  {
    assert FirstIndex("123.", '.') == 3 by {
      FirstIndexUnique("123.", '.', 3);
    }
    assert "123."[4..] == [];
  }

  /** "123.4" with two fraction digits allowed: separator kept, one digit reserved. */
  lemma OneFractionDigitExample()
    ensures SeparatorShown(2, Some("123.4"), '.')
    ensures MinimumDigits(2, Some("123.4"), '.') == 1
  {
    assert "123.4"[..3] == "123";
    FirstIndexUnique("123.4", '.', 3);
    assert "123.4"[4..] == "4";
    assert Digits("4") == "4" by {
      assert "4"[1..] == [];
    }
  }
}
