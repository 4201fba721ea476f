/**
 * `NumberTextFieldViewRep.Coordinator`: the text-field delegate that keeps the
 * displayed text, the bound `Decimal?` value and the shared formatter in step.
 * Each event handler is one synchronous method (the main-queue hop of the
 * source is dropped); `onChange` and `onCommit` are recorded as the sequences
 * of values they were called with.
 */
module NumberCoordinator {
  import opened Wrappers
  import opened NumberFilter
  import opened DecimalParsing
  import opened FractionRegulator
  import opened NumberFormatting
  import opened CursorBounds

  /** The `UITextField`: its text, the start of its selected range, and its responder state. */
  class TextField {
    var text: Option<seq<char>>
    var selection: Option<nat>
    var isFirstResponder: bool

    constructor (text: Option<seq<char>>, selection: Option<nat>, isFirstResponder: bool)
      ensures this.text == text && this.selection == selection
      ensures this.isFirstResponder == isFirstResponder
    {
      this.text := text;
      this.selection := selection;
      this.isFirstResponder := isFirstResponder;
    }

    method ResignFirstResponder()
      modifies this`isFirstResponder
      ensures !isFirstResponder
    {
      isFirstResponder := false;
    }
  }

  /**
   * The value `updateValue` assigns: nil for a nil text; otherwise, from the
   * filtered text, the parsed number over 100 for the percent style, the
   * parsed number for the decimal and currency styles, and the current value
   * for every other style.
   */
  function UpdatedValue(style: NumberStyle, text: Option<seq<char>>, sep: NonDigit,
                        bare: Option<real>, current: Option<real>): (r: Option<real>)
  {
    if text.None? then None
    else
      var numString := Filter(text.value, sep);
      match style
      case Percent => PercentValue(numString, sep, bare)
      case Decimal => ParsedValue(numString, sep, bare)
      case Currency => ParsedValue(numString, sep, bare)
      case _ => current
  }

  /**
   * On a text that already is a NumberString, `updateValue` reads the text
   * itself: the filter leaves it as it is.
   */
  lemma UpdatedValueOfNumberString(style: NumberStyle, s: seq<char>, sep: NonDigit,
                                   bare: Option<real>, current: Option<real>)
    requires IsNumberString(s, sep)
    ensures style.Decimal? || style.Currency? ==> UpdatedValue(style, Some(s), sep, bare, current) == ParsedValue(s, sep, bare)
    ensures style.Percent? ==> UpdatedValue(style, Some(s), sep, bare, current) == PercentValue(s, sep, bare)
    ensures !(style.Decimal? || style.Currency? || style.Percent?) ==> UpdatedValue(style, Some(s), sep, bare, current) == current
  {
    NumberStringIsFixedPoint(s, sep);
  }

  /**
   * Typing the canonical NumberString of whole + fraction / 10^k gives that
   * exact number in the decimal and currency styles, and a hundredth of it in
   * the percent style: "100" is 1, "123.45" is 123.45.
   */
  lemma TypedNumberIsValue(style: NumberStyle, whole: nat, fraction: nat, k: nat,
                           sep: NonDigit, bare: Option<real>, current: Option<real>)
    requires fraction < Pow10(k)
    ensures var typed := Some(CanonicalString(whole, fraction, k, sep));
            var n := DecimalValue(whole, fraction, k);
            && (style.Decimal? || style.Currency? ==> UpdatedValue(style, typed, sep, bare, current) == Some(n))
            && (style.Percent? ==> UpdatedValue(style, typed, sep, bare, current) == Some(n / 100.0))
  {
    var s := CanonicalString(whole, fraction, k, sep);
    var n := DecimalValue(whole, fraction, k);
    CanonicalRoundTrip(whole, fraction, k, sep, bare);
    assert IsNumberString(s, sep) && ParsedValue(s, sep, bare) == Some(n);
    UpdatedValueOfParsed(style, s, n, sep, bare, current);
  }

  lemma UpdatedValueOfParsed(style: NumberStyle, s: seq<char>, n: real, sep: NonDigit,
                             bare: Option<real>, current: Option<real>)
    requires IsNumberString(s, sep) && ParsedValue(s, sep, bare) == Some(n)
    ensures style.Decimal? || style.Currency? ==> UpdatedValue(style, Some(s), sep, bare, current) == Some(n)
    ensures style.Percent? ==> UpdatedValue(style, Some(s), sep, bare, current) == Some(n / 100.0)
  {
    UpdatedValueOfNumberString(style, s, sep, bare, current);
  }

  /** The documented example of `_assignPercent`: "100" is 1. */
  lemma HundredPercentIsOne(sep: NonDigit, bare: Option<real>, current: Option<real>)
    ensures UpdatedValue(Percent, Some("100"), sep, bare, current) == Some(1.0)
  {
    assert NatDigits(100) == "100" by {
      assert NatDigits(10) == "10";
    }
    TypedNumberIsValue(Percent, 100, 0, 0, sep, bare, current);
  }

  class Coordinator {
    /** `viewRep.formatter`, shared with the host. */
    const formatter: Formatter
    /** What `Decimal(string:locale:)` makes of the separator alone. */
    const bareSeparatorValue: Option<real>
    /** `viewRep.value`, the bound value. */
    var value: Option<real>
    var definedMinimumFractionalDigits: int
    var isEditing: bool
    /** The values `viewRep.onChange` has been called with, oldest first. */
    var changes: seq<Option<real>>
    /** The values `viewRep.onCommit` has been called with, oldest first. */
    var commits: seq<Option<real>>

    /** `init(_:)`: captures the formatter's minimum fraction digits as the baseline. */
    constructor (formatter: Formatter, value: Option<real>, isActive: bool, bareSeparatorValue: Option<real>)
      ensures this.formatter == formatter && this.value == value && isEditing == isActive
      ensures this.bareSeparatorValue == bareSeparatorValue
      ensures definedMinimumFractionalDigits == formatter.minimumFractionDigits
      ensures changes == [] && commits == []
      ensures unchanged(formatter)
    {
      this.formatter := formatter;
      this.bareSeparatorValue := bareSeparatorValue;
      this.value := value;
      this.isEditing := isActive;
      this.definedMinimumFractionalDigits := formatter.minimumFractionDigits;
      this.changes := [];
      this.commits := [];
    }

    function DecimalChar(): (r: NonDigit)
      reads formatter
    {
      formatter.decimalSeparator
    }

    function GroupingChar(): (r: char)
      reads formatter
    {
      formatter.groupingSeparator
    }

    function CurrencyChar(): (r: char)
      reads formatter
    {
      formatter.currencySymbol
    }

    function PercentChar(): (r: char)
      reads formatter
    {
      formatter.percentSymbol
    }

    function Locale(): (r: seq<char>)
      reads formatter
    {
      formatter.locale
    }

    /**
     * Outside an editing session the formatter carries its defined settings:
     * the baseline minimum and no forced separator.
     */
    ghost predicate Settled()
      reads this, formatter
    {
      !isEditing ==>
        formatter.minimumFractionDigits == definedMinimumFractionalDigits
        && !formatter.alwaysShowsDecimalSeparator
    }

    /** The separator setting `_setDecimalSeparator` leaves for `text`. */
    ghost function SeparatorSetting(text: Option<seq<char>>, guarded: bool): (r: bool)
      reads this, formatter
    {
      if guarded && !isEditing then formatter.alwaysShowsDecimalSeparator
      else SeparatorShown(formatter.maximumFractionDigits, text, DecimalChar())
    }

    /** The minimum `_setMinimumFractionalDigits` leaves for `text`. */
    ghost function MinimumSetting(text: Option<seq<char>>, guarded: bool): (r: int)
      reads this, formatter
    {
      if guarded && !isEditing then formatter.minimumFractionDigits
      else MinimumDigits(formatter.maximumFractionDigits, text, DecimalChar())
    }

    /** The text `updateText` shows for the current value and formatter settings. */
    ghost function Display(): (r: seq<char>)
      reads this, formatter
    {
      if value.None? then [] else formatter.StringFrom(value.value).GetOr([])
    }

    /**
     * `textField(isEditing:)`: records the state; ending the session restores
     * the baseline minimum and stops forcing the separator.
     */
    method SetEditing(editing: bool)
      modifies this`isEditing, formatter`minimumFractionDigits, formatter`alwaysShowsDecimalSeparator
      ensures isEditing == editing
      ensures editing ==> unchanged(formatter)
      ensures !editing ==> formatter.minimumFractionDigits == definedMinimumFractionalDigits
      ensures !editing ==> !formatter.alwaysShowsDecimalSeparator
      ensures Settled()
    {
      isEditing := editing;
      if !editing {
        formatter.minimumFractionDigits := definedMinimumFractionalDigits;
        formatter.alwaysShowsDecimalSeparator := false;
      }
    }

    /**
     * `_setDecimalSeparator`: with `guarded` (the variant that checks
     * `isEditing`) nothing happens outside a session; otherwise the separator
     * is forced exactly when fraction digits are allowed and the text holds it.
     */
    method SetDecimalSeparator(tf: TextField, guarded: bool)
      modifies formatter`alwaysShowsDecimalSeparator
      ensures guarded && !isEditing ==> unchanged(formatter)
      ensures !(guarded && !isEditing) ==>
        (formatter.alwaysShowsDecimalSeparator <==>
           formatter.maximumFractionDigits > 0 && tf.text.Some? && DecimalChar() in tf.text.value)
      ensures formatter.alwaysShowsDecimalSeparator == old(SeparatorSetting(tf.text, guarded))
    {
      if guarded && !isEditing {
        return;
      }
      if !(formatter.maximumFractionDigits > 0 && tf.text.Some?) {
        formatter.alwaysShowsDecimalSeparator := false;
        return;
      }
      if DecimalChar() in tf.text.value {
        formatter.alwaysShowsDecimalSeparator := true;
      } else {
        formatter.alwaysShowsDecimalSeparator := false;
      }
    }

    /**
     * `_setMinimumFractionalDigits`: with `guarded`, nothing happens outside a
     * session; otherwise zero without a separator in the text, and else the
     * digits typed after the first separator, capped at the maximum.
     */
    method SetMinimumFractionalDigits(tf: TextField, guarded: bool)
      modifies formatter`minimumFractionDigits
      ensures guarded && !isEditing ==> unchanged(formatter)
      ensures !(guarded && !isEditing) && (tf.text.None? || DecimalChar() !in tf.text.value) ==>
        formatter.minimumFractionDigits == 0
      ensures !(guarded && !isEditing) && tf.text.Some? && DecimalChar() in tf.text.value ==>
        formatter.minimumFractionDigits
          == Min(TypedFractionDigits(tf.text.value, DecimalChar()), formatter.maximumFractionDigits)
      ensures formatter.minimumFractionDigits == old(MinimumSetting(tf.text, guarded))
    {
      if guarded && !isEditing {
        return;
      }
      if tf.text.None? || DecimalChar() !in tf.text.value {
        formatter.minimumFractionDigits := 0;
        return;
      }
      var numString := Filter(tf.text.value, DecimalChar());
      var separatorIndex := FirstIndex(numString, DecimalChar());
      var fractionalNumbers := Digits(numString[separatorIndex..]);
      FilteredFractionCount(tf.text.value, DecimalChar());
      if |fractionalNumbers| < formatter.maximumFractionDigits {
        formatter.minimumFractionDigits := |fractionalNumbers|;
      } else {
        formatter.minimumFractionDigits := formatter.maximumFractionDigits;
      }
    }

    /**
     * `updateText`: a nil value shows "" and leaves the formatter alone;
     * otherwise the separator and minimum overrides are applied for the
     * current text, and the value is formatted under them ("" when formatting
     * fails). All four style branches of the source do the same.
     */
    method UpdateText(tf: TextField, guarded: bool)
      modifies tf`text, formatter`alwaysShowsDecimalSeparator, formatter`minimumFractionDigits
      ensures value.None? ==> tf.text == Some([]) && unchanged(formatter)
      ensures value.Some? ==>
        && formatter.alwaysShowsDecimalSeparator == old(SeparatorSetting(tf.text, guarded))
        && formatter.minimumFractionDigits == old(MinimumSetting(tf.text, guarded))
      ensures tf.text == Some(Display())
    {
      if value.None? {
        tf.text := Some([]);
        return;
      }
      SetDecimalSeparator(tf, guarded);
      SetMinimumFractionalDigits(tf, guarded);
      var formattedString := formatter.StringFrom(value.value);
      if formattedString.None? {
        tf.text := Some([]);
        return;
      }
      tf.text := formattedString;
    }

    /**
     * `_assignPercent`: nil for an empty or unreadable NumberString, otherwise
     * the number read over 100.
     */
    method AssignPercent(s: seq<char>)
      requires IsNumberString(s, DecimalChar())
      modifies this`value
      ensures s == [] ==> value.None?
      ensures value.None? <==> ParsedValue(s, DecimalChar(), bareSeparatorValue).None?
      ensures value.Some? ==> value.value * 100.0 == ParsedValue(s, DecimalChar(), bareSeparatorValue).value
    {
      if s == [] {
        value := None;
        return;
      }
      var percent := DecimalFromString(s, DecimalChar(), bareSeparatorValue);
      if percent.None? {
        value := None;
        return;
      }
      value := Some(percent.value / 100.0);
    }

    /** `_assignDecimal`: nil for an empty or unreadable NumberString, otherwise the number read. */
    method AssignDecimal(s: seq<char>)
      requires IsNumberString(s, DecimalChar())
      modifies this`value
      ensures s == [] ==> value.None?
      ensures value == ParsedValue(s, DecimalChar(), bareSeparatorValue)
    {
      if s == [] {
        value := None;
        return;
      }
      var decimal := DecimalFromString(s, DecimalChar(), bareSeparatorValue);
      if decimal.None? {
        value := None;
        return;
      }
      value := decimal;
    }

    /**
     * `updateValue`: nil for a nil text; otherwise the filtered text is read
     * as a percentage in the percent style, as a number in the decimal and
     * currency styles, and the value is kept in every other style.
     */
    method UpdateValue(tf: TextField)
      modifies this`value
      ensures tf.text.None? ==> value.None?
      ensures tf.text.Some? && formatter.numberStyle.Percent? ==>
        value == PercentValue(Filter(tf.text.value, DecimalChar()), DecimalChar(), bareSeparatorValue)
      ensures tf.text.Some? && (formatter.numberStyle.Decimal? || formatter.numberStyle.Currency?) ==>
        value == ParsedValue(Filter(tf.text.value, DecimalChar()), DecimalChar(), bareSeparatorValue)
      ensures tf.text.Some? && !(formatter.numberStyle.Percent? || formatter.numberStyle.Decimal?
                                 || formatter.numberStyle.Currency?) ==>
        value == old(value)
      ensures value == UpdatedValue(formatter.numberStyle, tf.text, DecimalChar(), bareSeparatorValue, old(value))
    {
      if tf.text.None? {
        value := None;
        return;
      }
      var numString := Filter(tf.text.value, DecimalChar());
      match formatter.numberStyle
      case Percent =>
        AssignPercent(numString);
      case Decimal =>
        AssignDecimal(numString);
      case Currency =>
        AssignDecimal(numString);
      case _ =>
    }

    /**
     * `moveCursorWithinBounds`: in the percent and currency styles, moves the
     * caret off the symbol when `cursorPosition` stands on its wrong side;
     * otherwise the selection is left as it is.
     */
    method MoveCursorWithinBounds(tf: TextField, cursorPosition: nat)
      modifies tf`selection
      ensures tf.selection == ApplyTarget(
        CursorTarget(formatter.numberStyle, tf.text, cursorPosition, CurrencyChar()), old(tf.selection))
    {
      match formatter.numberStyle
      case Percent =>
        WithinPercentBounds(tf, cursorPosition);
      case Currency =>
        WithinCurrencyBounds(tf, cursorPosition);
      case _ =>
    }

    /** `_withinPercentBounds`. */
    method WithinPercentBounds(tf: TextField, cursorPosition: nat)
      modifies tf`selection
      ensures tf.selection == ApplyTarget(PercentTarget(tf.text, cursorPosition), old(tf.selection))
    {
      var document := tf.text.GetOr([]);
      var count := if tf.text.Some? then Some(|tf.text.value|) else None;
      var endingOffset := PositionFrom(document, |document|, -1);
      if count != Some(cursorPosition) || endingOffset.None? {
        return;
      }
      tf.selection := endingOffset;
    }

    /** `_withinCurrencyBounds`. */
    method WithinCurrencyBounds(tf: TextField, cursorPosition: nat)
      modifies tf`selection
      ensures tf.selection == ApplyTarget(CurrencyTarget(tf.text, cursorPosition, CurrencyChar()), old(tf.selection))
    {
      var document := tf.text.GetOr([]);
      var beginningOffset := PositionFrom(document, 0, 1);
      var endingOffset := PositionFrom(document, |document|, -1);
      if tf.text.None? || beginningOffset.None? || endingOffset.None? {
        return;
      }
      var text := tf.text.value;
      if text[0] == CurrencyChar() {
        if cursorPosition == 0 {
          tf.selection := beginningOffset;
        }
      }
      if text[|text| - 1] == CurrencyChar() {
        if cursorPosition == |text| {
          tf.selection := endingOffset;
        }
      }
    }

    /** `checkFormatter()`: re-captures the baseline from the formatter. */
    method CheckFormatter()
      modifies this`definedMinimumFractionalDigits
      ensures definedMinimumFractionalDigits == formatter.minimumFractionDigits
      ensures old(definedMinimumFractionalDigits) == formatter.minimumFractionDigits ==> unchanged(this)
      ensures old(Settled()) ==> Settled()
    {
      definedMinimumFractionalDigits := formatter.minimumFractionDigits;
    }

    /**
     * `textFieldDidBeginEditing`: starts the session, re-renders the value
     * with the overrides for the text on display, and clamps a caret placed
     * at the end of the new text.
     */
    method TextFieldDidBeginEditing(tf: TextField)
      modifies this`isEditing, formatter`minimumFractionDigits, formatter`alwaysShowsDecimalSeparator
      modifies tf`text, tf`selection
      ensures isEditing
      ensures value.None? ==> unchanged(formatter)
      ensures value.Some? ==>
        && formatter.alwaysShowsDecimalSeparator
           == SeparatorShown(formatter.maximumFractionDigits, old(tf.text), DecimalChar())
        && formatter.minimumFractionDigits
           == MinimumDigits(formatter.maximumFractionDigits, old(tf.text), DecimalChar())
      ensures tf.text == Some(Display())
      ensures tf.selection == ApplyTarget(
        CursorTarget(formatter.numberStyle, tf.text, |Display()|, CurrencyChar()), old(tf.selection))
    {
      SetEditing(true);
      UpdateText(tf, true);
      if tf.text.Some? {
        MoveCursorWithinBounds(tf, |tf.text.value|);
      }
    }

    /**
     * `textFieldDidChange`: in this order, the separator and minimum
     * overrides for the typed text, the new value from it, the re-rendered
     * text, the caret clamp, and `onChange` with the new value.
     */
    method TextFieldDidChange(tf: TextField)
      modifies this`value, this`changes, formatter`minimumFractionDigits, formatter`alwaysShowsDecimalSeparator
      modifies tf`text, tf`selection
      ensures formatter.alwaysShowsDecimalSeparator == old(SeparatorSetting(tf.text, true))
      ensures formatter.minimumFractionDigits == old(MinimumSetting(tf.text, true))
      ensures value == UpdatedValue(formatter.numberStyle, old(tf.text), DecimalChar(), bareSeparatorValue, old(value))
      ensures tf.text == Some(Display())
      ensures old(tf.selection).Some? ==>
        tf.selection == ApplyTarget(
          CursorTarget(formatter.numberStyle, tf.text, old(tf.selection).value, CurrencyChar()), old(tf.selection))
      ensures old(tf.selection).None? ==> tf.selection.None?
      ensures changes == old(changes) + [value]
      ensures old(Settled()) ==> Settled()
    {
      ghost var separator, minimum := SeparatorSetting(tf.text, true), MinimumSetting(tf.text, true);
      SetDecimalSeparator(tf, true);
      SetMinimumFractionalDigits(tf, true);
      UpdateValue(tf);
      // the overrides are settled: applying them again for the same text changes nothing
      assert SeparatorSetting(tf.text, true) == separator && MinimumSetting(tf.text, true) == minimum;
      UpdateText(tf, true);
      if tf.selection.Some? {
        MoveCursorWithinBounds(tf, tf.selection.value);
      }
      changes := changes + [value];
    }

    /**
     * `textFieldDidEndEditing`: ends the session, which restores the baseline,
     * re-renders the value under it, and calls `onCommit` with the value,
     * which this event does not change.
     */
    method TextFieldDidEndEditing(tf: TextField)
      modifies this`isEditing, this`commits, formatter`minimumFractionDigits, formatter`alwaysShowsDecimalSeparator
      modifies tf`text
      ensures !isEditing && Settled()
      ensures formatter.minimumFractionDigits == definedMinimumFractionalDigits
      ensures !formatter.alwaysShowsDecimalSeparator
      ensures value == old(value)
      ensures tf.text == Some(Display())
      ensures commits == old(commits) + [value]
    {
      SetEditing(false);
      UpdateText(tf, true);
      commits := commits + [value];
    }

    /** `textFieldShouldReturn`: gives up the keyboard and accepts the return key. */
    method TextFieldShouldReturn(tf: TextField) returns (r: bool)
      modifies tf`isFirstResponder
      ensures r && !tf.isFirstResponder
    {
      tf.ResignFirstResponder();
      r := true;
    }
  }

  /**
   * One editing session on a fresh coordinator: `checkFormatter`, begin
   * editing, the user's edit leaving `typed` in the field, end editing. The
   * overrides made while typing are gone afterwards: the formatter is back at
   * the minimum it was set up with and no longer forces the separator, and
   * `onCommit` receives the value `onChange` reported.
   */
  method EditingSession(formatter: Formatter, tf: TextField, value: Option<real>, bare: Option<real>,
                        typed: seq<char>) returns (c: Coordinator)
    modifies formatter`minimumFractionDigits, formatter`alwaysShowsDecimalSeparator, tf`text, tf`selection
    ensures fresh(c) && c.formatter == formatter && !c.isEditing
    ensures formatter.minimumFractionDigits == old(formatter.minimumFractionDigits)
    ensures !formatter.alwaysShowsDecimalSeparator
    ensures c.changes == [c.value] && c.commits == [c.value]
    ensures c.value == UpdatedValue(formatter.numberStyle, Some(typed), c.DecimalChar(), bare, value)
  {
    c := new Coordinator(formatter, value, false, bare);
    c.CheckFormatter();
    ghost var baseline := c.definedMinimumFractionalDigits;
    assert baseline == old(formatter.minimumFractionDigits);
    c.TextFieldDidBeginEditing(tf);
    tf.text := Some(typed);
    assert c.value == value && c.changes == [] && c.commits == [] && c.definedMinimumFractionalDigits == baseline;
    c.TextFieldDidChange(tf);
    c.TextFieldDidEndEditing(tf);
  }

  /**
   * The symbols and the locale depend on the formatter alone. This holds by
   * the `reads formatter` clauses of the five accessors; the body is empty.
   */
  twostate lemma DerivedSymbolsFollowFormatter(c: Coordinator)
    requires unchanged(c.formatter)
    ensures c.DecimalChar() == old(c.DecimalChar()) && c.GroupingChar() == old(c.GroupingChar())
    ensures c.CurrencyChar() == old(c.CurrencyChar()) && c.PercentChar() == old(c.PercentChar())
    ensures c.Locale() == old(c.Locale())
  {
  }
}
