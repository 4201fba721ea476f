/**
 * The `NumberFormatter` the coordinator shares with its host. Its rendering,
 * `string(from:)`, is platform code and stays uninterpreted: a function of the
 * value and of the four settings the coordinator reads or writes.
 */
module NumberFormatting {
  import opened Wrappers
  import opened NumberFilter

  /** `NumberFormatter.Style`; `NoStyle` is `.none`. */
  datatype NumberStyle =
    | NoStyle | Decimal | Currency | Percent | Scientific | SpellOut | Ordinal
    | CurrencyISOCode | CurrencyPlural | CurrencyAccounting

  /** `string(from:)` given (value, minimum and maximum fraction digits, always-show-separator, style). */
  type Renderer = (real, int, int, bool, NumberStyle) -> Option<seq<char>>

  class Formatter {
    var numberStyle: NumberStyle
    var minimumFractionDigits: int
    var maximumFractionDigits: int
    var alwaysShowsDecimalSeparator: bool
    var decimalSeparator: NonDigit
    var groupingSeparator: char
    var currencySymbol: char
    var percentSymbol: char
    var locale: seq<char>
    /** Locale data, grouping, affixes and rounding of `string(from:)`. */
    const render: Renderer

    constructor (numberStyle: NumberStyle, minimumFractionDigits: int, maximumFractionDigits: int,
                 alwaysShowsDecimalSeparator: bool, decimalSeparator: NonDigit, groupingSeparator: char,
                 currencySymbol: char, percentSymbol: char, locale: seq<char>, render: Renderer)
      ensures this.numberStyle == numberStyle
      ensures this.minimumFractionDigits == minimumFractionDigits
      ensures this.maximumFractionDigits == maximumFractionDigits
      ensures this.alwaysShowsDecimalSeparator == alwaysShowsDecimalSeparator
      ensures this.decimalSeparator == decimalSeparator
      ensures this.groupingSeparator == groupingSeparator
      ensures this.currencySymbol == currencySymbol
      ensures this.percentSymbol == percentSymbol
      ensures this.locale == locale
      ensures this.render == render
    {
      this.numberStyle := numberStyle;
      this.minimumFractionDigits := minimumFractionDigits;
      this.maximumFractionDigits := maximumFractionDigits;
      this.alwaysShowsDecimalSeparator := alwaysShowsDecimalSeparator;
      this.decimalSeparator := decimalSeparator;
      this.groupingSeparator := groupingSeparator;
      this.currencySymbol := currencySymbol;
      this.percentSymbol := percentSymbol;
      this.locale := locale;
      this.render := render;
    }

    /** `string(from: value as NSDecimalNumber)` under the current settings. */
    function StringFrom(value: real): (r: Option<seq<char>>)
      reads this
    {
      render(value, minimumFractionDigits, maximumFractionDigits, alwaysShowsDecimalSeparator, numberStyle)
    }
  }
}
