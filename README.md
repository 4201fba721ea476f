# NumberTextField input masking, in Dafny

NumberTextField is a SwiftUI text field for numbers. Its coordinator,
`NumberTextFieldViewRep.Coordinator`, is the text-field delegate. It keeps three things in step:
the text on screen, the bound `Decimal?` value, and a shared `NumberFormatter`. On every keystroke it:

1. reduces the typed text to a *NumberString*: the digits plus at most one decimal separator;
2. reads the NumberString into the value, dividing by 100 in the percent style;
3. sets two formatter fields from the typed text: `alwaysShowsDecimalSeparator` and `minimumFractionDigits`;
4. re-renders the value through the formatter;
5. keeps the caret off the end of the text in the percent style, and off a currency symbol in the currency style;
6. reports the value through `onChange`.

When editing ends, it restores the formatter to the minimum fraction digits it captured at setup. It then reports the value through `onCommit`.

The model has these modules:

- `NumberFilter` (`number_filter.dfy`) holds `filter(_:)` and the NumberString predicate.
- `DecimalParsing` (`decimal_parsing.dfy`) holds `Decimal(string:locale:)` on NumberStrings. Values are exact rationals (`real`): "123.45" reads as 12345 / 10^2. It also holds canonical NumberStrings for the inverse direction.
- `FractionRegulator` (`fraction_regulator.dfy`) holds what the two formatter setters compute from the typed text.
- `NumberFormatting` (`number_formatting.dfy`) is the shared `NumberFormatter`. It is a class whose fields the coordinator writes. Its `string(from:)` is an uninterpreted function of the value, the two fraction-digit settings, the separator flag and the style.
- `CursorBounds` (`cursor_bounds.dfy`) holds the caret-clamp decision.
- `NumberCoordinator` (`coordinator.dfy`) holds two classes:
  - `TextField` has `text`, the start of the selection, and the responder state.
  - `Coordinator` has the value, the baseline, `isEditing`, and the recorded `onChange`/`onCommit` arguments. Its methods are the source's methods, one each, in the source's order of steps.
- `Wrappers` (`wrappers.dfy`) holds `Option`.

The setters appear twice in the source:

- with an `isEditing` guard, in `NumberCoordinator+Dependencies.swift`;
- without one, in `NumberCoordinator+Update.swift`.

The model has one method per setter, with a `guarded` parameter; `guarded` is false for the unguarded copy. The event handlers use the guarded setters. The two copies of `filter(_:)` are identical and are both modelled by `NumberFilter.Filter`.

`isEditing` is declared get-only in `NumberCoordinator.swift:40-42`, yet `textField(isEditing:)` assigns it. The model treats it as a plain field that this method writes.

Some facts about the code that the model keeps:

- **Caret clamp.** The caret moves at most one step. In the percent style it steps back one from the end of the text, whatever the last character is. In the currency style it steps off a leading or trailing currency symbol.
- **Setters outside a session.** The guarded setters do nothing.
- **Minimum fraction digits.** The setter caps the typed fraction digits at `maximumFractionDigits` without checking its sign. So a typed separator with a maximum of 0 gives a minimum of 0, and a negative maximum gives that negative number.
- **Parsed values.** They keep every typed digit.

## Model

| member | source | states |
|---|---|---|
| NumberFilter.Filter | Sources/NumberTextField/Components/NumberCoordinator+Filter.swift:22-37 | the result is a NumberString: digits and the separator only, no separator after the first. When the text holds the separator, so does the result, so the force-unwrapped `firstIndex(of:)` on a filtered text cannot fail; the identical copy at NumberCoordinator+Dependencies.swift:126-142 is the same function |
| NumberFilter.FirstIndex | Sources/NumberTextField/Components/NumberCoordinator+Filter.swift:34 | the index returned holds the character, and no earlier index does |
| NumberFilter.FilterWithoutSeparator | Sources/NumberTextField/Components/NumberCoordinator+Filter.swift:24-27 | without a separator in the text, the result is exactly the text's digits in order, and it holds no separator |
| NumberFilter.FilterAroundSeparator | Sources/NumberTextField/Components/NumberCoordinator+Filter.swift:34-37 | with a separator, the result's first separator sits right after the digits typed before the text's first separator, and the digits from that separator on follow it |
| NumberFilter.FilterSeparatorCount | Sources/NumberTextField/Components/NumberCoordinator+Filter.swift:22-37 | the result holds exactly one separator when the text holds any, and none otherwise |
| NumberFilter.FilterPreservesDigits | Sources/NumberTextField/Components/NumberCoordinator+Filter.swift:26-36 | every digit survives: the digits of the result are the digits of the text, in order |
| NumberFilter.FilterLength | Sources/NumberTextField/Components/NumberCoordinator+Filter.swift:26-37 | the result is never longer than the text |
| NumberFilter.NumberStringIsFixedPoint | Sources/NumberTextField/Components/NumberCoordinator+Filter.swift:22-37 | a NumberString passes the filter unchanged |
| NumberFilter.FilterIdempotent | Sources/NumberTextField/Components/NumberCoordinator+Filter.swift:22-37 | filtering twice is filtering once |
| NumberFilter.DigitsAroundSeparator | Sources/NumberTextField/Components/NumberCoordinator+Filter.swift:35-37 | the digits of whole + separator + fraction are whole followed by fraction |
| DecimalParsing.DigitsValue | Sources/NumberTextField/Components/NumberCoordinator+Update.swift:144 | a string of k digits writes a natural number below 10^k |
| DecimalParsing.DigitsValueAppend | Sources/NumberTextField/Components/NumberCoordinator+Update.swift:144 | reading digits a then b is reading a, shifted left by the length of b, plus reading b |
| DecimalParsing.DecimalFromString | Sources/NumberTextField/Components/NumberCoordinator+Update.swift:126 | `Decimal(string:locale:)` on a non-empty NumberString other than the lone separator is all its digits over 10 to the number of fraction digits. The lone separator is left to an oracle |
| DecimalParsing.WholeAndFractionOf | Sources/NumberTextField/Components/NumberCoordinator+Update.swift:144 | reading the whole digits plus the fraction digits over 10^(their count) equals reading all digits over the same power |
| DecimalParsing.ParsedValue | Sources/NumberTextField/Components/NumberCoordinator+Update.swift:142-151 | nil exactly for the empty NumberString and for a lone separator the oracle rejects; any other value is non-negative |
| DecimalParsing.PercentValue | Sources/NumberTextField/Components/NumberCoordinator+Update.swift:124-133 | nil exactly when the decimal reading is nil; otherwise the result times 100 is the decimal reading |
| DecimalParsing.TrailingSeparatorIgnored | Sources/NumberTextField/Components/NumberCoordinator+Update.swift:142-151 | a trailing separator does not change the value: "123." reads as 123 |
| DecimalParsing.NatDigits | Sources/NumberTextField/Components/NumberCoordinator+Update.swift:144 | the decimal digits of n read back as n |
| DecimalParsing.PaddedDigits | Sources/NumberTextField/Components/NumberCoordinator+Update.swift:144 | n zero-padded to a width reads back as n, and has exactly that width |
| DecimalParsing.CanonicalRoundTrip | Sources/NumberTextField/Components/NumberCoordinator+Update.swift:142-151 | the NumberString typed for whole + fraction / 10^k is a fixed point of the filter, and it reads back as exactly that number |
| FractionRegulator.MinimumDigits | Sources/NumberTextField/Components/NumberCoordinator+Dependencies.swift:86-108 | 0 without a text or without a separator in it; otherwise the digits typed after the first separator, capped at the maximum; so between 0 and the maximum whenever the maximum is non-negative |
| FractionRegulator.FilteredFractionCount | Sources/NumberTextField/Components/NumberCoordinator+Dependencies.swift:93-102 | counting the digits from the separator of the filtered text counts the digits typed after the first separator of the raw text |
| FractionRegulator.MinimumMatchesParsedFraction | Sources/NumberTextField/Components/NumberCoordinator+Dependencies.swift:93-108 | the minimum is the fraction length of the NumberString the value is read from, capped at the maximum, so typed trailing zeros stay on screen |
| FractionRegulator.TrailingSeparatorExample | Sources/NumberTextField/Components/NumberCoordinator+Dependencies.swift:49-108 | "123." with a maximum of 2: the separator is shown and the minimum is 0 |
| FractionRegulator.OneFractionDigitExample | Sources/NumberTextField/Components/NumberCoordinator+Dependencies.swift:49-108 | "123.4" with a maximum of 2: the separator is shown and the minimum is 1 |
| NumberFormatting.Formatter.constructor | Sources/NumberTextField/Components/NumberCoordinator.swift:17-35 | the formatter holds the settings and the symbols the coordinator reads |
| CursorBounds.CursorTarget | Sources/NumberTextField/Components/NumberCoordinator+Cursor.swift:25-35 | only the percent and currency styles move the caret, and only on a non-empty text. A move is one step and lands inside the text. A percent move starts from the end. A forward move starts at 0 before a leading symbol. A backward currency move starts at the end after a trailing symbol |
| CursorBounds.PercentClamp | Sources/NumberTextField/Components/NumberCoordinator+Cursor.swift:46-54 | percent style: the caret moves exactly when it is at the end of a non-empty text |
| CursorBounds.CurrencyClamp | Sources/NumberTextField/Components/NumberCoordinator+Cursor.swift:64-83 | currency style: 0 before a leading symbol moves to 1, the end after a trailing symbol moves back one, and no other caret moves |
| CursorBounds.ClampSettles | Sources/NumberTextField/Components/NumberCoordinator+Cursor.swift:25-83 | on a text of two or more characters, a caret the clamp has moved is not moved again |
| CursorBounds.LoneSymbolAlternates | Sources/NumberTextField/Components/NumberCoordinator+Cursor.swift:64-83 | on a text made of the currency symbol alone, the clamp sends 0 to 1 and 1 back to 0 |
| NumberCoordinator.TextField.ResignFirstResponder | Sources/NumberTextField/Components/NumberCoordinator.swift:116 | the field is no longer first responder |
| NumberCoordinator.UpdatedValueOfNumberString | Sources/NumberTextField/Components/NumberCoordinator+Update.swift:98-111 | on a NumberString: the decimal and currency styles read it, the percent style reads it over 100, and every other style keeps the value |
| NumberCoordinator.TypedNumberIsValue | Sources/NumberTextField/Components/NumberCoordinator+Update.swift:98-150 | typing the canonical NumberString of a number gives exactly that number in the decimal and currency styles, and a hundredth of it in the percent style |
| NumberCoordinator.UpdatedValueOfParsed | Sources/NumberTextField/Components/NumberCoordinator+Update.swift:100-108 | a NumberString that reads as n gives n in the decimal and currency styles and n / 100 in the percent style |
| NumberCoordinator.HundredPercentIsOne | Sources/NumberTextField/Components/NumberCoordinator+Update.swift:120-132 | "100" in the percent style is 1 |
| NumberCoordinator.Coordinator.constructor | Sources/NumberTextField/Components/NumberCoordinator.swift:45-48 | the baseline is the formatter's minimum fraction digits; the formatter is not modified; nothing is reported yet |
| NumberCoordinator.Coordinator.SetEditing | Sources/NumberTextField/Components/NumberCoordinator+Dependencies.swift:22-31 | starting a session touches only `isEditing`. Ending one restores the baseline minimum and clears the forced separator. Either way the formatter is settled outside a session |
| NumberCoordinator.Coordinator.SetDecimalSeparator | Sources/NumberTextField/Components/NumberCoordinator+Dependencies.swift:49-65 | guarded and not editing: the formatter is untouched. Otherwise the separator is forced exactly when the maximum is positive, there is a text, and it holds the separator. With `guarded` false it is the unguarded copy in NumberCoordinator+Update.swift, which takes the same decision whatever `isEditing` is |
| NumberCoordinator.Coordinator.SetMinimumFractionalDigits | Sources/NumberTextField/Components/NumberCoordinator+Dependencies.swift:83-109 | guarded and not editing: the formatter is untouched. Otherwise 0 without a separator in the text, and else the typed fraction digits capped at the maximum. With `guarded` false it is the unguarded copy in NumberCoordinator+Update.swift, which takes the same decision whatever `isEditing` is |
| NumberCoordinator.Coordinator.UpdateText | Sources/NumberTextField/Components/NumberCoordinator+Update.swift:26-74 | a nil value shows "" and leaves the formatter alone. Otherwise both overrides are applied first, then the text is the formatted value, or "" when formatting fails, in every style |
| NumberCoordinator.Coordinator.UpdateValue | Sources/NumberTextField/Components/NumberCoordinator+Update.swift:91-113 | nil for a nil text. The percent style reads the filtered text over 100. The decimal and currency styles read the filtered text. Every other style keeps the value |
| NumberCoordinator.Coordinator.AssignPercent | Sources/NumberTextField/Components/NumberCoordinator+Update.swift:124-133 | nil for the empty or unreadable NumberString; otherwise a number that, times 100, is the reading |
| NumberCoordinator.Coordinator.AssignDecimal | Sources/NumberTextField/Components/NumberCoordinator+Update.swift:142-151 | nil for the empty or unreadable NumberString; otherwise the reading |
| NumberCoordinator.Coordinator.MoveCursorWithinBounds | Sources/NumberTextField/Components/NumberCoordinator+Cursor.swift:25-35 | the selection moves to the clamp target when there is one, and stays otherwise |
| NumberCoordinator.Coordinator.WithinPercentBounds | Sources/NumberTextField/Components/NumberCoordinator+Cursor.swift:46-54 | the selection moves to the end minus one exactly when the caret is at the end of a non-empty text |
| NumberCoordinator.Coordinator.WithinCurrencyBounds | Sources/NumberTextField/Components/NumberCoordinator+Cursor.swift:64-83 | the selection moves off a leading or trailing currency symbol as `CurrencyClamp` states |
| NumberCoordinator.Coordinator.CheckFormatter | Sources/NumberTextField/Components/NumberCoordinator+Formatter.swift:21-24 | the baseline becomes the formatter's current minimum. The formatter is not modified. A second call changes nothing. A settled coordinator stays settled |
| NumberCoordinator.Coordinator.TextFieldDidBeginEditing | Sources/NumberTextField/Components/NumberCoordinator.swift:75-84 | editing starts, the value is re-rendered with the overrides for the text on display, and the caret is clamped at the end of the new text |
| NumberCoordinator.Coordinator.TextFieldDidChange | Sources/NumberTextField/Components/NumberCoordinator.swift:87-103 | in order: the overrides for the typed text, the new value from it, the re-rendered text, and the caret clamp. `onChange` receives exactly the new value. A settled coordinator stays settled |
| NumberCoordinator.Coordinator.TextFieldDidEndEditing | Sources/NumberTextField/Components/NumberCoordinator.swift:106-112 | editing ends with the baseline minimum and no forced separator; the text is re-rendered under them; `onCommit` receives the value, which this event leaves unchanged |
| NumberCoordinator.Coordinator.TextFieldShouldReturn | Sources/NumberTextField/Components/NumberCoordinator.swift:115-118 | the field resigns first responder and the answer is true; value and text are untouched |
| NumberCoordinator.EditingSession | Sources/NumberTextField/Components/NumberCoordinator+Formatter.swift:14-24 | after setup, begin, one edit and end, the formatter is back at the minimum it was set up with and does not force the separator. `onChange` and `onCommit` each receive exactly the final value once, and that value is the one the typed text gives |
| NumberCoordinator.DerivedSymbolsFollowFormatter | Sources/NumberTextField/Components/NumberCoordinator.swift:17-35 | the decimal, grouping, currency and percent characters and the locale depend on the formatter alone |

## Left out

- `NumberFormatter.string(from:)` stays an uninterpreted function (`Formatter.render`). The model does not cover locale data, grouping, currency and percent affixes, or rounding, so it proves no rendered string such as "$1,234.00".
- `Decimal(string:locale:)` is modelled only on NumberStrings:
  - The lone separator is an oracle value (`Coordinator.bareSeparatorValue`).
  - The 38-digit mantissa limit of `Decimal` is not modelled; values are unbounded rationals.
- The locale is assumed to use the formatter's decimal separator when reading a NumberString.
- The `DispatchQueue.main.async` hops in the handlers and in `setup` are dropped. Each handler is one synchronous method.
- UIKit text positions and ranges are replaced by an integer caret and a bounds check (`PositionFrom`):
  - `setup(_:)`'s target wiring is left out.
  - The caret move UIKit makes when `text` is assigned is not modelled. Assigning the text keeps the selection.
- Text is a sequence of `char`s. Swift's `count`, `filter`, `contains`, `first` and `last` work on grapheme clusters instead. So a digit carrying a combining mark, such as "1\u{301}2", filters to "2" in the source but to "12" in the model.
- The `UIOpenTextField` subclass is not part of this model. It only forwards caret changes, which are modelled as calls of `MoveCursorWithinBounds`.
- SwiftUI glue is not part of this model: `NumberTextFieldViewRep`, `NumberTextField`, the environment keys, and `updateUIView`'s re-render of the text.
- Symbols are single `char` fields, so the crash of `Character(x ?? "")` on an empty or multi-character symbol cannot occur.
- The decimal separator is never a digit (the `NonDigit` type).
- NumberCoordinator.Coordinator.MoveCursorWithinBounds: only the caret position is modelled, not a selected range; the source always collapses the selection to an empty range.
