/**
 * The decision behind `moveCursorWithinBounds`: whether the caret, at a given
 * offset of the displayed text, must step back one from the end of the text
 * (percent style) or off a leading or trailing currency symbol (currency
 * style), and where to.
 */
module CursorBounds {
  import opened Wrappers
  import opened NumberFormatting

  /**
   * `position(from:offset:)` in a document holding `document`: the offset
   * `base + offset`, or nil when it falls outside the document.
   */
  function PositionFrom(document: seq<char>, base: int, offset: int): (r: Option<nat>)
  {
    if 0 <= base + offset <= |document| then Some(base + offset) else None
  }

  /** `_withinPercentBounds`: the caret may not sit after the last character. */
  function PercentTarget(text: Option<seq<char>>, cursor: nat): (r: Option<nat>)
  {
    if text.Some? && text.value != [] && cursor == |text.value| then Some(cursor - 1) else None
  }

  /** `_withinCurrencyBounds`: the caret may not sit before a leading or after a trailing symbol. */
  function CurrencyTarget(text: Option<seq<char>>, cursor: nat, currency: char): (r: Option<nat>)
  {
    if text.None? || text.value == [] then None
    else if text.value[0] == currency && cursor == 0 then Some(1)
    else if text.value[|text.value| - 1] == currency && cursor == |text.value| then Some(cursor - 1)
    else None
  }

  /**
   * Where `moveCursorWithinBounds` puts the caret, or `None` when it leaves it.
   * A move is always one step, always lands inside the text, and happens only
   * for the percent and currency styles and only on a non-empty text.
   */
  function CursorTarget(style: NumberStyle, text: Option<seq<char>>, cursor: nat, currency: char): (r: Option<nat>)
    ensures r.Some? ==> (style.Percent? || style.Currency?) && text.Some? && text.value != []
    ensures r.Some? ==> r.value <= |text.value| && (r.value == cursor + 1 || r.value + 1 == cursor)
    ensures r.Some? && style.Percent? ==> cursor == |text.value| && r.value == cursor - 1
    ensures r.Some? && r.value == cursor + 1 ==> cursor == 0 && text.value[0] == currency
    ensures r.Some? && style.Currency? && r.value + 1 == cursor ==>
      cursor == |text.value| && text.value[cursor - 1] == currency
  {
    match style
    case Percent => PercentTarget(text, cursor)
    case Currency => CurrencyTarget(text, cursor, currency)
    case _ => None
  }

  /** The selection after the clamp: the target when there is one, else as it was. */
  function ApplyTarget(target: Option<nat>, selection: Option<nat>): (r: Option<nat>)
  {
    if target.Some? then target else selection
  }

  /** Percent style: the caret moves exactly when it is at the end of a non-empty text. */
  lemma PercentClamp(text: Option<seq<char>>, cursor: nat, currency: char)
    ensures CursorTarget(Percent, text, cursor, currency).Some?
        <==> text.Some? && text.value != [] && cursor == |text.value|
  {
  }

  /**
   * Currency style: a caret before a leading symbol moves to 1, one after a
   * trailing symbol moves back by one, and no other caret moves.
   */
  lemma CurrencyClamp(text: seq<char>, cursor: nat, currency: char)
    ensures text != [] && text[0] == currency && cursor == 0 ==>
      CursorTarget(Currency, Some(text), cursor, currency) == Some(1)
    ensures text != [] && text[|text| - 1] == currency && cursor == |text| ==>
      CursorTarget(Currency, Some(text), cursor, currency) == Some(|text| - 1)
    ensures CursorTarget(Currency, Some(text), cursor, currency).Some? ==>
      (text[0] == currency && cursor == 0) || (text[|text| - 1] == currency && cursor == |text|)
  {
  }

  /**
   * The clamp settles: on a text of two or more characters, a caret it has
   * moved is not moved again (the text field reports every caret change back
   * to the clamp).
   */
  lemma ClampSettles(style: NumberStyle, text: seq<char>, cursor: nat, currency: char)
    requires |text| >= 2
    ensures var r := CursorTarget(style, Some(text), cursor, currency);
            r.Some? ==> CursorTarget(style, Some(text), r.value, currency).None?
  {
  }

  /** On a text made of the currency symbol alone, the clamp moves the caret back and forth. */
  lemma LoneSymbolAlternates(currency: char)
    ensures CursorTarget(Currency, Some([currency]), 0, currency) == Some(1)
    ensures CursorTarget(Currency, Some([currency]), 1, currency) == Some(0)
  {
  }
}
