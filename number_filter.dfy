/**
 * The character filter of the coordinator: `filter(_:)` reduces any text to a
 * NumberString, that is the digits of the text in their order plus at most one
 * decimal separator, standing where the first separator of the text stood.
 */
module NumberFilter {

  /** Membership in `"0123456789"`, the character set both filters use. */
  predicate IsDigit(c: char) {
    '0' <= c <= '9'
  }

  /** A decimal separator: any character that is not a digit. */
  type NonDigit = c: char | !IsDigit(c) witness '.'

  predicate AllDigits(s: seq<char>) {
    forall i :: 0 <= i < |s| ==> IsDigit(s[i])
  }

  /** `s.filter { numberChars.contains($0) }`: the digits of `s`, in order. */
  function Digits(s: seq<char>): (r: seq<char>)
    ensures AllDigits(r)
    ensures |r| <= |s|
  {
    if s == [] then [] else (if IsDigit(s[0]) then [s[0]] else []) + Digits(s[1..])
  }

  /** `s.firstIndex(of: c)!`, defined only where the character occurs. */
  function FirstIndex(s: seq<char>, c: char): (k: nat)
    requires c in s
    ensures k < |s| && s[k] == c && c !in s[..k]
  {
    if s[0] == c then 0
    else
      var k' := FirstIndex(s[1..], c);
      assert s[..k' + 1] == [s[0]] + s[1..][..k'];
      k' + 1
  }

  /** Only digits and at most one separator: none follows the first. */
  predicate IsNumberString(s: seq<char>, sep: char) {
    && (forall i :: 0 <= i < |s| ==> IsDigit(s[i]) || s[i] == sep)
    && (sep in s ==> sep !in s[FirstIndex(s, sep) + 1..])
  }

  /**
   * `filter(_:)`: without a separator, the digits of `s`; otherwise the digits
   * before the first separator, the separator, and the digits of the rest.
   */
  function Filter(s: seq<char>, sep: NonDigit): (r: seq<char>)
    ensures IsNumberString(r, sep)
    // the force-unwrapped `firstIndex(of: decimalChar)` on a filtered text never fails
    ensures sep in s ==> sep in r
  {
    if sep !in s then Digits(s)
    else
      var k := FirstIndex(s, sep);
      var whole, fraction := Digits(s[..k]), Digits(s[k..]);
      JoinIsNumberString(whole, fraction, sep);
      whole + [sep] + fraction
  }

  lemma {:induction false} DigitsAppend(a: seq<char>, b: seq<char>)
    ensures Digits(a + b) == Digits(a) + Digits(b)
  {
    if a == [] {
      assert a + b == b;
    } else {
      assert (a + b)[1..] == a[1..] + b;
      DigitsAppend(a[1..], b);
    }
  }

  lemma {:induction false} DigitsOfAllDigits(s: seq<char>)
    requires AllDigits(s)
    ensures Digits(s) == s
  {
    if s != [] {
      DigitsOfAllDigits(s[1..]);
    }
  }

  lemma SplitAt(s: seq<char>, k: nat)
    requires k < |s|
    ensures s == s[..k] + [s[k]] + s[k + 1..]
  {
  }

  /** The first occurrence is the one position holding `c` with no `c` before it. */
  lemma FirstIndexUnique(s: seq<char>, c: char, j: nat)
    requires j < |s| && s[j] == c && c !in s[..j]
    ensures FirstIndex(s, c) == j
  {
  }

  /** A separator that is not a digit is dropped by `Digits`, so `s[k..]` and `s[k+1..]` agree. */
  lemma DigitsAfterSeparator(s: seq<char>, k: nat, sep: NonDigit)
    requires k < |s| && s[k] == sep
    ensures Digits(s[k..]) == Digits(s[k + 1..])
  {
    assert s[k..] == [sep] + s[k + 1..];
    assert Digits([sep]) == [] by {
      assert [sep][1..] == [];
    }
    DigitsAppend([sep], s[k + 1..]);
  }

  /**
   * The shape of the result around its separator: the digits before the
   * input's first separator, the separator, then the digits from the input's
   * first separator on; the separator of the result is its first.
   */
  lemma FilterAroundSeparator(s: seq<char>, sep: NonDigit)
    requires sep in s
    ensures var k := FirstIndex(s, sep);
            var r := Filter(s, sep);
            var j := |Digits(s[..k])|;
            && j < |r| && r[j] == sep && FirstIndex(r, sep) == j
            && r[..j] == Digits(s[..k])
            && r[j + 1..] == Digits(s[k..])
  {
    var k := FirstIndex(s, sep);
    JoinShape(Digits(s[..k]), Digits(s[k..]), sep);
  }

  /** Where the separator and the two digit strings sit in their join. */
  lemma JoinShape(a: seq<char>, b: seq<char>, sep: NonDigit)
    requires AllDigits(a) && AllDigits(b)
    ensures var r := a + [sep] + b;
            && |a| < |r| && r[|a|] == sep && FirstIndex(r, sep) == |a|
            && r[..|a|] == a && r[|a| + 1..] == b
  {
    var r := a + [sep] + b;
    assert r[..|a|] == a;
    assert r[|a| + 1..] == b;
    JoinIsNumberString(a, b, sep);
  }

  /** Without a separator in the input there is none in the output: just the digits. */
  lemma FilterWithoutSeparator(s: seq<char>, sep: NonDigit)
    requires sep !in s
    ensures Filter(s, sep) == Digits(s)
    ensures sep !in Filter(s, sep)
  {
  }

  /** The output holds one separator exactly when the input holds at least one. */
  lemma FilterSeparatorCount(s: seq<char>, sep: NonDigit)
    ensures multiset(Filter(s, sep))[sep] == if sep in s then 1 else 0
  {
    if sep in s {
      var k := FirstIndex(s, sep);
      var a, b := Digits(s[..k]), Digits(s[k..]);
      assert sep !in a && sep !in b;
      assert multiset(a + [sep] + b) == multiset(a) + multiset{sep} + multiset(b);
    } else {
      assert sep !in Digits(s);
    }
  }

  /** Two digit strings joined by the separator form a NumberString. */
  lemma JoinIsNumberString(whole: seq<char>, fraction: seq<char>, sep: NonDigit)
    requires AllDigits(whole) && AllDigits(fraction)
    ensures IsNumberString(whole + [sep] + fraction, sep)
    ensures FirstIndex(whole + [sep] + fraction, sep) == |whole|
  {
    var s := whole + [sep] + fraction;
    assert sep !in whole && sep !in fraction;
    forall i | 0 <= i < |s| ensures IsDigit(s[i]) || s[i] == sep {
      if i < |whole| {
        assert s[i] == whole[i];
      } else if i > |whole| {
        assert s[i] == fraction[i - |whole| - 1];
      }
    }
    assert s[..|whole|] == whole;
    FirstIndexUnique(s, sep, |whole|);
    assert s[|whole| + 1..] == fraction;
  }

  /** Every digit survives, in order: the output's digits are the input's digits. */
  lemma FilterPreservesDigits(s: seq<char>, sep: NonDigit)
    ensures Digits(Filter(s, sep)) == Digits(s)
  {
    if sep in s {
      var k := FirstIndex(s, sep);
      DigitsAroundSeparator(Digits(s[..k]), sep, Digits(s[k..]));
      DigitsAppend(s[..k], s[k..]);
      assert s[..k] + s[k..] == s;
    } else {
      DigitsOfAllDigits(Digits(s));
    }
  }

  /** The output is never longer than the input. */
  lemma FilterLength(s: seq<char>, sep: NonDigit)
    ensures |Filter(s, sep)| <= |s|
  {
    if sep in s {
      var k := FirstIndex(s, sep);
      DigitsAfterSeparator(s, k, sep);
      assert |Digits(s[k + 1..])| <= |s| - k - 1;
    }
  }

  /** The whole part and the fraction part of a NumberString with a separator are digits. */
  lemma NumberStringParts(s: seq<char>, sep: NonDigit)
    requires IsNumberString(s, sep) && sep in s
    ensures AllDigits(s[..FirstIndex(s, sep)])
    ensures AllDigits(s[FirstIndex(s, sep) + 1..])
  {
    var k := FirstIndex(s, sep);
    var whole, fraction := s[..k], s[k + 1..];
    forall i | 0 <= i < |whole| ensures IsDigit(whole[i]) {
      assert whole[i] in whole;
    }
    forall i | 0 <= i < |fraction| ensures IsDigit(fraction[i]) {
      assert fraction[i] == s[k + 1 + i] && fraction[i] in fraction;
    }
  }

  lemma NumberStringWithoutSeparator(s: seq<char>, sep: NonDigit)
    requires IsNumberString(s, sep) && sep !in s
    ensures AllDigits(s)
  {
    forall i | 0 <= i < |s| ensures IsDigit(s[i]) {
      assert s[i] in s;
    }
  }

  /** Dropping a non-digit between two digit strings. */
  lemma DigitsAroundSeparator(whole: seq<char>, sep: NonDigit, fraction: seq<char>)
    requires AllDigits(whole) && AllDigits(fraction)
    ensures Digits(whole + [sep] + fraction) == whole + fraction
  {
    assert Digits([sep]) == [] by {
      assert [sep][1..] == [];
    }
    DigitsAppend(whole + [sep], fraction);
    DigitsAppend(whole, [sep]);
    assert whole + [] == whole;
    DigitsOfAllDigits(whole);
    DigitsOfAllDigits(fraction);
  }

  /** The digits of a NumberString are the string with its separator taken out. */
  lemma NumberStringDigits(s: seq<char>, sep: NonDigit)
    requires IsNumberString(s, sep) && sep in s
    ensures Digits(s) == s[..FirstIndex(s, sep)] + s[FirstIndex(s, sep) + 1..]
  {
    var k := FirstIndex(s, sep);
    NumberStringParts(s, sep);
    assert s == s[..k] + [sep] + s[k + 1..];
    DigitsAroundSeparator(s[..k], sep, s[k + 1..]);
  }

  /** A NumberString passes the filter unchanged. */
  lemma NumberStringIsFixedPoint(s: seq<char>, sep: NonDigit)
    requires IsNumberString(s, sep)
    ensures Filter(s, sep) == s
  {
    if sep in s {
      var k := FirstIndex(s, sep);
      var whole, fraction := s[..k], s[k + 1..];
      NumberStringParts(s, sep);
      DigitsOfAllDigits(whole);
      DigitsAfterSeparator(s, k, sep);
      DigitsOfAllDigits(fraction);
      SplitAt(s, k);
    } else {
      NumberStringWithoutSeparator(s, sep);
      DigitsOfAllDigits(s);
    }
  }

  /** Filtering twice is filtering once. */
  lemma FilterIdempotent(s: seq<char>, sep: NonDigit)
    ensures Filter(Filter(s, sep), sep) == Filter(s, sep)
  {
    NumberStringIsFixedPoint(Filter(s, sep), sep);
  }
}
