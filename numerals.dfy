/**
 * Digit characters and the values of digit strings. Hex and decimal strings
 * in the core (hex payloads, addresses, decimal nonces and amounts) are all
 * read through these definitions, so that the codec and the parsers can be
 * stated against one reference: the number a digit string denotes.
 */
module Numerals {

  /** The two radices the core parses: decimal amounts and hex payloads. */
  datatype Base = Decimal | Hexadecimal

  function Radix(b: Base): nat
  {
    match b
    case Decimal => 10
    case Hexadecimal => 16
  }

  /**
   * The big-endian value of a digit sequence in the given base, built the
   * way a left-to-right reader builds it: the value of all but the last
   * digit, times the base, plus the last digit.
   */
  function ValueOf(ds: seq<int>, base: nat): int
  {
    if ds == [] then 0 else ValueOf(ds[..|ds| - 1], base) * base + ds[|ds| - 1]
  }

  predicate IsDecimalDigit(c: char)
  {
    '0' <= c <= '9'
  }

  /** A digit accepted by Go's hex decoder: either case. */
  predicate IsHexDigit(c: char)
  {
    IsDecimalDigit(c) || 'a' <= c <= 'f' || 'A' <= c <= 'F'
  }

  /** A digit as Go's hex encoder writes it: lower case only. */
  predicate IsLowerHexDigit(c: char)
  {
    IsDecimalDigit(c) || 'a' <= c <= 'f'
  }

  predicate IsDigit(c: char, b: Base)
    ensures IsDigit(c, b) ==> IsHexDigit(c)
  {
    match b
    case Decimal => IsDecimalDigit(c)
    case Hexadecimal => IsHexDigit(c)
  }

  predicate AllDigits(s: string, b: Base)
  {
    forall i :: 0 <= i < |s| ==> IsDigit(s[i], b)
  }

  function DigitValue(c: char): (v: nat)
    requires IsHexDigit(c)
    ensures v < 16
    ensures IsDecimalDigit(c) ==> v < 10
  {
    if IsDecimalDigit(c) then c as int - '0' as int
    else if 'a' <= c <= 'f' then c as int - 'a' as int + 10
    else c as int - 'A' as int + 10
  }

  /** The lower-case digit for a value below 16. */
  function LowerHexDigit(v: nat): (c: char)
    requires v < 16
    ensures IsLowerHexDigit(c) && IsHexDigit(c) && DigitValue(c) == v
    ensures IsDecimalDigit(c) <==> v < 10
  {
    if v < 10 then ('0' as int + v) as char else ('a' as int + v - 10) as char
  }

  function DigitValues(s: string, b: Base): (ds: seq<int>)
    requires AllDigits(s, b)
    ensures |ds| == |s|
    ensures forall i :: 0 <= i < |s| ==> ds[i] == DigitValue(s[i])
  {
    seq(|s|, i requires 0 <= i < |s| => DigitValue(s[i]))
  }

  /** The number a digit string denotes in base b. */
  function Numeral(s: string, b: Base): int
    requires AllDigits(s, b)
  {
    ValueOf(DigitValues(s, b), Radix(b))
  }

  /** One more digit on the right: the value so far, shifted by one place. */
  lemma ValueOfAppend(ds: seq<int>, x: int, base: nat)
    ensures ValueOf(ds + [x], base) == ValueOf(ds, base) * base + x
  {
    assert (ds + [x])[..|ds|] == ds;
  }

  lemma NumeralSnoc(s: string, c: char, b: Base)
    requires AllDigits(s, b) && IsDigit(c, b)
    ensures AllDigits(s + [c], b)
    ensures Numeral(s + [c], b) == Numeral(s, b) * Radix(b) + DigitValue(c)
  {
    assert AllDigits(s + [c], b) by {
      forall i | 0 <= i < |s| + 1 ensures IsDigit((s + [c])[i], b) {
        if i < |s| { assert (s + [c])[i] == s[i]; }
      }
    }
    assert DigitValues(s + [c], b) == DigitValues(s, b) + [DigitValue(c)];
    ValueOfAppend(DigitValues(s, b), DigitValue(c), Radix(b));
  }

  /** A prefix of a digit string is a digit string. */
  lemma AllDigitsPrefix(s: string, k: nat, b: Base)
    requires k <= |s|
    ensures AllDigits(s, b) ==> AllDigits(s[..k], b)
  {
    if AllDigits(s, b) {
      forall i | 0 <= i < k ensures IsDigit(s[..k][i], b) { assert s[..k][i] == s[i]; }
    }
  }

  /** The digits of a prefix, and their value: the first k digits. */
  lemma NumeralPrefix(s: string, k: nat, b: Base)
    requires AllDigits(s, b) && k < |s|
    ensures AllDigits(s[..k], b)
    ensures Numeral(s[..k + 1], b) == Numeral(s[..k], b) * Radix(b) + DigitValue(s[k])
  {
    assert s[..k + 1] == s[..k] + [s[k]];
    NumeralSnoc(s[..k], s[k], b);
  }

  /** A leading zero digit does not change the value. */
  lemma {:induction false} NumeralLeadingZero(s: string, b: Base)
    requires AllDigits(s, b)
    ensures AllDigits("0" + s, b)
    ensures Numeral("0" + s, b) == Numeral(s, b)
  {
    assert AllDigits("0" + s, b) by {
      forall i | 0 <= i < |s| + 1 ensures IsDigit(("0" + s)[i], b) {
        if i > 0 { assert ("0" + s)[i] == s[i - 1]; }
      }
    }
    if s == [] {
      assert DigitValues("0", b) == [0];
      assert ValueOf([0], Radix(b)) == ValueOf([], Radix(b)) * Radix(b) + 0;
    } else {
      var front, last := s[..|s| - 1], s[|s| - 1];
      assert AllDigits(front, b) by {
        forall i | 0 <= i < |front| ensures IsDigit(front[i], b) { assert front[i] == s[i]; }
      }
      NumeralLeadingZero(front, b);
      assert "0" + s == ("0" + front) + [last];
      assert s == front + [last];
      NumeralSnoc("0" + front, last, b);
      NumeralSnoc(front, last, b);
    }
  }

  /** Digit strings denote non-negative numbers. */
  lemma {:induction false} ValueOfNonNegative(ds: seq<int>, base: nat)
    requires forall i :: 0 <= i < |ds| ==> ds[i] >= 0
    ensures ValueOf(ds, base) >= 0
  {
    if ds != [] {
      ValueOfNonNegative(ds[..|ds| - 1], base);
      NonNegativeProduct(ValueOf(ds[..|ds| - 1], base), base);
    }
  }

  lemma NonNegativeProduct(x: int, y: nat)
    requires x >= 0
    ensures x * y >= 0
  {
  }

  lemma NumeralNonNegative(s: string, b: Base)
    requires AllDigits(s, b)
    ensures Numeral(s, b) >= 0
  {
    ValueOfNonNegative(DigitValues(s, b), Radix(b));
  }
}
