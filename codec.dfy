/**
 * The hex codec of chain/util/codec.go, together with the two routines of
 * Go's encoding/hex package it wraps and Go's string-to-bytes conversion.
 *
 * A hex string is read through Numerals: decoding is specified by "the bytes,
 * read big-endian, denote the number the hex digits denote", and by the
 * number of bytes; together these fix the bytes completely.
 */
module Codec {
  import opened Wrappers
  import opened Numerals

  type byte = x: int | 0 <= x < 256

  /** hex.DecodeString met a character that is not a hex digit. */
  datatype CodecError = InvalidHex

  /** strings.TrimPrefix: removes one leading occurrence of the prefix, if any. */
  function TrimPrefix(s: string, prefix: string): (r: string)
    ensures prefix <= s ==> prefix + r == s
    ensures !(prefix <= s) ==> r == s
  {
    if prefix <= s then s[|prefix|..] else s
  }

  /** One leading "0x" is removed. */
  lemma TrimHexPrefix(t: string)
    ensures TrimPrefix("0x" + t, "0x") == t
  {
    assert ("0x" + t)[2..] == t;
  }

  /** What hex.DecodeString returns: the bytes of the pairs decoded before
      the first bad pair, and whether no bad pair was met. */
  datatype Decoded = Decoded(bytes: seq<byte>, ok: bool)

  /**
   * hex.DecodeString on an even-length string. It decodes pairs from the
   * left and stops at the first pair holding a non-hex character; the bytes
   * decoded so far are returned with the error.
   */
  function DecodeString(d: string): (r: Decoded)
    requires |d| % 2 == 0
    ensures 2 * |r.bytes| <= |d|
    ensures AllDigits(d[..2 * |r.bytes|], Hexadecimal)
    ensures ValueOf(r.bytes, 256) == Numeral(d[..2 * |r.bytes|], Hexadecimal)
    ensures r.ok <==> AllDigits(d, Hexadecimal)
    ensures r.ok ==> 2 * |r.bytes| == |d|
    ensures !r.ok ==> !(IsHexDigit(d[2 * |r.bytes|]) && IsHexDigit(d[2 * |r.bytes| + 1]))
  {
    var k := LeadingPairs(d);
    LeadingPairsAll(d);
    Decoded(DecodePairs(d[..2 * k]), 2 * k == |d|)
  }

  /** Every pair is a pair of hex digits exactly when the string is all hex digits. */
  lemma LeadingPairsAll(d: string)
    requires |d| % 2 == 0
    ensures 2 * LeadingPairs(d) == |d| <==> AllDigits(d, Hexadecimal)
  {
    var k := LeadingPairs(d);
    if 2 * k == |d| {
      assert d[..2 * k] == d;
    } else {
      assert !IsDigit(d[2 * k], Hexadecimal) || !IsDigit(d[2 * k + 1], Hexadecimal);
    }
  }

  /** The number of pairs of hex digits before the first pair that is not. */
  function LeadingPairs(d: string): (k: nat)
    requires |d| % 2 == 0
    ensures 2 * k <= |d|
    ensures AllDigits(d[..2 * k], Hexadecimal)
    ensures 2 * k < |d| ==> !(IsHexDigit(d[2 * k]) && IsHexDigit(d[2 * k + 1]))
    decreases |d|
  {
    if d == [] || !(IsHexDigit(d[0]) && IsHexDigit(d[1])) then 0
    else
      var k := 1 + LeadingPairs(d[2..]);
      PairThenDigits(d, 2 * k);
      k
  }

  lemma PairThenDigits(d: string, n: nat)
    requires 2 <= n <= |d| && IsHexDigit(d[0]) && IsHexDigit(d[1])
    requires AllDigits(d[2..][..n - 2], Hexadecimal)
    ensures AllDigits(d[..n], Hexadecimal)
  {
    forall i | 0 <= i < n ensures IsDigit(d[..n][i], Hexadecimal) {
      if i >= 2 { assert d[..n][i] == d[2..][..n - 2][i - 2]; }
    }
  }

  /** The bytes of a string of hex digits, two digits per byte. */
  function DecodePairs(d: string): (r: seq<byte>)
    requires |d| % 2 == 0 && AllDigits(d, Hexadecimal)
    ensures 2 * |r| == |d|
    ensures ValueOf(r, 256) == Numeral(d, Hexadecimal)
    decreases |d|
  {
    if d == [] then []
    else
      var n := |d| - 2;
      AllDigitsPrefix(d, n, Hexadecimal);
      var front := DecodePairs(d[..n]);
      DecodeLastPair(d, front);
      front + [16 * DigitValue(d[n]) + DigitValue(d[n + 1])]
  }

  /** The step of DecodePairs: one more pair after a decoded prefix. */
  lemma DecodeLastPair(d: string, front: seq<byte>)
    requires |d| >= 2 && 2 * |front| == |d| - 2 && AllDigits(d, Hexadecimal)
    requires ValueOf(front, 256) == Numeral(d[..|d| - 2], Hexadecimal)
    ensures ValueOf(front + [16 * DigitValue(d[|d| - 2]) + DigitValue(d[|d| - 1])], 256)
         == Numeral(d, Hexadecimal)
  {
    var n := |d| - 2;
    NumeralPrefix(d, n, Hexadecimal);
    NumeralPrefix(d, n + 1, Hexadecimal);
    assert d[..n + 2] == d;
    ValueOfAppend(front, 16 * DigitValue(d[n]) + DigitValue(d[n + 1]), 256);
  }

  /** hex.EncodeToString: two lower-case digits per byte, high nibble first. */
  function EncodeToString(b: seq<byte>): (r: string)
    ensures |r| == 2 * |b|
    ensures forall i :: 0 <= i < |r| ==> IsLowerHexDigit(r[i])
    ensures AllDigits(r, Hexadecimal) && Numeral(r, Hexadecimal) == ValueOf(b, 256)
  {
    if b == [] then ""
    else
      var front := EncodeToString(b[..|b| - 1]);
      var x := b[|b| - 1];
      EncodeLastByte(front, b[..|b| - 1], x);
      assert b[..|b| - 1] + [x] == b;
      front + [LowerHexDigit(x / 16), LowerHexDigit(x % 16)]
  }

  /** The step of EncodeToString: the digits of one more byte. */
  lemma EncodeLastByte(front: string, bs: seq<byte>, x: byte)
    requires AllDigits(front, Hexadecimal) && Numeral(front, Hexadecimal) == ValueOf(bs, 256)
    ensures AllDigits(front + [LowerHexDigit(x / 16), LowerHexDigit(x % 16)], Hexadecimal)
    ensures Numeral(front + [LowerHexDigit(x / 16), LowerHexDigit(x % 16)], Hexadecimal)
         == ValueOf(bs + [x], 256)
  {
    var hi, lo := LowerHexDigit(x / 16), LowerHexDigit(x % 16);
    NumeralSnoc(front, hi, Hexadecimal);
    NumeralSnoc(front + [hi], lo, Hexadecimal);
    assert front + [hi] + [lo] == front + [hi, lo];
    ValueOfAppend(bs, x, 256);
  }

  /** HexDecodeString (chain/util/codec.go): drop one lower-case "0x",
      left-pad an odd digit count with '0', decode; no bytes on failure. */
  function HexDecodeString(s: string): (r: Result<seq<byte>, CodecError>)
    ensures r.Success? <==> AllDigits(TrimPrefix(s, "0x"), Hexadecimal)
    ensures r.Success? ==> |r.value| == (|TrimPrefix(s, "0x")| + 1) / 2
    ensures r.Success? ==> ValueOf(r.value, 256) == Numeral(TrimPrefix(s, "0x"), Hexadecimal)
  {
    var t := TrimPrefix(s, "0x");
    var padded := if |t| % 2 != 0 then "0" + t else t;
    var d := DecodeString(padded);
    PaddingKeepsDigits(t);
    if d.ok then
      assert padded[..2 * |d.bytes|] == padded;
      Success(d.bytes)
    else
      Failure(InvalidHex)
  }

  lemma PaddingKeepsDigits(t: string)
    ensures AllDigits(if |t| % 2 != 0 then "0" + t else t, Hexadecimal) <==> AllDigits(t, Hexadecimal)
    ensures AllDigits(t, Hexadecimal) && |t| % 2 != 0 ==> Numeral("0" + t, Hexadecimal) == Numeral(t, Hexadecimal)
  {
    if |t| % 2 != 0 {
      if AllDigits(t, Hexadecimal) {
        NumeralLeadingZero(t, Hexadecimal);
      }
      if AllDigits("0" + t, Hexadecimal) {
        forall i | 0 <= i < |t| ensures IsDigit(t[i], Hexadecimal) {
          assert ("0" + t)[i + 1] == t[i];
        }
      }
    }
  }

  /** HexEncodeToString (chain/util/codec.go): "0x" and the lower-case digits. */
  function HexEncodeToString(b: seq<byte>): (r: string)
    ensures |r| == 2 + 2 * |b| && r[..2] == "0x"
    ensures forall i :: 2 <= i < |r| ==> IsLowerHexDigit(r[i])
    ensures AllDigits(r[2..], Hexadecimal) && Numeral(r[2..], Hexadecimal) == ValueOf(b, 256)
  {
    var digits := EncodeToString(b);
    assert ("0x" + digits)[2..] == digits;
    "0x" + digits
  }

  /** Equal-length byte sequences that denote the same number are equal. */
  lemma {:induction false} ValueOfInjective(a: seq<byte>, c: seq<byte>)
    requires |a| == |c| && ValueOf(a, 256) == ValueOf(c, 256)
    ensures a == c
  {
    if a != [] {
      var n := |a| - 1;
      assert ValueOf(a, 256) == ValueOf(a[..n], 256) * 256 + a[n];
      assert ValueOf(c, 256) == ValueOf(c[..n], 256) * 256 + c[n];
      ValueOfInjective(a[..n], c[..n]);
      assert a == a[..n] + [a[n]] && c == c[..n] + [c[n]];
    }
  }

  /** Equal-length lower-case hex strings that denote the same number are equal. */
  lemma {:induction false} LowerNumeralInjective(s: string, t: string)
    requires forall i :: 0 <= i < |s| ==> IsLowerHexDigit(s[i])
    requires forall i :: 0 <= i < |t| ==> IsLowerHexDigit(t[i])
    requires AllDigits(s, Hexadecimal) && AllDigits(t, Hexadecimal)
    requires |s| == |t| && Numeral(s, Hexadecimal) == Numeral(t, Hexadecimal)
    ensures s == t
  {
    if s != [] {
      var n := |s| - 1;
      assert s[..n] + [s[n]] == s && t[..n] + [t[n]] == t;
      assert forall i :: 0 <= i < n ==> s[..n][i] == s[i] && t[..n][i] == t[i];
      NumeralSnoc(s[..n], s[n], Hexadecimal);
      NumeralSnoc(t[..n], t[n], Hexadecimal);
      LowerNumeralInjective(s[..n], t[..n]);
      LowerDigitUnique(s[n]);
      LowerDigitUnique(t[n]);
    }
  }

  lemma DecodeEncode(b: seq<byte>)
    ensures DecodeString(EncodeToString(b)) == Decoded(b, true)
  {
    var e := EncodeToString(b);
    var r := DecodeString(e);
    assert e[..2 * |r.bytes|] == e;
    ValueOfInjective(r.bytes, b);
  }

  /** Decoding undoes encoding, for every byte sequence including the empty one. */
  lemma HexRoundTrip(b: seq<byte>)
    ensures HexDecodeString(HexEncodeToString(b)) == Success(b)
  {
    var e := EncodeToString(b);
    assert HexEncodeToString(b) == "0x" + e;
    TrimHexPrefix(e);
    var r := HexDecodeString("0x" + e);
    ValueOfInjective(r.value, b);
  }

  lemma EncodeDecode(d: string)
    requires |d| % 2 == 0
    requires forall i :: 0 <= i < |d| ==> IsLowerHexDigit(d[i])
    ensures DecodeString(d).ok && EncodeToString(DecodeString(d).bytes) == d
  {
    var r := DecodeString(d);
    assert r.ok;
    assert d[..2 * |r.bytes|] == d;
    LowerNumeralInjective(EncodeToString(r.bytes), d);
  }

  lemma LowerDigitUnique(c: char)
    requires IsLowerHexDigit(c)
    ensures LowerHexDigit(DigitValue(c)) == c
  {
  }

  /** Encoding undoes decoding exactly on the canonical form: "0x" followed
      by an even number of lower-case digits. */
  lemma HexCanonicalRoundTrip(d: string)
    requires |d| % 2 == 0
    requires forall i :: 0 <= i < |d| ==> IsLowerHexDigit(d[i])
    ensures HexDecodeString("0x" + d).Success?
    ensures HexEncodeToString(HexDecodeString("0x" + d).value) == "0x" + d
  {
    TrimHexPrefix(d);
    EncodeDecode(d);
  }

  /** An odd digit count is read with a leading zero digit added. */
  lemma OddLengthPadded(t: string)
    requires |t| % 2 == 1
    ensures HexDecodeString("0x" + t) == HexDecodeString("0x" + ("0" + t))
  {
    TrimHexPrefix(t);
    TrimHexPrefix("0" + t);
    PaddingKeepsDigits(t);
    var a, b := HexDecodeString("0x" + t), HexDecodeString("0x" + ("0" + t));
    if a.Success? {
      ValueOfInjective(a.value, b.value);
    }
  }

  /** So an odd digit count does not survive a round trip: "0xabc" comes
      back as "0x0abc". */
  lemma OddLengthReencoded(t: string)
    requires |t| % 2 == 1
    requires forall i :: 0 <= i < |t| ==> IsLowerHexDigit(t[i])
    ensures HexDecodeString("0x" + t).Success?
    ensures HexEncodeToString(HexDecodeString("0x" + t).value) == "0x" + ("0" + t)
  {
    var u := "0" + t;
    ZeroThenLower(t);
    TrimHexPrefix(t);
    NumeralLeadingZero(t, Hexadecimal);
    var v := HexDecodeString("0x" + t).value;
    var e := EncodeToString(v);
    assert HexEncodeToString(v) == "0x" + e;
    LowerNumeralInjective(e, u);
  }

  lemma ZeroThenLower(t: string)
    requires forall i :: 0 <= i < |t| ==> IsLowerHexDigit(t[i])
    ensures forall i :: 0 <= i < |"0" + t| ==> IsLowerHexDigit(("0" + t)[i])
  {
    forall i | 0 <= i < |t| + 1 ensures IsLowerHexDigit(("0" + t)[i]) {
      if i > 0 { assert ("0" + t)[i] == t[i - 1]; }
    }
  }

  /** Only one "0x" is removed: a second one makes decoding fail. */
  lemma PrefixRemovedOnce(t: string)
    ensures HexDecodeString("0x0x" + t).Failure?
  {
    var s := "0x0x" + t;
    TrimHexPrefix("0x" + t);
    assert s == "0x" + ("0x" + t);
    assert !AllDigits("0x" + t, Hexadecimal) by { assert ("0x" + t)[1] == 'x'; }
  }

  /** The prefix is removed only in lower case: "0X" makes decoding fail. */
  lemma UpperCasePrefixKept(t: string)
    ensures HexDecodeString("0X" + t).Failure?
  {
    var s := "0X" + t;
    assert TrimPrefix(s, "0x") == s by { assert s[1] == 'X'; }
    assert !AllDigits(s, Hexadecimal) by { assert s[1] == 'X'; }
  }

  /** The UTF-8 encoding of one character (Go's []byte conversion of a rune). */
  function EncodeRune(c: char): (r: seq<byte>)
    ensures |r| == if c as int < 0x80 then 1 else if c as int < 0x800 then 2
                   else if c as int < 0x10000 then 3 else 4
    ensures |r| == 1 ==> r[0] < 0x80
    ensures |r| == 2 ==> 0xC0 <= r[0] < 0xE0
    ensures |r| == 3 ==> 0xE0 <= r[0] < 0xF0
    ensures |r| == 4 ==> 0xF0 <= r[0] < 0xF8
    ensures forall i :: 1 <= i < |r| ==> 0x80 <= r[i] < 0xC0
    ensures RuneValue(r) == c as int
  {
    var cp := c as int;
    if cp < 0x80 then [cp]
    else if cp < 0x800 then EncodeTwo(cp)
    else if cp < 0x10000 then EncodeThree(cp)
    else EncodeFour(cp)
  }

  function EncodeTwo(cp: int): (r: seq<byte>)
    requires 0x80 <= cp < 0x800
    ensures |r| == 2 && 0xC0 <= r[0] < 0xE0 && 0x80 <= r[1] < 0xC0
    ensures RuneValue(r) == cp
  {
    [0xC0 + cp / 64, 0x80 + cp % 64]
  }

  function EncodeThree(cp: int): (r: seq<byte>)
    requires 0x800 <= cp < 0x10000
    ensures |r| == 3 && 0xE0 <= r[0] < 0xF0 && 0x80 <= r[1] < 0xC0 && 0x80 <= r[2] < 0xC0
    ensures RuneValue(r) == cp
  {
    var q1 := cp / 64;
    var q2 := q1 / 64;
    [0xE0 + q2, 0x80 + q1 % 64, 0x80 + cp % 64]
  }

  function EncodeFour(cp: int): (r: seq<byte>)
    requires 0x10000 <= cp < 0x110000
    ensures |r| == 4 && 0xF0 <= r[0] < 0xF8 && 0x80 <= r[1] < 0xC0 && 0x80 <= r[2] < 0xC0 && 0x80 <= r[3] < 0xC0
    ensures RuneValue(r) == cp
  {
    var q1 := cp / 64;
    var q2 := q1 / 64;
    var q3 := q2 / 64;
    [0xF0 + q3, 0x80 + q2 % 64, 0x80 + q1 % 64, 0x80 + cp % 64]
  }

  /** The code point a 1 to 4 byte UTF-8 sequence carries: six payload bits
      per continuation byte, the rest in the lead byte. */
  function RuneValue(r: seq<byte>): int
    requires 1 <= |r| <= 4
  {
    if |r| == 1 then r[0] as int
    else if |r| == 2 then (r[0] as int - 0xC0) * 64 + (r[1] as int - 0x80)
    else if |r| == 3 then ((r[0] as int - 0xE0) * 64 + (r[1] as int - 0x80)) * 64 + (r[2] as int - 0x80)
    else (((r[0] as int - 0xF0) * 64 + (r[1] as int - 0x80)) * 64 + (r[2] as int - 0x80)) * 64 + (r[3] as int - 0x80)
  }

  /** []byte(s): the UTF-8 bytes of a string. */
  function Utf8(s: string): (r: seq<byte>)
    ensures |s| <= |r| <= 4 * |s|
  {
    if s == [] then [] else EncodeRune(s[0]) + Utf8(s[1..])
  }

  /** An ASCII string is encoded one byte per character, each byte its code. */
  lemma {:induction false} AsciiUtf8(s: string)
    requires forall i :: 0 <= i < |s| ==> s[i] as int < 0x80
    ensures |Utf8(s)| == |s| && forall i :: 0 <= i < |s| ==> Utf8(s)[i] == s[i] as int
  {
    if s != [] {
      assert forall i :: 0 <= i < |s| - 1 ==> s[1..][i] as int < 0x80;
      AsciiUtf8(s[1..]);
      assert Utf8(s) == [s[0] as int] + Utf8(s[1..]);
    }
  }

  /** TextToHex (chain/util/codec.go): the hex form of the string's bytes. */
  function TextToHex(s: string): (r: string)
    ensures r == HexEncodeToString(Utf8(s))
    ensures |s| * 2 + 2 <= |r| <= |s| * 8 + 2
  {
    "0x" + EncodeToString(Utf8(s))
  }

  /** The hex text of a string decodes back to the string's bytes. */
  lemma TextToHexDecodes(s: string)
    ensures HexDecodeString(TextToHex(s)) == Success(Utf8(s))
  {
    HexRoundTrip(Utf8(s));
  }
}
