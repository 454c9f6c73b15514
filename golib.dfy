/**
 * Models of the library routines the core calls but does not define:
 * strconv.ParseUint and strconv.FormatUint, big.Int's SetString and Int64,
 * go-ethereum's common.IsHexAddress and common.HexToAddress, and the
 * repository's util.IsValidAddress, whose source is not part of this model.
 * Each definition below is an ASSUMPTION about that routine, written from its
 * documented behaviour; the core's own logic is stated on top of them.
 */
module GoLib {
  import opened Wrappers
  import opened Numerals
  import opened Codec

  const TWO_63: int := 0x8000_0000_0000_0000
  const TWO_64: int := 0x1_0000_0000_0000_0000

  type Uint64 = x: int | 0 <= x < 0x1_0000_0000_0000_0000

  const MAX_UINT64: Uint64 := 0xFFFF_FFFF_FFFF_FFFF

  /** strconv's two error kinds: a character that is not a digit, or a value out of range. */
  datatype NumError = ErrSyntax | ErrRange

  /**
   * Assumption: strconv.ParseUint(s, 10, 64). No sign and no underscore is
   * accepted; the empty string is a syntax error. Digits are consumed from
   * the left, and at each one a non-digit is a syntax error and a value past
   * 2^64 - 1 a range error, whichever comes first.
   */
  function ParseUint64(s: string): (r: Result<Uint64, NumError>)
    ensures r.Success? <==> s != "" && AllDigits(s, Decimal) && Numeral(s, Decimal) < TWO_64
    ensures r.Success? ==> r.value == Numeral(s, Decimal)
    ensures s != "" && AllDigits(s, Decimal) && Numeral(s, Decimal) >= TWO_64 ==> r == Failure(ErrRange)
    ensures s == "" || !AllDigits(s, Decimal) ==> r.Failure?
    ensures s == "" ==> r == Failure(ErrSyntax)
    ensures forall j :: 0 <= j < |s| && !IsDecimalDigit(s[j]) && AllDigits(s[..j], Decimal) && Numeral(s[..j], Decimal) < TWO_64
              ==> r == Failure(ErrSyntax)
    ensures forall j :: 0 <= j <= |s| && AllDigits(s[..j], Decimal) && Numeral(s[..j], Decimal) >= TWO_64
              ==> r == Failure(ErrRange)
  {
    if s == "" then Failure(ErrSyntax)
    else
      ScanFromStart(s);
      ScanStopsEarly(s);
      ScanDecimal(s, 0, 0)
  }

  /** The digit loop of ParseUint from position i, with the value read so far. */
  function ScanDecimal(s: string, i: nat, acc: Uint64): Result<Uint64, NumError>
    requires i <= |s|
    decreases |s| - i
  {
    if i == |s| then Success(acc)
    else if !IsDecimalDigit(s[i]) then Failure(ErrSyntax)
    else
      var n := acc * 10 + DigitValue(s[i]);
      if n >= TWO_64 then Failure(ErrRange) else ScanDecimal(s, i + 1, n)
  }

  /** Assumption: the number strconv.ParseUint returns beside its error:
      0 on a syntax error, 2^64 - 1 on a range error. */
  function ParseUintValue(s: string): (v: Uint64)
    ensures s == "" ==> v == 0
    ensures s != "" && AllDigits(s, Decimal) ==>
              v == if Numeral(s, Decimal) < TWO_64 then Numeral(s, Decimal) else MAX_UINT64
    ensures ParseUint64(s) == Failure(ErrSyntax) ==> v == 0
    ensures ParseUint64(s) == Failure(ErrRange) ==> v == MAX_UINT64
  {
    match ParseUint64(s)
    case Success(v) => v
    case Failure(ErrSyntax) => 0
    case Failure(ErrRange) => MAX_UINT64
  }

  /** On a decimal string, the loop ends with the value, or with a range
      error when the value does not fit. */
  lemma {:induction false} ScanDecimalValue(s: string, i: nat, acc: Uint64)
    requires i <= |s| && AllDigits(s, Decimal) && AllDigits(s[..i], Decimal)
    requires acc == Numeral(s[..i], Decimal)
    ensures ScanDecimal(s, i, acc) ==
              if Numeral(s, Decimal) < TWO_64 then Success(Numeral(s, Decimal)) else Failure(ErrRange)
    decreases |s| - i
  {
    if i == |s| {
      assert s[..i] == s;
    } else {
      NumeralPrefix(s, i, Decimal);
      var n := acc * 10 + DigitValue(s[i]);
      if n >= TWO_64 {
        DecimalPrefixBound(s, i + 1);
      } else {
        AllDigitsPrefix(s, i + 1, Decimal);
        ScanDecimalValue(s, i + 1, n);
      }
    }
  }

  /** A prefix of a decimal string denotes no more than the whole string. */
  lemma {:induction false} DecimalPrefixBound(s: string, k: nat)
    requires AllDigits(s, Decimal) && k <= |s|
    ensures AllDigits(s[..k], Decimal)
    ensures Numeral(s[..k], Decimal) <= Numeral(s, Decimal)
    decreases |s| - k
  {
    AllDigitsPrefix(s, k, Decimal);
    if k == |s| {
      assert s[..k] == s;
    } else {
      DecimalPrefixBound(s, k + 1);
      NumeralPrefix(s, k, Decimal);
      NumeralNonNegative(s[..k], Decimal);
    }
  }

  /** A non-digit ahead makes the loop fail, with one error or the other. */
  lemma {:induction false} ScanDecimalRejects(s: string, i: nat, acc: Uint64, j: nat)
    requires i <= j < |s| && !IsDecimalDigit(s[j])
    ensures ScanDecimal(s, i, acc).Failure?
    decreases |s| - i
  {
    if i < j && IsDecimalDigit(s[i]) {
      var n := acc * 10 + DigitValue(s[i]);
      if n < TWO_64 {
        ScanDecimalRejects(s, i + 1, n, j);
      }
    }
  }

  /** A non-digit met while the value read so far still fits is a syntax error. */
  lemma {:induction false} ScanDecimalSyntax(s: string, i: nat, acc: Uint64, j: nat)
    requires i <= j < |s| && !IsDecimalDigit(s[j])
    requires AllDigits(s[..j], Decimal) && Numeral(s[..j], Decimal) < TWO_64
    requires acc == Numeral(s[..j][..i], Decimal)
    ensures ScanDecimal(s, i, acc) == Failure(ErrSyntax)
    decreases |s| - i
  {
    var t := s[..j];
    if i < j {
      assert s[i] == t[i];
      NumeralPrefix(t, i, Decimal);
      DecimalPrefixBound(t, i + 1);
      ScanDecimalSyntax(s, i + 1, acc * 10 + DigitValue(s[i]), j);
    }
  }

  /** A digit prefix whose value does not fit ends the loop with a range
      error before anything after it is looked at. */
  lemma {:induction false} ScanDecimalRange(s: string, i: nat, acc: Uint64, j: nat)
    requires i < j <= |s|
    requires AllDigits(s[..j], Decimal) && Numeral(s[..j], Decimal) >= TWO_64
    requires acc == Numeral(s[..j][..i], Decimal)
    ensures ScanDecimal(s, i, acc) == Failure(ErrRange)
    decreases |s| - i
  {
    var t := s[..j];
    assert s[i] == t[i];
    NumeralPrefix(t, i, Decimal);
    var n := acc * 10 + DigitValue(s[i]);
    if n < TWO_64 {
      assert t[..|t|] == t;
      assert i + 1 < j;
      ScanDecimalRange(s, i + 1, n, j);
    }
  }

  /** The loop from the start, on the two ways of stopping before the end. */
  lemma ScanStopsEarly(s: string)
    requires s != ""
    ensures forall j :: 0 <= j < |s| && !IsDecimalDigit(s[j]) && AllDigits(s[..j], Decimal) && Numeral(s[..j], Decimal) < TWO_64
              ==> ScanDecimal(s, 0, 0) == Failure(ErrSyntax)
    ensures forall j :: 0 <= j <= |s| && AllDigits(s[..j], Decimal) && Numeral(s[..j], Decimal) >= TWO_64
              ==> ScanDecimal(s, 0, 0) == Failure(ErrRange)
  {
    forall j | 0 <= j < |s| && !IsDecimalDigit(s[j]) && AllDigits(s[..j], Decimal) && Numeral(s[..j], Decimal) < TWO_64
      ensures ScanDecimal(s, 0, 0) == Failure(ErrSyntax)
    {
      assert s[..j][..0] == [];
      assert DigitValues(s[..j][..0], Decimal) == [];
      ScanDecimalSyntax(s, 0, 0, j);
    }
    forall j | 0 <= j <= |s| && AllDigits(s[..j], Decimal) && Numeral(s[..j], Decimal) >= TWO_64
      ensures ScanDecimal(s, 0, 0) == Failure(ErrRange)
    {
      assert s[..j][..0] == [];
      assert DigitValues(s[..j][..0], Decimal) == [];
      assert j != 0 by { assert DigitValues(s[..0], Decimal) == []; }
      ScanDecimalRange(s, 0, 0, j);
    }
  }

  /** The digit loop run over a whole non-empty string accepts exactly the
      decimal strings whose value fits in 64 unsigned bits, and returns that
      value; a decimal string that does not fit is a range error. */
  lemma ScanFromStart(s: string)
    requires s != ""
    ensures ScanDecimal(s, 0, 0).Success? <==> AllDigits(s, Decimal) && Numeral(s, Decimal) < TWO_64
    ensures ScanDecimal(s, 0, 0).Success? ==> ScanDecimal(s, 0, 0).value == Numeral(s, Decimal)
    ensures AllDigits(s, Decimal) && Numeral(s, Decimal) >= TWO_64 ==> ScanDecimal(s, 0, 0) == Failure(ErrRange)
  {
    if AllDigits(s, Decimal) {
      assert s[..0] == [];
      assert DigitValues(s[..0], Decimal) == [];
      ScanDecimalValue(s, 0, 0);
    } else {
      var j :| 0 <= j < |s| && !IsDigit(s[j], Decimal);
      ScanDecimalRejects(s, 0, 0, j);
    }
  }

  /** Assumption: strconv.FormatUint(n, 10), decimal without leading zeros. */
  function FormatUint(n: nat): (s: string)
    ensures |s| > 0 && AllDigits(s, Decimal) && Numeral(s, Decimal) == n
    ensures s[0] == '0' ==> s == "0"
    decreases n
  {
    if n < 10 then
      var s := [LowerHexDigit(n)];
      assert IsDigit(s[0], Decimal);
      assert DigitValues(s, Decimal) == [n];
      assert [n][..0] == [];
      assert ValueOf([n], 10) == ValueOf([], 10) * 10 + n;
      s
    else
      var prefix := FormatUint(n / 10);
      var last := LowerHexDigit(n % 10);
      NumeralSnoc(prefix, last, Decimal);
      prefix + [last]
  }

  /** Parsing the decimal form of a 64-bit value gives the value back. */
  lemma FormatParseRoundTrip(n: Uint64)
    ensures ParseUint64(FormatUint(n)) == Success(n)
  {
  }

  /**
   * Assumption: big.Int.SetString(s, base) for base 10 or 16: an optional
   * '+' or '-', then at least one digit of the base (either case for hex),
   * and nothing else. None stands for the nil result of a failed parse.
   */
  function ParseBigInt(s: string, b: Base): (r: Option<int>)
    ensures s != "" && AllDigits(s, b) ==> r == Some(Numeral(s, b))
    ensures r.Some? ==> s != ""
    ensures r.Some? && s[0] != '-' ==> r.value >= 0
    ensures s == "+" || s == "-" ==> r.None?
    ensures (exists i :: 0 <= i < |s| && !IsDigit(s[i], b) && !(i == 0 && (s[0] == '+' || s[0] == '-'))) ==> r.None?
    ensures |s| > 1 && (s[0] == '+' || s[0] == '-') && AllDigits(s[1..], b) ==>
              r == Some(if s[0] == '-' then -Numeral(s[1..], b) else Numeral(s[1..], b))
  {
    var digits := if |s| > 0 && (s[0] == '+' || s[0] == '-') then s[1..] else s;
    if digits != "" && AllDigits(digits, b) then
      NumeralNonNegative(digits, b);
      assert AllDigits(s, b) ==> IsDigit(s[0], b);
      Some(if |s| > 0 && s[0] == '-' then -Numeral(digits, b) else Numeral(digits, b))
    else None
  }

  /** The two decimal parsers agree on every string strconv accepts. */
  lemma ParseBigIntExtendsParseUint64(s: string)
    requires ParseUint64(s).Success?
    ensures ParseBigInt(s, Decimal) == Some(ParseUint64(s).value)
  {
    assert s[0] != '+' && s[0] != '-' by { assert IsDigit(s[0], Decimal); }
  }

  /** Two's-complement wrap of an integer into 64 signed bits. */
  function Wrap64(v: int): int
  {
    (v + TWO_63) % TWO_64 - TWO_63
  }

  /**
   * Assumption: big.Int.Int64(): the low 64 bits of the magnitude, negated
   * for a negative number, read as a signed 64-bit integer. Go documents the
   * result as undefined outside the int64 range; this is what it computes.
   */
  function BigInt64(x: int): (r: int)
    ensures -TWO_63 <= r < TWO_63
  {
    var low := (if x < 0 then -x else x) % TWO_64;
    Wrap64(if x < 0 then -low else low)
  }

  /** Int64() is zero exactly for the multiples of 2^64, not only for zero. */
  lemma BigInt64Zero(x: int)
    ensures BigInt64(x) == 0 <==> x % TWO_64 == 0
  {
    var m := if x < 0 then -x else x;
    NegatedMultiple(x);
    Wrap64Zero(if x < 0 then -(m % TWO_64) else m % TWO_64);
  }

  lemma Wrap64Zero(v: int)
    requires -TWO_64 < v < TWO_64
    ensures Wrap64(v) == 0 <==> v == 0
  {
    if 0 < v < TWO_63 {
      assert (v + TWO_63) % TWO_64 == v + TWO_63;
    } else if TWO_63 <= v {
      assert (v + TWO_63) % TWO_64 == v + TWO_63 - TWO_64;
    } else if -TWO_63 <= v < 0 {
      assert (v + TWO_63) % TWO_64 == v + TWO_63;
    } else if v < -TWO_63 {
      assert (v + TWO_63) % TWO_64 == v + TWO_63 + TWO_64;
    }
  }

  lemma NegatedMultiple(x: int)
    ensures x % TWO_64 == 0 <==> (-x) % TWO_64 == 0
  {
    if x % TWO_64 == 0 {
      RemainderUnique(-x, -(x / TWO_64), 0);
    }
    if (-x) % TWO_64 == 0 {
      RemainderUnique(x, -((-x) / TWO_64), 0);
    }
  }

  /** The remainder modulo 2^64 is the unique r in [0, 2^64) with a = q * 2^64 + r. */
  lemma RemainderUnique(a: int, q: int, r: int)
    requires a == q * TWO_64 + r && 0 <= r < TWO_64
    ensures a % TWO_64 == r
  {
  }

  const ADDRESS_LENGTH: nat := 20

  /** A 20-byte account address (go-ethereum's common.Address). */
  type Address = a: seq<byte> | |a| == 20 witness seq(20, _ => 0)

  const ZERO_ADDRESS: Address := seq(20, _ => 0)

  /** A leading "0x" or "0X", as go-ethereum recognises it. */
  predicate Has0xPrefix(s: string)
  {
    |s| >= 2 && s[0] == '0' && (s[1] == 'x' || s[1] == 'X')
  }

  function Without0x(s: string): string
  {
    if Has0xPrefix(s) then s[2..] else s
  }

  /** Assumption: common.IsHexAddress: an optional 0x/0X prefix and exactly
      40 hex digits. Go counts bytes here; a string of hex digits is ASCII,
      so counting characters accepts the same strings. */
  predicate IsHexAddress(s: string)
    ensures IsHexAddress(s) ==> |s| == 40 || (|s| == 42 && Has0xPrefix(s))
  {
    |Without0x(s)| == 2 * ADDRESS_LENGTH && AllDigits(Without0x(s), Hexadecimal)
  }

  /** Assumption: util.IsValidAddress checks the same shape as common.IsHexAddress. */
  predicate IsValidAddress(s: string)
    ensures IsValidAddress(s) ==> |s| == 40 || |s| == 42
  {
    IsHexAddress(s)
  }

  /** A Go string seen byte by byte, one character per byte, as len and
      hex.DecodeString see it. */
  function ByteChars(b: seq<byte>): (r: string)
    ensures |r| == |b| && forall i :: 0 <= i < |b| ==> r[i] as int == b[i]
  {
    seq(|b|, i requires 0 <= i < |b| => b[i] as char)
  }

  /** A string of hex digits is ASCII, so it is its own byte view. */
  lemma HexDigitsByteChars(t: string)
    requires AllDigits(t, Hexadecimal)
    ensures ByteChars(Utf8(t)) == t
  {
    assert forall i :: 0 <= i < |t| ==> IsDigit(t[i], Hexadecimal);
    assert forall i :: 0 <= i < |t| ==> t[i] as int < 0x80;
    AsciiUtf8(t);
  }

  /** Assumption: common.FromHex: strip 0x/0X, left-pad an odd length with
      '0', then Hex2Bytes. The length test and the decoding are over the
      string's UTF-8 bytes. */
  function FromHex(s: string): (r: seq<byte>)
    ensures AllDigits(Without0x(s), Hexadecimal) ==>
              && 2 * |r| == |Without0x(s)| + |Without0x(s)| % 2
              && ValueOf(r, 256) == Numeral(Without0x(s), Hexadecimal)
  {
    var w := Without0x(s);
    var r := Hex2Bytes(PadToEven(ByteChars(Utf8(w))));
    if AllDigits(w, Hexadecimal) then HexDigitsByteChars(w); r else r
  }

  /** FromHex's left pad: one '0' before an odd number of characters. It
      keeps a digit string's value. */
  function PadToEven(t: string): (p: string)
    ensures |p| == |t| + |t| % 2 && |p| % 2 == 0
    ensures p[|p| - |t|..] == t
    ensures forall i :: 0 <= i < |p| - |t| ==> p[i] == '0'
    ensures AllDigits(t, Hexadecimal) ==> AllDigits(p, Hexadecimal) && Numeral(p, Hexadecimal) == Numeral(t, Hexadecimal)
  {
    PaddingKeepsDigits(t);
    if |t| % 2 != 0 then "0" + t else t
  }

  /** The length test counts bytes: two hex digits followed by a two-byte
      character make four bytes, so no '0' is added, and decoding stops after
      the first pair. */
  lemma FromHexCountsBytes(s: string)
    requires |s| == 3 && IsHexDigit(s[0]) && IsHexDigit(s[1]) && 0x80 <= s[2] as int < 0x800
    ensures FromHex(s) == [16 * DigitValue(s[0]) + DigitValue(s[1])]
  {
    FromHexUnprefixed(s);
    TwoDigitsThenTwoBytes(s);
    var t := ByteChars(Utf8(s));
    EvenLengthUnpadded(t);
    StopsAfterFirstPair(t);
  }

  /** An even length needs no pad. */
  lemma EvenLengthUnpadded(t: string)
    requires |t| % 2 == 0
    ensures PadToEven(t) == t
  {
    assert PadToEven(t)[0..] == PadToEven(t);
  }

  /** Without a prefix, FromHex pads and decodes the string's own bytes. */
  lemma FromHexUnprefixed(s: string)
    requires !Has0xPrefix(s)
    ensures FromHex(s) == Hex2Bytes(PadToEven(ByteChars(Utf8(s))))
  {
  }

  lemma TwoDigitsThenTwoBytes(s: string)
    requires |s| == 3 && IsHexDigit(s[0]) && IsHexDigit(s[1]) && 0x80 <= s[2] as int < 0x800
    ensures var t := ByteChars(Utf8(s));
      |t| == 4 && t[0] == s[0] && t[1] == s[1] && !IsHexDigit(t[2])
  {
    var u := s[1..];
    var v := u[1..];
    assert v[1..] == [];
    assert Utf8(v) == EncodeTwo(s[2] as int) + Utf8([]);
    assert Utf8(u) == [s[1] as int] + Utf8(v);
    assert Utf8(s) == [s[0] as int] + Utf8(u);
  }

  lemma StopsAfterFirstPair(t: string)
    requires |t| == 4 && IsHexDigit(t[0]) && IsHexDigit(t[1]) && !IsHexDigit(t[2])
    ensures Hex2Bytes(t) == [16 * DigitValue(t[0]) + DigitValue(t[1])]
  {
    assert t[..|t| - |t| % 2] == t;
    assert t[2..][0] == t[2];
    assert LeadingPairs(t[2..]) == 0;
    assert LeadingPairs(t) == 1;
    var p := t[..2];
    assert p[..0] == [] && p[0] == t[0] && p[1] == t[1];
    assert DecodePairs(p) == DecodePairs([]) + [16 * DigitValue(t[0]) + DigitValue(t[1])];
  }

  /** Assumption: common.Hex2Bytes: hex.DecodeString with the error
      dropped, so the bytes of the pairs decoded before a bad pair, or
      before an odd last character, are kept. */
  function Hex2Bytes(t: string): (r: seq<byte>)
    ensures AllDigits(t, Hexadecimal) && |t| % 2 == 0 ==>
              && 2 * |r| == |t|
              && ValueOf(r, 256) == Numeral(t, Hexadecimal)
    ensures AllDigits(t, Hexadecimal) && |t| % 2 == 1 ==>
              && 2 * |r| == |t| - 1
              && ValueOf(r, 256) == Numeral(t[..|t| - 1], Hexadecimal)
  {
    var pairs := t[..|t| - |t| % 2];
    AllDigitsPrefix(t, |pairs|, Hexadecimal);
    var d := DecodeString(pairs);
    assert d.ok ==> pairs[..2 * |d.bytes|] == pairs;
    assert |t| % 2 == 0 ==> pairs == t;
    d.bytes
  }

  /** Assumption: common.BytesToAddress: keep the last 20 bytes, left-pad with zeros. */
  function BytesToAddress(b: seq<byte>): (r: Address)
    ensures forall k :: 0 <= k < ADDRESS_LENGTH && ADDRESS_LENGTH - |b| <= k ==>
              r[k] == b[|b| - ADDRESS_LENGTH + k]
    ensures forall i :: 0 <= i < ADDRESS_LENGTH - |b| ==> r[i] == 0
    ensures |b| == ADDRESS_LENGTH ==> r == b
  {
    if |b| > ADDRESS_LENGTH then b[|b| - ADDRESS_LENGTH..]
    else
      var r := seq(ADDRESS_LENGTH - |b|, _ => 0) + b;
      assert |b| == ADDRESS_LENGTH ==> r == b;
      r
  }

  /** Assumption: common.HexToAddress = BytesToAddress(FromHex(s)). It never
      fails: an empty or short input is left-padded with zero bytes. */
  function HexToAddress(s: string): (r: Address)
    ensures IsHexAddress(s) ==> ValueOf(r, 256) == Numeral(Without0x(s), Hexadecimal)
    ensures Without0x(s) == "" ==> forall i :: 0 <= i < ADDRESS_LENGTH ==> r[i] == 0
  {
    var b := FromHex(s);
    var w := Without0x(s);
    assert w == "" ==> AllDigits(w, Hexadecimal);
    assert w == "" ==> 2 * |b| == |w| + |w| % 2;
    assert w == "" ==> |b| == 0;
    BytesToAddress(b)
  }

  /** The empty string names the all-zero address. */
  lemma HexToAddressEmpty()
    ensures HexToAddress("") == ZERO_ADDRESS
  {
    assert FromHex("") == [];
  }

  /** A hex address names the 20 bytes its 40 digits denote: all of FromHex's
      bytes, with no padding and nothing cut off. */
  lemma HexToAddressOfHexAddress(s: string)
    requires IsHexAddress(s)
    ensures FromHex(s) == HexToAddress(s)
    ensures ValueOf(HexToAddress(s), 256) == Numeral(Without0x(s), Hexadecimal)
  {
  }

  /** Every address survives its own hex form: the form is a hex address and
      converts back to the same bytes. */
  lemma AddressHexRoundTrip(a: Address)
    ensures IsHexAddress(HexEncodeToString(a))
    ensures HexToAddress(HexEncodeToString(a)) == a
  {
    var e := EncodeToString(a);
    var s := HexEncodeToString(a);
    assert s == "0x" + e;
    assert Has0xPrefix(s);
    assert Without0x(s) == e;
    assert IsHexAddress(s);
    HexToAddressOfHexAddress(s);
    ValueOfInjective(HexToAddress(s), a);
  }
}
