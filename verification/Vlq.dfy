/** Base64 VLQ: the digit alphabet, the encoder with its 32-bit shifts, and decoding. */
module Vlq {
  import opened Int32

  type Byte = b: nat | b < 256

  const SEMICOLON: Byte := 59
  const COMMA: Byte := 44
  const NEWLINE: Byte := 10

  /** 'A'..'Z', 'a'..'z', '0'..'9', '+', '/'. */
  function IntegerToChar(i: nat): Byte
    requires i < 64
  {
    if i < 26 then 65 + i else if i < 52 then 97 + i - 26 else if i < 62 then 48 + i - 52
    else if i == 62 then 43 else 47
  }

  /** The lookup table: 255 for bytes outside the alphabet, and 64 for '='. */
  function CharToInteger(b: Byte): Byte {
    if 65 <= b <= 90 then b - 65
    else if 97 <= b <= 122 then b - 97 + 26
    else if 48 <= b <= 57 then b - 48 + 52
    else if b == 43 then 62
    else if b == 47 then 63
    else if b == 61 then 64
    else 255
  }

  lemma AlphabetRoundTrip(i: nat)
    requires i < 64
    ensures CharToInteger(IntegerToChar(i)) == i
    ensures IntegerToChar(i) != SEMICOLON && IntegerToChar(i) != COMMA
  {
  }

  const UPPER := "ABCDEFGHIJKLMNOPQRSTUVWXYZ"
  const LOWER := "abcdefghijklmnopqrstuvwxyz"
  const NUMERALS := "0123456789"
  const ALPHABET := UPPER + LOWER + NUMERALS + "+/="

  lemma Runs()
    ensures UPPER == seq(26, j requires 0 <= j < 26 => (65 + j) as char)
    ensures LOWER == seq(26, j requires 0 <= j < 26 => (97 + j) as char)
    ensures NUMERALS == seq(10, j requires 0 <= j < 10 => (48 + j) as char)
  {
  }

  /** The tables are those of the base64 alphabet, character by character. */
  lemma TheAlphabet(i: nat)
    requires i < 65
    ensures |ALPHABET| == 65 && 0 <= ALPHABET[i] as int < 256 && CharToInteger(ALPHABET[i] as int) == i
    ensures i < 64 ==> IntegerToChar(i) == ALPHABET[i] as int
  {
    Runs();
    assert i < 26 ==> ALPHABET[i] == UPPER[i];
    assert 26 <= i < 52 ==> ALPHABET[i] == LOWER[i - 26];
    assert 52 <= i < 62 ==> ALPHABET[i] == NUMERALS[i - 52];
    assert 62 <= i ==> ALPHABET[i] == "+/="[i - 62];
  }

  /** Bytes outside the alphabet have no value. */
  lemma NotInTheAlphabet(b: Byte)
    ensures CharToInteger(b) == 255 <==> forall i :: 0 <= i < |ALPHABET| ==> b != ALPHABET[i] as int
  {
    forall i: nat | i < |ALPHABET|
      ensures b == ALPHABET[i] as int ==> CharToInteger(b) == i && i < 65
    {
      TheAlphabet(i);
    }
    if CharToInteger(b) != 255 {
      TheAlphabet(CharToInteger(b));
      InTheAlphabet(b);
    }
  }

  lemma InTheAlphabet(b: Byte)
    requires CharToInteger(b) != 255
    ensures CharToInteger(b) < 65 && b == ALPHABET[CharToInteger(b)] as int
  {
    Runs();
    var i := CharToInteger(b);
    assert i < 26 ==> ALPHABET[i] == UPPER[i];
    assert 26 <= i < 52 ==> ALPHABET[i] == LOWER[i - 26];
    assert 52 <= i < 62 ==> ALPHABET[i] == NUMERALS[i - 52];
    assert 62 <= i ==> ALPHABET[i] == "+/="[i - 62];
  }

  lemma Separators()
    ensures SEMICOLON == ';' as int && COMMA == ',' as int && NEWLINE == '\n' as int
  {
  }

  // ---------- encoding, as the buffer does it ----------

  /** The sign goes to bit 0; the shift is a 32-bit one. */
  function RawOf(num: int): int {
    if num < 0 then Shl(-num, 1) + 1 else Shl(num, 1)
  }

  /** Five bits at a time, low bits first; bit 5 says that more follows. */
  function EncodeRaw(raw: int): seq<Byte>
    decreases if ToInt32(raw) > 0 then ToInt32(raw) else 0
  {
    assert Pow2(5) == 32;
    var next := Sar(raw, 5);
    if next > 0 then [IntegerToChar(Low5(raw) + 32)] + EncodeRaw(next)
    else [IntegerToChar(Low5(raw))]
  }

  function EncodeVlq(num: int): seq<Byte> {
    EncodeRaw(RawOf(num))
  }

  // ---------- the meaning of digits ----------

  /** The number written by base-32 digits, low digit first. */
  function FromDigits(ds: seq<nat>): nat {
    if ds == [] then 0 else ds[0] + 32 * FromDigits(ds[1..])
  }

  function Signed(raw: nat): int {
    if raw % 2 == 1 then -(raw / 2) else raw / 2
  }

  /** All digits of one VLQ: the bytes up to the first without continuation bit. */
  datatype Decoded = Bad | Good(value: int, rest: seq<Byte>)

  function DecodeVlq(bytes: seq<Byte>, ds: seq<nat>): (d: Decoded)
    ensures d.Good? ==> |d.rest| < |bytes|
  {
    if bytes == [] then Bad
    else
      var v := CharToInteger(bytes[0]);
      if v >= 64 then Bad
      else if v >= 32 then DecodeVlq(bytes[1..], ds + [v % 32])
      else Good(Signed(FromDigits(ds + [v])), bytes[1..])
  }

  lemma {:induction false} FromDigitsSnoc(ds: seq<nat>, d: nat)
    ensures FromDigits(ds + [d]) == FromDigits(ds) + d * Pow32(|ds|)
  {
    if ds != [] {
      FromDigitsSnoc(ds[1..], d);
      assert (ds + [d])[1..] == ds[1..] + [d];
    } else {
      assert ([] + [d])[1..] == [];
    }
  }

  lemma MulAtLeast(d: nat, p: nat)
    requires d >= 1
    ensures d * p >= p
  {
  }

  lemma ShlZero(k: nat)
    ensures Shl(0, k) == 0
  {
    assert 0 * Pow2(k % 32) == 0;
  }

  lemma ShlExact(d: nat, k: nat)
    requires k < 7 && d * Pow32(k) < LIMIT
    ensures Shl(d, 5 * k) == d * Pow32(k)
  {
    hide Pow32, Pow2;
    Pow2Of5(k);
    assert 5 * k % 32 == 5 * k;
    SmallInt32(d * Pow32(k));
  }

  /** One more digit, added the way the 32-bit code adds it: exact while the number
      stays below 2^31, because then a digit beyond bit 30 must be zero. */
  lemma AddDigit(ds: seq<nat>, d: nat)
    requires d < 32 && FromDigits(ds + [d]) < LIMIT
    ensures FromDigits(ds) < LIMIT
    ensures FromDigits(ds) + Shl(d, 5 * |ds|) == FromDigits(ds + [d])
  {
    hide Pow32, Shl, FromDigits;
    FromDigitsSnoc(ds, d);
    if d == 0 {
      ShlZero(5 * |ds|);
    } else {
      MulAtLeast(d, Pow32(|ds|));
      if |ds| >= 7 {
        Pow32Grows(|ds|);
      }
      ShlExact(d, |ds|);
    }
  }

  lemma {:induction false} Pow32Grows(k: nat)
    requires k >= 7
    ensures Pow32(k) >= 0x8_0000_0000
  {
    if k > 7 {
      Pow32Grows(k - 1);
    } else {
      assert Pow32(7) == 32 * Pow32(6) && Pow32(6) == 32 * Pow32(5) && Pow32(5) == 32 * Pow32(4);
      assert Pow32(4) == 32 * Pow32(3) && Pow32(3) == 32 * Pow32(2) && Pow32(2) == 32 * Pow32(1);
    }
  }

  // ---------- round trip ----------

  lemma SplitRaw(raw: nat, p: nat)
    ensures raw * p == raw % 32 * p + raw / 32 * (32 * p)
  {
    assert raw == raw % 32 + raw / 32 * 32;
    assert (raw % 32 + raw / 32 * 32) * p == raw % 32 * p + raw / 32 * 32 * p;
  }

  /** The value read from the digits of raw after those in ds. */
  function Appended(ds: seq<nat>, raw: nat): nat {
    FromDigits(ds) + raw * Pow32(|ds|)
  }

  lemma AppendedSplits(ds: seq<nat>, raw: nat)
    ensures Appended(ds, raw) == Appended(ds + [raw % 32], raw / 32)
    ensures raw < 32 ==> Appended(ds, raw) == FromDigits(ds + [raw])
  {
    FromDigitsSnoc(ds, raw % 32);
    SplitRaw(raw, Pow32(|ds|));
  }

  lemma EncodeRawUnfolds(raw: nat)
    requires raw < LIMIT
    ensures raw >= 32 ==> EncodeRaw(raw) == [IntegerToChar(raw % 32 + 32)] + EncodeRaw(raw / 32)
    ensures raw < 32 ==> EncodeRaw(raw) == [IntegerToChar(raw)]
  {
    Sar5(raw);
    hide Sar, Low5;
  }

  lemma {:induction false} EncodeRawDecodes(raw: nat, ds: seq<nat>, rest: seq<Byte>)
    requires raw < LIMIT
    ensures DecodeVlq(EncodeRaw(raw) + rest, ds) == Good(Signed(Appended(ds, raw)), rest)
    decreases raw
  {
    hide Appended, EncodeRaw;
    var bytes := EncodeRaw(raw) + rest;
    AppendedSplits(ds, raw);
    EncodeRawUnfolds(raw);
    if raw >= 32 {
      AlphabetRoundTrip(raw % 32 + 32);
      EncodeRawDecodes(raw / 32, ds + [raw % 32], rest);
      assert bytes[0] == IntegerToChar(raw % 32 + 32) && bytes[1..] == EncodeRaw(raw / 32) + rest;
    } else {
      AlphabetRoundTrip(raw);
      assert bytes[0] == IntegerToChar(raw) && bytes[1..] == rest;
    }
  }

  /** Below 2^30 the 32-bit shift does not overflow. */
  lemma RawOfSmall(num: int)
    requires -0x4000_0000 < num < 0x4000_0000
    ensures 0 <= RawOf(num) < LIMIT && Signed(RawOf(num)) == num
  {
    assert Pow2(1) == 2;
  }

  lemma RawOfRange(num: int)
    ensures -LIMIT <= RawOf(num) < LIMIT
  {
    assert Pow2(1) == 2;
    var x := if num < 0 then -num * 2 else num * 2;
    assert x % MODULUS % 2 == 0;
  }

  lemma NegativeRaw(raw: int)
    requires -LIMIT <= raw < 0
    ensures EncodeRaw(raw) == [IntegerToChar(Low5(raw))]
  {
    assert Pow2(5) == 32;
  }

  lemma SingleDigit(d: nat, rest: seq<Byte>)
    requires d < 32
    ensures DecodeVlq([IntegerToChar(d)] + rest, []) == Good(Signed(d), rest)
  {
    AlphabetRoundTrip(d);
    var bytes := [IntegerToChar(d)] + rest;
    assert bytes[0] == IntegerToChar(d) && bytes[1..] == rest;
    assert FromDigits([] + [d]) == d;
  }

  /** Decoding what was encoded gives the number back exactly when its magnitude is
      below 2^30; outside that range the shifts lose bits. */
  lemma VlqRoundTrip(num: int, rest: seq<Byte>)
    ensures DecodeVlq(EncodeVlq(num) + rest, []) == Good(num, rest) <==> -0x4000_0000 < num < 0x4000_0000
  {
    RawOfRange(num);
    var raw := RawOf(num);
    assert raw >= 0 ==> Appended([], raw) == raw;
    hide RawOf, DecodeVlq, EncodeRaw, Appended;
    if -0x4000_0000 < num < 0x4000_0000 {
      RawOfSmall(num);
      EncodeRawDecodes(raw, [], rest);
    } else if raw >= 0 {
      EncodeRawDecodes(raw, [], rest);
    } else {
      NegativeRaw(raw);
      SingleDigit(Low5(raw), rest);
    }
  }

  lemma OneOrTwoDigits(num: int)
    requires -512 < num < 512
    ensures var raw := if num < 0 then 1 - 2 * num else 2 * num;
      EncodeVlq(num) == if raw < 32 then [IntegerToChar(raw)]
                        else [IntegerToChar(raw % 32 + 32), IntegerToChar(raw / 32)]
  {
    var raw := if num < 0 then 1 - 2 * num else 2 * num;
    assert RawOf(num) == raw by {
      assert Pow2(1) == 2;
    }
    hide RawOf, EncodeRaw, IntegerToChar;
    EncodeRawUnfolds(raw);
    EncodeRawUnfolds(raw / 32);
  }

  /** Some encodings: the sign is bit 0, low digits come first, and all digits but the last
      have the continuation bit. */
  lemma Encodings()
    ensures EncodeVlq(0) == ['A' as int] && EncodeVlq(1) == ['C' as int] && EncodeVlq(-1) == ['D' as int]
    ensures EncodeVlq(15) == ['e' as int] && EncodeVlq(16) == ['g' as int, 'B' as int]
    ensures EncodeVlq(-16) == ['h' as int, 'B' as int] && EncodeVlq(500) == ['o' as int, 'f' as int]
  {
    hide EncodeVlq;
    OneOrTwoDigits(0);
    OneOrTwoDigits(1);
    OneOrTwoDigits(-1);
    OneOrTwoDigits(15);
    OneOrTwoDigits(16);
    OneOrTwoDigits(-16);
    OneOrTwoDigits(500);
  }

  // ---------- lists ----------

  function EncodeAll(nums: seq<int>): seq<Byte> {
    if nums == [] then [] else EncodeVlq(nums[0]) + EncodeAll(nums[1..])
  }

  datatype DecodedAll = BadList | GoodList(values: seq<int>)

  function DecodeAll(bytes: seq<Byte>): DecodedAll
    decreases |bytes|
  {
    if bytes == [] then GoodList([])
    else
      match DecodeVlq(bytes, [])
      case Bad => BadList
      case Good(value, rest) =>
        match DecodeAll(rest)
        case BadList => BadList
        case GoodList(values) => GoodList([value] + values)
  }

  /** The code is a prefix code: a concatenation of encodings has only one reading. */
  lemma {:induction false} PrefixCode(nums: seq<int>)
    requires forall k :: 0 <= k < |nums| ==> -0x4000_0000 < nums[k] < 0x4000_0000
    ensures DecodeAll(EncodeAll(nums)) == GoodList(nums)
  {
    if nums != [] {
      VlqRoundTrip(nums[0], EncodeAll(nums[1..]));
      PrefixCode(nums[1..]);
      assert EncodeAll(nums) != [];
      assert nums == [nums[0]] + nums[1..];
    }
  }
}
