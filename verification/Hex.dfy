/** Hexadecimal text of byte sequences: lowercase when written, either case when read. */
module Hex {
  import opened Wrappers
  import opened Machine

  const HEX_DIGITS := "0123456789abcdef"

  function HexValue(c: char): Option<nat> {
    if '0' <= c <= '9' then
      Some(c as int - '0' as int)
    else if 'a' <= c <= 'f' then
      Some(c as int - 'a' as int + 10)
    else if 'A' <= c <= 'F' then
      Some(c as int - 'A' as int + 10)
    else
      None
  }

  function HexByte(high: char, low: char): Option<U8> {
    match (HexValue(high), HexValue(low))
    case (Some(h), Some(l)) => HexValueIsNibble(high); HexValueIsNibble(low); Some(h * 16 + l)
    case _ => None
  }

  lemma HexValueIsNibble(c: char)
    ensures HexValue(c).Some? ==> HexValue(c).value < 16
  {}

  function HexEncode(bytes: seq<U8>): (text: string)
    ensures |text| == 2 * |bytes|
  {
    if bytes == [] then "" else [HEX_DIGITS[bytes[0] / 16], HEX_DIGITS[bytes[0] % 16]] + HexEncode(bytes[1..])
  }

  function HexDecode(text: string): (bytes: Option<seq<U8>>)
    ensures bytes.Some? ==> |text| == 2 * |bytes.value|
  {
    if text == "" then
      Some([])
    else if |text| == 1 then
      None
    else
      match (HexByte(text[0], text[1]), HexDecode(text[2..]))
      case (Some(byte), Some(rest)) => Some([byte] + rest)
      case _ => None
  }

  lemma DigitRoundTrip(n: nat)
    requires n < 16
    ensures HexValue(HEX_DIGITS[n]) == Some(n)
    ensures HEX_DIGITS[n] in HEX_DIGITS
  {}

  lemma ByteRoundTrip(byte: U8)
    ensures HexByte(HEX_DIGITS[byte / 16], HEX_DIGITS[byte % 16]) == Some(byte)
  {
    var high, low := byte / 16, byte % 16;
    DigitRoundTrip(high);
    DigitRoundTrip(low);
    hide HexValue, HEX_DIGITS;
    assert byte == high * 16 + low;
  }

  /** Decoding undoes encoding, and encoded text holds lowercase hex digits only. */
  lemma {:induction false} HexRoundTrip(bytes: seq<U8>)
    ensures HexDecode(HexEncode(bytes)) == Some(bytes)
    ensures forall c :: c in HexEncode(bytes) ==> c in HEX_DIGITS
  {
    hide HexByte;
    if bytes != [] {
      HexRoundTrip(bytes[1..]);
      ByteRoundTrip(bytes[0]);
      assert HexEncode(bytes)[2..] == HexEncode(bytes[1..]);
      assert [bytes[0]] + bytes[1..] == bytes;
    }
  }

  // ---- Letter case ----

  function LowerChar(c: char): char {
    if 'A' <= c <= 'Z' then (c as int + 32) as char else c
  }

  function Lower(s: string): string {
    seq(|s|, i requires 0 <= i < |s| => LowerChar(s[i]))
  }

  predicate IsLowerHex(c: char) {
    '0' <= c <= '9' || 'a' <= c <= 'f'
  }

  lemma DigitReadsExactly(c: char, n: nat)
    requires n < 16
    ensures HexValue(c) == Some(n) <==> LowerChar(c) == HEX_DIGITS[n]
  {}

  lemma ByteReadsExactly(high: char, low: char, byte: U8)
    ensures HexByte(high, low) == Some(byte)
       <==> LowerChar(high) == HEX_DIGITS[byte / 16] && LowerChar(low) == HEX_DIGITS[byte % 16]
  {
    hide HexValue;
    DigitReadsExactly(high, byte / 16);
    DigitReadsExactly(low, byte % 16);
    HexValueIsNibble(high);
    HexValueIsNibble(low);
  }

  /** The digit for a number below sixteen, by its code. */
  function DigitFor(n: nat): char
    requires n < 16
  {
    (if n < 10 then 48 + n else 87 + n) as char
  }

  /** Printed text has lowercase digits only, each byte as its high and then its low half. */
  lemma {:induction false} PrintedHexIsLowercase(bytes: seq<U8>)
    ensures forall c :: c in HexEncode(bytes) ==> IsLowerHex(c)
    ensures forall i :: 0 <= i < |bytes| ==>
      HexEncode(bytes)[2 * i] == DigitFor(bytes[i] / 16) && HexEncode(bytes)[2 * i + 1] == DigitFor(bytes[i] % 16)
  {
    hide IsLowerHex, DigitFor;
    if bytes != [] {
      var first, rest := bytes[0], bytes[1..];
      PrintedHexIsLowercase(rest);
      DigitsAreLowercase(first / 16);
      DigitsAreLowercase(first % 16);
      assert HexEncode(bytes) == [HEX_DIGITS[first / 16], HEX_DIGITS[first % 16]] + HexEncode(rest);
      forall i | 1 <= i < |bytes|
        ensures HexEncode(bytes)[2 * i] == DigitFor(bytes[i] / 16)
        ensures HexEncode(bytes)[2 * i + 1] == DigitFor(bytes[i] % 16)
      {
        assert bytes[i] == rest[i - 1];
        assert HexEncode(bytes)[2 * i] == HexEncode(rest)[2 * (i - 1)];
      }
    }
  }

  lemma DigitsAreLowercase(n: nat)
    requires n < 16
    ensures HEX_DIGITS[n] == DigitFor(n) && IsLowerHex(HEX_DIGITS[n])
  {}

  /** Bytes are read from exactly the texts that are their printed text in any letter case. */
  lemma {:induction false} HexReadsAnyCase(text: string, bytes: seq<U8>)
    ensures HexDecode(text) == Some(bytes) <==> Lower(text) == HexEncode(bytes)
  {
    hide HexByte;
    if |text| >= 2 && bytes != [] {
      HexReadsAnyCase(text[2..], bytes[1..]);
      ByteReadsExactly(text[0], text[1], bytes[0]);
      assert Lower(text) == [LowerChar(text[0]), LowerChar(text[1])] + Lower(text[2..]);
      assert Lower(text)[2..] == Lower(text[2..]) && HexEncode(bytes)[2..] == HexEncode(bytes[1..]);
      assert bytes == [bytes[0]] + bytes[1..];
    } else {
      assert |Lower(text)| == |text|;
    }
  }
}
