/** UTF-8 (section 3 of RFC 3629) for text whose byte length matters. */
module Utf8 {
  import opened Wrappers
  import opened Machine

  /** The encoded form of one Unicode scalar value. */
  function EncodeChar(c: char): (bytes: seq<U8>)
    ensures 1 <= |bytes| <= 4
    ensures !IsContinuation(bytes[0])
    ensures forall i :: 1 <= i < |bytes| ==> IsContinuation(bytes[i])
  {
    var n := c as int;
    if n < 0x80 then
      [n]
    else if n < 0x800 then
      [0xC0 + n / 0x40, 0x80 + n % 0x40]
    else if n < 0x1_0000 then
      [0xE0 + n / 0x1000, 0x80 + n / 0x40 % 0x40, 0x80 + n % 0x40]
    else
      [0xF0 + n / 0x4_0000, 0x80 + n / 0x1000 % 0x40, 0x80 + n / 0x40 % 0x40, 0x80 + n % 0x40]
  }

  predicate IsContinuation(byte: U8) {
    0x80 <= byte <= 0xBF
  }

  /** The bytes of a string: every string in memory is well-formed. */
  function Encode(s: string): (bytes: seq<U8>)
    ensures |bytes| >= |s|
  {
    if s == "" then [] else Encode(s[..|s| - 1]) + EncodeChar(s[|s| - 1])
  }

  function Utf8Length(s: string): nat {
    |Encode(s)|
  }

  /** `str::is_char_boundary`, which only looks at the byte at the index. */
  predicate IsCharBoundary(bytes: seq<U8>, index: nat) {
    index == 0 || index == |bytes| || (index < |bytes| && !IsContinuation(bytes[index]))
  }

  /** The string whose bytes are a prefix ending at a boundary. */
  lemma {:induction false} BoundariesAreCharacterEnds(s: string, index: nat)
    requires index <= |Encode(s)|
    ensures IsCharBoundary(Encode(s), index)
       <==> exists k :: 0 <= k <= |s| && |Encode(s[..k])| == index
    ensures forall k :: 0 <= k <= |s| && |Encode(s[..k])| == index ==> Encode(s)[..index] == Encode(s[..k])
  {
    hide EncodeChar;
    if s == "" {
      assert s[..0] == s;
    } else {
      var front, last := s[..|s| - 1], EncodeChar(s[|s| - 1]);
      assert forall k :: 0 <= k < |s| ==> s[..k] == front[..k];
      assert s[..|s|] == s;
      assert Encode(s) == Encode(front) + last;
      PrefixesAreShorter(s);
      if index <= |Encode(front)| {
        BoundariesAreCharacterEnds(front, index);
        if index < |Encode(front)| {
          assert Encode(s)[index] == Encode(front)[index];
        } else {
          assert Encode(s)[index] == last[0];
          assert |Encode(s[..|s| - 1])| == index;
        }
        assert Encode(s)[..index] == Encode(front)[..index];
      } else {
        PrefixesAreShorter(front);
        assert index < |Encode(s)| ==> Encode(s)[index] == last[index - |Encode(front)|];
        assert index == |Encode(s)| ==> |Encode(s[..|s|])| == index;
      }
    }
  }

  lemma {:induction false} PrefixesAreShorter(s: string)
    ensures forall k :: 0 <= k < |s| ==> |Encode(s[..k])| < |Encode(s)|
  {
    hide EncodeChar;
    if s != "" {
      var front := s[..|s| - 1];
      PrefixesAreShorter(front);
      assert forall k :: 0 <= k < |s| ==> s[..k] == front[..k];
      assert front[..|front|] == front;
    }
  }

  /** Every run of four bytes holds a boundary. */
  lemma {:induction false} BoundaryWithinThree(s: string, index: nat)
    requires index <= |Encode(s)|
    ensures exists b: nat :: b <= index <= b + 3 && IsCharBoundary(Encode(s), b)
  {
    hide EncodeChar;
    if s == "" {
      assert IsCharBoundary(Encode(s), 0);
    } else {
      var front, last := s[..|s| - 1], EncodeChar(s[|s| - 1]);
      var n := |Encode(front)|;
      assert Encode(s) == Encode(front) + last;
      if index < n {
        BoundaryWithinThree(front, index);
        var b: nat :| b <= index <= b + 3 && IsCharBoundary(Encode(front), b);
        assert b < n && Encode(s)[b] == Encode(front)[b];
        assert IsCharBoundary(Encode(s), b);
      } else if index < n + |last| {
        assert Encode(s)[n] == last[0];
        assert IsCharBoundary(Encode(s), n);
      } else {
        assert IsCharBoundary(Encode(s), index);
      }
    }
  }

  // ---- Decoding ----

  /** The bytes of the character that begins with the byte; the leading bits tell. */
  function SequenceLength(first: U8): nat {
    if first < 0x80 then 1 else if first < 0xE0 then 2 else if first < 0xF0 then 3 else 4
  }

  /** The payload bits: those after the marker of the first byte, then six of each byte that follows. */
  function CodePoint(bytes: seq<int>): int
    requires 1 <= |bytes| <= 4
  {
    match |bytes|
    case 1 => bytes[0]
    case 2 => (bytes[0] - 0xC0) * 0x40 + (bytes[1] - 0x80)
    case 3 => (bytes[0] - 0xE0) * 0x1000 + (bytes[1] - 0x80) * 0x40 + (bytes[2] - 0x80)
    case _ =>
      (bytes[0] - 0xF0) * 0x4_0000 + (bytes[1] - 0x80) * 0x1000 + (bytes[2] - 0x80) * 0x40 + (bytes[3] - 0x80)
  }

  /** The scalar values of the bytes, read from the front; none when they end inside a character. */
  function Decode(bytes: seq<U8>): Option<seq<int>> {
    if bytes == [] then
      Some([])
    else
      var n := SequenceLength(bytes[0]);
      if |bytes| < n then
        None
      else
        match Decode(bytes[n..])
        case None => None
        case Some(rest) => Some([CodePoint(bytes[..n])] + rest)
  }

  function CodePoints(s: string): seq<int> {
    seq(|s|, i requires 0 <= i < |s| => s[i] as int)
  }

  lemma CharRoundTrip(c: char)
    ensures |EncodeChar(c)| == SequenceLength(EncodeChar(c)[0])
    ensures CodePoint(EncodeChar(c)) == c as int
  {
    var n := c as int;
    SixBits(n);
    SixBits(n / 0x40);
    SixBits(n / 0x1000);
  }

  lemma SixBits(n: nat)
    ensures n / 0x40 * 0x40 + n % 0x40 == n
    ensures n / 0x40 / 0x40 == n / 0x1000 && n / 0x1000 / 0x40 == n / 0x4_0000
  {}

  lemma {:induction false} EncodeFromTheFront(s: string)
    requires s != ""
    ensures Encode(s) == EncodeChar(s[0]) + Encode(s[1..])
  {
    hide EncodeChar;
    var front, last := s[..|s| - 1], s[|s| - 1];
    if front != "" {
      EncodeFromTheFront(front);
      assert s[1..][..|s| - 2] == front[1..];
    } else {
      assert s[1..] == "" && Encode(front) == [];
    }
  }

  /** Decoding undoes encoding, so different strings have different bytes. */
  lemma {:induction false} DecodeUndoesEncode(s: string)
    ensures Decode(Encode(s)) == Some(CodePoints(s))
  {
    hide EncodeChar, Encode, CodePoint, SequenceLength;
    if s == "" {
      EmptyEncodes();
    } else {
      var bytes, first := Encode(s), EncodeChar(s[0]);
      EncodeFromTheFront(s);
      CharRoundTrip(s[0]);
      DecodeUndoesEncode(s[1..]);
      assert bytes[0] == first[0] && bytes[..|first|] == first && bytes[|first|..] == Encode(s[1..]);
      assert CodePoints(s) == [s[0] as int] + CodePoints(s[1..]);
    }
  }

  lemma EmptyEncodes()
    ensures Encode("") == []
  {}

  /** The octets of the table in section 3 of RFC 3629: how many, and the range of the first. */
  lemma EncodedLengthIsExact(c: char)
    ensures var n, bytes := c as int, EncodeChar(c);
      && |bytes| == (if n <= 0x7F then 1 else if n <= 0x7FF then 2 else if n <= 0xFFFF then 3 else 4)
      && (|bytes| == 1 ==> bytes == [n])
      && (|bytes| == 2 ==> 0xC2 <= bytes[0] <= 0xDF)
      && (|bytes| == 3 ==> 0xE0 <= bytes[0] <= 0xEF)
      && (|bytes| == 4 ==> 0xF0 <= bytes[0] <= 0xF4)
  {}

  /** The bytes of a text are those of its characters together. */
  lemma {:induction false} LengthIsAdditive(a: string, b: string)
    ensures Encode(a + b) == Encode(a) + Encode(b)
  {
    hide EncodeChar;
    if b == "" {
      assert a + b == a;
    } else {
      LengthIsAdditive(a, b[..|b| - 1]);
      assert (a + b)[..|a + b| - 1] == a + b[..|b| - 1];
    }
  }

  /** The encodings shown in section 7 of RFC 3629. */
  lemma EncodingExamples()
    ensures EncodeChar('A') == [0x41] && EncodeChar('\U{2262}') == [0xE2, 0x89, 0xA2]
    ensures EncodeChar('\U{0391}') == [0xCE, 0x91] && EncodeChar('\U{233B4}') == [0xF0, 0xA3, 0x8E, 0xB4]
  {}
}
