/** Decimal text of the primitive integers, as the standard formatter and parser treat it. */
module IntegerText {
  import opened Wrappers

  const DIGITS := "0123456789"

  predicate IsDigit(c: char) {
    '0' <= c <= '9'
  }

  function DigitValue(c: char): nat
    requires IsDigit(c)
  {
    c as int - '0' as int
  }

  predicate AllDigits(s: string) {
    forall i :: 0 <= i < |s| ==> IsDigit(s[i])
  }

  function PrintNat(n: nat): string {
    if n < 10 then [DIGITS[n]] else PrintNat(n / 10) + [DIGITS[n % 10]]
  }

  function PrintInt(x: int): string {
    if x < 0 then "-" + PrintNat(-x) else PrintNat(x)
  }

  function Zeros(n: nat): (zeros: string)
    ensures |zeros| == n
  {
    if n == 0 then "" else Zeros(n - 1) + "0"
  }

  /** Formatting with a `0width` specification: zeros go between the sign and the digits. */
  function PrintPadded(x: int, width: nat): string {
    if x < 0 then Pad("-", PrintNat(-x), width) else Pad("", PrintNat(x), width)
  }

  function Pad(sign: string, digits: string, width: nat): string {
    var written := |sign| + |digits|;
    sign + (Zeros(if written < width then width - written else 0) + digits)
  }

  function NatValue(digits: string): nat
    requires AllDigits(digits)
  {
    if digits == "" then
      0
    else
      NatValue(digits[..|digits| - 1]) * 10 + DigitValue(digits[|digits| - 1])
  }

  /**
   * Parsing into an integer type with the given bounds. A leading plus sign is accepted by every
   * type, a leading minus only by a signed one; leading zeros are accepted.
   */
  function ParseInt(s: string, min: int, max: int): Result<int> {
    if s == "" then
      Err(InvalidArgument)
    else
      var negative := s[0] == '-' && min < 0;
      var digits := if s[0] == '+' || negative then s[1..] else s;
      if digits == "" || !AllDigits(digits) then
        Err(InvalidArgument)
      else
        var x := if negative then 0 - NatValue(digits) else NatValue(digits);
        if min <= x <= max then Ok(x) else Err(InvalidArgument)
  }

  lemma ParsedIsInRange(s: string, min: int, max: int)
    ensures ParseInt(s, min, max).Ok? ==> min <= ParseInt(s, min, max).value <= max
  {}

  /** Printed naturals are canonical digits: no sign, nothing to strip. */
  lemma {:induction false} PrintNatIsDigits(n: nat)
    ensures PrintNat(n) != "" && AllDigits(PrintNat(n))
    ensures NatValue(PrintNat(n)) == n
  {
    if n >= 10 {
      PrintNatIsDigits(n / 10);
      assert PrintNat(n)[..|PrintNat(n)| - 1] == PrintNat(n / 10);
    }
  }

  lemma {:induction false} LeadingZeros(k: nat, digits: string)
    requires AllDigits(digits)
    ensures AllDigits(Zeros(k) + digits)
    ensures NatValue(Zeros(k) + digits) == NatValue(digits)
    decreases |digits|, k
  {
    var s := Zeros(k) + digits;
    if digits != "" {
      LeadingZeros(k, digits[..|digits| - 1]);
      assert s[..|s| - 1] == Zeros(k) + digits[..|digits| - 1];
    } else if k > 0 {
      LeadingZeros(k - 1, "");
      assert s[..|s| - 1] == Zeros(k - 1) + "" && s[|s| - 1] == '0';
    }
  }

  lemma UnsignedDigitsParse(digits: string, min: int, max: int)
    requires digits != "" && AllDigits(digits) && min <= NatValue(digits) <= max
    ensures ParseInt(digits, min, max) == Ok(NatValue(digits))
  {
    assert IsDigit(digits[0]);
  }

  lemma NegatedDigitsParse(digits: string, min: int, max: int)
    requires digits != "" && AllDigits(digits) && min <= 0 - NatValue(digits) <= max && min < 0
    ensures ParseInt("-" + digits, min, max) == Ok(0 - NatValue(digits))
  {
    assert ("-" + digits)[1..] == digits;
  }

  /** A padded number parses back to itself, whatever the padding. */
  lemma PaddedTextParses(x: int, width: nat, min: int, max: int)
    requires min <= x <= max && min <= 0
    ensures ParseInt(PrintPadded(x, width), min, max) == Ok(x)
  {
    hide PrintNat, NatValue;
    var digits, sign := PrintNat(if x < 0 then -x else x), if x < 0 then "-" else "";
    var written := |sign| + |digits|;
    var zeros := if written < width then width - written else 0;
    PrintNatIsDigits(if x < 0 then -x else x);
    LeadingZeros(zeros, digits);
    if x < 0 {
      NegatedDigitsParse(Zeros(zeros) + digits, min, max);
    } else {
      UnsignedDigitsParse(Zeros(zeros) + digits, min, max);
      NothingBefore(Zeros(zeros) + digits);
    }
  }

  lemma NothingBefore(s: string)
    ensures "" + s == s
  {}

  /** Parsing a printed number returns it, for every integer type and every value of the type. */
  lemma PrintedTextParses(x: int, min: int, max: int)
    requires min <= x <= max && min <= 0
    ensures ParseInt(PrintInt(x), min, max) == Ok(x)
  {
    PaddedTextParses(x, 0, min, max);
    PrintIsPadToZero(x);
  }

  lemma PrintIsPadToZero(x: int)
    ensures PrintPadded(x, 0) == PrintInt(x)
  {
    var digits := PrintNat(if x < 0 then -x else x);
    assert Zeros(0) + digits == digits && "" + digits == digits;
  }

  lemma PrintIntCharacters(x: int)
    ensures forall c :: c in PrintInt(x) ==> IsDigit(c) || c == '-'
  {
    PrintNatIsDigits(if x < 0 then -x else x);
  }

  // ---- Which texts are read, and as what ----

  /** The canonical decimal digits of n, with any number of zeros before them. */
  ghost predicate SpellsNat(digits: string, n: nat) {
    exists k: nat :: digits == Zeros(k) + PrintNat(n)
  }

  /** A sign that fits the number, then its digits: plus is optional, and a signed type reads minus zero. */
  ghost predicate Spells(s: string, x: int, signed: bool) {
    exists sign: string, digits: string ::
      && s == sign + digits
      && SpellsNat(digits, if x < 0 then -x else x)
      && (if x < 0 then sign == "-" else sign == "" || sign == "+" || (sign == "-" && x == 0 && signed))
  }

  /** Printed digits begin with a zero for zero only, and the last digit is the remainder by ten. */
  lemma {:induction false} PrintNatIsCanonical(n: nat)
    ensures forall c :: c in PrintNat(n) ==> '0' <= c <= '9'
    ensures PrintNat(n) != "" && (PrintNat(n)[0] == '0' <==> n == 0)
    ensures n < 10 ==> PrintNat(n) == [(48 + n) as char]
    ensures n >= 10 ==> PrintNat(n) == PrintNat(n / 10) + [(48 + n % 10) as char]
  {
    DigitsByCode(n % 10);
    if n >= 10 {
      PrintNatIsCanonical(n / 10);
      var front, last := PrintNat(n / 10), [DIGITS[n % 10]];
      assert PrintNat(n) == front + last;
      hide PrintNat;
    }
  }

  lemma DigitsByCode(d: nat)
    requires d < 10
    ensures DIGITS[d] == (48 + d) as char && '0' <= DIGITS[d] <= '9'
    ensures DIGITS[d] == '0' <==> d == 0
  {}

  lemma {:induction false} ZerosAreZeros(k: nat)
    ensures forall i :: 0 <= i < k ==> Zeros(k)[i] == '0'
  {
    if k > 0 {
      ZerosAreZeros(k - 1);
    }
  }

  lemma OneDigit(c: char)
    requires IsDigit(c)
    ensures PrintNat(DigitValue(c)) == [c]
  {}

  lemma OneDigitMore(n: nat, c: char)
    requires IsDigit(c) && n > 0
    ensures PrintNat(n * 10 + DigitValue(c)) == PrintNat(n) + [c]
  {
    hide PrintNat;
    PrintNatIsCanonical(n * 10 + DigitValue(c));
  }

  /** One more digit after digits that spell a number. */
  lemma DigitAppends(front: string, n: nat, c: char)
    requires SpellsNat(front, n) && IsDigit(c)
    ensures SpellsNat(front + [c], n * 10 + DigitValue(c))
  {
    hide PrintNat;
    var k: nat :| front == Zeros(k) + PrintNat(n);
    if n == 0 {
      PrintNatIsCanonical(0);
      OneDigit(c);
      assert front + [c] == Zeros(k + 1) + PrintNat(DigitValue(c));
    } else {
      OneDigitMore(n, c);
      assert front + [c] == Zeros(k) + PrintNat(n * 10 + DigitValue(c));
    }
  }

  /** Digits spell exactly one number. */
  lemma {:induction false} DigitsSpellTheirValue(digits: string)
    requires digits != "" && AllDigits(digits)
    ensures SpellsNat(digits, NatValue(digits))
  {
    hide PrintNat, SpellsNat;
    var front, last := digits[..|digits| - 1], digits[|digits| - 1];
    assert digits == front + [last];
    if front == "" {
      LoneDigit(last);
    } else {
      DigitsSpellTheirValue(front);
      DigitAppends(front, NatValue(front), last);
    }
  }

  lemma LoneDigit(c: char)
    requires IsDigit(c)
    ensures SpellsNat([c], DigitValue(c)) && NatValue([c]) == DigitValue(c)
  {
    OneDigit(c);
    assert [c] == Zeros(0) + PrintNat(DigitValue(c));
  }

  lemma SpelledDigitsHaveTheValue(digits: string, n: nat)
    requires SpellsNat(digits, n)
    ensures digits != "" && AllDigits(digits) && NatValue(digits) == n
  {
    hide PrintNat, NatValue;
    var k: nat :| digits == Zeros(k) + PrintNat(n);
    PrintNatIsDigits(n);
    LeadingZeros(k, PrintNat(n));
  }

  /** A text is read as the number exactly when it spells it and the type holds it. */
  lemma ParseIsExact(s: string, min: int, max: int, x: int)
    requires min <= 0
    ensures ParseInt(s, min, max) == Ok(x) <==> min <= x <= max && Spells(s, x, min < 0)
  {
    hide PrintNat, NatValue, SpellsNat;
    if ParseInt(s, min, max) == Ok(x) {
      var negative := s[0] == '-' && min < 0;
      var digits := if s[0] == '+' || negative then s[1..] else s;
      DigitsSpellTheirValue(digits);
      assert s == (if negative then "-" else if s[0] == '+' then "+" else "") + digits;
    }
    if min <= x <= max && Spells(s, x, min < 0) {
      SpelledIsParsed(s, min, max, x);
    }
  }

  lemma SpelledIsParsed(s: string, min: int, max: int, x: int)
    requires min <= 0 && min <= x <= max && Spells(s, x, min < 0)
    ensures ParseInt(s, min, max) == Ok(x)
  {
    hide PrintNat, NatValue, SpellsNat;
    var sign: string, digits: string :|
      && s == sign + digits
      && SpellsNat(digits, if x < 0 then -x else x)
      && (if x < 0 then sign == "-" else sign == "" || sign == "+" || (sign == "-" && x == 0 && min < 0));
    SpelledDigitsHaveTheValue(digits, if x < 0 then -x else x);
    if sign == "" {
      assert s == digits && IsDigit(s[0]);
    } else {
      assert s[1..] == digits && s[0] == sign[0];
    }
  }

  lemma ZerosBefore(k: nat, n: nat)
    ensures var text := Zeros(k) + PrintNat(n);
      && |text| == k + |PrintNat(n)|
      && text != "" && '0' <= text[0] <= '9'
      && '+' !in text
      && SpellsNat(text, n)
  {
    hide PrintNat;
    PrintNatIsCanonical(n);
    ZerosAreZeros(k);
    assert PrintNat(n)[0] in PrintNat(n);
  }

  /** A padded number is its sign, zeros and its digits, as wide as the padding asks or as the number needs. */
  lemma PaddedShape(x: int, width: nat)
    ensures var text := PrintPadded(x, width);
      && Spells(text, x, true)
      && |text| == (if |PrintInt(x)| < width then width else |PrintInt(x)|)
      && (text[0] == '-' <==> x < 0)
      && '+' !in text
      && (|text| > width ==> text == PrintInt(x))
  {
    hide PrintNat, Zeros, SpellsNat;
    var n, written := if x < 0 then -x else x, |PrintInt(x)|;
    var k := if written < width then width - written else 0;
    ZerosBefore(k, n);
    ZerosBefore(0, n);
    NoZeros(PrintNat(n));
    NothingBefore(Zeros(k) + PrintNat(n));
    NothingBefore(PrintNat(n));
    assert PrintPadded(x, width) == (if x < 0 then "-" else "") + (Zeros(k) + PrintNat(n));
  }

  lemma NoZeros(digits: string)
    ensures Zeros(0) + digits == digits
  {}

  // ---- `str::split_once` ----

  function SplitOnce(s: string, separator: char): Option<(string, string)> {
    if s == "" then
      None
    else if s[0] == separator then
      Some(("", s[1..]))
    else
      match SplitOnce(s[1..], separator)
      case None => None
      case Some((head, tail)) => Some(([s[0]] + head, tail))
  }

  /** The split is at the first separator, and only there. */
  lemma {:induction false} SplitAtFirst(head: string, separator: char, tail: string)
    requires separator !in head
    ensures SplitOnce(head + [separator] + tail, separator) == Some((head, tail))
  {
    var s := head + [separator] + tail;
    if head == "" {
      assert s[1..] == tail;
    } else {
      SplitAtFirst(head[1..], separator, tail);
      assert s[1..] == head[1..] + [separator] + tail;
      assert [head[0]] + head[1..] == head;
    }
  }

  lemma {:induction false} SplitRejoins(s: string, separator: char)
    ensures SplitOnce(s, separator).None? <==> separator !in s
    ensures SplitOnce(s, separator).Some? ==>
      var (head, tail) := SplitOnce(s, separator).value;
      s == head + [separator] + tail && separator !in head
  {
    if s != "" {
      SplitRejoins(s[1..], separator);
      assert s == [s[0]] + s[1..];
    }
  }
}
