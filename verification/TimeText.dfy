/** Canonical text of rates, times and ranges (crates/postproject-core/src/time.rs). */
module TimeText {
  import opened Wrappers
  import opened Machine
  import opened IntegerText
  import opened Time

  function PrintRate(rate: Rate): string {
    PrintInt(rate.numerator) + "/" + PrintInt(rate.denominator)
  }

  function ParseRate(s: string): Result<Rate> {
    match SplitOnce(s, '/')
    case None => Err(InvalidArgument)
    case Some((n, d)) =>
      var numerator :- ParseInt(n, 0, U32_MAX);
      var denominator :- ParseInt(d, 0, U32_MAX);
      ParsedIsInRange(n, 0, U32_MAX);
      ParsedIsInRange(d, 0, U32_MAX);
      NewRate(numerator, denominator)
  }

  function PrintTime(t: RationalTime): string {
    PrintInt(t.value) + "@" + PrintRate(t.rate)
  }

  function ParseTime(s: string): Result<RationalTime> {
    match SplitOnce(s, '@')
    case None => Err(InvalidArgument)
    case Some((v, r)) =>
      var value :- ParseInt(v, I64_MIN, I64_MAX);
      ParsedIsInRange(v, I64_MIN, I64_MAX);
      var rate :- ParseRate(r);
      Ok(RationalTime(value, rate))
  }

  function PrintRange(range: TimeRange): string {
    PrintTime(range.start) + "+" + PrintTime(range.duration)
  }

  function ParseRange(s: string): Result<TimeRange> {
    match SplitOnce(s, '+')
    case None => Err(InvalidArgument)
    case Some((head, tail)) =>
      var start :- ParseTime(head);
      var duration :- ParseTime(tail);
      NewRange(start, duration)
  }

  /** A rate in lowest terms is its own normal form. */
  lemma NormalRateIsFixed(rate: Rate)
    ensures NewRate(rate.numerator, rate.denominator) == Ok(rate)
  {
    RateIsTheUniqueLowestTerms(rate.numerator, rate.denominator, rate);
  }

  lemma RateTextRoundTrip(rate: Rate)
    ensures ParseRate(PrintRate(rate)) == Ok(rate)
  {
    PrintIntCharacters(rate.numerator);
    SplitAtFirst(PrintInt(rate.numerator), '/', PrintInt(rate.denominator));
    PrintedTextParses(rate.numerator, 0, U32_MAX);
    PrintedTextParses(rate.denominator, 0, U32_MAX);
    NormalRateIsFixed(rate);
  }

  /** Every time, `i64::MIN` included, parses back from its text. */
  lemma TimeTextRoundTrip(t: RationalTime)
    ensures ParseTime(PrintTime(t)) == Ok(t)
  {
    PrintIntCharacters(t.value);
    SplitAtFirst(PrintInt(t.value), '@', PrintRate(t.rate));
    PrintedTextParses(t.value, I64_MIN, I64_MAX);
    RateTextRoundTrip(t.rate);
  }

  /** A printed time has no plus sign, so a range splits at the separator and not earlier. */
  lemma PrintedTimeHasNoPlus(t: RationalTime)
    ensures '+' !in PrintTime(t)
  {
    PrintIntCharacters(t.value);
    PrintIntCharacters(t.rate.numerator);
    PrintIntCharacters(t.rate.denominator);
  }

  lemma RangeTextRoundTrip(range: TimeRange)
    ensures ParseRange(PrintRange(range)) == Ok(range)
  {
    PrintedTimeHasNoPlus(range.start);
    SplitAtFirst(PrintTime(range.start), '+', PrintTime(range.duration));
    TimeTextRoundTrip(range.start);
    TimeTextRoundTrip(range.duration);
  }

  // ---- Which texts are read ----

  /** Two spelled numbers around a slash whose ratio is the rate; they need not be in lowest terms. */
  ghost predicate SpellsRate(s: string, rate: Rate) {
    exists n: string, d: string, a: int, b: int ::
      && s == n + ['/'] + d
      && Spells(n, a, false) && Spells(d, b, false)
      && 0 < a <= U32_MAX && 0 < b <= U32_MAX
      && rate.numerator * b == a * rate.denominator
  }

  ghost predicate SpellsTime(s: string, t: RationalTime) {
    exists v: string, r: string :: s == v + ['@'] + r && Spells(v, t.value, true) && SpellsRate(r, t.rate)
  }

  /** The first plus sign separates the two times, so a start with a plus of its own is not read. */
  ghost predicate SpellsRange(s: string, range: TimeRange) {
    exists head: string, tail: string ::
      && s == head + ['+'] + tail && '+' !in head
      && SpellsTime(head, range.start) && SpellsTime(tail, range.duration)
  }

  lemma SpelledCharacters(s: string, x: int, signed: bool)
    requires Spells(s, x, signed)
    ensures '/' !in s && '@' !in s
  {
    hide PrintNat;
    var sign: string, digits: string :|
      && s == sign + digits
      && SpellsNat(digits, if x < 0 then -x else x)
      && (if x < 0 then sign == "-" else sign == "" || sign == "+" || (sign == "-" && x == 0 && signed));
    SpelledDigitsHaveTheValue(digits, if x < 0 then -x else x);
  }

  /** A rate is read from exactly the texts that spell its ratio. */
  lemma RateTextIsExact(s: string, rate: Rate)
    ensures ParseRate(s) == Ok(rate) <==> SpellsRate(s, rate)
  {
    hide ParseInt, Spells, NewRate;
    SplitRejoins(s, '/');
    if ParseRate(s) == Ok(rate) {
      var (n, d) := SplitOnce(s, '/').value;
      var a, b := ParseInt(n, 0, U32_MAX).value, ParseInt(d, 0, U32_MAX).value;
      ParseIsExact(n, 0, U32_MAX, a);
      ParseIsExact(d, 0, U32_MAX, b);
      AcceptedRateIsPositive(a, b);
      RateIsTheUniqueLowestTerms(a, b, rate);
      assert s == n + ['/'] + d;
    }
    if SpellsRate(s, rate) {
      var n: string, d: string, a: int, b: int :|
        && s == n + ['/'] + d
        && Spells(n, a, false) && Spells(d, b, false)
        && 0 < a <= U32_MAX && 0 < b <= U32_MAX
        && rate.numerator * b == a * rate.denominator;
      SpelledCharacters(n, a, false);
      SplitAtFirst(n, '/', d);
      ParseIsExact(n, 0, U32_MAX, a);
      ParseIsExact(d, 0, U32_MAX, b);
      RateIsTheUniqueLowestTerms(a, b, rate);
    }
  }

  lemma AcceptedRateIsPositive(a: U32, b: U32)
    requires NewRate(a, b).Ok?
    ensures a > 0 && b > 0
  {}

  /** A time is read from exactly the texts that spell its value and rate. */
  lemma TimeTextIsExact(s: string, t: RationalTime)
    ensures ParseTime(s) == Ok(t) <==> SpellsTime(s, t)
  {
    hide ParseInt, Spells, ParseRate, SpellsRate;
    SplitRejoins(s, '@');
    if ParseTime(s) == Ok(t) {
      var (v, r) := SplitOnce(s, '@').value;
      ParseIsExact(v, I64_MIN, I64_MAX, t.value);
      RateTextIsExact(r, t.rate);
      assert s == v + ['@'] + r;
    }
    if SpellsTime(s, t) {
      var v: string, r: string :| s == v + ['@'] + r && Spells(v, t.value, true) && SpellsRate(r, t.rate);
      SpelledCharacters(v, t.value, true);
      SplitAtFirst(v, '@', r);
      ParseIsExact(v, I64_MIN, I64_MAX, t.value);
      RateTextIsExact(r, t.rate);
    }
  }

  /** A range is read from exactly the texts that spell its start and duration around the first plus sign. */
  lemma RangeTextIsExact(s: string, range: TimeRange)
    ensures ParseRange(s) == Ok(range) <==> SpellsRange(s, range)
  {
    hide ParseTime, SpellsTime, NewRange;
    SplitRejoins(s, '+');
    RangeAcceptsExactly(range.start, range.duration);
    if ParseRange(s) == Ok(range) {
      var (head, tail) := SplitOnce(s, '+').value;
      var start, duration := ParseTime(head).value, ParseTime(tail).value;
      RangeAcceptsExactly(start, duration);
      TimeTextIsExact(head, start);
      TimeTextIsExact(tail, duration);
      assert s == head + ['+'] + tail;
    }
    if SpellsRange(s, range) {
      var head: string, tail: string :|
        && s == head + ['+'] + tail && '+' !in head
        && SpellsTime(head, range.start) && SpellsTime(tail, range.duration);
      SplitAtFirst(head, '+', tail);
      TimeTextIsExact(head, range.start);
      TimeTextIsExact(tail, range.duration);
      ValidRangeIsAccepted(range);
    }
  }

  lemma ValidRangeIsAccepted(range: TimeRange)
    ensures NewRange(range.start, range.duration) == Ok(range)
  {}

  /** The text that the repository's tests expect. */
  lemma PrintedTimeExample(t: RationalTime)
    requires t.value == -1001 && t.rate == RationalRate(30000, 1001)
    ensures PrintTime(t) == "-1001@30000/1001"
  {
    assert PrintNat(1001) == "1001" && PrintNat(30000) == "30000";
  }
}
