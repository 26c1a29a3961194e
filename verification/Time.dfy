/** Exact rates, times and ranges (crates/postproject-core/src/time.rs). */
module Time {
  import opened Wrappers
  import opened Machine
  import opened Euclid

  datatype RationalRate = RationalRate(numerator: U32, denominator: U32) {
    /** What the private fields of a constructed rate always satisfy. */
    predicate Valid() {
      numerator > 0 && denominator > 0 && Coprime(numerator, denominator)
    }
  }

  type Rate = r: RationalRate | r.Valid() witness RationalRate(1, 1)

  datatype Order = Less | Equal | Greater

  datatype RationalTime = RationalTime(value: I64, rate: Rate)

  datatype TimeRangeData = TimeRangeData(start: RationalTime, duration: RationalTime) {
    predicate Valid() {
      duration.value >= 0 && start.rate == duration.rate
    }
  }

  type TimeRange = t: TimeRangeData | t.Valid()
    witness TimeRangeData(RationalTime(0, RationalRate(1, 1)), RationalTime(0, RationalRate(1, 1)))

  // ---- Rates ----

  function NewRate(numerator: U32, denominator: U32): Result<Rate> {
    if numerator == 0 || denominator == 0 then
      Err(InvalidArgument)
    else
      var g := Gcd(numerator, denominator);
      QuotientsAreCoprime(numerator, denominator);
      QuotientBounds(numerator, g);
      QuotientBounds(denominator, g);
      Ok(RationalRate(numerator / g, denominator / g))
  }

  lemma QuotientBounds(n: nat, g: nat)
    requires g > 0 && n > 0 && n == g * (n / g)
    ensures 0 < n / g <= n
  {
    MulBounds(g, n / g);
  }

  /** `RationalRate::new`, with its gcd loop. */
  method ConstructRate(numerator: U32, denominator: U32) returns (rate: Result<Rate>)
    ensures rate == NewRate(numerator, denominator)
    ensures rate.Ok? <==> numerator != 0 && denominator != 0
    ensures rate.Ok? ==> rate.value.numerator * denominator == numerator * rate.value.denominator
  {
    if numerator == 0 || denominator == 0 {
      return Err(InvalidArgument);
    }
    var divisor := GreatestCommonDivisor(numerator, denominator);
    RateKeepsRatio(numerator, denominator);
    rate := Ok(RationalRate(numerator / divisor, denominator / divisor));
  }

  lemma RateKeepsRatio(numerator: U32, denominator: U32)
    requires numerator > 0 && denominator > 0
    ensures var r := NewRate(numerator, denominator);
            r.Ok? && r.value.numerator * denominator == numerator * r.value.denominator
  {
    var g := Gcd(numerator, denominator);
    QuotientsAreCoprime(numerator, denominator);
    var n, d := numerator / g, denominator / g;
    MulAssociate(n, g, d);
    MulAssociate(d, g, n);
  }

  /** The constructed rate is the only lowest-terms fraction with the requested ratio. */
  lemma RateIsTheUniqueLowestTerms(numerator: U32, denominator: U32, r: Rate)
    requires numerator > 0 && denominator > 0
    ensures NewRate(numerator, denominator) == Ok(r)
       <==> r.numerator * denominator == numerator * r.denominator
  {
    RateKeepsRatio(numerator, denominator);
    if r.numerator * denominator == numerator * r.denominator {
      var c := NewRate(numerator, denominator).value;
      CrossProductsMeet(c.numerator, c.denominator, numerator, denominator, r.numerator, r.denominator);
      LowestTermsAreUnique(c.numerator, c.denominator, r.numerator, r.denominator);
    }
  }

  /** Structural equality of constructed rates, as `TimeRange::new` tests it, is equality of ratios. */
  lemma EqualRatesAreEqualRatios(n1: U32, d1: U32, n2: U32, d2: U32)
    requires n1 > 0 && d1 > 0 && n2 > 0 && d2 > 0
    ensures NewRate(n1, d1) == NewRate(n2, d2) <==> n1 * d2 == n2 * d1
  {
    RateKeepsRatio(n1, d1);
    RateKeepsRatio(n2, d2);
    var r := NewRate(n2, d2).value;
    RateIsTheUniqueLowestTerms(n1, d1, r);
    if n1 * d2 == n2 * d1 {
      CrossProductsMeet(n1, d1, n2, d2, r.numerator, r.denominator);
    }
    if r.numerator * d1 == n1 * r.denominator {
      CrossProductsMeet(n1, d1, r.numerator, r.denominator, n2, d2);
    }
  }

  // ---- Comparison ----

  function ComparisonProduct(value: I64, denominator: U32, otherNumerator: U32): Result<I128> {
    match CheckedMul128(value, denominator)
    case None => Err(InvalidArgument)
    case Some(product) =>
      match CheckedMul128(product, otherNumerator)
      case None => Err(InvalidArgument)
      case Some(p) => Ok(p)
  }

  function CheckedCmp(a: RationalTime, b: RationalTime): Result<Order> {
    var left :- ComparisonProduct(a.value, a.rate.denominator, b.rate.numerator);
    var right :- ComparisonProduct(b.value, b.rate.denominator, a.rate.numerator);
    Ok(if left < right then Less else if left == right then Equal else Greater)
  }

  function Equivalent(a: RationalTime, b: RationalTime): Result<bool> {
    var order :- CheckedCmp(a, b);
    Ok(order == Equal)
  }

  /** The exact time a value denotes, in seconds. */
  ghost function Seconds(t: RationalTime): real {
    (t.value * t.rate.denominator) as real / t.rate.numerator as real
  }

  /** A rate counts units per second: its numerator of units lasts its denominator of seconds. */
  lemma RateIsPerSecond(rate: Rate)
    ensures Seconds(RationalTime(rate.numerator, rate)) == rate.denominator as real
  {
    var n: int, d: int := rate.numerator, rate.denominator;
    assert (n * d) as real == n as real * d as real;
  }

  /** A 64-bit value times two 32-bit factors stays inside 128 bits. */
  lemma ProductFits(value: I64, x: U32, y: U32)
    ensures I128_MIN <= value * x <= I128_MAX
    ensures I128_MIN <= (value * x) * y <= I128_MAX
  {
    ScaleBounds(value, 0x8000_0000_0000_0000, x, 0x1_0000_0000);
    ScaleBounds(value * x, 0x8000_0000_0000_0000_0000_0000, y, 0x1_0000_0000);
  }

  lemma ScaleBounds(v: int, m: nat, x: nat, k: nat)
    requires 0 - m <= v <= m && x < k
    ensures -(m * k) <= v * x <= m * k
  {
    MulMonotone(v, m, x);
    MulMonotone(0 - m, v, x);
    MulMonotone(x, k, m);
  }

  lemma ComparisonProductSucceeds(value: I64, x: U32, y: U32)
    ensures ComparisonProduct(value, x, y) == Ok((value * x) * y)
  {
    ProductFits(value, x, y);
  }

  lemma CrossMultiply(a: real, b: real, c: real, d: real)
    requires b > 0.0 && d > 0.0
    ensures a / b < c / d <==> a * d < c * b
    ensures a / b == c / d <==> a * d == c * b
  {
    var x, y := a / b, c / d;
    assert a == x * b && c == y * d;
    assert a * d == x * (b * d) && c * b == y * (b * d);
    assert b * d > 0.0;
    if x < y {
      assert (y - x) * (b * d) > 0.0;
    } else if x > y {
      assert (x - y) * (b * d) > 0.0;
    }
  }

  /** The checked comparison never overflows and is the order of the exact times. */
  lemma ComparisonIsExact(a: RationalTime, b: RationalTime)
    ensures CheckedCmp(a, b) == Ok(
      if Seconds(a) < Seconds(b) then Less else if Seconds(a) == Seconds(b) then Equal else Greater)
    ensures Equivalent(a, b) == Ok(Seconds(a) == Seconds(b))
  {
    ComparisonProductSucceeds(a.value, a.rate.denominator, b.rate.numerator);
    ComparisonProductSucceeds(b.value, b.rate.denominator, a.rate.numerator);
    var x, y := a.value * a.rate.denominator, b.value * b.rate.denominator;
    CrossMultiply(x as real, a.rate.numerator as real, y as real, b.rate.numerator as real);
    assert (x * b.rate.numerator) as real == x as real * b.rate.numerator as real;
    assert (y * a.rate.numerator) as real == y as real * a.rate.numerator as real;
  }

  ghost predicate AtMost(a: RationalTime, b: RationalTime) {
    CheckedCmp(a, b) == Ok(Less) || CheckedCmp(a, b) == Ok(Equal)
  }

  /** At any mix of rates the comparison is a total preorder, antisymmetric up to `equivalent`. */
  lemma ComparisonIsATotalPreorder(a: RationalTime, b: RationalTime, c: RationalTime)
    ensures AtMost(a, b) || AtMost(b, a)
    ensures AtMost(a, b) && AtMost(b, c) ==> AtMost(a, c)
    ensures AtMost(a, b) && AtMost(b, a) <==> Equivalent(a, b) == Ok(true)
    ensures CheckedCmp(a, b) == Ok(Less) <==> CheckedCmp(b, a) == Ok(Greater)
  {
    ComparisonIsExact(a, b);
    ComparisonIsExact(b, a);
    ComparisonIsExact(b, c);
    ComparisonIsExact(a, c);
  }

  // ---- Rescaling ----

  function RescaledTo(t: RationalTime, rate: Rate): Result<RationalTime> {
    match CheckedMul128(t.value, rate.numerator)
    case None => Err(InvalidArgument)
    case Some(scaled) =>
      match CheckedMul128(scaled, t.rate.denominator)
      case None => Err(InvalidArgument)
      case Some(numerator) =>
        match CheckedMul128(t.rate.numerator, rate.denominator)
        case None => Err(InvalidArgument)
        case Some(denominator) =>
          MulBounds(t.rate.numerator, rate.denominator);
          if TruncRem(numerator, denominator) != 0 then
            Err(InvalidArgument)
          else
            var value := TruncDiv(numerator, denominator);
            if I64_MIN <= value <= I64_MAX then Ok(RationalTime(value, rate)) else Err(InvalidArgument)
  }

  /** Equal exact times are equal cross products. */
  lemma SameSeconds(v: int, a: Rate, w: int, b: Rate)
    ensures (v * a.denominator) as real / a.numerator as real
         == (w * b.denominator) as real / b.numerator as real
       <==> IsProduct((v * b.numerator) * a.denominator, a.numerator * b.denominator, w)
  {
    var x, y := v * a.denominator, w * b.denominator;
    CrossMultiply(x as real, a.numerator as real, y as real, b.numerator as real);
    assert (x * b.numerator) as real == x as real * b.numerator as real;
    assert (y * a.numerator) as real == y as real * a.numerator as real;
    MulAssociate(v, b.numerator, a.denominator);
    MulAssociate(v, a.denominator, b.numerator);
    MulAssociate(a.numerator, b.denominator, w);
  }

  /** Rescaling returns the one value that denotes the same time at the target rate, when there is one. */
  lemma RescalingIsExact(t: RationalTime, rate: Rate, w: I64)
    ensures RescaledTo(t, rate) == Ok(RationalTime(w, rate))
       <==> Seconds(RationalTime(w, rate)) == Seconds(t)
  {
    ProductFits(t.value, rate.numerator, t.rate.denominator);
    ProductFits(t.rate.numerator, rate.denominator, 1);
    var n, d := (t.value * rate.numerator) * t.rate.denominator, t.rate.numerator * rate.denominator;
    MulBounds(t.rate.numerator, rate.denominator);
    SameSeconds(t.value, t.rate, w, rate);
    TruncExact(n, d);
    if IsProduct(n, d, w) {
      TruncIs(n, d, w);
    }
  }

  /** It succeeds exactly when some 64-bit value at the target rate denotes the same time. */
  lemma RescalingSucceedsExactly(t: RationalTime, rate: Rate)
    ensures RescaledTo(t, rate).Ok?
       <==> exists w: I64 :: Seconds(RationalTime(w, rate)) == Seconds(t)
    ensures RescaledTo(t, rate).Ok? ==>
      && RescaledTo(t, rate).value.rate == rate
      && Equivalent(t, RescaledTo(t, rate).value) == Ok(true)
  {
    if RescaledTo(t, rate).Ok? {
      var r := RescaledTo(t, rate).value;
      RescalingIsExact(t, rate, r.value);
      ComparisonIsExact(t, r);
      assert Seconds(RationalTime(r.value, rate)) == Seconds(t);
    }
    if w: I64 :| Seconds(RationalTime(w, rate)) == Seconds(t) {
      RescalingIsExact(t, rate, w);
    }
  }

  /** Rescaling back to the original rate returns the original value. */
  lemma RescalingRoundTrip(t: RationalTime, rate: Rate)
    requires RescaledTo(t, rate).Ok?
    ensures RescaledTo(RescaledTo(t, rate).value, t.rate) == Ok(t)
  {
    var r := RescaledTo(t, rate).value;
    RescalingIsExact(t, rate, r.value);
    RescalingIsExact(r, t.rate, t.value);
  }

  // ---- Ranges ----

  function NewRange(start: RationalTime, duration: RationalTime): Result<TimeRange> {
    if duration.value < 0 then
      Err(InvalidArgument)
    else if start.rate != duration.rate then
      Err(InvalidArgument)
    else
      Ok(TimeRangeData(start, duration))
  }

  /** A range is accepted exactly for a duration that is not negative, at a rate equal to that of the start. */
  lemma RangeAcceptsExactly(start: RationalTime, duration: RationalTime)
    ensures NewRange(start, duration).Ok?
       <==> && Seconds(duration) >= 0.0
            && start.rate.numerator * duration.rate.denominator == duration.rate.numerator * start.rate.denominator
    ensures NewRange(start, duration).Ok? ==>
      NewRange(start, duration).value.start == start && NewRange(start, duration).value.duration == duration
  {
    SecondsKeepTheSign(duration);
    if start.rate.numerator * duration.rate.denominator == duration.rate.numerator * start.rate.denominator {
      LowestTermsAreUnique(start.rate.numerator, start.rate.denominator,
                           duration.rate.numerator, duration.rate.denominator);
    }
  }

  lemma SecondsKeepTheSign(t: RationalTime)
    ensures Seconds(t) >= 0.0 <==> t.value >= 0
  {
    var d, n := t.rate.denominator, t.rate.numerator as real;
    if t.value >= 0 {
      MulMonotone(0, t.value, d);
      AddOverCommonDenominator(0.0, (t.value * d) as real, n);
    } else {
      MulMonotone(t.value, -1, d);
      NegativeQuotient((t.value * d) as real, n);
    }
  }

  lemma NegativeQuotient(x: real, n: real)
    requires x < 0.0 && n > 0.0
    ensures x / n < 0.0
  {
    assert x == (x / n) * n;
  }

  function EndExclusive(range: TimeRange): Result<RationalTime> {
    var value := range.start.value + range.duration.value;
    if I64_MIN <= value <= I64_MAX then Ok(RationalTime(value, range.start.rate)) else Err(InvalidArgument)
  }

  /** There is an end exactly when the exact sum is a 64-bit value at the rate; it is never before the start. */
  lemma EndIsStartPlusDuration(range: TimeRange)
    ensures EndExclusive(range).Ok? <==> exists w: I64 :: IsEnd(range, RationalTime(w, range.start.rate))
    ensures EndExclusive(range).Ok? ==>
      IsEnd(range, EndExclusive(range).value) && AtMost(range.start, EndExclusive(range).value)
  {
    var rate, sum := range.start.rate, range.start.value + range.duration.value;
    if EndExclusive(range).Ok? {
      SumOfSeconds(range, sum);
      ComparisonIsExact(range.start, EndExclusive(range).value);
      assert IsEnd(range, RationalTime(sum, rate));
    }
    if w: I64 :| IsEnd(range, RationalTime(w, rate)) {
      SumOfSeconds(range, w);
    }
  }

  ghost predicate IsEnd(range: TimeRange, end: RationalTime) {
    Seconds(end) == Seconds(range.start) + Seconds(range.duration)
  }

  lemma SumOfSeconds(range: TimeRange, w: int)
    ensures var rate := range.start.rate;
      && ((w * rate.denominator) as real / rate.numerator as real == Seconds(range.start) + Seconds(range.duration)
          <==> w == range.start.value + range.duration.value)
      && Seconds(range.duration) >= 0.0
  {
    var d, n := range.start.rate.denominator, range.start.rate.numerator;
    var s, l := range.start.value, range.duration.value;
    MulMonotone(0, l, d);
    SumOverDenominator(s * d, l * d, w * d, n as real);
    SameMultiple(s, l, w, d);
  }

  lemma SumOverDenominator(a: int, b: int, c: int, n: real)
    requires n > 0.0 && b >= 0
    ensures c as real / n == a as real / n + b as real / n <==> c == a + b
    ensures b as real / n >= 0.0
  {
    AddOverCommonDenominator(a as real, b as real, n);
    SameQuotient(c as real, (a + b) as real, n);
  }

  lemma SameQuotient(x: real, y: real, n: real)
    requires n > 0.0
    ensures x / n == y / n <==> x == y
  {
    assert x == (x / n) * n && y == (y / n) * n;
  }

  lemma SameMultiple(s: int, l: int, w: int, d: nat)
    requires d > 0
    ensures w * d == s * d + l * d <==> w == s + l
  {
    MulDistribute(d, s, l);
    if w * d == s * d + l * d {
      MulCancel(d, w, s + l);
    }
  }

  lemma AddOverCommonDenominator(x: real, y: real, n: real)
    requires n > 0.0
    ensures (x + y) / n == x / n + y / n
    ensures y >= 0.0 ==> y / n >= 0.0
  {}
}
