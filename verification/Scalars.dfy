/** Exact metadata numbers: decimals and rationals (crates/postproject-core/src/metadata.rs). */
module Scalars {
  import opened Wrappers
  import opened Machine
  import opened Euclid

  const MAX_METADATA_DECIMAL_SCALE := 1024

  // ---- Decimals: coefficient * 10^-scale ----

  datatype DecimalData = Decimal(coefficient: I128, scale: U32) {
    predicate Valid() {
      scale <= MAX_METADATA_DECIMAL_SCALE && (scale == 0 || coefficient % 10 != 0)
    }
  }

  type DecimalValue = d: DecimalData | d.Valid() witness Decimal(0, 0)

  function Pow10(n: nat): nat {
    if n == 0 then 1 else 10 * Pow10(n - 1)
  }

  /** Two coefficient-scale pairs denote the same number. */
  predicate SameDecimal(c1: int, s1: nat, c2: int, s2: nat) {
    c1 * Pow10(s2) == c2 * Pow10(s1)
  }

  /** Stripping trailing fractional zeros. */
  function Strip(coefficient: int, scale: nat): (int, nat)
    decreases scale
  {
    if scale > 0 && TruncRem(coefficient, 10) == 0 then
      Strip(TruncDiv(coefficient, 10), scale - 1)
    else
      (coefficient, scale)
  }

  function NewDecimal(coefficient: I128, scale: U32): Result<DecimalValue> {
    var (c, s) := Strip(coefficient, scale);
    StripBounds(coefficient, scale);
    if s > MAX_METADATA_DECIMAL_SCALE then Err(InvalidArgument) else Ok(Decimal(c, s))
  }

  lemma {:induction false} StripBounds(coefficient: int, scale: nat)
    ensures Strip(coefficient, scale).1 <= scale
    ensures Abs(Strip(coefficient, scale).0) <= Abs(coefficient)
    ensures coefficient >= 0 <==> Strip(coefficient, scale).0 >= 0
    ensures Strip(coefficient, scale).1 == 0 || Strip(coefficient, scale).0 % 10 != 0
    decreases scale
  {
    if scale > 0 && TruncRem(coefficient, 10) == 0 {
      StripBounds(TruncDiv(coefficient, 10), scale - 1);
    }
  }

  /** `DecimalValue::new`, as its loop runs. */
  method ConstructDecimal(coefficient: I128, scale: U32) returns (decimal: Result<DecimalValue>)
    ensures decimal == NewDecimal(coefficient, scale)
    ensures decimal.Ok? ==> SameDecimal(coefficient, scale, decimal.value.coefficient, decimal.value.scale)
  {
    var c: int, s: int := coefficient, scale;
    while s > 0 && TruncRem(c, 10) == 0
      invariant 0 <= s <= scale && Strip(c, s) == Strip(coefficient, scale)
      decreases s
    {
      c := TruncDiv(c, 10);
      s := s - 1;
    }
    StripBounds(coefficient, scale);
    StripKeepsValue(coefficient, scale);
    if s > MAX_METADATA_DECIMAL_SCALE {
      return Err(InvalidArgument);
    }
    decimal := Ok(Decimal(c, s));
  }

  lemma {:induction false} Pow10Add(a: nat, b: nat)
    ensures Pow10(a + b) == Pow10(a) * Pow10(b)
    ensures Pow10(a) > 0
  {
    if a > 0 {
      Pow10Add(a - 1, b);
      MulAssociate(10, Pow10(a - 1), Pow10(b));
    }
  }

  lemma {:induction false} StripKeepsValue(coefficient: int, scale: nat)
    ensures var (c, s) := Strip(coefficient, scale); SameDecimal(coefficient, scale, c, s)
    decreases scale
  {
    if scale > 0 && TruncRem(coefficient, 10) == 0 {
      var q := TruncDiv(coefficient, 10);
      StripKeepsValue(q, scale - 1);
      var (c, s) := Strip(q, scale - 1);
      ExactTen(coefficient);
      ScaleByTen(q, Pow10(s), c, Pow10(scale - 1));
    }
  }

  lemma ExactTen(x: int)
    requires TruncRem(x, 10) == 0
    ensures x == 10 * TruncDiv(x, 10)
  {}

  lemma ScaleByTen(q: int, high: nat, c: int, low: nat)
    requires q * high == c * low
    ensures (10 * q) * high == c * (10 * low)
  {
    MulAssociate(10, q, high);
    MulAssociate(c, 10, low);
    MulAssociate(10, c, low);
  }

  lemma SameDecimalTransitive(c1: int, s1: nat, c2: int, s2: nat, c3: int, s3: nat)
    requires SameDecimal(c1, s1, c2, s2) && SameDecimal(c2, s2, c3, s3)
    ensures SameDecimal(c1, s1, c3, s3)
  {
    hide Pow10;
    var p1, p2, p3 := Pow10(s1), Pow10(s2), Pow10(s3);
    Pow10Add(s2, 0);
    MulAssociate(p2, c1, p3);
    MulAssociate(p3, c2, p1);
    MulAssociate(p1, c2, p3);
    MulAssociate(p2, c3, p1);
    MulCancel(p2, c1 * p3, c3 * p1);
  }

  /** A stripped pair has the least scale of all the pairs that denote its number. */
  lemma StrippedScaleIsLeast(c: int, s: nat, c2: int, t: nat)
    requires s == 0 || c % 10 != 0
    requires SameDecimal(c, s, c2, t)
    ensures s <= t
  {
    if t < s {
      ScaleDown(c, s, c2, t);
    }
  }

  lemma ScaleDown(c: int, s: nat, c2: int, t: nat)
    requires t < s && SameDecimal(c, s, c2, t)
    ensures c % 10 == 0
  {
    var p := Pow10(s - t - 1);
    assert Pow10(s - t) == 10 * p;
    Pow10Add(t, s - t);
    TenTimes(c, c2, p, Pow10(t), Pow10(s));
  }

  lemma TenTimes(c: int, c2: int, p: nat, low: nat, high: nat)
    requires low > 0 && high == low * (10 * p) && c * low == c2 * high
    ensures c % 10 == 0
  {
    MulAssociate(c2, 10 * p, low);
    MulCancel(low, c, c2 * (10 * p));
    MulAssociate(c2, 10, p);
    MulAssociate(10, c2, p);
  }

  /** Accepted decimals are the same value exactly when they denote the same number. */
  lemma DecimalsAreCanonical(c1: I128, s1: U32, c2: I128, s2: U32)
    requires NewDecimal(c1, s1).Ok? && NewDecimal(c2, s2).Ok?
    ensures NewDecimal(c1, s1) == NewDecimal(c2, s2) <==> SameDecimal(c1, s1, c2, s2)
  {
    hide Strip, Pow10;
    var a, b := Strip(c1, s1), Strip(c2, s2);
    StripKeepsValue(c1, s1);
    StripKeepsValue(c2, s2);
    StripBounds(c1, s1);
    StripBounds(c2, s2);
    if a == b {
      SameDecimalTransitive(c1, s1, a.0, a.1, c2, s2);
    }
    if SameDecimal(c1, s1, c2, s2) {
      SameDecimalTransitive(a.0, a.1, c1, s1, c2, s2);
      SameDecimalTransitive(a.0, a.1, c2, s2, b.0, b.1);
      StrippedAreEqual(a.0, a.1, b.0, b.1);
    }
  }

  lemma StrippedAreEqual(c: int, s: nat, c2: int, t: nat)
    requires (s == 0 || c % 10 != 0) && (t == 0 || c2 % 10 != 0)
    requires SameDecimal(c, s, c2, t)
    ensures c == c2 && s == t
  {
    hide Pow10;
    StrippedScaleIsLeast(c, s, c2, t);
    StrippedScaleIsLeast(c2, t, c, s);
    Pow10Add(s, 0);
    MulCancel(Pow10(s), c, c2);
  }

  /** Construction fails exactly when no pair with an allowed scale denotes the number. */
  lemma DecimalFailsExactly(coefficient: I128, scale: U32)
    ensures NewDecimal(coefficient, scale).Err?
       <==> forall c: int, t: nat :: SameDecimal(coefficient, scale, c, t) ==> t > 1024
  {
    hide Strip, Pow10;
    var a := Strip(coefficient, scale);
    StripKeepsValue(coefficient, scale);
    StripBounds(coefficient, scale);
    forall c: int, t: nat | SameDecimal(coefficient, scale, c, t)
      ensures a.1 <= t
    {
      SameDecimalTransitive(a.0, a.1, coefficient, scale, c, t);
      StrippedScaleIsLeast(a.0, a.1, c, t);
    }
  }

  /** A stored decimal is its own normal form. */
  lemma DecimalIsFixed(d: DecimalValue)
    ensures NewDecimal(d.coefficient, d.scale) == Ok(d)
  {}

  // ---- Rationals ----

  datatype RationalData = Rational(numerator: I64, denominator: U64) {
    predicate Valid() {
      denominator > 0 && Coprime(Abs(numerator), denominator)
    }
  }

  type RationalValue = r: RationalData | r.Valid() witness Rational(0, 1)

  function NewRational(numerator: I64, denominator: U64): Result<RationalValue> {
    if denominator == 0 then
      Err(InvalidArgument)
    else
      var divisor := Gcd(Abs(numerator), denominator);
      RationalIsValid(numerator, denominator);
      Ok(Rational(NormalizedNumerator(numerator, divisor), denominator / divisor))
  }

  /** The quotient, with the implementation's fallback for a divisor outside the signed type. */
  function NormalizedNumerator(numerator: int, divisor: nat): int
    requires divisor > 0
  {
    if divisor <= I64_MAX then TruncDiv(numerator, divisor) else -1
  }

  lemma RationalIsValid(numerator: I64, denominator: U64)
    requires denominator > 0
    ensures var g := Gcd(Abs(numerator), denominator);
      && g > 0
      && I64_MIN <= NormalizedNumerator(numerator, g) <= I64_MAX
      && 0 < denominator / g <= U64_MAX
      && Coprime(Abs(NormalizedNumerator(numerator, g)), denominator / g)
  {
    hide Gcd;
    var g := Gcd(Abs(numerator), denominator);
    RationalParts(numerator, denominator);
    if g > I64_MAX {
      RemainderIs(denominator, g, 1, 0);
      GcdOfOne();
    }
  }

  lemma GcdOfOne()
    ensures Gcd(1, 1) == 1
  {}

  /** The inputs whose gcd does not fit the signed type. */
  predicate LosesZero(numerator: I64, denominator: U64) {
    numerator == 0 && denominator > I64_MAX
  }

  lemma TruncDivOfAbs(n: int, g: nat)
    requires g > 0
    ensures Abs(TruncDiv(n, g)) == Abs(n) / g
    ensures Abs(n) == g * (Abs(n) / g) ==> n == g * TruncDiv(n, g)
  {
    MulNegate(g, Abs(n) / g);
  }

  /** What the division by the gcd gives, in the ordinary case and in the overflowing one. */
  lemma RationalParts(numerator: I64, denominator: U64)
    requires denominator > 0
    ensures var g := Gcd(Abs(numerator), denominator);
      && g > 0
      && 0 < denominator / g <= denominator
      && denominator == g * (denominator / g)
      && (g <= I64_MAX ==>
            && numerator == g * TruncDiv(numerator, g)
            && I64_MIN <= TruncDiv(numerator, g) <= I64_MAX
            && Coprime(Abs(TruncDiv(numerator, g)), denominator / g))
      && (g > I64_MAX ==>
            && denominator == g
            && (numerator == 0 || (numerator == I64_MIN && g == I64_MAX + 1)))
  {
    hide Gcd;
    var g := Gcd(Abs(numerator), denominator);
    QuotientsAreCoprime(Abs(numerator), denominator);
    TruncDivOfAbs(numerator, g);
    PositiveQuotient(denominator, g, denominator / g);
    ScaledSize(g, Abs(numerator) / g);
    ScaledSize(g, denominator / g);
    if g > I64_MAX {
      MoreThanHalf(g, denominator / g, denominator);
      MoreThanHalf(g, Abs(numerator) / g, Abs(numerator));
    }
  }

  lemma PositiveQuotient(n: nat, g: nat, q: int)
    requires n > 0 && g > 0 && n == g * q
    ensures 0 < q <= n
  {
    MulBounds(g, q);
  }

  lemma ScaledSize(g: nat, q: nat)
    requires g > 0
    ensures q <= g * q
  {
    MulBounds(g, q);
  }

  lemma MoreThanHalf(g: nat, q: nat, n: nat)
    requires n == g * q && n < 2 * g
    ensures q == 0 || (q == 1 && n == g)
  {
    if q >= 2 {
      MulMonotone(2, q, g);
    }
  }

  /**
   * `RationalValue::new`, with its gcd loop. The result is in lowest terms, and it is the requested
   * number exactly when the request is not a zero over a denominator of at least 2^63.
   */
  method ConstructRational(numerator: I64, denominator: U64) returns (rational: Result<RationalValue>)
    ensures rational == NewRational(numerator, denominator)
    ensures rational.Ok? <==> denominator != 0
    ensures rational.Ok? ==>
      (rational.value.numerator * denominator == numerator * rational.value.denominator
       <==> !LosesZero(numerator, denominator))
  {
    if denominator == 0 {
      return Err(InvalidArgument);
    }
    var divisor := GreatestCommonDivisor(Abs(numerator), denominator);
    RationalParts(numerator, denominator);
    RationalKeepsValueExactly(numerator, denominator);
    RationalIsValid(numerator, denominator);
    rational := Ok(Rational(NormalizedNumerator(numerator, divisor), denominator / divisor));
  }

  lemma RationalKeepsValueExactly(numerator: I64, denominator: U64)
    requires denominator > 0
    ensures var r := NewRational(numerator, denominator);
      r.Ok? && (r.value.numerator * denominator == numerator * r.value.denominator
                <==> !LosesZero(numerator, denominator))
  {
    hide Gcd;
    var g := Gcd(Abs(numerator), denominator);
    RationalParts(numerator, denominator);
    var d := denominator / g;
    if g <= I64_MAX {
      var n := TruncDiv(numerator, g);
      MulAssociate(n, g, d);
      MulAssociate(d, g, n);
      if numerator == 0 {
        GcdOfZero(denominator);
      }
    } else {
      RemainderIs(denominator, g, 1, 0);
    }
  }

  lemma GcdOfZero(n: nat)
    ensures Gcd(0, n) == n
  {}

  /** Away from the lost zeros the result is the one lowest-terms form of the requested number. */
  lemma RationalIsTheUniqueLowestTerms(numerator: I64, denominator: U64, r: RationalValue)
    requires denominator > 0 && !LosesZero(numerator, denominator)
    ensures NewRational(numerator, denominator) == Ok(r)
       <==> r.numerator * denominator == numerator * r.denominator
  {
    hide Gcd;
    RationalKeepsValueExactly(numerator, denominator);
    if r.numerator * denominator == numerator * r.denominator {
      var c := NewRational(numerator, denominator).value;
      CrossProductsMeet(c.numerator, c.denominator, numerator, denominator, r.numerator, r.denominator);
      LowestTermsAreUnique(c.numerator, c.denominator, r.numerator, r.denominator);
    }
  }

  /** A zero over a denominator of at least 2^63 becomes minus one. */
  lemma LostZeroBecomesMinusOne(denominator: U64)
    requires LosesZero(0, denominator)
    ensures NewRational(0, denominator) == Ok(Rational(-1, 1))
  {
    GcdOfZero(denominator);
    RemainderIs(denominator, denominator, 1, 0);
  }

  /** The smallest numerator over 2^63 is minus one as well, rightly. */
  lemma SmallestOverItsSize()
    ensures NewRational(I64_MIN, 0x8000_0000_0000_0000) == Ok(Rational(-1, 1))
  {
    RationalIsTheUniqueLowestTerms(I64_MIN, 0x8000_0000_0000_0000, Rational(-1, 1));
  }

  /** A stored rational is its own normal form. */
  lemma RationalIsFixed(r: RationalValue)
    ensures NewRational(r.numerator, r.denominator) == Ok(r)
  {
    if r.numerator == 0 {
      GcdOfZero(r.denominator);
    }
    RationalIsTheUniqueLowestTerms(r.numerator, r.denominator, r);
  }
}
