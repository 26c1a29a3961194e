/** The fixed-width integers of the implementation, as ranges of the unbounded integers. */
module Machine {
  import opened Wrappers

  const U8_MAX := 0xFF
  const U32_MAX := 0xFFFF_FFFF
  const U64_MAX := 0xFFFF_FFFF_FFFF_FFFF
  const I64_MAX := 0x7FFF_FFFF_FFFF_FFFF
  const I64_MIN := -0x8000_0000_0000_0000
  const I128_MAX := 0x7FFF_FFFF_FFFF_FFFF_FFFF_FFFF_FFFF_FFFF
  const I128_MIN := -0x8000_0000_0000_0000_0000_0000_0000_0000

  type U8 = x: int | 0 <= x <= U8_MAX
  type U32 = x: int | 0 <= x <= U32_MAX
  type U64 = x: int | 0 <= x <= U64_MAX
  type I64 = x: int | I64_MIN <= x <= I64_MAX
  type I128 = x: int | I128_MIN <= x <= I128_MAX

  /** `i128::checked_mul`. */
  function CheckedMul128(a: I128, b: I128): Option<I128> {
    if I128_MIN <= a * b <= I128_MAX then Some(a * b) else None
  }

  function Abs(x: int): nat {
    if x < 0 then -x else x
  }

  /** Division as the implementation language performs it: towards zero. */
  function TruncDiv(a: int, b: int): int
    requires b != 0
  {
    if a >= 0 then a / b else -((-a) / b)
  }

  /** The remainder that belongs to TruncDiv: it takes the sign of the dividend. */
  function TruncRem(a: int, b: int): int
    requires b != 0
  {
    a - b * TruncDiv(a, b)
  }

  /** An exact truncating division multiplies back, and exactness is divisibility. */
  lemma TruncExact(a: int, b: int)
    requires b > 0
    ensures TruncRem(a, b) == 0 <==> exists k :: IsProduct(a, b, k)
    ensures TruncRem(a, b) == 0 ==> IsProduct(a, b, TruncDiv(a, b))
  {
    if TruncRem(a, b) == 0 {
      assert IsProduct(a, b, TruncDiv(a, b));
    }
    if k :| IsProduct(a, b, k) {
      TruncIs(a, b, k);
    }
  }

  /** a is b * k; naming the product keeps the solver from multiplying at random. */
  ghost predicate IsProduct(a: int, b: int, k: int) {
    a == b * k
  }

  lemma TruncIs(a: int, b: int, k: int)
    requires b > 0 && IsProduct(a, b, k)
    ensures TruncDiv(a, b) == k && TruncRem(a, b) == 0
  {
    if a >= 0 {
      RemainderIs(a, b, k, 0);
    } else {
      MulNegate(b, k);
      RemainderIs(-a, b, -k, 0);
    }
  }

  /** The Euclidean quotient and remainder are determined by any decomposition. */
  lemma RemainderIs(a: int, b: int, q: int, r: int)
    requires b > 0 && a == b * q + r && 0 <= r < b
    ensures a / b == q && a % b == r
  {
    var q', r' := a / b, a % b;
    assert b * (q - q') == r' - r by {
      MulDistribute(b, q, -q');
      MulNegate(b, q');
    }
    MulBounds(b, q - q');
  }

  // Small facts about products, called where the solver would otherwise search.

  lemma MulNegate(a: int, b: int)
    ensures a * -b == -(a * b)
  {}

  lemma MulDistribute(a: int, b: int, c: int)
    ensures a * (b + c) == a * b + a * c
  {}

  lemma MulAssociate(a: int, b: int, c: int)
    ensures a * (b * c) == (a * b) * c
  {}

  /** A multiple of b that is smaller than b in size is zero. */
  lemma MulBounds(b: int, k: int)
    requires b > 0
    ensures k >= 1 ==> b * k >= b && b * k >= k
    ensures k <= -1 ==> b * k <= -b && b * k <= k
    ensures k == 0 ==> b * k == 0
  {}

  lemma MulCancel(f: int, x: int, y: int)
    requires f != 0 && f * x == f * y
    ensures x == y
  {}

  lemma MulMonotone(a: int, b: int, c: nat)
    requires a <= b
    ensures a * c <= b * c
  {}
}
