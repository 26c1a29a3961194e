/** Euclid's algorithm and the divisibility facts the exact-arithmetic values rest on. */
module Euclid {
  import opened Machine

  /** d divides n: n is a whole multiple of d. */
  ghost predicate Divides(d: int, n: int) {
    exists k :: IsProduct(n, d, k)
  }

  ghost predicate IsGcd(g: nat, a: nat, b: nat) {
    && Divides(g, a)
    && Divides(g, b)
    && forall d: int :: Divides(d, a) && Divides(d, b) ==> Divides(d, g)
  }

  function Gcd(a: nat, b: nat): nat
    decreases b
  {
    if b == 0 then a else Gcd(b, a % b)
  }

  predicate Coprime(a: nat, b: nat) {
    Gcd(a, b) == 1
  }

  /** The loop of `greatest_common_divisor` (the u32 and the u64 copy are the same code). */
  method GreatestCommonDivisor(left: U64, right: U64) returns (gcd: U64)
    ensures gcd == Gcd(left, right)
    ensures IsGcd(gcd, left, right)
  {
    var l, r := left, right;
    while r != 0
      invariant Gcd(l, r) == Gcd(left, right)
      decreases r
    {
      var remainder := l % r;
      l := r;
      r := remainder;
    }
    GcdIsGreatest(left, right);
    gcd := l;
  }

  lemma DividesSum(d: int, m: int, n: int, x: int, y: int)
    requires Divides(d, m) && Divides(d, n)
    ensures Divides(d, m * x + n * y)
  {
    var km :| IsProduct(m, d, km);
    var kn :| IsProduct(n, d, kn);
    MulAssociate(d, km, x);
    MulAssociate(d, kn, y);
    MulDistribute(d, km * x, kn * y);
    assert IsProduct(m * x + n * y, d, km * x + kn * y);
  }

  /** One step of the algorithm keeps the set of common divisors. */
  lemma StepKeepsDivisors(d: int, a: nat, b: nat, q: int, r: int)
    requires a == b * q + r
    ensures Divides(d, a) && Divides(d, b) <==> Divides(d, b) && Divides(d, r)
  {
    if Divides(d, b) && Divides(d, r) {
      DividesSum(d, b, r, q, 1);
    }
    if Divides(d, a) && Divides(d, b) {
      MulNegate(b, q);
      DividesSum(d, a, b, 1, -q);
    }
  }

  /** The recursion computes the greatest common divisor in the divisibility order. */
  lemma {:induction false} GcdIsGreatest(a: nat, b: nat)
    ensures IsGcd(Gcd(a, b), a, b)
    ensures a > 0 || b > 0 ==> Gcd(a, b) > 0
    decreases b
  {
    if b == 0 {
      assert IsProduct(a, a, 1) && IsProduct(0, a, 0);
    } else {
      GcdIsGreatest(b, a % b);
      StepKeepsDivisors(Gcd(a, b), a, b, a / b, a % b);
      forall d: int | Divides(d, a) && Divides(d, b)
        ensures Divides(d, Gcd(a, b))
      {
        StepKeepsDivisors(d, a, b, a / b, a % b);
      }
    }
  }

  /** Bezout's coefficients. */
  function Bezout(a: nat, b: nat): (c: (int, int))
    ensures a * c.0 + b * c.1 == Gcd(a, b)
    decreases b
  {
    if b == 0 then
      (1, 0)
    else
      var (x, y) := Bezout(b, a % b);
      BezoutStep(a, b, x, y);
      (y, x - (a / b) * y)
  }

  lemma BezoutStep(a: nat, b: nat, x: int, y: int)
    requires b > 0
    ensures a * y + b * (x - (a / b) * y) == b * x + (a % b) * y
  {
    var q, r := a / b, a % b;
    MulDistribute(y, b * q, r);
    MulAssociate(b, q, y);
    MulDistribute(b, x, -(q * y));
    MulNegate(b, q * y);
  }

  /** Euclid's lemma: a divisor coprime to one factor divides the other. */
  lemma EuclidsLemma(a: nat, b: nat, c: int)
    requires Coprime(a, b) && Divides(a, b * c)
    ensures Divides(a, c)
  {
    hide Bezout, Gcd;
    var (x, y) := Bezout(a, b);
    assert IsProduct(a * c, a, c);
    DividesSum(a, a * c, b * c, x, y);
    assert (a * c) * x + (b * c) * y == c by {
      MulDistribute(c, a * x, b * y);
      MulAssociate(c, a, x);
      MulAssociate(c, b, y);
    }
  }

  lemma MutualDivisorsAreEqual(a: nat, b: nat)
    requires Divides(a, b) && Divides(b, a)
    ensures a == b
  {
    var k :| IsProduct(b, a, k);
    var m :| IsProduct(a, b, m);
    if a > 0 && b > 0 {
      MulBounds(a, k);
      MulBounds(b, m);
    }
  }

  lemma GcdSymmetric(a: nat, b: nat)
    ensures Gcd(a, b) == Gcd(b, a)
  {
    GcdIsGreatest(a, b);
    GcdIsGreatest(b, a);
    MutualDivisorsAreEqual(Gcd(a, b), Gcd(b, a));
  }

  /** Dividing both numbers by their gcd leaves coprime numbers. */
  lemma QuotientsAreCoprime(a: nat, b: nat)
    requires a > 0 || b > 0
    ensures Gcd(a, b) > 0
    ensures a == Gcd(a, b) * (a / Gcd(a, b)) && b == Gcd(a, b) * (b / Gcd(a, b))
    ensures Coprime(a / Gcd(a, b), b / Gcd(a, b))
  {
    hide Gcd;
    var g := Gcd(a, b);
    GcdIsGreatest(a, b);
    ExactQuotient(g, a);
    ExactQuotient(g, b);
    ScaledGcd(g, a, b, a / g, b / g);
  }

  lemma ScaledGcd(g: nat, a: nat, b: nat, p: nat, q: nat)
    requires g > 0 && IsGcd(g, a, b) && a == g * p && b == g * q
    ensures Coprime(p, q)
  {
    var h := Gcd(p, q);
    GcdIsGreatest(p, q);
    ProductDividesScaled(g, h, p);
    ProductDividesScaled(g, h, q);
    ScaledDivisorIsOne(g, h);
  }

  lemma ExactQuotient(d: nat, n: nat)
    requires d > 0 && Divides(d, n)
    ensures n == d * (n / d)
  {
    var k :| IsProduct(n, d, k);
    RemainderIs(n, d, k, 0);
  }

  lemma ScaledDivisorIsOne(g: nat, h: nat)
    requires g > 0 && Divides(g * h, g)
    ensures h == 1
  {
    var m :| IsProduct(g, g * h, m);
    MulAssociate(g, h, m);
    MulCancel(g, 1, h * m);
    assert IsProduct(1, h, m) && IsProduct(h, 1, h);
    MutualDivisorsAreEqual(h, 1);
  }

  lemma ProductDividesScaled(g: int, h: int, k: int)
    requires Divides(h, k)
    ensures Divides(g * h, g * k)
  {
    var m :| IsProduct(k, h, m);
    MulAssociate(g, h, m);
    assert IsProduct(g * k, g * h, m);
  }

  /** Equality of cross products is transitive through a non-zero fraction. */
  lemma CrossProductsMeet(n1: int, d1: int, n2: int, d2: int, n3: int, d3: int)
    requires d2 != 0 && n1 * d2 == n2 * d1 && n3 * d2 == n2 * d3
    ensures n1 * d3 == n3 * d1
  {
    MulAssociate(d2, n1, d3);
    MulAssociate(d3, n2, d1);
    MulAssociate(d1, n2, d3);
    MulAssociate(d2, n3, d1);
    MulCancel(d2, n1 * d3, n3 * d1);
  }

  /** Two fractions in lowest terms with the same cross products are the same fraction. */
  lemma LowestTermsAreUnique(n1: int, d1: nat, n2: int, d2: nat)
    requires d1 > 0 && d2 > 0
    requires Coprime(Abs(n1), d1) && Coprime(Abs(n2), d2)
    requires n1 * d2 == n2 * d1
    ensures n1 == n2 && d1 == d2
  {
    DenominatorDivides(n1, d1, n2, d2);
    DenominatorDivides(n2, d2, n1, d1);
    MutualDivisorsAreEqual(d1, d2);
    MulCancel(d1, n1, n2);
  }

  lemma DenominatorDivides(n1: int, d1: nat, n2: int, d2: nat)
    requires Coprime(Abs(n1), d1) && n1 * d2 == n2 * d1
    ensures Divides(d1, d2)
  {
    if n1 < 0 {
      MulNegate(d2, n1);
      MulNegate(d1, n2);
      assert IsProduct(Abs(n1) * d2, d1, -n2);
    } else {
      assert IsProduct(Abs(n1) * d2, d1, n2);
    }
    GcdSymmetric(Abs(n1), d1);
    EuclidsLemma(d1, Abs(n1), d2);
  }
}
