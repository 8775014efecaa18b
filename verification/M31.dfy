// The Mersenne field M31: integers in [0, P) under arithmetic modulo
// P = 2^31 - 1, with the two facts every arithmetic table rests on: P is prime
// (so a product vanishes only with a factor) and small congruences are
// equalities.
module M31 {

  const P: int := 0x7FFF_FFFF

  /** inv(pow2(8)): 256 * 2^23 = 2^31 = P + 1. */
  const INV_256: int := 0x80_0000

  type Felt = x: int | 0 <= x < P witness 0

  function Reduce(x: int): (r: Felt)
    ensures r == x % P
  {
    x % P
  }

  // -- Divisors --------------------------------------------------------------

  ghost predicate Divides(d: int, n: int)
    requires d != 0
  {
    n % d == 0
  }

  ghost predicate IsPrime(p: int) {
    p >= 2 && forall d {:trigger Divides(d, p)} :: 1 < d < p ==> !Divides(d, p)
  }

  lemma MultipleIsDivisible(d: int, k: int)
    requires d > 0
    ensures (k * d) % d == 0
  {
    var q, r := (k * d) / d, (k * d) % d;
    assert (k - q) * d == r;
    assert k - q >= 1 ==> (k - q) * d >= d;
    assert k - q <= -1 ==> (k - q) * d <= -d;
  }

  lemma SumDivisible(d: int, a: int, b: int)
    requires d > 0 && a % d == 0 && b % d == 0
    ensures (a + b) % d == 0 && (a - b) % d == 0
  {
    assert a == (a / d) * d && b == (b / d) * d;
    assert a + b == (a / d + b / d) * d && a - b == (a / d - b / d) * d;
    MultipleIsDivisible(d, a / d + b / d);
    MultipleIsDivisible(d, a / d - b / d);
  }

  lemma ScaledDivisible(d: int, a: int, k: int)
    requires d > 0 && a % d == 0
    ensures (k * a) % d == 0
  {
    assert a == (a / d) * d;
    assert k * a == (k * (a / d)) * d;
    MultipleIsDivisible(d, k * (a / d));
  }

  lemma SmallMultipleIsZero(d: int, x: int)
    requires d > 0 && -d < x < d && x % d == 0
    ensures x == 0
  {
  }

  /** Two numbers are congruent exactly when d divides their difference. */
  lemma Congruent(d: int, a: int, b: int)
    requires d > 0
    ensures a % d == b % d <==> (a - b) % d == 0
  {
    var qa, qb := a / d, b / d;
    assert a == qa * d + a % d && b == qb * d + b % d;
    assert a - b == (qa - qb) * d + (a % d - b % d);
    if a % d == b % d {
      MultipleIsDivisible(d, qa - qb);
    }
    if (a - b) % d == 0 {
      MultipleIsDivisible(d, qa - qb);
      SumDivisible(d, a - b, (qa - qb) * d);
      SmallMultipleIsZero(d, a % d - b % d);
    }
  }

  /** Reducing a factor first does not change a product modulo d. */
  lemma MulMod(a: int, b: int, d: int)
    requires d > 0
    ensures ((a % d) * b) % d == (a * b) % d
  {
    assert a == (a / d) * d + a % d;
    assert a * b - (a % d) * b == (a / d * b) * d;
    MultipleIsDivisible(d, a / d * b);
    Congruent(d, a * b, (a % d) * b);
  }

  lemma MulAssocMod(a: int, b: int, c: int, d: int)
    requires d > 0
    ensures (a * ((b * c) % d)) % d == (((a * b) % d) * c) % d
  {
    var bc := b * c;
    MulMod(bc, a, d);
    MulMod(a * b, c, d);
    assert (bc % d) * a == a * (bc % d);
    assert bc * a == (a * b) * c;
  }

  lemma AddMod(a: int, b: int, d: int)
    requires d > 0
    ensures (a % d + b) % d == (a + b) % d
  {
    assert (a + b) - (a % d + b) == (a / d) * d;
    MultipleIsDivisible(d, a / d);
    Congruent(d, a + b, a % d + b);
  }

  /** Euclid's algorithm with its coefficients. */
  lemma Bezout(a: int, b: int) returns (g: int, u: int, v: int)
    requires a >= 0 && b > 0
    ensures g > 0 && a % g == 0 && b % g == 0 && u * a + v * b == g
    decreases b
  {
    if a % b == 0 {
      g, u, v := b, 0, 1;
      MultipleIsDivisible(b, 1);
    } else {
      var u', v';
      g, u', v' := Bezout(b, a % b);
      var q := a / b;
      assert a == q * b + a % b;
      ScaledDivisible(g, b, q);
      SumDivisible(g, q * b, a % b);
      u, v := v', u' - v' * q;
      assert v' * a == v' * (q * b) + v' * (a % b);
      assert u * a + v * b == v' * a + u' * b - v' * q * b;
      assert v' * (q * b) == v' * q * b;
    }
  }

  lemma EuclidLemma(p: int, a: int, b: int)
    requires IsPrime(p) && (a * b) % p == 0
    ensures a % p == 0 || b % p == 0
  {
    var g, u, v := Bezout(a % p, p);
    if g == p {
      SmallMultipleIsZero(p, a % p);
    } else if g == 1 {
      CombinationDivisible(p, a, b, u, v);
    } else {
      assert Divides(g, p);
      assert false;
    }
  }

  /** b is u * (a % p) * b + v * b * p, a sum of multiples of p. */
  lemma CombinationDivisible(p: int, a: int, b: int, u: int, v: int)
    requires p > 0 && (a * b) % p == 0 && u * (a % p) + v * p == 1
    ensures b % p == 0
  {
    var r := a % p;
    MulMod(a, b, p);
    ScaledDivisible(p, r * b, u);
    MultipleIsDivisible(p, v * b);
    SumDivisible(p, u * (r * b), (v * b) * p);
    assert b == (u * r + v * p) * b;
    assert (u * r + v * p) * b == u * (r * b) + (v * b) * p;
  }

  /** Every number above 1 has a prime divisor. */
  lemma PrimeDivisor(n: int) returns (p: int)
    requires n >= 2
    ensures IsPrime(p) && n % p == 0 && (IsPrime(n) || p * p <= n)
  {
    p := SmallestDivisor(n, 2);
    var k := n / p;
    assert n == k * p;
    forall d | 1 < d < p
      ensures !Divides(d, p)
    {
      if Divides(d, p) {
        ScaledDivisible(d, p, k);
        assert Divides(d, n);
      }
    }
    if p < n {
      CofactorIsNotSmaller(n, p, k);
    }
  }

  lemma CofactorIsNotSmaller(n: int, p: int, k: int)
    requires 2 <= p < n && n == k * p
    requires forall d {:trigger Divides(d, n)} :: 1 < d < p ==> !Divides(d, n)
    ensures p * p <= n
  {
    assert k >= 2 by {
      assert k <= 1 ==> k * p <= 1 * p;
    }
    if k < p {
      MultipleIsDivisible(k, p);
      assert Divides(k, n);
    }
    assert p * p <= k * p;
  }

  lemma SmallestDivisor(n: int, from: int) returns (p: int)
    requires 2 <= from <= n
    requires forall d {:trigger Divides(d, n)} :: 1 < d < from ==> !Divides(d, n)
    ensures 2 <= p <= n && n % p == 0
    ensures forall d {:trigger Divides(d, n)} :: 1 < d < p ==> !Divides(d, n)
    decreases n - from
  {
    if Divides(from, n) {
      p := from;
    } else {
      MultipleIsDivisible(n, 1);
      p := SmallestDivisor(n, from + 1);
    }
  }
}
