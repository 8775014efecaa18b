// 2^31 - 1 is prime, by orders: a number of prime order q modulo a prime p forces
// q to divide p - 1, because multiplication by it splits 1..p-1 into cycles of
// length q.  Orders 31 (the number 2) and 331 leave no prime divisor of P below
// its root.
module Mersenne {
  import opened M31

  ghost function Times(a: int, b: int, p: int): (r: int)
    requires p > 1
    ensures 0 <= r < p
  {
    (a * b) % p
  }

  lemma TimesAssoc(a: int, b: int, c: int, p: int)
    requires p > 1
    ensures Times(a, Times(b, c, p), p) == Times(Times(a, b, p), c, p)
  {
    MulAssocMod(a, b, c, p);
  }

  lemma TimesOne(a: int, p: int)
    requires p > 1 && 0 <= a < p
    ensures Times(a, 1, p) == a && Times(1, a, p) == a
  {
  }

  ghost function Pow(x: int, n: nat, p: int): (r: int)
    requires p > 1
    ensures 0 <= r < p
  {
    if n == 0 then 1 else Times(x, Pow(x, n - 1, p), p)
  }

  lemma {:induction false} PowAdd(x: int, a: nat, b: nat, p: int)
    requires p > 1
    ensures Pow(x, a + b, p) == Times(Pow(x, a, p), Pow(x, b, p), p)
  {
    hide Times;
    if a == 0 {
      TimesOne(Pow(x, b, p), p);
    } else {
      PowAdd(x, a - 1, b, p);
      TimesAssoc(x, Pow(x, a - 1, p), Pow(x, b, p), p);
    }
  }

  lemma {:induction false} PowMultiple(x: int, m: nat, k: nat, n: nat, p: int)
    requires p > 1 && Pow(x, m, p) == 1 && n == k * m
    ensures Pow(x, n, p) == 1
    decreases k
  {
    hide Times;
    if k > 0 {
      assert n == m + (k - 1) * m;
      PowMultiple(x, m, k - 1, n - m, p);
      PowAdd(x, m, n - m, p);
      TimesOne(1, p);
    }
  }

  ghost predicate HasPrimeOrder(x: int, q: int, p: int) {
    IsPrime(p) && q >= 2 && Pow(x, q, p) == 1 && forall i :: 0 < i < q ==> Pow(x, i, p) != 1
  }

  /** If x^q is 1 for a prime q and x is not 1, no smaller power is 1. */
  lemma PowersReachOne(x: int, i: int, q: int, p: int)
    requires p > 1 && IsPrime(q) && 0 < i < q && Pow(x, q, p) == 1 && Pow(x, i, p) == 1
    ensures Pow(x, 1, p) == 1
  {
    hide Times, Pow;
    var g, u, v := Bezout(i, q);
    assert Divides(g, q);
    if g > 1 {
      SmallMultipleIsZero(g, i);
    }
    // u * i + v * q == 1; shift the coefficients to be non-negative.
    var t := if u < 0 then -u else u;
    ShiftedBezout(i, q, u, v, t);
    var u', v' := u + q * t, i * t - v;
    PowMultiple(x, i, u', u' * i, p);
    PowMultiple(x, q, v', v' * q, p);
    PowAdd(x, v' * q, 1, p);
    TimesOne(Pow(x, 1, p), p);
  }

  lemma ShiftedBezout(i: int, q: int, u: int, v: int, t: int)
    requires 0 < i < q && u * i + v * q == 1 && t >= u && t >= -u && t >= 0
    ensures u + q * t >= 0 && i * t - v >= 0
    ensures (u + q * t) * i == (i * t - v) * q + 1
    ensures (i * t - v) * q >= 0
  {
    ShiftedSum(i, q, u, v, t);
    NonNegativeProduct(q - 1, t);
    assert (q - 1) * t == q * t - t;
    NonNegativeProduct(u + q * t, i);
    hide *;
    NonNegativeFactor(i * t - v, q);
  }

  lemma ShiftedSum(i: int, q: int, u: int, v: int, t: int)
    requires u * i + v * q == 1
    ensures (u + q * t) * i == (i * t - v) * q + 1
  {
    assert (u + q * t) * i == u * i + q * t * i;
    assert (i * t - v) * q == i * t * q - v * q;
    assert q * t * i == i * t * q;
  }

  lemma NonNegativeFactor(x: int, q: int)
    requires q >= 2 && x * q + 1 >= 0
    ensures x >= 0 && x * q >= 0
  {
    if x < 0 {
      NonNegativeProduct(-x - 1, q);
      assert false;
    }
    NonNegativeProduct(x, q);
  }

  lemma NonNegativeProduct(a: int, b: int)
    requires a >= 0 && b >= 0
    ensures a * b >= 0
  {
  }

  // Multiplication by x, of order q, permutes each cycle {s * x^i | i < q}.

  ghost function Cycle(s: int, x: int, n: nat, p: int): set<int>
    requires p > 1
  {
    set i | 0 <= i < n :: Times(s, Pow(x, i, p), p)
  }

  lemma CycleShift(s: int, x: int, i: nat, j: nat, p: int)
    requires p > 1
    ensures Times(Times(s, Pow(x, i, p), p), Pow(x, j, p), p) == Times(s, Pow(x, i + j, p), p)
  {
    hide Times, Pow;
    PowAdd(x, i, j, p);
    TimesAssoc(s, Pow(x, i, p), Pow(x, j, p), p);
  }

  lemma CancelFactor(s: int, d: int, p: int)
    requires IsPrime(p) && 0 < s < p && 0 <= d < p && Times(s, d, p) == s
    ensures d == 1
  {
    FactorDifference(s, d, p);
    hide *;
    PrimeFactorIsZero(p, s, d - 1);
  }

  lemma PrimeFactorIsZero(p: int, s: int, e: int)
    requires IsPrime(p) && 0 < s < p && -1 <= e < p - 1 && (s * e) % p == 0
    ensures e == 0
  {
    assert p >= 2;
    hide IsPrime;
    EuclidLemma(p, s, e);
    if s % p == 0 {
      SmallMultipleIsZero(p, s);
    } else {
      SmallMultipleIsZero(p, e);
    }
  }

  lemma FactorDifference(s: int, d: int, p: int)
    requires p > 1 && 0 < s < p && (s * d) % p == s
    ensures (s * (d - 1)) % p == 0
  {
    assert s % p == s;
    Congruent(p, s * d, s);
    assert s * d - s == s * (d - 1);
  }

  lemma CycleIsInjective(s: int, x: int, q: int, i: int, j: int, p: int)
    requires HasPrimeOrder(x, q, p) && 0 < s < p && 0 <= i < j < q
    ensures Times(s, Pow(x, i, p), p) != Times(s, Pow(x, j, p), p)
  {
    hide Times, Pow;
    if Times(s, Pow(x, i, p), p) == Times(s, Pow(x, j, p), p) {
      CycleShift(s, x, i, q - i, p);
      CycleShift(s, x, j, q - i, p);
      assert j + (q - i) == j - i + q;
      PowAdd(x, j - i, q, p);
      TimesOne(s, p);
      TimesOne(Pow(x, j - i, p), p);
      CancelFactor(s, Pow(x, j - i, p), p);
      assert false;
    }
  }

  lemma {:induction false} CycleSize(s: int, x: int, q: int, n: nat, p: int)
    requires HasPrimeOrder(x, q, p) && 0 < s < p && n <= q
    ensures |Cycle(s, x, n, p)| == n
  {
    hide Times, Pow;
    if n > 0 {
      CycleSize(s, x, q, n - 1, p);
      var last := Times(s, Pow(x, n - 1, p), p);
      assert Cycle(s, x, n, p) == Cycle(s, x, n - 1, p) + {last};
      if last in Cycle(s, x, n - 1, p) {
        var i :| 0 <= i < n - 1 && last == Times(s, Pow(x, i, p), p);
        CycleIsInjective(s, x, q, i, n - 1, p);
        assert false;
      }
    }
  }

  ghost predicate ClosedUnder(S: set<int>, x: int, p: int)
    requires p > 1
  {
    forall s :: s in S ==> 0 < s < p && Times(s, x, p) in S
  }

  lemma AnyElement<T>(S: set<T>) returns (s: T)
    requires S != {}
    ensures s in S
  {
    s :| s in S;
  }

  /** A set closed under multiplication by an element of order q has a multiple of q elements. */
  lemma {:induction false} ClosedSetSize(S: set<int>, x: int, q: int, p: int)
    requires HasPrimeOrder(x, q, p) && 0 < x < p && ClosedUnder(S, x, p)
    ensures |S| % q == 0
    decreases |S|
  {
    hide Times, Pow, IsPrime;
    if S != {} {
      var s := AnyElement(S);
      var C := Cycle(s, x, q, p);
      CycleInside(S, s, x, q, p);
      RestIsClosed(S, s, x, q, p);
      CycleSize(s, x, q, q, p);
      assert |S| == |S - C| + |C|;
      ClosedSetSize(S - C, x, q, p);
      assert (|S - C| + q) % q == 0 by {
        hide *;
        MultipleIsDivisible(q, 1);
        SumDivisible(q, |S - C|, q);
      }
    }
  }

  lemma CycleInside(S: set<int>, s: int, x: int, q: int, p: int)
    requires HasPrimeOrder(x, q, p) && 0 < x < p && ClosedUnder(S, x, p) && s in S
    ensures Cycle(s, x, q, p) <= S
  {
    hide Times, Pow;
    forall i | 0 <= i < q
      ensures Times(s, Pow(x, i, p), p) in S
    {
      PowerStays(S, s, x, i, p);
    }
  }

  lemma PowOne(x: int, p: int)
    requires 0 < x < p && p > 1
    ensures Pow(x, 0, p) == 1 && Pow(x, 1, p) == x
  {
    TimesOne(x, p);
  }

  lemma {:induction false} PowerStays(S: set<int>, s: int, x: int, i: nat, p: int)
    requires p > 1 && 0 < x < p && ClosedUnder(S, x, p) && s in S
    ensures Times(s, Pow(x, i, p), p) in S
  {
    hide Times, Pow;
    PowOne(x, p);
    if i == 0 {
      TimesOne(s, p);
    } else {
      PowerStays(S, s, x, i - 1, p);
      CycleShift(s, x, i - 1, 1, p);
    }
  }

  lemma RestIsClosed(S: set<int>, s: int, x: int, q: int, p: int)
    requires HasPrimeOrder(x, q, p) && 0 < x < p && ClosedUnder(S, x, p) && s in S
    ensures ClosedUnder(S - Cycle(s, x, q, p), x, p)
  {
    hide Times, Pow;
    var C := Cycle(s, x, q, p);
    forall t | t in S - C
      ensures Times(t, x, p) !in C
    {
      if Times(t, x, p) in C {
        PredecessorOnCycle(s, t, x, q, p);
        assert false;
      }
    }
  }

  /** t == t * x^q == (t * x) * x^(q-1) is on the cycle when t * x is. */
  lemma PredecessorOnCycle(s: int, t: int, x: int, q: int, p: int)
    requires HasPrimeOrder(x, q, p) && 0 < x < p && 0 <= t < p
    requires Times(t, x, p) in Cycle(s, x, q, p)
    ensures t in Cycle(s, x, q, p)
  {
    hide Times, Pow;
    var i :| 0 <= i < q && Times(t, x, p) == Times(s, Pow(x, i, p), p);
    PowOne(x, p);
    CycleShift(t, x, 1, q - 1, p);
    TimesOne(t, p);
    CycleShift(s, x, i, q - 1, p);
    if i == 0 {
      assert t == Times(s, Pow(x, q - 1, p), p);
    } else {
      PowAdd(x, i - 1, q, p);
      TimesOne(Pow(x, i - 1, p), p);
      assert i + (q - 1) == i - 1 + q;
      assert t == Times(s, Pow(x, i - 1, p), p);
    }
  }

  lemma OrderDividesPredecessor(x: int, q: int, p: int)
    requires IsPrime(p) && IsPrime(q) && 1 < x < p && Pow(x, q, p) == 1
    ensures (p - 1) % q == 0
  {
    hide Times, Pow;
    PowOne(x, p);
    forall i | 0 < i < q
      ensures Pow(x, i, p) != 1
    {
      if Pow(x, i, p) == 1 { PowersReachOne(x, i, q, p); }
    }
    Units(p);
    var S := NonZero(p);
    forall s | s in S
      ensures Times(s, x, p) in S
    {
      if Times(s, x, p) == 0 { NoZeroDivisors(s, x, p); }
    }
    ClosedSetSize(S, x, q, p);
  }

  lemma NoZeroDivisors(s: int, x: int, p: int)
    requires IsPrime(p) && 0 < s < p && 0 < x < p
    ensures Times(s, x, p) != 0
  {
    if Times(s, x, p) == 0 { EuclidLemma(p, s, x); }
  }

  ghost function NonZero(n: int): set<int> {
    if n <= 1 then {} else NonZero(n - 1) + {n - 1}
  }

  lemma {:induction false} Units(n: int)
    requires n >= 1
    ensures |NonZero(n)| == n - 1
    ensures forall s :: s in NonZero(n) <==> 1 <= s < n
  {
    if n > 1 {
      Units(n - 1);
    }
  }

  // -- The two orders modulo a divisor p of P ---------------------------------

  lemma {:induction false} PowModDivisor(x: int, n: nat, p: int)
    requires p > 1 && P % p == 0
    ensures Pow(x, n, p) == Pow(x, n, P) % p
  {
    if n > 0 {
      PowModDivisor(x, n - 1, p);
      var w := Pow(x, n - 1, P);
      ModModDivisor(x * w, p);
      MulMod(w, x, p);
      assert (w % p) * x == x * (w % p) && w * x == x * w;
    } else {
      assert 1 % p == 1;
    }
  }

  lemma ModModDivisor(a: int, p: int)
    requires p > 1 && P % p == 0
    ensures (a % P) % p == a % p
  {
    assert a - a % P == (a / P) * P;
    ScaledDivisible(p, P, a / P);
    Congruent(p, a, a % P);
  }

  lemma Square(x: int, n: nat, v: int, w: int)
    requires Pow(x, n, P) == v && w == (v * v) % P
    ensures Pow(x, 2 * n, P) == w
  {
    hide Pow;
    PowAdd(x, n, n, P);
  }

  lemma Combine(x: int, n: nat, m: nat, v: int, w: int, r: int)
    requires Pow(x, n, P) == v && Pow(x, m, P) == w && r == (v * w) % P
    ensures Pow(x, n + m, P) == r
  {
    hide Pow;
    PowAdd(x, n, m, P);
  }

  /** An element of order 331. */
  const W: int := 1090433

  lemma OrderOfW()
    ensures Pow(W, 331, P) == 1
  {
    hide Pow;
    PowOne(W, P);
    Square(W, 1, W, 1485670698);
    Square(W, 2, 1485670698, 2131047422);
    Square(W, 4, 2131047422, 344425319);
    Square(W, 8, 344425319, 1969191928);
    Square(W, 16, 1969191928, 1505302044);
    Square(W, 32, 1505302044, 759513457);
    Square(W, 64, 759513457, 564620125);
    Square(W, 128, 564620125, 1127616031);
    Combine(W, 256, 64, 1127616031, 759513457, 1033009446);
    Combine(W, 320, 8, 1033009446, 344425319, 517423849);
    Combine(W, 328, 2, 517423849, 1485670698, 1238025062);
    Combine(W, 330, 1, 1238025062, W, 1);
  }

  lemma OrderOfTwo()
    ensures Pow(2, 31, P) == 1
  {
    hide Pow;
    PowOne(2, P);
    Square(2, 1, 2, 4);
    Square(2, 2, 4, 16);
    Square(2, 4, 16, 256);
    Square(2, 8, 256, 65536);
    Combine(2, 16, 8, 65536, 256, 16777216);
    Combine(2, 24, 4, 16777216, 16, 268435456);
    Combine(2, 28, 2, 268435456, 4, 1073741824);
    Combine(2, 30, 1, 1073741824, 2, 1);
  }

  lemma SmallPrimes()
    ensures IsPrime(31) && IsPrime(331)
  {
    NoSmallDivisor(31);
    NoSmallDivisor(331);
  }

  lemma NoSmallDivisor(n: int)
    requires n == 31 || n == 331
    ensures IsPrime(n)
  {
    var p := PrimeDivisor(n);
    if !IsPrime(n) {
      assert p >= 19 ==> p * p >= 19 * p;
      assert p >= 6 ==> p * p >= 6 * p;
      CompositeBelow19(n, p);
      assert false;
    }
  }

  lemma CompositeBelow19(n: int, p: int)
    requires 2 <= p <= 18 && (n == 31 || n == 331) && (n == 31 ==> p <= 5)
    ensures n % p != 0
  {
  }

  lemma {:induction false} PowResidue(x: int, n: nat, p: int)
    requires p > 1
    ensures Pow(x, n, p) == Pow(x % p, n, p)
  {
    if n > 0 {
      PowResidue(x, n - 1, p);
      MulMod(x, Pow(x, n - 1, p), p);
    }
  }

  lemma TwoHasOrder31(p: int)
    requires IsPrime(p) && P % p == 0
    ensures p > 2 && (p - 1) % 31 == 0
  {
    hide Pow;
    SmallPrimes();
    OrderOfTwo();
    PowModDivisor(2, 31, p);
    OrderDividesPredecessor(2, 31, p);
  }

  lemma WHasOrder331(p: int)
    requires IsPrime(p) && P % p == 0
    ensures (p - 1) % 331 == 0
  {
    hide Times, Pow;
    SmallPrimes();
    OrderOfW();
    PowModDivisor(W, 331, p);
    PowResidue(W, 331, p);
    var w := W % p;
    if w == 0 {
      ZeroPow(p);
      assert false;
    }
    if w == 1 {
      // a combination of W - 1 and P is 1
      Congruent(p, W, 1);
      ScaledDivisible(p, W - 1, 1286122590);
      ScaledDivisible(p, P, -653057);
      SumDivisible(p, 1286122590 * (W - 1), -653057 * P);
      assert false;
    }
    OrderDividesPredecessor(w, 331, p);
  }

  lemma ZeroPow(p: int)
    requires p > 1
    ensures Pow(0, 331, p) == 0
  {
    assert Times(0, Pow(0, 330, p), p) == 0;
  }

  /** P = 2^31 - 1 is prime: a divisor below its root is 1 modulo 2 * 31 * 331. */
  lemma PIsPrime()
    ensures IsPrime(P)
  {
    hide Pow;
    var p := PrimeDivisor(P);
    if !IsPrime(P) {
      TwoHasOrder31(p);
      WHasOrder331(p);
      RootBound(p);
      NoDivisorNearRoot(p);
    }
  }

  lemma RootBound(p: int)
    requires p >= 0 && p * p <= P
    ensures p <= 46340
  {
    assert p >= 46341 ==> p * p >= 46341 * p;
  }

  lemma NoDivisorNearRoot(p: int)
    requires 2 < p <= 46340 && (p - 1) % 31 == 0 && (p - 1) % 331 == 0
    ensures P % p != 0
  {
    var a, b := (p - 1) / 31, (p - 1) / 331;
    assert 31 * a == 331 * b;
    assert b % 31 == 0;
    var c := b / 31;
    assert p == 10261 * c + 1 && 1 <= c <= 4;
    FourCandidates();
  }

  lemma FourCandidates()
    ensures P % 10262 != 0 && P % 20523 != 0 && P % 30784 != 0 && P % 41045 != 0
  {
  }
}
