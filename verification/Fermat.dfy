// Inverses by exponentiation: x^(P - 2) inverts x, by Fermat's little theorem,
// and the runner's squaring loop computes it.
module Fermat {
  import opened M31
  import opened RowFacts
  import opened FeltSemantics
  import LoweringExprs

  // -- Products --------------------------------------------------------------------------------

  function Product(s: seq<Felt>): Felt {
    if s == [] then 1 else FMul(Product(s[..|s| - 1]), s[|s| - 1])
  }

  /** 1, ..., n. */
  function UpTo(n: nat): (s: seq<Felt>)
    requires n < P
    ensures |s| == n && forall i :: 0 <= i < n ==> s[i] == i + 1
  {
    seq(n, i requires 0 <= i < n => i + 1)
  }

  function Scaled(a: Felt, s: seq<Felt>): (r: seq<Felt>)
    ensures |r| == |s| && forall i :: 0 <= i < |s| ==> r[i] == FMul(a, s[i])
  {
    seq(|s|, i requires 0 <= i < |s| => FMul(a, s[i]))
  }

  lemma Commutes(a: Felt, b: Felt)
    ensures FMul(a, b) == FMul(b, a)
  {
    assert a * b == b * a;
  }

  /** (x y)(a z) == (a x)(y z). */
  lemma Regroup(a: Felt, x: Felt, y: Felt, z: Felt)
    ensures FMul(FMul(x, y), FMul(a, z)) == FMul(FMul(a, x), FMul(y, z))
  {
    hide FMul;
    LoweringExprs.TimesAssociates(FMul(x, y), a, z);
    LoweringExprs.TimesAssociates(a, x, y);
    Commutes(FMul(x, y), a);
    LoweringExprs.TimesAssociates(FMul(a, x), y, z);
  }

  lemma {:induction false} ProductOfScaled(a: Felt, s: seq<Felt>)
    ensures Product(Scaled(a, s)) == FMul(FPow(a, |s|), Product(s))
  {
    hide FMul;
    if s == [] {
      LoweringExprs.OneTimes(1);
    } else {
      var n := |s| - 1;
      ProductOfScaled(a, s[..n]);
      assert Scaled(a, s)[..n] == Scaled(a, s[..n]);
      Regroup(a, FPow(a, n), Product(s[..n]), s[n]);
    }
  }

  function Without(s: seq<Felt>, j: nat): seq<Felt>
    requires j < |s|
  {
    s[..j] + s[j + 1..]
  }

  lemma {:induction false} ProductWithout(s: seq<Felt>, j: nat)
    requires j < |s|
    ensures Product(s) == FMul(Product(Without(s, j)), s[j])
    decreases |s|
  {
    hide FMul;
    var n := |s| - 1;
    if j == n {
      assert Without(s, j) == s[..n];
    } else {
      ProductWithout(s[..n], j);
      var rest := Without(s[..n], j);
      assert Without(s, j) == rest + [s[n]];
      assert (rest + [s[n]])[..|rest|] == rest;
      LoweringExprs.TimesAssociates(Product(rest), s[j], s[n]);
      Commutes(s[j], s[n]);
      LoweringExprs.TimesAssociates(Product(rest), s[n], s[j]);
    }
  }

  lemma WithoutOne(s: seq<Felt>, j: nat)
    requires j < |s|
    ensures multiset(Without(s, j)) == multiset(s) - multiset{s[j]} && s[j] in multiset(s)
  {
    assert s == s[..j] + [s[j]] + s[j + 1..];
  }

  lemma Position(s: seq<Felt>, x: Felt) returns (j: nat)
    requires x in multiset(s)
    ensures j < |s| && s[j] == x
  {
    j :| 0 <= j < |s| && s[j] == x;
  }

  /** A product does not depend on the order. */
  lemma {:induction false} ProductRearranged(s: seq<Felt>, t: seq<Felt>)
    requires multiset(s) == multiset(t)
    ensures Product(s) == Product(t)
    decreases |s|
  {
    hide FMul, Without;
    assert |s| == |multiset(s)| && |t| == |multiset(t)|;
    if s == [] {
      assert t == [];
    } else {
      WithoutOne(s, 0);
      var j := Position(t, s[0]);
      WithoutOne(t, j);
      Shorter(s, 0);
      ProductRearranged(Without(s, 0), Without(t, j));
      ProductWithout(s, 0);
      ProductWithout(t, j);
    }
  }

  lemma Shorter(s: seq<Felt>, j: nat)
    requires j < |s|
    ensures |Without(s, j)| == |s| - 1
  {
  }

  lemma {:induction false} NonZeroProduct(s: seq<Felt>)
    requires forall i :: 0 <= i < |s| ==> s[i] != 0
    ensures Product(s) != 0
  {
    if s != [] {
      var n := |s| - 1;
      NonZeroProduct(s[..n]);
      var p, x := Product(s[..n]), s[n];
      if FMul(p, x) == 0 {
        ProductVanishes(p, x);
        assert false;
      }
    }
  }

  // -- Multiplication permutes the non-zero elements ---------------------------------------------

  predicate AllDifferent(s: seq<Felt>) {
    forall i, j :: 0 <= i < j < |s| ==> s[i] != s[j]
  }

  ghost function Elements(s: seq<Felt>): set<Felt> {
    set x | x in s
  }

  lemma {:induction false} DifferentCount(s: seq<Felt>)
    requires AllDifferent(s)
    ensures |Elements(s)| == |s|
  {
    if s == [] {
      assert Elements(s) == {};
    } else {
      var n := |s| - 1;
      DifferentCount(s[..n]);
      assert s == s[..n] + [s[n]];
      assert Elements(s) == Elements(s[..n]) + {s[n]};
      assert s[n] !in Elements(s[..n]);
    }
  }

  lemma SameElements(a: set<Felt>, b: set<Felt>)
    requires a <= b && |a| == |b|
    ensures a == b
  {
    assert b == a + (b - a);
  }

  lemma OnceEach(s: seq<Felt>, x: Felt)
    requires AllDifferent(s)
    ensures multiset(s)[x] == if x in Elements(s) then 1 else 0
  {
    if x in s {
      var j :| 0 <= j < |s| && s[j] == x;
      WithoutOne(s, j);
      NotAgain(s, j);
    }
  }

  lemma NotAgain(s: seq<Felt>, j: nat)
    requires AllDifferent(s) && j < |s|
    ensures s[j] !in multiset(Without(s, j))
  {
    forall k | 0 <= k < |Without(s, j)|
      ensures Without(s, j)[k] != s[j]
    {
      assert Without(s, j)[k] == s[if k < j then k else k + 1];
    }
  }

  /** n different elements among 1, ..., n are all of them. */
  lemma Rearranges(s: seq<Felt>, n: nat)
    requires n < P && |s| == n && AllDifferent(s) && forall i :: 0 <= i < n ==> 1 <= s[i] <= n
    ensures multiset(s) == multiset(UpTo(n))
  {
    var all := UpTo(n);
    DifferentCount(s);
    DifferentCount(all);
    forall x | x in Elements(s)
      ensures x in Elements(all)
    {
      assert all[x - 1] == x;
    }
    SameElements(Elements(s), Elements(all));
    forall x: Felt
      ensures multiset(s)[x] == multiset(all)[x]
    {
      OnceEach(s, x);
      OnceEach(all, x);
    }
  }

  lemma ScalingInjective(a: Felt, x: Felt, y: Felt)
    requires a != 0 && FMul(a, x) == FMul(a, y)
    ensures x == y
  {
    Congruent(P, a * x, a * y);
    assert a * x - a * y == a * (x - y);
    ProductVanishes(a, x - y);
  }

  lemma ScalingNonZero(a: Felt, x: Felt)
    requires a != 0 && x != 0
    ensures FMul(a, x) != 0
  {
    if FMul(a, x) == 0 {
      ProductVanishes(a, x);
      assert false;
    }
  }

  lemma ScaledRearranges(a: Felt)
    requires a != 0
    ensures multiset(Scaled(a, UpTo(P - 1))) == multiset(UpTo(P - 1))
  {
    hide FMul;
    var n: nat := P - 1;
    var s := Scaled(a, UpTo(n));
    forall i, j | 0 <= i < j < |s|
      ensures s[i] != s[j]
    {
      if s[i] == s[j] { ScalingInjective(a, UpTo(n)[i], UpTo(n)[j]); }
    }
    forall i | 0 <= i < n
      ensures 1 <= s[i] <= n
    {
      ScalingNonZero(a, UpTo(n)[i]);
    }
    Rearranges(s, n);
  }

  // -- Fermat's little theorem -------------------------------------------------------------------

  lemma Cancel(x: Felt, y: Felt)
    requires FMul(x, y) == y && y != 0
    ensures x == 1
  {
    Congruent(P, x * y, y);
    assert x * y - y == (x - 1) * y;
    ProductVanishes(x - 1, y);
  }

  lemma FermatLittle(a: Felt)
    requires a != 0
    ensures FPow(a, P - 1) == 1
  {
    hide FMul, FPow, Product;
    var all := UpTo(P - 1);
    ScaledRearranges(a);
    ProductRearranged(Scaled(a, all), all);
    ProductOfScaled(a, all);
    NonZeroProduct(all);
    Cancel(FPow(a, P - 1), Product(all));
  }

  /** x^(P - 2) is the inverse of a non-zero x. */
  lemma InverseByPower(x: Felt)
    requires x != 0
    ensures Vanishes(x * FPow(x, P - 2) - 1)
  {
    FermatLittle(x);
    PowerUnfolds(x, P - 1);
    hide FPow;
    Congruent(P, x * FPow(x, P - 2), 1);
  }

  lemma PowerUnfolds(x: Felt, n: nat)
    requires n > 0
    ensures FPow(x, n) == FMul(x, FPow(x, n - 1))
  {
  }

  /** mod_pow: exponentiation by squaring, low bit first. */
  method ModPow(base: Felt, exp: nat) returns (result: Felt)
    ensures result == FPow(base, exp)
  {
    hide FMul, FPow;
    result := 1;
    var square, rest := base, exp;
    LoweringExprs.OneTimes(FPow(base, exp));
    while rest > 0
      invariant FMul(result, FPow(square, rest)) == FPow(base, exp)
    {
      LoweringExprs.PowerStep(result, square, rest);
      if rest % 2 == 1 { result := FMul(result, square); }
      rest := rest / 2;
      square := FMul(square, square);
    }
    NoPower(square);
    LoweringExprs.OneTimes(result);
  }

  lemma NoPower(x: Felt)
    ensures FPow(x, 0) == 1
  {
  }

  /** m31_inverse: the inverse of a field element, zero at zero. */
  method M31Inverse(a: Felt) returns (r: Felt)
    ensures a == 0 ==> r == 0
    ensures a != 0 ==> Vanishes(a * r - 1)
  {
    hide FPow, Vanishes;
    if a == 0 { return 0; }
    InverseByPower(a);
    r := ModPow(a, P - 2);
  }
}
