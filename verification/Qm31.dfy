// The degree-four extension QM31 = CM31[u] / (u^2 - (2 + i)), CM31 = M31[i] / (i^2 + 1),
// as a quadratic tower, and its product as limb polynomials.
module Qm31Field {
  import opened M31
  import opened FeltSemantics
  import RowFacts

  // -- Gaussian integers ---------------------------------------------------------------

  datatype Gauss = Gauss(re: int, im: int)

  function GAdd(a: Gauss, b: Gauss): Gauss { Gauss(a.re + b.re, a.im + b.im) }

  function GMul(a: Gauss, b: Gauss): Gauss {
    Gauss(a.re * b.re - a.im * b.im, a.re * b.im + a.im * b.re)
  }

  /** u * u. */
  const R := Gauss(2, 1)

  lemma GMulCommutes(a: Gauss, b: Gauss)
    ensures GMul(a, b) == GMul(b, a)
  {
  }

  lemma GMulAssociates(a: Gauss, b: Gauss, c: Gauss)
    ensures GMul(GMul(a, b), c) == GMul(a, GMul(b, c))
  {
  }

  lemma GDistributes(a: Gauss, b: Gauss, c: Gauss)
    ensures GMul(a, GAdd(b, c)) == GAdd(GMul(a, b), GMul(a, c))
  {
  }

  lemma RightDistributes(a: Gauss, b: Gauss, c: Gauss)
    ensures GMul(GAdd(a, b), c) == GAdd(GMul(a, c), GMul(b, c))
  {
    hide GMul, GAdd;
    GMulCommutes(GAdd(a, b), c);
    GDistributes(c, a, b);
    GMulCommutes(c, a);
    GMulCommutes(c, b);
  }

  lemma SlideLeft(r: Gauss, a: Gauss, b: Gauss)
    ensures GMul(a, GMul(r, b)) == GMul(r, GMul(a, b))
  {
    hide GMul;
    GMulAssociates(a, r, b);
    GMulCommutes(a, r);
    GMulAssociates(r, a, b);
  }

  lemma GAddRegroups(a: Gauss, b: Gauss, c: Gauss, d: Gauss)
    ensures GAdd(GAdd(a, b), GAdd(c, d)) == GAdd(GAdd(a, c), GAdd(d, b))
  {
  }

  // -- The tower over the Gaussian integers ------------------------------------------------

  /** x + y u. */
  datatype Tower = Tower(x: Gauss, y: Gauss)

  function TMul(p: Tower, q: Tower): Tower {
    Tower(GAdd(GMul(p.x, q.x), GMul(R, GMul(p.y, q.y))), GAdd(GMul(p.x, q.y), GMul(p.y, q.x)))
  }

  lemma TMulCommutes(p: Tower, q: Tower)
    ensures TMul(p, q) == TMul(q, p)
  {
    GMulCommutes(p.x, q.x);
    GMulCommutes(p.y, q.y);
    GMulCommutes(p.x, q.y);
    GMulCommutes(p.y, q.x);
    hide GMul;
  }

  lemma FirstLeft(a: Gauss, b: Gauss, c: Gauss, d: Gauss, e: Gauss, f: Gauss)
    ensures GAdd(GMul(GAdd(GMul(a, c), GMul(R, GMul(b, d))), e), GMul(R, GMul(GAdd(GMul(a, d), GMul(b, c)), f)))
         == GAdd(GAdd(GMul(a, GMul(c, e)), GMul(R, GMul(b, GMul(d, e)))),
                 GAdd(GMul(R, GMul(a, GMul(d, f))), GMul(R, GMul(b, GMul(c, f)))))
  {
    hide GMul, GAdd;
    RightDistributes(GMul(a, c), GMul(R, GMul(b, d)), e);
    RightDistributes(GMul(a, d), GMul(b, c), f);
    GDistributes(R, GMul(GMul(a, d), f), GMul(GMul(b, c), f));
    GMulAssociates(a, c, e);
    GMulAssociates(R, GMul(b, d), e);
    GMulAssociates(b, d, e);
    GMulAssociates(a, d, f);
    GMulAssociates(b, c, f);
  }

  lemma FirstRight(a: Gauss, b: Gauss, c: Gauss, d: Gauss, e: Gauss, f: Gauss)
    ensures GAdd(GMul(a, GAdd(GMul(c, e), GMul(R, GMul(d, f)))), GMul(R, GMul(b, GAdd(GMul(c, f), GMul(d, e)))))
         == GAdd(GAdd(GMul(a, GMul(c, e)), GMul(R, GMul(a, GMul(d, f)))),
                 GAdd(GMul(R, GMul(b, GMul(c, f))), GMul(R, GMul(b, GMul(d, e)))))
  {
    hide GMul, GAdd;
    GDistributes(a, GMul(c, e), GMul(R, GMul(d, f)));
    SlideLeft(R, a, GMul(d, f));
    GDistributes(b, GMul(c, f), GMul(d, e));
    GDistributes(R, GMul(b, GMul(c, f)), GMul(b, GMul(d, e)));
  }

  lemma SecondLeft(a: Gauss, b: Gauss, c: Gauss, d: Gauss, e: Gauss, f: Gauss)
    ensures GAdd(GMul(GAdd(GMul(a, c), GMul(R, GMul(b, d))), f), GMul(GAdd(GMul(a, d), GMul(b, c)), e))
         == GAdd(GAdd(GMul(a, GMul(c, f)), GMul(R, GMul(b, GMul(d, f)))), GAdd(GMul(a, GMul(d, e)), GMul(b, GMul(c, e))))
  {
    hide GMul, GAdd;
    RightDistributes(GMul(a, c), GMul(R, GMul(b, d)), f);
    RightDistributes(GMul(a, d), GMul(b, c), e);
    GMulAssociates(a, c, f);
    GMulAssociates(R, GMul(b, d), f);
    GMulAssociates(b, d, f);
    GMulAssociates(a, d, e);
    GMulAssociates(b, c, e);
  }

  lemma SecondRight(a: Gauss, b: Gauss, c: Gauss, d: Gauss, e: Gauss, f: Gauss)
    ensures GAdd(GMul(a, GAdd(GMul(c, f), GMul(d, e))), GMul(b, GAdd(GMul(c, e), GMul(R, GMul(d, f)))))
         == GAdd(GAdd(GMul(a, GMul(c, f)), GMul(a, GMul(d, e))), GAdd(GMul(b, GMul(c, e)), GMul(R, GMul(b, GMul(d, f)))))
  {
    hide GMul, GAdd;
    GDistributes(a, GMul(c, f), GMul(d, e));
    GDistributes(b, GMul(c, e), GMul(R, GMul(d, f)));
    SlideLeft(R, b, GMul(d, f));
  }

  lemma TMulAssociates(p: Tower, q: Tower, r: Tower)
    ensures TMul(TMul(p, q), r) == TMul(p, TMul(q, r))
  {
    hide GMul, GAdd;
    FirstLeft(p.x, p.y, q.x, q.y, r.x, r.y);
    FirstRight(p.x, p.y, q.x, q.y, r.x, r.y);
    SecondLeft(p.x, p.y, q.x, q.y, r.x, r.y);
    SecondRight(p.x, p.y, q.x, q.y, r.x, r.y);
    GAddRegroups(GMul(p.x, GMul(q.x, r.x)), GMul(R, GMul(p.y, GMul(q.y, r.x))),
                 GMul(R, GMul(p.x, GMul(q.y, r.y))), GMul(R, GMul(p.y, GMul(q.x, r.y))));
    GAddRegroups(GMul(p.x, GMul(q.x, r.y)), GMul(R, GMul(p.y, GMul(q.y, r.y))),
                 GMul(p.x, GMul(q.y, r.x)), GMul(p.y, GMul(q.x, r.x)));
  }

  // -- Reduction of the limbs ------------------------------------------------------------------

  /** Four limbs: (x0 + x1 i) + (x2 + x3 i) u. */
  datatype Qm31 = Qm31(x0: Felt, x1: Felt, x2: Felt, x3: Felt)

  const ZERO := Qm31(0, 0, 0, 0)
  const ONE := Qm31(1, 0, 0, 0)

  function Lift(a: Qm31): Tower { Tower(Gauss(a.x0, a.x1), Gauss(a.x2, a.x3)) }

  function Lower(t: Tower): Qm31 {
    Qm31(Reduce(t.x.re), Reduce(t.x.im), Reduce(t.y.re), Reduce(t.y.im))
  }

  function QMul(a: Qm31, b: Qm31): Qm31 { Lower(TMul(Lift(a), Lift(b))) }

  function QAdd(a: Qm31, b: Qm31): Qm31 {
    Qm31(FAdd(a.x0, b.x0), FAdd(a.x1, b.x1), FAdd(a.x2, b.x2), FAdd(a.x3, b.x3))
  }

  function QSub(a: Qm31, b: Qm31): Qm31 {
    Qm31(FSub(a.x0, b.x0), FSub(a.x1, b.x1), FSub(a.x2, b.x2), FSub(a.x3, b.x3))
  }

  function QNeg(a: Qm31): Qm31 {
    Qm31(FNeg(a.x0), FNeg(a.x1), FNeg(a.x2), FNeg(a.x3))
  }

  function GShift(a: Gauss, k: Gauss): Gauss { Gauss(a.re + P * k.re, a.im + P * k.im) }

  function TShift(t: Tower, k: Tower): Tower { Tower(GShift(t.x, k.x), GShift(t.y, k.y)) }

  lemma ShiftReduces(t: Tower, k: Tower)
    ensures Lower(TShift(t, k)) == Lower(t)
  {
  }

  lemma GMulShift(a: Gauss, k: Gauss, c: Gauss)
    ensures GMul(GShift(a, k), c) == GShift(GMul(a, c), GMul(k, c))
  {
    var p := P;
    ProductShift(a.re, k.re, c.re, p);
    ProductShift(a.im, k.im, c.im, p);
    ProductShift(a.re, k.re, c.im, p);
    ProductShift(a.im, k.im, c.re, p);
  }

  lemma ProductShift(a: int, k: int, c: int, p: int)
    ensures (a + p * k) * c == a * c + p * (k * c)
  {
  }

  lemma GAddShift(a: Gauss, k: Gauss, b: Gauss, l: Gauss)
    ensures GAdd(GShift(a, k), GShift(b, l)) == GShift(GAdd(a, b), GAdd(k, l))
  {
  }

  lemma GTimesRShift(a: Gauss, k: Gauss)
    ensures GMul(R, GShift(a, k)) == GShift(GMul(R, a), GMul(R, k))
  {
  }

  lemma TMulShift(t: Tower, k: Tower, u: Tower)
    ensures TMul(TShift(t, k), u) == TShift(TMul(t, u), TMul(k, u))
  {
    hide GMul, GAdd, GShift;
    GMulShift(t.x, k.x, u.x);
    GMulShift(t.y, k.y, u.y);
    GMulShift(t.x, k.x, u.y);
    GMulShift(t.y, k.y, u.x);
    GTimesRShift(GMul(t.y, u.y), GMul(k.y, u.y));
    GAddShift(GMul(t.x, u.x), GMul(k.x, u.x), GMul(R, GMul(t.y, u.y)), GMul(R, GMul(k.y, u.y)));
    GAddShift(GMul(t.x, u.y), GMul(k.x, u.y), GMul(t.y, u.x), GMul(k.y, u.x));
  }

  /** Multiplying is blind to an earlier reduction. */
  lemma ReduceThenMultiply(t: Tower, u: Tower)
    ensures Lower(TMul(Lift(Lower(t)), u)) == Lower(TMul(t, u))
  {
    var r := Lift(Lower(t));
    var k := Tower(Gauss(t.x.re / P, t.x.im / P), Gauss(t.y.re / P, t.y.im / P));
    assert t == TShift(r, k);
    hide TMul, TShift, Lower;
    TMulShift(r, k, u);
    ShiftReduces(TMul(r, u), TMul(k, u));
  }

  // -- QM31 is a commutative ring with at most one inverse per element ----------------------------

  lemma QMulCommutes(a: Qm31, b: Qm31)
    ensures QMul(a, b) == QMul(b, a)
  {
    hide TMul;
    TMulCommutes(Lift(a), Lift(b));
  }

  lemma QMulAssociates(a: Qm31, b: Qm31, c: Qm31)
    ensures QMul(QMul(a, b), c) == QMul(a, QMul(b, c))
  {
    hide TMul, Lift, Lower;
    ReduceThenMultiply(TMul(Lift(a), Lift(b)), Lift(c));
    TMulAssociates(Lift(a), Lift(b), Lift(c));
    ReduceThenMultiply(TMul(Lift(b), Lift(c)), Lift(a));
    TMulCommutes(Lift(QMul(b, c)), Lift(a));
    TMulCommutes(TMul(Lift(b), Lift(c)), Lift(a));
  }

  lemma QMulOne(a: Qm31)
    ensures QMul(ONE, a) == a && QMul(a, ONE) == a
  {
    hide Lower, TMul, Lift;
    TMulOne(a);
    TMulCommutes(Lift(a), Lift(ONE));
    LowerLift(a);
  }

  lemma TMulOne(a: Qm31)
    ensures TMul(Lift(ONE), Lift(a)) == Lift(a)
  {
    GUnits(Lift(a).x);
    GUnits(Lift(a).y);
    GUnits(R);
    GMulCommutes(R, Gauss(0, 0));
    hide GMul;
  }

  lemma GUnits(a: Gauss)
    ensures GMul(Gauss(1, 0), a) == a && GMul(Gauss(0, 0), a) == Gauss(0, 0)
  {
  }

  lemma LowerLift(a: Qm31)
    ensures Lower(Lift(a)) == a
  {
  }

  /** Two inverses of one element are equal. */
  lemma InverseUnique(a: Qm31, x: Qm31, y: Qm31)
    requires QMul(a, x) == ONE && QMul(a, y) == ONE
    ensures x == y
  {
    hide QMul;
    QMulOne(x);
    QMulOne(y);
    QMulAssociates(x, a, y);
    QMulCommutes(a, x);
  }

  // -- The limb constraints ---------------------------------------------------------------------------

  /** The four product constraints of the qm31_mul table, with target limbs c. */
  ghost predicate ProductLimbs(a: Qm31, b: Qm31, c: Qm31) {
    && RowFacts.Vanishes(a.x0 * b.x0 - a.x1 * b.x1 + 2 * (a.x2 * b.x2 - a.x3 * b.x3) - (a.x2 * b.x3 + a.x3 * b.x2) - c.x0)
    && RowFacts.Vanishes(a.x0 * b.x1 + a.x1 * b.x0 + (a.x2 * b.x2 - a.x3 * b.x3) + 2 * (a.x2 * b.x3 + a.x3 * b.x2) - c.x1)
    && RowFacts.Vanishes(a.x0 * b.x2 - a.x1 * b.x3 + a.x2 * b.x0 - a.x3 * b.x1 - c.x2)
    && RowFacts.Vanishes(a.x0 * b.x3 + a.x1 * b.x2 + a.x2 * b.x1 + a.x3 * b.x0 - c.x3)
  }

  lemma Pinned(x: int, c: Felt)
    ensures RowFacts.Vanishes(x - c) <==> Reduce(x) == c
  {
  }

  /** The limb constraints say exactly that c is the product. */
  lemma ProductLimbsExact(a: Qm31, b: Qm31, c: Qm31)
    ensures ProductLimbs(a, b, c) <==> c == QMul(a, b)
  {
    var t := TMul(Lift(a), Lift(b));
    ProductTerms(a, b);
    hide TMul, RowFacts.Vanishes, Reduce;
    Pinned(t.x.re, c.x0);
    Pinned(t.x.im, c.x1);
    Pinned(t.y.re, c.x2);
    Pinned(t.y.im, c.x3);
  }

  lemma ProductTerms(a: Qm31, b: Qm31)
    ensures var t := TMul(Lift(a), Lift(b));
            && t.x.re == a.x0 * b.x0 - a.x1 * b.x1 + 2 * (a.x2 * b.x2 - a.x3 * b.x3) - (a.x2 * b.x3 + a.x3 * b.x2)
            && t.x.im == a.x0 * b.x1 + a.x1 * b.x0 + (a.x2 * b.x2 - a.x3 * b.x3) + 2 * (a.x2 * b.x3 + a.x3 * b.x2)
            && t.y.re == a.x0 * b.x2 - a.x1 * b.x3 + a.x2 * b.x0 - a.x3 * b.x1
            && t.y.im == a.x0 * b.x3 + a.x1 * b.x2 + a.x2 * b.x1 + a.x3 * b.x0
  {
  }

  // -- Sums -------------------------------------------------------------------------------------------

  function TAdd(p: Tower, q: Tower): Tower { Tower(GAdd(p.x, q.x), GAdd(p.y, q.y)) }

  lemma LowerAdds(p: Tower, q: Tower)
    ensures Lower(TAdd(p, q)) == QAdd(Lower(p), Lower(q))
  {
    hide Reduce;
    ReduceAdds(p.x.re, q.x.re);
    ReduceAdds(p.x.im, q.x.im);
    ReduceAdds(p.y.re, q.y.re);
    ReduceAdds(p.y.im, q.y.im);
  }

  lemma ReduceAdds(x: int, y: int)
    ensures Reduce(x + y) == FAdd(Reduce(x), Reduce(y))
  {
    AddMod(x, y, P);
  }

  lemma TDistributes(p: Tower, q: Tower, r: Tower)
    ensures TMul(TAdd(p, q), r) == TAdd(TMul(p, r), TMul(q, r))
  {
    RightDistributes(p.x, q.x, r.x);
    RightDistributes(p.y, q.y, r.y);
    RightDistributes(p.x, q.x, r.y);
    RightDistributes(p.y, q.y, r.x);
    GDistributes(R, GMul(p.y, r.y), GMul(q.y, r.y));
    hide GMul;
  }

  lemma QDistributes(a: Qm31, b: Qm31, c: Qm31)
    ensures QMul(QAdd(a, b), c) == QAdd(QMul(a, c), QMul(b, c))
  {
    hide TMul, Lift, Lower, QAdd, TAdd;
    LowerLift(a);
    LowerLift(b);
    LowerAdds(Lift(a), Lift(b));
    ReduceThenMultiply(TAdd(Lift(a), Lift(b)), Lift(c));
    TDistributes(Lift(a), Lift(b), Lift(c));
    LowerAdds(TMul(Lift(a), Lift(c)), TMul(Lift(b), Lift(c)));
  }

  lemma QAddAssociates(a: Qm31, b: Qm31, c: Qm31)
    ensures QAdd(QAdd(a, b), c) == QAdd(a, QAdd(b, c))
  {
    FAddAssociates(a.x0, b.x0, c.x0);
    FAddAssociates(a.x1, b.x1, c.x1);
    FAddAssociates(a.x2, b.x2, c.x2);
    FAddAssociates(a.x3, b.x3, c.x3);
    hide FAdd;
  }

  lemma FAddAssociates(a: Felt, b: Felt, c: Felt)
    ensures FAdd(FAdd(a, b), c) == FAdd(a, FAdd(b, c))
  {
  }

  lemma QAddZero(a: Qm31)
    ensures QAdd(a, ZERO) == a && QAdd(ZERO, a) == a
  {
  }

  lemma QMulZero(a: Qm31)
    ensures QMul(ZERO, a) == ZERO
  {
    GUnits(Lift(a).x);
    GUnits(Lift(a).y);
    GMulCommutes(R, Gauss(0, 0));
    GUnits(R);
    hide GMul;
  }
}
