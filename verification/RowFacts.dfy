// What the constraint rows use of the field: a product vanishes only with a
// factor, small residues are integers, a division by 256 that lands in range
// was exact, and non-zero columns are invertible.  Also the word layout shared
// by all rows: four little-endian limbs.
module RowFacts {
  import opened M31
  import Mersenne

  /** A constraint: the polynomial value is zero in the field. */
  predicate Vanishes(x: int) {
    x % P == 0
  }

  lemma ProductVanishes(a: int, b: int)
    requires Vanishes(a * b)
    ensures Vanishes(a) || Vanishes(b)
  {
    Mersenne.PIsPrime();
    EuclidLemma(P, a, b);
  }

  /** x * (1 - x) == 0 makes a column a bit. */
  lemma BitColumn(x: Felt)
    requires Vanishes(x * (1 - x))
    ensures x == 0 || x == 1
  {
    ProductVanishes(x, 1 - x);
  }

  /** (x - low) * (x - 1) == 0 leaves two values. */
  lemma TwoValues(x: Felt, low: Felt)
    requires Vanishes((x - low) * (x - 1))
    ensures x == low || x == 1
  {
    ProductVanishes(x - low, x - 1);
  }

  /** Exact division: when numerator * 256^-1 is a small field element, 256 divides. */
  lemma ExactCarry(x: int, k: Felt)
    requires -0x2000_0000 < x < 0x2000_0000 && k == Reduce(x * INV_256) && k < 0x20_0000
    ensures x == 256 * k
  {
    var t := (x * INV_256) / P;
    assert x * INV_256 == P * t + k;
    assert 256 * k - x == P * (x - 256 * t);
    assert (256 * k - x) % P == 0 by {
      MultipleIsDivisible(P, x - 256 * t);
    }
    assert -P < 256 * k - x < P;
  }

  /** The converse: a multiple of 256 has its quotient as carry. */
  lemma CarryOfMultiple(x: int, k: int)
    requires x == 256 * k && 0 <= k < P
    ensures Reduce(x * INV_256) == k
  {
    assert x * INV_256 == k + k * P;
    assert (k + k * P) % P == k by {
      MultipleIsDivisible(P, k);
      Congruent(P, k + k * P, k);
    }
  }

  /** Non-zero columns have inverses. */
  lemma InverseExists(x: int) returns (y: Felt)
    requires x % P != 0
    ensures Vanishes(x * y - 1)
  {
    Mersenne.PIsPrime();
    var r := x % P;
    var g, u, v := Bezout(r, P);
    assert Divides(g, P);
    if g > 1 {
      assert false;
    }
    y := u % P;
    InverseFromBezout(x, r, u, v);
  }

  lemma InverseFromBezout(x: int, r: int, u: int, v: int)
    requires r == x % P && u * r + v * P == 1
    ensures Vanishes(x * (u % P) - 1)
  {
    UnitProduct(r, u, v);
    ReducedProduct(x, u);
    hide Vanishes;
    OneOver(x * (u % P));
  }

  lemma UnitProduct(r: int, u: int, v: int)
    requires u * r + v * P == 1
    ensures (r * u) % P == 1 % P
  {
    Swapped(r, u);
    MultipleIsDivisible(P, -v);
    Congruent(P, u * r, 1);
  }

  lemma OneOver(x: int)
    requires x % P == 1 % P
    ensures Vanishes(x - 1)
  {
    Congruent(P, x, 1);
    VanishesIs(x - 1);
  }

  /** Either factor may be reduced. */
  lemma ReducedProduct(x: int, u: int)
    ensures (x * (u % P)) % P == ((x % P) * u) % P
  {
    MulMod(x, u, P);
    MulMod(u, x, P);
    Swapped(u % P, x);
    Swapped(u, x);
    hide *;
  }

  lemma Swapped(x: int, y: int)
    ensures x * y == y * x
  {
  }

  lemma VanishesIs(x: int)
    ensures Vanishes(x) <==> x % P == 0
  {
  }

  // -- Words ------------------------------------------------------------------

  datatype Word = Word(l0: Felt, l1: Felt, l2: Felt, l3: Felt) {
    predicate Bytes() {
      l0 < 256 && l1 < 256 && l2 < 256 && l3 < 256
    }

    function Value(): int {
      l0 + 0x100 * l1 + 0x1_0000 * l2 + 0x100_0000 * l3
    }

    function Sum(): int {
      l0 + l1 + l2 + l3
    }
  }

  const TWO_32: int := 0x1_0000_0000
  const TWO_31: int := 0x8000_0000

  lemma WordRange(w: Word)
    requires w.Bytes()
    ensures 0 <= w.Value() < TWO_32
    ensures w.Sum() == 0 <==> w.Value() == 0
    ensures w.l3 >= 128 <==> w.Value() >= TWO_31
  {
  }

  /** Equal values have equal limbs. */
  lemma WordInjective(v: Word, w: Word)
    requires v.Bytes() && w.Bytes() && v.Value() == w.Value()
    ensures v == w
  {
    LimbStep(v.l0 - w.l0, (v.l1 - w.l1) + 0x100 * (v.l2 - w.l2) + 0x1_0000 * (v.l3 - w.l3));
    LimbStep(v.l1 - w.l1, (v.l2 - w.l2) + 0x100 * (v.l3 - w.l3));
    LimbStep(v.l2 - w.l2, v.l3 - w.l3);
  }

  lemma LimbStep(d: int, rest: int)
    requires -256 < d < 256 && d + 0x100 * rest == 0
    ensures d == 0 && rest == 0
  {
  }

  /** The two's complement reading of a 32-bit word. */
  function Signed(x: int): int {
    if x >= TWO_31 then x - TWO_32 else x
  }

  function WordOf(x: int): (w: Word)
    requires 0 <= x < TWO_32
    ensures w.Bytes() && w.Value() == x
  {
    var a := x / 256;
    var b := a / 256;
    Word(x % 256, a % 256, b % 256, b / 256)
  }
}
