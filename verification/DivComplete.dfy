// The div table is complete: the honest witness of every division satisfies all
// constraints, and each of its carries fits the 11-bit lookup.
module DivComplete {
  import opened M31
  import opened RowFacts
  import opened DivRow

  // -- Carries of an exact identity ---------------------------------------------

  ghost function Rest(w: Row, j: nat): int
    requires j <= 8
    decreases 8 - j
  {
    if j == 8 then 0 else Limb(w, j) + 0x100 * Rest(w, j + 1)
  }

  ghost function Limb(w: Row, j: nat): int
    requires j < 8
  {
    match j
    case 0 => w.Limb0()
    case 1 => w.Limb1()
    case 2 => w.Limb2()
    case 3 => w.Limb3()
    case 4 => w.Limb4()
    case 5 => w.Limb5()
    case 6 => w.Limb6()
    case _ => w.Limb7()
  }

  /** All eight limbs together: a multiple of 2^64 exactly when the identity holds modulo 2^64. */
  lemma LimbSum(w: Row) returns (t: int)
    requires Bit(w.bSign) && Bit(w.cSign) && Bit(w.qSign) && Bit(w.rZero)
    requires CValue(w) * QValue(w) + RValue(w) == BValue(w)
    ensures Rest(w, 0) == TWO_64 * t
  {
    hide RSign, HighProducts, LowProducts, Row.Limb4, Row.Limb5, Row.Limb6, Row.Limb7,
      Word.Value, Word.Sum, Rest;
    var cs, qs := w.c.Sum(), w.q.Sum();
    t := w.qSign * cs + w.cSign * qs + (RSign(w) - w.bSign) - w.cSign * w.qSign;
    var h := w.Limb4() + 0x100 * w.Limb5() + 0x1_0000 * w.Limb6() + 0x100_0000 * w.Limb7();
    HighSum(w);
    Schoolbook(w.c, w.q);
    SignedProduct(w.c.Value(), w.q.Value(), w.cSign, w.qSign);
    LowRest(w);
    AssembleBack(w.c.Value() * w.q.Value(), LowProducts(w.c, w.q), HighProducts(w.c, w.q), h,
                 w.c.Value(), w.q.Value(), w.r.Value(), w.b.Value(),
                 w.cSign, w.qSign, RSign(w), w.bSign, cs, qs);
  }

  lemma LowRest(w: Row)
    ensures Rest(w, 0) == LowProducts(w.c, w.q) + w.r.Value() - w.b.Value()
        + TWO_32 * (w.Limb4() + 0x100 * w.Limb5() + 0x1_0000 * w.Limb6() + 0x100_0000 * w.Limb7())
  {
    hide Row.Limb4, Row.Limb5, Row.Limb6, Row.Limb7;
    assert Rest(w, 4) == w.Limb4() + 0x100 * w.Limb5() + 0x1_0000 * w.Limb6() + 0x100_0000 * w.Limb7() by {
      assert Rest(w, 6) == w.Limb6() + 0x100 * w.Limb7();
      assert Rest(w, 4) == w.Limb4() + 0x100 * (w.Limb5() + 0x100 * Rest(w, 6));
    }
    assert Rest(w, 2) == w.Limb2() + 0x100 * (w.Limb3() + 0x100 * Rest(w, 4));
    assert Rest(w, 0) == w.Limb0() + 0x100 * (w.Limb1() + 0x100 * Rest(w, 2));
  }

  lemma AssembleBack(cq: int, low: int, high: int, h: int, c: int, q: int, r: int, b: int,
                     cs: int, qs: int, rs: int, bs: int, cSum: int, qSum: int)
    requires Bit(cs) && Bit(qs) && cq == low + TWO_32 * high
    requires h == high + qs * (TWO_32 * cSum - c) + cs * (TWO_32 * qSum - q) + (rs - bs) * (TWO_32 - 1)
    requires cq - TWO_32 * (qs * c) - TWO_32 * (cs * q) + TWO_64 * (cs * qs)
             + (r - TWO_32 * rs) - (b - TWO_32 * bs) == 0
    ensures low + r - b + TWO_32 * h == TWO_64 * (qs * cSum + cs * qSum + (rs - bs) - cs * qs)
  {
  }

  ghost function Pow256(n: nat): int {
    if n == 0 then 1 else 0x100 * Pow256(n - 1)
  }

  /** The honest carry out of limb j. */
  ghost function HonestCarry(w: Row, t: int, j: nat): int
    requires j < 8
  {
    Pow256(7 - j) * t - Rest(w, j + 1)
  }

  lemma HonestCarryStep(w: Row, t: int, j: nat)
    requires j < 8 && Rest(w, 0) == TWO_64 * t
    ensures (if j == 0 then 0 else HonestCarry(w, t, j - 1)) + Limb(w, j) == 0x100 * HonestCarry(w, t, j)
  {
    hide Limb;
    assert Pow256(8 - j) == 0x100 * Pow256(7 - j);
    if j == 0 {
      assert Pow256(8) == 0x1_0000 * Pow256(6) == 0x1_0000_0000 * Pow256(4) == TWO_64;
    }
  }

  lemma {:induction false} HonestCarryRange(w: Row, t: int, j: nat)
    requires j < 8 && Rest(w, 0) == TWO_64 * t
    requires w.b.Bytes() && w.c.Bytes() && w.q.Bytes() && w.r.Bytes()
    requires Bit(w.bSign) && Bit(w.cSign) && Bit(w.qSign) && Bit(w.rZero)
    ensures 0 <= HonestCarry(w, t, j) < 2048
  {
    hide HonestCarry, Rest;
    if j > 0 { HonestCarryRange(w, t, j - 1); }
    HonestCarryStep(w, t, j);
    LimbBound(w, j);
  }

  lemma LimbBound(w: Row, j: nat)
    requires j < 8
    requires w.b.Bytes() && w.c.Bytes() && w.q.Bytes() && w.r.Bytes()
    requires Bit(w.bSign) && Bit(w.cSign) && Bit(w.qSign) && Bit(w.rZero)
    ensures -256 < Limb(w, j) <= 520455
  {
    LowLimbBounds(w);
    HighLimbBounds(w);
    hide Row.Limb0, Row.Limb1, Row.Limb2, Row.Limb3, Row.Limb4, Row.Limb5, Row.Limb6, Row.Limb7;
  }

  /** An exact identity has every carry in range. */
  lemma CarriesFit(w: Row)
    requires w.b.Bytes() && w.c.Bytes() && w.q.Bytes() && w.r.Bytes()
    requires Bit(w.bSign) && Bit(w.cSign) && Bit(w.qSign) && Bit(w.rZero)
    requires CValue(w) * QValue(w) + RValue(w) == BValue(w)
    ensures w.CarryLookups()
  {
    hide HonestCarry, Rest, Row.CarryLookups;
    var t := LimbSum(w);
    var k := seq(8, j requires 0 <= j < 8 => HonestCarry(w, t, j));
    forall j | 0 <= j < 8
      ensures 0 <= k[j] < 2048 && LimbStepHolds(w, k, j)
    {
      HonestCarryRange(w, t, j);
      HonestCarryStep(w, t, j);
    }
    EquationsFromLimbs(w, k);
    CarryChain(w, k);
  }

  ghost predicate LimbStepHolds(w: Row, k: seq<int>, j: nat)
    requires |k| == 8 && j < 8
  {
    (if j == 0 then 0 else k[j - 1]) + Limb(w, j) == 0x100 * k[j]
  }

  lemma EquationsFromLimbs(w: Row, k: seq<int>)
    requires |k| == 8
    requires forall j :: 0 <= j < 8 ==> LimbStepHolds(w, k, j)
    ensures LimbEquations(w, k)
  {
    hide Row.Limb0, Row.Limb1, Row.Limb2, Row.Limb3, Row.Limb4, Row.Limb5, Row.Limb6, Row.Limb7;
    assert LimbStepHolds(w, k, 0) && LimbStepHolds(w, k, 1) && LimbStepHolds(w, k, 2);
    assert LimbStepHolds(w, k, 3) && LimbStepHolds(w, k, 4) && LimbStepHolds(w, k, 5);
    assert LimbStepHolds(w, k, 6) && LimbStepHolds(w, k, 7);
  }

  lemma CarryChain(w: Row, k: seq<int>)
    requires w.q.Bytes() && w.r.Bytes() && LimbEquations(w, k)
    requires forall j :: 0 <= j < 8 ==> 0 <= k[j] < 2048
    ensures w.CarryLookups()
  {
    hide Row.Limb0, Row.Limb1, Row.Limb2, Row.Limb3, Row.Limb4, Row.Limb5, Row.Limb6, Row.Limb7, Reduce;
    CarryOfMultiple(w.Limb0(), k[0]);
    CarryOfMultiple(k[0] + w.Limb1(), k[1]);
    CarryOfMultiple(k[1] + w.Limb2(), k[2]);
    CarryOfMultiple(k[2] + w.Limb3(), k[3]);
    CarryOfMultiple(k[3] + w.Limb4(), k[4]);
    CarryOfMultiple(k[4] + w.Limb5(), k[5]);
    CarryOfMultiple(k[5] + w.Limb6(), k[6]);
    CarryOfMultiple(k[6] + w.Limb7(), k[7]);
  }

  // -- The honest witness ---------------------------------------------------------

  function Reading(op: Opcode, x: int): int {
    if IsSignedOp(op) then Signed(x) else x
  }

  /** Quotient and remainder readings; a zero divisor gives all ones and the dividend. */
  function QuotientOf(op: Opcode, b: int, c: int): int
    requires 0 <= b < TWO_32 && 0 <= c < TWO_32
  {
    if c == 0 then TWO_32 - 1 else Truncated(Reading(op, b), Reading(op, c))
  }

  function RemainderOf(op: Opcode, b: int, c: int): int
    requires 0 <= b < TWO_32 && 0 <= c < TWO_32
  {
    if c == 0 then Reading(op, b) else Reading(op, b) - Reading(op, c) * QuotientOf(op, b, c)
  }

  /** |remainder| < |divisor|, with the dividend's sign. */
  lemma RemainderRange(op: Opcode, b: int, c: int)
    requires 0 <= b < TWO_32 && 0 < c < TWO_32
    ensures var rv, bv, cv := RemainderOf(op, b, c), Reading(op, b), Reading(op, c);
            && cv != 0 && Magnitude(rv) < Magnitude(cv)
            && (bv >= 0 ==> rv >= 0) && (bv < 0 ==> rv <= 0)
            && bv == cv * QuotientOf(op, b, c) + rv
  {
    var bv, cv := Reading(op, b), Reading(op, c);
    TruncatedRemainder(bv, cv);
  }

  lemma TruncatedRemainder(b: int, c: int)
    requires c != 0
    ensures var r := b - c * Truncated(b, c);
            Magnitude(r) < Magnitude(c) && (b >= 0 ==> r >= 0) && (b < 0 ==> r <= 0)
  {
    if b >= 0 {
      assert b - c * (b / c) == b % c;
    } else {
      assert -b - c * ((-b) / c) == (-b) % c;
    }
  }

  /** The quotient's sign and size. */
  lemma QuotientSignOf(op: Opcode, b: int, c: int)
    requires 0 <= b < TWO_32 && 0 < c < TWO_32
    ensures var q := QuotientOf(op, b, c);
            && -TWO_31 <= q < TWO_32
            && (q < 0 ==> (Reading(op, b) < 0) != (Reading(op, c) < 0))
            && (q > 0 ==> (Reading(op, b) < 0) == (Reading(op, c) < 0))
  {
    var bv, cv := Reading(op, b), Reading(op, c);
    if bv >= 0 {
      DivisionSign(bv, cv);
    } else {
      DivisionSign(-bv, cv);
    }
  }

  lemma DivisionSign(b: int, c: int)
    requires 0 <= b < TWO_32 && c != 0
    ensures c > 0 ==> 0 <= b / c <= b
    ensures c < 0 ==> -b <= b / c <= 0
  {
    if c > 0 {
      PositiveQuotient(b, c);
    } else {
      PositiveQuotient(b, -c);
      EuclideanIsUnique(b, c, -(b / (-c)), b % (-c));
    }
  }

  lemma PositiveQuotient(b: int, c: int)
    requires 0 <= b && c > 0
    ensures 0 <= b / c <= b && b == (-c) * (-(b / c)) + b % c
  {
    var q, r := b / c, b % c;
    assert b == c * q + r;
    assert (-c) * (-q) == c * q;
    hide *;
    QuotientBound(b, c, q, r);
  }

  lemma QuotientBound(b: int, c: int, q: int, r: int)
    requires 0 <= b && c > 0 && b == c * q + r && 0 <= r < c
    ensures 0 <= q <= b
  {
    assert q <= -1 ==> c * q <= -c;
    assert q >= 0 ==> c * q >= q;
  }

  /** The columns that do not need an inverse or a scan. */
  function SignBit(op: Opcode, x: int): (s: Felt)
    ensures Bit(s)
  {
    if Reading(op, x) < 0 then 1 else 0
  }

  /** Two's complement negation of the remainder word. */
  function Negated(r: Word): Word
    requires r.Bytes()
  {
    WordRange(r);
    if r.Value() == 0 then r else WordOf(TWO_32 - r.Value())
  }

  /** The marker of the first differing limb. */
  function FirstDifference(x: Word, y: Word): (m: Word)
    ensures Bit(m.l0) && Bit(m.l1) && Bit(m.l2) && Bit(m.l3)
  {
    if x.l3 != y.l3 then Word(0, 0, 0, 1)
    else if x.l2 != y.l2 then Word(0, 0, 1, 0)
    else if x.l1 != y.l1 then Word(0, 1, 0, 0)
    else Word(1, 0, 0, 0)
  }

  function LimbDistance(x: Word, y: Word): (d: int)
    requires x.Bytes() && y.Bytes()
    ensures 0 <= d < 256
  {
    if x.l3 != y.l3 then Magnitude(x.l3 - y.l3)
    else if x.l2 != y.l2 then Magnitude(x.l2 - y.l2)
    else if x.l1 != y.l1 then Magnitude(x.l1 - y.l1)
    else Magnitude(x.l0 - y.l0)
  }

  /** The witness row, given the inverse columns. */
  function Witness(op: Opcode, b: Word, c: Word, cSumInv: Felt, rSumInv: Felt, rInv: Word): Row
    requires b.Bytes() && c.Bytes()
  {
    WordRange(b);
    WordRange(c);
    var qv, rv := QuotientOf(op, b.Value(), c.Value()), RemainderOf(op, b.Value(), c.Value());
    var q, r := WordOf(qv % TWO_32), WordOf(rv % TWO_32);
    var bSign, cSign := SignBit(op, b.Value()), SignBit(op, c.Value());
    var signXor: Felt := if bSign == cSign then 0 else 1;
    var zeroDivisor: Felt := if c.Value() == 0 then 1 else 0;
    var rZero: Felt := if c.Value() != 0 && rv == 0 then 1 else 0;
    var rAbs := if signXor == 0 then r else Negated(r);
    var special := zeroDivisor == 1 || rZero == 1;
    Row(b, c, q, r, rAbs, rInv,
        zeroDivisor, rZero, bSign, cSign, if qv < 0 then 1 else 0, signXor,
        cSumInv, rSumInv,
        if special then Word(0, 0, 0, 0) else FirstDifference(c, rAbs),
        if special then 0 else LimbDistance(c, rAbs),
        if op == Div then 1 else 0, if op == DivU then 1 else 0,
        if op == Rem then 1 else 0, if op == RemU then 1 else 0)
  }

  // Each group of constraints holds on the witness.

  lemma ZeroVanishes(x: int)
    requires x == 0
    ensures Vanishes(x)
  {
  }

  lemma WitnessBits(w: Row)
    requires Bit(w.zeroDivisor) && Bit(w.rZero) && Bit(w.bSign) && Bit(w.cSign) && Bit(w.qSign)
    requires Bit(w.signXor) && Bit(w.zeroDivisor + w.rZero)
    requires Bit(w.ltMarker.l0) && Bit(w.ltMarker.l1) && Bit(w.ltMarker.l2) && Bit(w.ltMarker.l3)
    ensures w.BitConstraints()
  {
    BitVanishes(w.zeroDivisor);
    BitVanishes(w.rZero);
    BitVanishes(w.bSign);
    BitVanishes(w.cSign);
    BitVanishes(w.qSign);
    BitVanishes(w.signXor);
    BitVanishes(w.ltMarker.l0);
    BitVanishes(w.ltMarker.l1);
    BitVanishes(w.ltMarker.l2);
    BitVanishes(w.ltMarker.l3);
    BitVanishes(w.SpecialCase());
    BitVanishes(1 - w.zeroDivisor);
    BitVanishes(1 - w.SpecialCase());
    hide Vanishes;
  }

  lemma BitVanishes(x: int)
    requires Bit(x)
    ensures Vanishes(x * (1 - x))
  {
  }

  lemma FlagProduct(flag: int, x: int)
    requires Bit(flag) && (flag == 1 ==> Vanishes(x))
    ensures Vanishes(flag * x)
  {
    if flag == 0 {
      assert flag * x == 0;
    }
  }

  lemma WitnessZeros(w: Row)
    requires w.c.Bytes() && w.q.Bytes() && w.r.Bytes()
    requires Bit(w.zeroDivisor) && Bit(w.rZero) && Bit(w.zeroDivisor + w.rZero)
    requires w.zeroDivisor == 1 ==> w.c == Word(0, 0, 0, 0) && w.q == Word(255, 255, 255, 255)
    requires w.zeroDivisor == 0 ==> Vanishes(w.c.Sum() * w.cSumInv - 1)
    requires w.rZero == 1 ==> w.r == Word(0, 0, 0, 0)
    requires w.zeroDivisor + w.rZero == 0 ==> Vanishes(w.r.Sum() * w.rSumInv - 1)
    ensures w.ZeroConstraints()
  {
    ZeroVanishes(0);
    hide Vanishes;
    FlagProduct(w.zeroDivisor, w.c.l0);
    FlagProduct(w.zeroDivisor, w.c.l1);
    FlagProduct(w.zeroDivisor, w.c.l2);
    FlagProduct(w.zeroDivisor, w.c.l3);
    FlagProduct(w.zeroDivisor, w.q.l0 - 255);
    FlagProduct(w.zeroDivisor, w.q.l1 - 255);
    FlagProduct(w.zeroDivisor, w.q.l2 - 255);
    FlagProduct(w.zeroDivisor, w.q.l3 - 255);
    FlagProduct(1 - w.zeroDivisor, w.c.Sum() * w.cSumInv - 1);
    FlagProduct(w.rZero, w.r.l0);
    FlagProduct(w.rZero, w.r.l1);
    FlagProduct(w.rZero, w.r.l2);
    FlagProduct(w.rZero, w.r.l3);
    FlagProduct(1 - w.SpecialCase(), w.r.Sum() * w.rSumInv - 1);
  }

  lemma WitnessSigns(w: Row)
    requires w.q.Bytes() && Bit(w.zeroDivisor)
    requires Bit(w.bSign) && Bit(w.cSign) && Bit(w.qSign) && Bit(w.IsSigned())
    requires w.IsSigned() == 0 ==> w.bSign == 0 && w.cSign == 0
    requires w.signXor == if w.bSign == w.cSign then 0 else 1
    requires w.zeroDivisor == 0 ==> (w.q.Value() != 0 ==> w.qSign == w.signXor) && (w.q.Value() == 0 ==> w.qSign == 0)
    ensures w.SignConstraints()
  {
    ZeroVanishes(0);
    WordRange(w.q);
    hide Vanishes, Word.Sum, Word.Value;
    FlagProduct(1 - w.IsSigned(), w.bSign);
    FlagProduct(1 - w.IsSigned(), w.cSign);
    XorIsZero(w.signXor, w.bSign, w.cSign);
    QuotientSignTerms(w.zeroDivisor, w.q.Sum(), w.qSign, w.signXor);
  }

  lemma XorIsZero(x: int, a: int, b: int)
    requires Bit(a) && Bit(b) && x == if a == b then 0 else 1
    ensures x - a - b + 2 * a * b == 0
  {
  }

  lemma QuotientSignTerms(flag: int, sum: int, sign: int, xor: int)
    requires Bit(flag) && Bit(sign) && Bit(xor)
    requires flag == 0 ==> (if sum == 0 then sign == 0 else sign == xor)
    ensures (1 - flag) * sum * (sign - xor) == 0 && (1 - flag) * (sign - xor) * sign == 0
  {
  }

  lemma WitnessChecks(w: Row)
    requires w.b.Bytes() && w.c.Bytes() && Bit(w.bSign) && Bit(w.cSign) && Bit(w.IsSigned())
    requires w.IsSigned() == 1 ==> w.bSign == (if w.b.l3 >= 128 then 1 else 0)
    requires w.IsSigned() == 1 ==> w.cSign == (if w.c.l3 >= 128 then 1 else 0)
    requires w.zeroDivisor + w.rZero == 0 ==> 1 <= w.ltDiff < 256
    requires Bit(w.zeroDivisor) && Bit(w.rZero) && Bit(w.zeroDivisor + w.rZero)
    ensures w.OtherLookups()
  {
    SignCheck(w.IsSigned(), w.b.l3, w.bSign);
    SignCheck(w.IsSigned(), w.c.l3, w.cSign);
    ZeroVanishes(0);
    if w.SpecialCase() == 0 {
      assert Reduce(w.ltDiff - 1) == w.ltDiff - 1;
    }
  }

  lemma SignCheck(signed: int, top: int, sign: int)
    requires Byte(top) && Bit(sign) && Bit(signed)
    requires signed == 1 ==> sign == (if top >= 128 then 1 else 0)
    ensures Reduce(2 * signed * (top - sign * 128)) < 256
  {
    if signed == 1 {
      assert 2 * signed * (top - sign * 128) == 2 * top - 256 * sign;
    }
  }

  // The absolute remainder.

  lemma WitnessKept(w: Row)
    requires w.signXor == 0 && w.rAbs == w.r
    ensures w.AbsConstraints()
  {
    ZeroVanishes(0);
    hide Vanishes, Reduce;
  }

  /** Limbs of x + y == 2^32 * e chain through carries that are bits. */
  lemma NegationCarry(sum: int, rest: int, unit: int, e: int) returns (carry: Felt)
    requires sum + 0x100 * rest == 0x100 * unit * e && 0 <= sum <= 511 && unit >= 1 && Bit(e)
    ensures Bit(carry) && sum == 0x100 * carry && carry + rest == unit * e
  {
    var k := unit * e - rest;
    assert sum == 0x100 * k;
    carry := k;
  }

  lemma NegationCarries(r: Word, a: Word) returns (k0: Felt, k1: Felt, k2: Felt, k3: Felt)
    requires r.Bytes() && a == Negated(r)
    ensures a.Bytes() && Bit(k0) && Bit(k1) && Bit(k2) && Bit(k3)
    ensures r.l0 + a.l0 == 0x100 * k0 && k0 + r.l1 + a.l1 == 0x100 * k1
    ensures k1 + r.l2 + a.l2 == 0x100 * k2 && k2 + r.l3 + a.l3 == 0x100 * k3
  {
    WordRange(r);
    var e := if r.Value() == 0 then 0 else 1;
    assert a.Bytes() && r.Value() + a.Value() == TWO_32 * e;
    k0 := NegationCarry(r.l0 + a.l0, (r.l1 + a.l1) + 0x100 * (r.l2 + a.l2) + 0x1_0000 * (r.l3 + a.l3), 0x100_0000, e);
    k1 := NegationCarry(k0 + r.l1 + a.l1, (r.l2 + a.l2) + 0x100 * (r.l3 + a.l3), 0x1_0000, e);
    k2 := NegationCarry(k1 + r.l2 + a.l2, r.l3 + a.l3, 0x100, e);
    k3 := NegationCarry(k2 + r.l3 + a.l3, 0, 1, e);
  }

  lemma NegationLimb(w: Row, r: Felt, a: Felt, inv: Felt, carryIn: int, carry: Felt)
    requires w.signXor == 1 && Vanishes((a - 256) * inv - 1)
    requires a < 256 && Bit(carryIn) && Bit(carry) && carryIn + r + a == 0x100 * carry
    ensures Reduce((carryIn + r + a) * INV_256) == carry
    ensures w.AbsLimb(r, a, inv, carryIn, carry)
  {
    CarryOfMultiple(carryIn + r + a, carry);
    ZeroVanishes(0);
    assert w.signXor * ((a - 256) * inv - 1) == (a - 256) * inv - 1;
    hide Vanishes;
  }

  lemma WitnessNegated(w: Row)
    requires w.r.Bytes() && w.signXor == 1 && w.rAbs == Negated(w.r)
    requires Vanishes((w.rAbs.l0 - 256) * w.rInv.l0 - 1) && Vanishes((w.rAbs.l1 - 256) * w.rInv.l1 - 1)
    requires Vanishes((w.rAbs.l2 - 256) * w.rInv.l2 - 1) && Vanishes((w.rAbs.l3 - 256) * w.rInv.l3 - 1)
    ensures w.AbsConstraints()
  {
    hide Vanishes, Reduce, Negated, Row.AbsLimb;
    var r, a := w.r, w.rAbs;
    var k0, k1, k2, k3 := NegationCarries(r, a);
    NegationLimb(w, r.l0, a.l0, w.rInv.l0, 0, k0);
    NegationLimb(w, r.l1, a.l1, w.rInv.l1, k0, k1);
    NegationLimb(w, r.l2, a.l2, w.rInv.l2, k1, k2);
    NegationLimb(w, r.l3, a.l3, w.rInv.l3, k2, k3);
  }

  // The comparison scan.

  lemma WitnessSpecialScan(w: Row)
    requires w.zeroDivisor + w.rZero == 1 && w.ltMarker == Word(0, 0, 0, 0)
    ensures w.ScanConstraints()
  {
    ZeroVanishes(0);
    hide Vanishes, Row.Diff0, Row.Diff1, Row.Diff2, Row.Diff3;
  }

  lemma WitnessScan(w: Row)
    requires w.zeroDivisor + w.rZero == 0 && w.c.Bytes() && w.rAbs.Bytes() && Bit(w.cSign)
    requires w.ltMarker == FirstDifference(w.c, w.rAbs) && w.ltDiff == LimbDistance(w.c, w.rAbs)
    requires if w.cSign == 0 then w.rAbs.Value() < w.c.Value() else w.rAbs.Value() > w.c.Value()
    ensures w.ScanConstraints() && w.ltDiff >= 1
  {
    FirstDifferenceDiffs(w);
    hide Vanishes, Word.Value, Row.Diff0, Row.Diff1, Row.Diff2, Row.Diff3, LimbDistance;
    var m := w.ltMarker;
    Scanned(w.Prefix3(), m.l3, w.ltDiff, w.Diff3());
    Scanned(w.Prefix2(), m.l2, w.ltDiff, w.Diff2());
    Scanned(w.Prefix1(), m.l1, w.ltDiff, w.Diff1());
    Scanned(w.Prefix0(), m.l0, w.ltDiff, w.Diff0());
    ZeroVanishes(1 - w.Prefix0());
  }

  lemma Scanned(prefix: int, marker: int, distance: int, diff: int)
    requires prefix == 1 || diff == 0
    requires marker == 0 || distance == diff
    ensures Vanishes((1 - prefix) * diff) && Vanishes(marker * (distance - diff))
  {
    ZeroVanishes((1 - prefix) * diff);
    ZeroVanishes(marker * (distance - diff));
  }

  /** Marker and difference columns that pass the scan. */
  ghost predicate ScanAccepts(w: Row, marker: Word, diff: Felt) {
    var v := w.(ltMarker := marker, ltDiff := diff);
    && v.ScanConstraints() && v.OtherLookups()
    && Bit(marker.l0) && Bit(marker.l1) && Bit(marker.l2) && Bit(marker.l3)
  }

  /** The scan can be passed exactly when |r| compares with |c| as the divisor's sign asks. */
  lemma ScanAcceptsIff(w: Row)
    requires w.zeroDivisor + w.rZero == 0 && w.c.Bytes() && w.rAbs.Bytes() && Bit(w.cSign)
    requires w.BSignCheck() < 256 && w.CSignCheck() < 256
    ensures (exists m, d :: ScanAccepts(w, m, d))
            <==> if w.cSign == 0 then w.rAbs.Value() < w.c.Value() else w.rAbs.Value() > w.c.Value()
  {
    hide Vanishes, Row.ScanConstraints, Word.Value, LimbDistance, FirstDifference;
    if m, d :| ScanAccepts(w, m, d) {
      ScanIsComparison(w.(ltMarker := m, ltDiff := d));
    }
    if if w.cSign == 0 then w.rAbs.Value() < w.c.Value() else w.rAbs.Value() > w.c.Value() {
      var m, d := FirstDifference(w.c, w.rAbs), LimbDistance(w.c, w.rAbs);
      WitnessScan(w.(ltMarker := m, ltDiff := d));
      assert ScanAccepts(w, m, d);
    }
  }

  /** The differences above the marked limb are zero, and the marked one is the distance. */
  lemma FirstDifferenceDiffs(w: Row)
    requires w.c.Bytes() && w.rAbs.Bytes() && Bit(w.cSign)
    requires if w.cSign == 0 then w.rAbs.Value() < w.c.Value() else w.rAbs.Value() > w.c.Value()
    ensures var m, d := FirstDifference(w.c, w.rAbs), LimbDistance(w.c, w.rAbs);
            && d >= 1
            && (m.l3 == 1 ==> w.Diff3() == d)
            && (m.l2 == 1 ==> w.Diff3() == 0 && w.Diff2() == d)
            && (m.l1 == 1 ==> w.Diff3() == 0 && w.Diff2() == 0 && w.Diff1() == d)
            && (m.l0 == 1 ==> w.Diff3() == 0 && w.Diff2() == 0 && w.Diff1() == 0 && w.Diff0() == d)
  {
  }

  // -- Completeness ---------------------------------------------------------------

  lemma Inverses(v: Word) returns (inv: Word)
    requires v.Bytes()
    ensures Vanishes((v.l0 - 256) * inv.l0 - 1) && Vanishes((v.l1 - 256) * inv.l1 - 1)
    ensures Vanishes((v.l2 - 256) * inv.l2 - 1) && Vanishes((v.l3 - 256) * inv.l3 - 1)
  {
    var i0 := InverseExists(v.l0 - 256);
    var i1 := InverseExists(v.l1 - 256);
    var i2 := InverseExists(v.l2 - 256);
    var i3 := InverseExists(v.l3 - 256);
    inv := Word(i0, i1, i2, i3);
  }

  lemma SumInverse(v: Word) returns (inv: Felt)
    requires v.Bytes()
    ensures v.Value() != 0 ==> Vanishes(v.Sum() * inv - 1)
  {
    WordRange(v);
    if v.Value() == 0 {
      inv := 0;
    } else {
      inv := InverseExists(v.Sum());
    }
  }

  lemma ZeroWord(v: Word)
    requires v.Bytes()
    ensures v.Value() == 0 ==> v == Word(0, 0, 0, 0)
    ensures v.Value() == TWO_32 - 1 ==> v == Word(255, 255, 255, 255)
  {
  }

  ghost predicate ExactDivision(w: Row) {
    CValue(w) * QValue(w) + RValue(w) == BValue(w)
  }

  /** The integer facts behind the witness, one division at a time. */
  ghost predicate WitnessFacts(w: Row, op: Opcode) {
    && w.b.Bytes() && w.c.Bytes() && w.q.Bytes() && w.r.Bytes() && w.rAbs.Bytes()
    && Bit(w.zeroDivisor) && Bit(w.rZero) && Bit(w.zeroDivisor + w.rZero)
    && Bit(w.bSign) && Bit(w.cSign) && Bit(w.qSign)
    && w.signXor == (if w.bSign == w.cSign then 0 else 1)
    && (w.zeroDivisor == 1 <==> w.c.Value() == 0)
    && (w.zeroDivisor == 1 ==> w.q.Value() == TWO_32 - 1)
    && (w.zeroDivisor == 0 ==> if w.q.Value() == 0 then w.qSign == 0 else w.qSign == w.signXor)
    && (w.rZero == 1 ==> w.r.Value() == 0)
    && (w.zeroDivisor + w.rZero == 0 ==> w.r.Value() != 0)
    && ExactDivision(w)
    && CValue(w) == Reading(op, w.c.Value()) && BValue(w) == Reading(op, w.b.Value())
    && (w.zeroDivisor + w.rZero == 0 ==> Magnitude(RValue(w)) < Magnitude(CValue(w)) && RSign(w) == w.bSign)
    && (w.signXor == 0 ==> w.rAbs == w.r) && (w.signXor == 1 ==> w.rAbs == Negated(w.r))
  }

  /** A 32-bit word with its sign column reads back the value it was reduced from. */
  lemma ReadBack(v: int, sign: int)
    requires -TWO_32 <= v < TWO_32 && sign == if v < 0 then 1 else 0
    ensures v % TWO_32 - TWO_32 * sign == v && (v % TWO_32 == 0 <==> v == 0 || v == -TWO_32)
  {
  }


  /** Columns fixed by a quotient and remainder reading. */
  ghost predicate ReadsAs(w: Row, op: Opcode, qv: int, rv: int) {
    && w.b.Bytes() && w.c.Bytes() && w.q.Bytes() && w.r.Bytes()
    && 0 <= w.b.Value() < TWO_32 && 0 <= w.c.Value() < TWO_32
    && w.q.Value() == qv % TWO_32 && w.r.Value() == rv % TWO_32
    && w.bSign == SignBit(op, w.b.Value()) && w.cSign == SignBit(op, w.c.Value())
    && w.qSign == (if qv < 0 then 1 else 0)
    && w.signXor == (if w.bSign == w.cSign then 0 else 1)
    && w.zeroDivisor == (if w.c.Value() == 0 then 1 else 0)
    && w.rZero == (if w.c.Value() != 0 && rv == 0 then 1 else 0)
    && w.rAbs == (if w.signXor == 0 then w.r else Negated(w.r)) && w.rAbs.Bytes()
  }

  lemma WitnessReadsAs(op: Opcode, b: Word, c: Word, cSumInv: Felt, rSumInv: Felt, rInv: Word)
    requires b.Bytes() && c.Bytes()
    ensures 0 <= b.Value() < TWO_32 && 0 <= c.Value() < TWO_32
    ensures ReadsAs(Witness(op, b, c, cSumInv, rSumInv, rInv), op,
                    QuotientOf(op, b.Value(), c.Value()), RemainderOf(op, b.Value(), c.Value()))
  {
    WordRange(b);
    WordRange(c);
    hide QuotientOf, RemainderOf;
  }

  lemma FactsFromReading(w: Row, op: Opcode)
    requires 0 <= w.b.Value() < TWO_32 && 0 <= w.c.Value() < TWO_32
    requires ReadsAs(w, op, QuotientOf(op, w.b.Value(), w.c.Value()), RemainderOf(op, w.b.Value(), w.c.Value()))
    ensures WitnessFacts(w, op)
  {
    var b, c := w.b.Value(), w.c.Value();
    var qv, rv := QuotientOf(op, b, c), RemainderOf(op, b, c);
    assert c == 0 ==> qv == TWO_32 - 1 && rv == Reading(op, b);
    if c != 0 {
      RemainderRange(op, b, c);
      QuotientSignOf(op, b, c);
    }
    hide QuotientOf, RemainderOf, Word.Value, Word.Bytes, Negated;
    assert Magnitude(rv) < TWO_32;
    ReadBack(qv, w.qSign);
    assert RSign(w) == if rv < 0 then 1 else 0;
    ReadBack(rv, RSign(w));
    assert CValue(w) == Reading(op, c) && BValue(w) == Reading(op, b);
    assert QValue(w) == qv && RValue(w) == rv;
    assert c == 0 ==> CValue(w) * QValue(w) == 0;
  }

  /** What the constraints ask beyond the facts: the inverse columns. */
  ghost predicate HasInverses(w: Row) {
    && (w.c.Value() != 0 ==> Vanishes(w.c.Sum() * w.cSumInv - 1))
    && (w.r.Value() != 0 ==> Vanishes(w.r.Sum() * w.rSumInv - 1))
    && Vanishes((w.rAbs.l0 - 256) * w.rInv.l0 - 1) && Vanishes((w.rAbs.l1 - 256) * w.rInv.l1 - 1)
    && Vanishes((w.rAbs.l2 - 256) * w.rInv.l2 - 1) && Vanishes((w.rAbs.l3 - 256) * w.rInv.l3 - 1)
  }

  /** And the scan columns. */
  ghost predicate ScanColumns(w: Row) {
    if w.zeroDivisor + w.rZero == 1 then w.ltMarker == Word(0, 0, 0, 0)
    else
      && w.c.Bytes() && w.rAbs.Bytes()
      && w.ltMarker == FirstDifference(w.c, w.rAbs) && w.ltDiff == LimbDistance(w.c, w.rAbs)
  }

  lemma ZerosAccepted(w: Row, op: Opcode)
    requires WitnessFacts(w, op) && HasInverses(w)
    ensures w.ZeroConstraints()
  {
    hide Word.Value, Word.Sum, Vanishes, Row.ZeroConstraints, Negated, ExactDivision, Reading, CValue, BValue, RValue;
    ZeroWord(w.c);
    ZeroWord(w.q);
    ZeroWord(w.r);
    hide WitnessFacts, HasInverses;
    WitnessZeros(w);
  }

  lemma AbsAccepted(w: Row, op: Opcode)
    requires WitnessFacts(w, op) && HasInverses(w)
    ensures w.AbsConstraints()
  {
    hide Word.Value, Word.Sum, Vanishes, Row.AbsConstraints, Negated;
    if w.signXor == 0 { WitnessKept(w); } else { WitnessNegated(w); }
  }

  lemma ScanAccepted(w: Row, op: Opcode)
    requires WitnessFacts(w, op) && ScanColumns(w)
    ensures w.ScanConstraints()
    ensures w.zeroDivisor + w.rZero == 0 ==> 1 <= w.ltDiff < 256
  {
    hide Row.ScanConstraints, LimbDistance, Negated, FirstDifference;
    if w.zeroDivisor + w.rZero == 1 {
      WitnessSpecialScan(w);
    } else {
      RemainderBelowDivisor(w, op);
      hide Word.Value;
      WitnessScan(w);
    }
  }

  lemma BitsAccepted(w: Row, op: Opcode)
    requires WitnessFacts(w, op) && ScanColumns(w)
    ensures w.BitConstraints()
  {
    hide Row.BitConstraints, LimbDistance, Negated, Word.Value;
    WitnessBits(w);
  }

  lemma SignsAccepted(w: Row, op: Opcode)
    requires WitnessFacts(w, op) && w.Operands(op)
    ensures w.SignConstraints()
  {
    SignedFlags(w, op);
    hide Row.SignConstraints, Row.Operands, Negated, Word.Value, Row.IsSigned;
    WitnessSigns(w);
  }

  lemma LookupsAccepted(w: Row, op: Opcode)
    requires WitnessFacts(w, op) && w.Operands(op)
    requires w.zeroDivisor + w.rZero == 0 ==> 1 <= w.ltDiff < 256
    ensures w.CarryLookups() && w.OtherLookups()
  {
    SignedFlags(w, op);
    hide Row.CarryLookups, Row.OtherLookups, Row.Operands, Negated, Word.Value, Row.IsSigned;
    CarriesFit(w);
    WitnessChecks(w);
  }

  lemma FactsAreAccepted(w: Row, op: Opcode)
    requires WitnessFacts(w, op) && w.Operands(op) && HasInverses(w) && ScanColumns(w)
    ensures w.Accepted()
  {
    hide WitnessFacts, HasInverses, ScanColumns, Row.Operands, Row.BitConstraints, Row.ZeroConstraints,
      Row.SignConstraints, Row.AbsConstraints, Row.ScanConstraints, Row.CarryLookups, Row.OtherLookups;
    BitsAccepted(w, op);
    ZerosAccepted(w, op);
    SignsAccepted(w, op);
    AbsAccepted(w, op);
    ScanAccepted(w, op);
    LookupsAccepted(w, op);
  }

  lemma SignedFlags(w: Row, op: Opcode)
    requires WitnessFacts(w, op) && w.Operands(op)
    ensures Bit(w.IsSigned())
    ensures w.IsSigned() == 0 ==> w.bSign == 0 && w.cSign == 0
    ensures w.IsSigned() == 1 ==> w.bSign == (if w.b.l3 >= 128 then 1 else 0)
    ensures w.IsSigned() == 1 ==> w.cSign == (if w.c.l3 >= 128 then 1 else 0)
  {
    WordRange(w.b);
    WordRange(w.c);
    hide Word.Value;
  }

  lemma RemainderBelowDivisor(w: Row, op: Opcode)
    requires WitnessFacts(w, op) && w.zeroDivisor + w.rZero == 0
    ensures if w.cSign == 0 then w.rAbs.Value() < w.c.Value() else w.rAbs.Value() > w.c.Value()
  {
    WordRange(w.r);
    WordRange(w.c);
    hide Word.Value;
  }

  /**
   * DIV completeness.  Every opcode and every pair of 32-bit operands has an
   * accepted row; its eight carries fit the 11-bit lookup.
   */
  lemma DivComplete(op: Opcode, b: Word, c: Word) returns (w: Row)
    requires b.Bytes() && c.Bytes()
    ensures w.b == b && w.c == c && w.Operands(op) && w.Accepted()
  {
    hide *;
    var draft := Draft(op, b, c);
    var cSumInv := SumInverse(c);
    var rSumInv := SumInverse(draft.r);
    var rInv := Inverses(draft.rAbs);
    w := Witness(op, b, c, cSumInv, rSumInv, rInv);
    WitnessShape(op, b, c, cSumInv, rSumInv, rInv);
    WitnessReadsAs(op, b, c, cSumInv, rSumInv, rInv);
    InversesPresent(w);
    FactsFromReading(w, op);
    FactsAreAccepted(w, op);
  }

  lemma InversesPresent(w: Row)
    requires w.c.Value() != 0 ==> Vanishes(w.c.Sum() * w.cSumInv - 1)
    requires w.r.Value() != 0 ==> Vanishes(w.r.Sum() * w.rSumInv - 1)
    requires Vanishes((w.rAbs.l0 - 256) * w.rInv.l0 - 1) && Vanishes((w.rAbs.l1 - 256) * w.rInv.l1 - 1)
    requires Vanishes((w.rAbs.l2 - 256) * w.rInv.l2 - 1) && Vanishes((w.rAbs.l3 - 256) * w.rInv.l3 - 1)
    ensures HasInverses(w)
  {
    hide Vanishes, Word.Value, Word.Sum;
  }

  /** The columns that do not depend on the inverses. */
  function Draft(op: Opcode, b: Word, c: Word): (w: Row)
    requires b.Bytes() && c.Bytes()
    ensures w.r.Bytes() && w.rAbs.Bytes()
  {
    WitnessReadsAs(op, b, c, 0, 0, Word(0, 0, 0, 0));
    Witness(op, b, c, 0, 0, Word(0, 0, 0, 0))
  }

  lemma WitnessShape(op: Opcode, b: Word, c: Word, cSumInv: Felt, rSumInv: Felt, rInv: Word)
    requires b.Bytes() && c.Bytes()
    ensures var w, d := Witness(op, b, c, cSumInv, rSumInv, rInv), Draft(op, b, c);
            && w.b == b && w.c == c && w.r == d.r && w.rAbs == d.rAbs
            && w.cSumInv == cSumInv && w.rSumInv == rSumInv && w.rInv == rInv
            && w.Operands(op) && ScanColumns(w)
  {
    WitnessReadsAs(op, b, c, cSumInv, rSumInv, rInv);
    hide QuotientOf, RemainderOf, Negated, FirstDifference, LimbDistance, Word.Value;
  }
}
