// The div table: one row for DIV, DIVU, REM or REMU.  The row's constraints and
// range checks over M31 force the written word to be the result of section 7.2
// of the RISC-V Unprivileged ISA, and every pair of operands has such a row.
module DivRow {
  import opened M31
  import opened RowFacts

  datatype Opcode = Div | DivU | Rem | RemU

  // -- The instruction set's definition ---------------------------------------

  /** Division rounding toward zero; Dafny's own operator rounds toward minus infinity. */
  function Truncated(a: int, b: int): int
    requires b != 0
  {
    if a >= 0 then a / b else -((-a) / b)
  }

  /** The 32-bit result, all four opcodes, zero divisor and overflow included. */
  function RiscvResult(op: Opcode, b: int, c: int): int
    requires 0 <= b < TWO_32 && 0 <= c < TWO_32
  {
    match op
    case DivU => if c == 0 then TWO_32 - 1 else b / c
    case RemU => if c == 0 then b else b % c
    case Div =>
      if c == 0 then TWO_32 - 1
      else if Signed(b) == -TWO_31 && Signed(c) == -1 then b
      else Truncated(Signed(b), Signed(c)) % TWO_32
    case Rem =>
      if c == 0 then b
      else if Signed(b) == -TWO_31 && Signed(c) == -1 then 0
      else (Signed(b) - Signed(c) * Truncated(Signed(b), Signed(c))) % TWO_32
  }

  // -- The row ------------------------------------------------------------------

  /** Columns of an enabled row: b is rs1, c is rs2. */
  datatype Row = Row(
    b: Word, c: Word, q: Word, r: Word, rAbs: Word, rInv: Word,
    zeroDivisor: Felt, rZero: Felt,
    bSign: Felt, cSign: Felt, qSign: Felt, signXor: Felt,
    cSumInv: Felt, rSumInv: Felt,
    ltMarker: Word, ltDiff: Felt,
    divFlag: Felt, divuFlag: Felt, remFlag: Felt, remuFlag: Felt)
  {
    // Derived columns; the linear ones are left unreduced.

    function IsDiv(): int { divFlag + divuFlag }

    function IsSigned(): int { divFlag + remFlag }

    function SpecialCase(): int { zeroDivisor + rZero }

    function CSignFactor(): int { 1 - 2 * cSign }

    function Diff0(): int { CSignFactor() * (c.l0 - rAbs.l0) }

    function Diff1(): int { CSignFactor() * (c.l1 - rAbs.l1) }

    function Diff2(): int { CSignFactor() * (c.l2 - rAbs.l2) }

    function Diff3(): int { CSignFactor() * (c.l3 - rAbs.l3) }

    /** The word written to rd: quotient for div/divu, remainder for rem/remu. */
    function Written(): Word {
      Word(Reduce(IsDiv() * q.l0 + (1 - IsDiv()) * r.l0),
           Reduce(IsDiv() * q.l1 + (1 - IsDiv()) * r.l1),
           Reduce(IsDiv() * q.l2 + (1 - IsDiv()) * r.l2),
           Reduce(IsDiv() * q.l3 + (1 - IsDiv()) * r.l3))
    }

    // Carries of r + |r| = 2^32.

    function CarryLt0(): Felt { Reduce((r.l0 + rAbs.l0) * INV_256) }

    function CarryLt1(): Felt { Reduce((CarryLt0() + r.l1 + rAbs.l1) * INV_256) }

    function CarryLt2(): Felt { Reduce((CarryLt1() + r.l2 + rAbs.l2) * INV_256) }

    function CarryLt3(): Felt { Reduce((CarryLt2() + r.l3 + rAbs.l3) * INV_256) }

    function Prefix3(): int { SpecialCase() + ltMarker.l3 }

    function Prefix2(): int { Prefix3() + ltMarker.l2 }

    function Prefix1(): int { Prefix2() + ltMarker.l1 }

    function Prefix0(): int { Prefix1() + ltMarker.l0 }

    // Sign-extension limbs.

    function CHi(): int { 255 * cSign }

    function QHi(): int { 255 * qSign }

    function BHi(): int { 255 * bSign }

    function RHi(): int { 255 * bSign * (1 - rZero) }

    // Schoolbook carries of rs1 = rs2 * q + r over 64 sign-extended bits.

    function Limb0(): int { c.l0 * q.l0 + r.l0 - b.l0 }

    function Limb1(): int { c.l0 * q.l1 + c.l1 * q.l0 + r.l1 - b.l1 }

    function Limb2(): int { c.l0 * q.l2 + c.l1 * q.l1 + c.l2 * q.l0 + r.l2 - b.l2 }

    function Limb3(): int {
      c.l0 * q.l3 + c.l1 * q.l2 + c.l2 * q.l1 + c.l3 * q.l0 + r.l3 - b.l3
    }

    function Limb4(): int {
      c.l0 * QHi() + c.l1 * q.l3 + c.l2 * q.l2 + c.l3 * q.l1 + CHi() * q.l0 + RHi() - BHi()
    }

    function Limb5(): int {
      (c.l0 + c.l1) * QHi() + c.l2 * q.l3 + c.l3 * q.l2 + CHi() * (q.l0 + q.l1) + RHi() - BHi()
    }

    function Limb6(): int {
      (c.Sum() - c.l3) * QHi() + c.l3 * q.l3 + CHi() * (q.Sum() - q.l3) + RHi() - BHi()
    }

    function Limb7(): int { c.Sum() * QHi() + CHi() * q.Sum() + RHi() - BHi() }

    function Carry0(): Felt { Reduce(Limb0() * INV_256) }

    function Carry1(): Felt { Reduce((Carry0() + Limb1()) * INV_256) }

    function Carry2(): Felt { Reduce((Carry1() + Limb2()) * INV_256) }

    function Carry3(): Felt { Reduce((Carry2() + Limb3()) * INV_256) }

    function Carry4(): Felt { Reduce((Carry3() + Limb4()) * INV_256) }

    function Carry5(): Felt { Reduce((Carry4() + Limb5()) * INV_256) }

    function Carry6(): Felt { Reduce((Carry5() + Limb6()) * INV_256) }

    function Carry7(): Felt { Reduce((Carry6() + Limb7()) * INV_256) }

    function BSignCheck(): Felt { Reduce(2 * IsSigned() * (b.l3 - bSign * 128)) }

    function CSignCheck(): Felt { Reduce(2 * IsSigned() * (c.l3 - cSign * 128)) }

    // -- Constraints, on an enabled row -----------------------------------------

    predicate BitConstraints() {
      && Vanishes(zeroDivisor * (1 - zeroDivisor))
      && Vanishes(rZero * (1 - rZero))
      && Vanishes(bSign * (1 - bSign))
      && Vanishes(cSign * (1 - cSign))
      && Vanishes(qSign * (1 - qSign))
      && Vanishes(signXor * (1 - signXor))
      && Vanishes(ltMarker.l0 * (1 - ltMarker.l0))
      && Vanishes(ltMarker.l1 * (1 - ltMarker.l1))
      && Vanishes(ltMarker.l2 * (1 - ltMarker.l2))
      && Vanishes(ltMarker.l3 * (1 - ltMarker.l3))
      && Vanishes(SpecialCase() * (1 - SpecialCase()))
      && Vanishes((1 - zeroDivisor) * (1 - (1 - zeroDivisor)))
      && Vanishes((1 - SpecialCase()) * (1 - (1 - SpecialCase())))
    }

    predicate ZeroConstraints() {
      && Vanishes(zeroDivisor * c.l0)
      && Vanishes(zeroDivisor * c.l1)
      && Vanishes(zeroDivisor * c.l2)
      && Vanishes(zeroDivisor * c.l3)
      && Vanishes(zeroDivisor * (q.l0 - 255))
      && Vanishes(zeroDivisor * (q.l1 - 255))
      && Vanishes(zeroDivisor * (q.l2 - 255))
      && Vanishes(zeroDivisor * (q.l3 - 255))
      && Vanishes((1 - zeroDivisor) * (c.Sum() * cSumInv - 1))
      && Vanishes(rZero * r.l0)
      && Vanishes(rZero * r.l1)
      && Vanishes(rZero * r.l2)
      && Vanishes(rZero * r.l3)
      && Vanishes((1 - SpecialCase()) * (r.Sum() * rSumInv - 1))
    }

    predicate SignConstraints() {
      && Vanishes((1 - IsSigned()) * bSign)
      && Vanishes((1 - IsSigned()) * cSign)
      && Vanishes(signXor - bSign - cSign + 2 * bSign * cSign)
      && Vanishes((1 - zeroDivisor) * q.Sum() * (qSign - signXor))
      && Vanishes((1 - zeroDivisor) * (qSign - signXor) * qSign)
    }

    /** One limb of the absolute remainder: kept, or negated in two's complement. */
    predicate AbsLimb(x: Felt, abs: Felt, inv: Felt, carryIn: int, carry: Felt) {
      && Vanishes((1 - signXor) * (abs - x))
      && Vanishes(signXor * (carry - carryIn) * (carry - 1))
      && Vanishes(signXor * (1 - carry) * abs)
      && Vanishes(signXor * ((abs - 256) * inv - 1))
    }

    predicate AbsConstraints() {
      && AbsLimb(r.l0, rAbs.l0, rInv.l0, 0, CarryLt0())
      && AbsLimb(r.l1, rAbs.l1, rInv.l1, CarryLt0(), CarryLt1())
      && AbsLimb(r.l2, rAbs.l2, rInv.l2, CarryLt1(), CarryLt2())
      && AbsLimb(r.l3, rAbs.l3, rInv.l3, CarryLt2(), CarryLt3())
    }

    predicate ScanConstraints() {
      && Vanishes((1 - Prefix3()) * Diff3())
      && Vanishes(ltMarker.l3 * (ltDiff - Diff3()))
      && Vanishes((1 - Prefix2()) * Diff2())
      && Vanishes(ltMarker.l2 * (ltDiff - Diff2()))
      && Vanishes((1 - Prefix1()) * Diff1())
      && Vanishes(ltMarker.l1 * (ltDiff - Diff1()))
      && Vanishes((1 - Prefix0()) * Diff0())
      && Vanishes(ltMarker.l0 * (ltDiff - Diff0()))
      && Vanishes(1 - Prefix0())
    }

    // -- Range-check lookups ------------------------------------------------------

    predicate CarryLookups() {
      && q.Bytes() && r.Bytes()
      && Carry0() < 2048 && Carry1() < 2048 && Carry2() < 2048 && Carry3() < 2048
      && Carry4() < 2048 && Carry5() < 2048 && Carry6() < 2048 && Carry7() < 2048
    }

    predicate OtherLookups() {
      && BSignCheck() < 256 && CSignCheck() < 256
      // consumed with multiplicity valid_not_special
      && (!Vanishes(1 - SpecialCase()) ==> Reduce(ltDiff - 1) < 0x10_0000)
    }

    /** What the instruction lookup and the register file fix: one opcode, byte operands. */
    predicate Operands(op: Opcode) {
      && b.Bytes() && c.Bytes()
      && divFlag == (if op == Div then 1 else 0)
      && divuFlag == (if op == DivU then 1 else 0)
      && remFlag == (if op == Rem then 1 else 0)
      && remuFlag == (if op == RemU then 1 else 0)
    }

    predicate Accepted() {
      && BitConstraints() && ZeroConstraints() && SignConstraints()
      && AbsConstraints() && ScanConstraints()
      && CarryLookups() && OtherLookups()
    }
  }

  // -- Soundness ----------------------------------------------------------------

  predicate Bit(x: int) { x == 0 || x == 1 }

  lemma Bits(w: Row)
    requires w.BitConstraints()
    ensures Bit(w.zeroDivisor) && Bit(w.rZero) && Bit(w.bSign) && Bit(w.cSign)
    ensures Bit(w.qSign) && Bit(w.signXor) && Bit(w.SpecialCase())
    ensures Bit(w.ltMarker.l0) && Bit(w.ltMarker.l1) && Bit(w.ltMarker.l2) && Bit(w.ltMarker.l3)
  {
    hide Vanishes;
    BitColumn(w.zeroDivisor);
    BitColumn(w.rZero);
    BitColumn(w.bSign);
    BitColumn(w.cSign);
    BitColumn(w.qSign);
    BitColumn(w.signXor);
    BitColumn(w.ltMarker.l0);
    BitColumn(w.ltMarker.l1);
    BitColumn(w.ltMarker.l2);
    BitColumn(w.ltMarker.l3);
    BitColumn(w.SpecialCase());
  }

  /** The carry lookups make the eight limb equations exact over the integers. */
  ghost predicate LimbEquations(w: Row, k: seq<int>) {
    && |k| == 8
    && w.Limb0() == 256 * k[0]
    && k[0] + w.Limb1() == 256 * k[1]
    && k[1] + w.Limb2() == 256 * k[2]
    && k[2] + w.Limb3() == 256 * k[3]
    && k[3] + w.Limb4() == 256 * k[4]
    && k[4] + w.Limb5() == 256 * k[5]
    && k[5] + w.Limb6() == 256 * k[6]
    && k[6] + w.Limb7() == 256 * k[7]
  }

  predicate Byte(x: int) { 0 <= x < 256 }

  lemma ByteProduct(x: int, y: int)
    requires Byte(x) && Byte(y)
    ensures 0 <= x * y <= 65025
  {
    assert x * y <= 255 * y;
  }

  lemma LowLimbBounds(w: Row)
    requires w.b.Bytes() && w.c.Bytes() && w.q.Bytes() && w.r.Bytes()
    ensures -256 < w.Limb0() < 300000 && -256 < w.Limb1() < 300000
    ensures -256 < w.Limb2() < 300000 && -256 < w.Limb3() < 300000
  {
    ByteProduct(w.c.l0, w.q.l0);
    ByteProduct(w.c.l0, w.q.l1);
    ByteProduct(w.c.l0, w.q.l2);
    ByteProduct(w.c.l0, w.q.l3);
    ByteProduct(w.c.l1, w.q.l0);
    ByteProduct(w.c.l1, w.q.l1);
    ByteProduct(w.c.l1, w.q.l2);
    ByteProduct(w.c.l2, w.q.l0);
    ByteProduct(w.c.l2, w.q.l1);
    ByteProduct(w.c.l3, w.q.l0);
  }

  /** One high limb: n byte products and twice m products with a sign-extension limb. */
  lemma HighLimbBound(products: int, n: int, m: int, x: int, qHi: int, cHi: int, y: int, rHi: int, bHi: int)
    requires 0 <= m <= 4 && 0 <= n && n + 2 * m <= 8
    requires 0 <= products <= 65025 * n && 0 <= x <= 255 * m && 0 <= y <= 255 * m
    requires Sign(qHi) && Sign(cHi) && Sign(rHi) && Sign(bHi)
    ensures -256 < products + x * qHi + cHi * y + rHi - bHi <= 520455
  {
  }

  /** A sign-extension limb. */
  predicate Sign(x: int) { x == 0 || x == 255 }

  lemma HighLimbBounds(w: Row)
    requires w.b.Bytes() && w.c.Bytes() && w.q.Bytes() && w.r.Bytes()
    requires Bit(w.bSign) && Bit(w.cSign) && Bit(w.qSign) && Bit(w.rZero)
    ensures -256 < w.Limb4() <= 520455 && -256 < w.Limb5() <= 520455
    ensures -256 < w.Limb6() <= 520455 && -256 < w.Limb7() <= 520455
  {
    SignLimbs(w);
    hide Row.QHi, Row.CHi, Row.RHi, Row.BHi, Sign;
    ByteProduct(w.c.l1, w.q.l3);
    ByteProduct(w.c.l2, w.q.l2);
    ByteProduct(w.c.l3, w.q.l1);
    HighLimbBound(w.c.l1 * w.q.l3 + w.c.l2 * w.q.l2 + w.c.l3 * w.q.l1, 3, 1,
                  w.c.l0, w.QHi(), w.CHi(), w.q.l0, w.RHi(), w.BHi());
    ByteProduct(w.c.l2, w.q.l3);
    ByteProduct(w.c.l3, w.q.l2);
    HighLimbBound(w.c.l2 * w.q.l3 + w.c.l3 * w.q.l2, 2, 2,
                  w.c.l0 + w.c.l1, w.QHi(), w.CHi(), w.q.l0 + w.q.l1, w.RHi(), w.BHi());
    ByteProduct(w.c.l3, w.q.l3);
    HighLimbBound(w.c.l3 * w.q.l3, 1, 3, w.c.Sum() - w.c.l3, w.QHi(), w.CHi(), w.q.Sum() - w.q.l3, w.RHi(), w.BHi());
    HighLimbBound(0, 0, 4, w.c.Sum(), w.QHi(), w.CHi(), w.q.Sum(), w.RHi(), w.BHi());
  }

  lemma SignLimbs(w: Row)
    requires Bit(w.bSign) && Bit(w.cSign) && Bit(w.qSign) && Bit(w.rZero)
    ensures Sign(w.QHi()) && Sign(w.CHi()) && Sign(w.RHi()) && Sign(w.BHi())
  {
  }

  lemma CarriesAreExact(w: Row)
    requires w.b.Bytes() && w.c.Bytes() && w.CarryLookups()
    requires Bit(w.bSign) && Bit(w.cSign) && Bit(w.qSign) && Bit(w.rZero)
    ensures LimbEquations(w, [w.Carry0(), w.Carry1(), w.Carry2(), w.Carry3(),
                              w.Carry4(), w.Carry5(), w.Carry6(), w.Carry7()])
  {
    LowLimbBounds(w);
    HighLimbBounds(w);
    hide Row.Limb0, Row.Limb1, Row.Limb2, Row.Limb3, Row.Limb4, Row.Limb5, Row.Limb6, Row.Limb7, Reduce;
    ExactCarry(w.Limb0(), w.Carry0());
    ExactCarry(w.Carry0() + w.Limb1(), w.Carry1());
    ExactCarry(w.Carry1() + w.Limb2(), w.Carry2());
    ExactCarry(w.Carry2() + w.Limb3(), w.Carry3());
    ExactCarry(w.Carry3() + w.Limb4(), w.Carry4());
    ExactCarry(w.Carry4() + w.Limb5(), w.Carry5());
    ExactCarry(w.Carry5() + w.Limb6(), w.Carry6());
    ExactCarry(w.Carry6() + w.Limb7(), w.Carry7());
  }

  // The 64-bit identity.  Products of limbs are collected in two halves.

  ghost function LowProducts(c: Word, q: Word): int {
    c.l0 * q.l0
    + 0x100 * (c.l0 * q.l1 + c.l1 * q.l0)
    + 0x1_0000 * (c.l0 * q.l2 + c.l1 * q.l1 + c.l2 * q.l0)
    + 0x100_0000 * (c.l0 * q.l3 + c.l1 * q.l2 + c.l2 * q.l1 + c.l3 * q.l0)
  }

  ghost function HighProducts(c: Word, q: Word): int {
    (c.l1 * q.l3 + c.l2 * q.l2 + c.l3 * q.l1)
    + 0x100 * (c.l2 * q.l3 + c.l3 * q.l2)
    + 0x1_0000 * (c.l3 * q.l3)
  }

  lemma Distribute(x: int, q: Word)
    ensures x * q.Value()
         == x * q.l0 + 0x100 * (x * q.l1) + 0x1_0000 * (x * q.l2) + 0x100_0000 * (x * q.l3)
  {
  }

  lemma Schoolbook(c: Word, q: Word)
    ensures c.Value() * q.Value() == LowProducts(c, q) + TWO_32 * HighProducts(c, q)
  {
    Distribute(c.l0, q);
    Distribute(c.l1, q);
    Distribute(c.l2, q);
    Distribute(c.l3, q);
    Distribute(q.Value(), c);
    assert q.Value() * c.Value() == c.Value() * q.Value();
  }

  lemma LowHalf(w: Row, k: seq<int>)
    requires LimbEquations(w, k)
    ensures LowProducts(w.c, w.q) + w.r.Value() - w.b.Value() == TWO_32 * k[3]
  {
  }

  /** The sign of the remainder column: the dividend's, except for a zero remainder. */
  function RSign(w: Row): int {
    w.bSign * (1 - w.rZero)
  }

  /** One word against the other's sign-extension limb h, limbs 4 to 7. */
  ghost function SignColumn(x: Word, h: int): int {
    0x101_0101 * (x.l0 * h) + 0x101_0100 * (x.l1 * h) + 0x101_0000 * (x.l2 * h) + 0x100_0000 * (x.l3 * h)
  }

  lemma SignColumnValue(x: Word, sign: int)
    requires Bit(sign)
    ensures SignColumn(x, 255 * sign) == sign * (TWO_32 * x.Sum() - x.Value())
  {
  }

  lemma PartialSums(x: Word, h: int)
    ensures (x.l0 + x.l1) * h == x.l0 * h + x.l1 * h
    ensures (x.Sum() - x.l3) * h == x.l0 * h + x.l1 * h + x.l2 * h
    ensures x.Sum() * h == x.l0 * h + x.l1 * h + x.l2 * h + x.l3 * h
  {
  }

  lemma HighLimbs(w: Row, qHi: int, cHi: int)
    requires qHi == w.QHi() && cHi == w.CHi()
    ensures var c, q, e := w.c, w.q, w.RHi() - w.BHi();
            && w.Limb4() == c.l0 * qHi + c.l1 * q.l3 + c.l2 * q.l2 + c.l3 * q.l1 + q.l0 * cHi + e
            && w.Limb5() == c.l0 * qHi + c.l1 * qHi + c.l2 * q.l3 + c.l3 * q.l2
                            + q.l0 * cHi + q.l1 * cHi + e
            && w.Limb6() == c.l0 * qHi + c.l1 * qHi + c.l2 * qHi + c.l3 * q.l3
                            + q.l0 * cHi + q.l1 * cHi + q.l2 * cHi + e
            && w.Limb7() == c.l0 * qHi + c.l1 * qHi + c.l2 * qHi + c.l3 * qHi
                            + q.l0 * cHi + q.l1 * cHi + q.l2 * cHi + q.l3 * cHi + e
  {
    hide Row.QHi, Row.CHi, Row.RHi, Row.BHi;
    PartialSums(w.c, qHi);
    PartialSums(w.q, cHi);
  }

  lemma HighColumns(w: Row)
    ensures w.Limb4() + 0x100 * w.Limb5() + 0x1_0000 * w.Limb6() + 0x100_0000 * w.Limb7()
         == HighProducts(w.c, w.q) + SignColumn(w.c, w.QHi()) + SignColumn(w.q, w.CHi())
            + 0x101_0101 * (w.RHi() - w.BHi())
  {
    hide Row.QHi, Row.CHi, Row.RHi, Row.BHi, Row.Limb4, Row.Limb5, Row.Limb6, Row.Limb7;
    HighLimbs(w, w.QHi(), w.CHi());
  }

  lemma HighSum(w: Row)
    requires Bit(w.bSign) && Bit(w.cSign) && Bit(w.qSign) && Bit(w.rZero)
    ensures w.Limb4() + 0x100 * w.Limb5() + 0x1_0000 * w.Limb6() + 0x100_0000 * w.Limb7()
         == HighProducts(w.c, w.q)
            + w.qSign * (TWO_32 * w.c.Sum() - w.c.Value())
            + w.cSign * (TWO_32 * w.q.Sum() - w.q.Value())
            + (RSign(w) - w.bSign) * (TWO_32 - 1)
  {
    HighColumns(w);
    hide Row.Limb4, Row.Limb5, Row.Limb6, Row.Limb7, HighProducts, SignColumn, Word.Value, Word.Sum;
    SignColumnValue(w.c, w.qSign);
    SignColumnValue(w.q, w.cSign);
  }

  lemma HighHalf(w: Row, k: seq<int>)
    requires LimbEquations(w, k)
    ensures k[3] + w.Limb4() + 0x100 * w.Limb5() + 0x1_0000 * w.Limb6() + 0x100_0000 * w.Limb7()
         == TWO_32 * k[7]
  {
    hide Row.Limb4, Row.Limb5, Row.Limb6, Row.Limb7;
  }

  // Sign-extended readings of the four words.

  function CValue(w: Row): int { w.c.Value() - TWO_32 * w.cSign }

  function QValue(w: Row): int { w.q.Value() - TWO_32 * w.qSign }

  function RValue(w: Row): int { w.r.Value() - TWO_32 * RSign(w) }

  function BValue(w: Row): int { w.b.Value() - TWO_32 * w.bSign }

  const TWO_64: int := 0x1_0000_0000_0000_0000

  lemma SignedProduct(c: int, q: int, cs: int, qs: int)
    requires Bit(cs) && Bit(qs)
    ensures (c - TWO_32 * cs) * (q - TWO_32 * qs)
         == c * q - TWO_32 * (qs * c) - TWO_32 * (cs * q) + TWO_64 * (cs * qs)
  {
  }

  lemma Assemble(cq: int, low: int, high: int, h: int, c: int, q: int, r: int, b: int,
                 cs: int, qs: int, rs: int, bs: int, cSum: int, qSum: int, k3: int, k7: int)
    requires Bit(cs) && Bit(qs)
    requires cq == low + TWO_32 * high && low + r - b == TWO_32 * k3 && k3 + h == TWO_32 * k7
    requires h == high + qs * (TWO_32 * cSum - c) + cs * (TWO_32 * qSum - q) + (rs - bs) * (TWO_32 - 1)
    ensures cq - TWO_32 * (qs * c) - TWO_32 * (cs * q) + TWO_64 * (cs * qs)
            + (r - TWO_32 * rs) - (b - TWO_32 * bs)
         == TWO_64 * (k7 - qs * cSum - cs * qSum - (rs - bs) + cs * qs)
  {
  }

  /** The division identity holds modulo 2^64. */
  lemma Identity(w: Row, k: seq<int>) returns (t: int)
    requires LimbEquations(w, k)
    requires Bit(w.bSign) && Bit(w.cSign) && Bit(w.qSign) && Bit(w.rZero)
    ensures CValue(w) * QValue(w) + RValue(w) - BValue(w) == TWO_64 * t
  {
    hide Row.Limb4, Row.Limb5, Row.Limb6, Row.Limb7, LowProducts, HighProducts, RSign, Word.Value, Word.Sum;
    assert |k| == 8;
    LowHalf(w, k);
    HighHalf(w, k);
    hide LimbEquations;
    HighSum(w);
    Schoolbook(w.c, w.q);
    var cs, qs := w.c.Sum(), w.q.Sum();
    var h := w.Limb4() + 0x100 * w.Limb5() + 0x1_0000 * w.Limb6() + 0x100_0000 * w.Limb7();
    Assemble(w.c.Value() * w.q.Value(), LowProducts(w.c, w.q), HighProducts(w.c, w.q), h,
             w.c.Value(), w.q.Value(), w.r.Value(), w.b.Value(),
             w.cSign, w.qSign, RSign(w), w.bSign, cs, qs, k[3], k[7]);
    t := k[7] - w.qSign * cs - w.cSign * qs - (RSign(w) - w.bSign) + w.cSign * w.qSign;
    SignedProduct(w.c.Value(), w.q.Value(), w.cSign, w.qSign);
  }

  lemma VanishesSmall(x: int)
    requires Vanishes(x) && -P < x < P
    ensures x == 0
  {
  }

  /** A sign column: zero under unsigned opcodes, else bound to the top limb. */
  lemma TopBit(top: int, sign: Felt, signed: int)
    requires Byte(top) && Bit(sign) && Bit(signed)
    requires Vanishes((1 - signed) * sign) && Reduce(2 * signed * (top - sign * 128)) < 256
    ensures sign == if signed == 1 && top >= 128 then 1 else 0
  {
    if signed == 1 && sign == 1 {
      assert 2 * signed * (top - sign * 128) == 2 * top - 256;
    }
  }

  lemma XorBit(x: Felt, a: Felt, b: Felt)
    requires Bit(x) && Bit(a) && Bit(b) && Vanishes(x - a - b + 2 * a * b)
    ensures x == if a == b then 0 else 1
  {
    if a == 1 && b == 1 {
      VanishesSmall(x);
    }
  }

  predicate IsSignedOp(op: Opcode) { op == Div || op == Rem }

  lemma SignBits(w: Row, op: Opcode)
    requires w.Operands(op) && w.SignConstraints() && w.OtherLookups()
    requires Bit(w.bSign) && Bit(w.cSign) && Bit(w.signXor)
    ensures w.bSign == if IsSignedOp(op) && w.b.Value() >= TWO_31 then 1 else 0
    ensures w.cSign == if IsSignedOp(op) && w.c.Value() >= TWO_31 then 1 else 0
    ensures w.signXor == if w.bSign == w.cSign then 0 else 1
  {
    hide Vanishes, Reduce;
    WordRange(w.b);
    WordRange(w.c);
    TopBit(w.b.l3, w.bSign, w.IsSigned());
    TopBit(w.c.l3, w.cSign, w.IsSigned());
    XorBit(w.signXor, w.bSign, w.cSign);
  }

  /** The zero-divisor flag says what it is named for. */
  lemma ZeroDivisorFlag(w: Row)
    requires w.c.Bytes() && w.q.Bytes() && w.ZeroConstraints() && Bit(w.zeroDivisor)
    ensures w.zeroDivisor == 1 <==> w.c.Value() == 0
    ensures w.zeroDivisor == 1 ==> w.q.Value() == TWO_32 - 1
  {
    hide Vanishes;
    WordRange(w.c);
    if w.zeroDivisor == 1 {
      ZeroDivisorWords(w);
    } else {
      InvertibleUnless(w.zeroDivisor, w.c.Sum(), w.cSumInv);
    }
  }

  lemma ZeroDivisorWords(w: Row)
    requires w.c.Bytes() && w.q.Bytes() && w.ZeroConstraints() && w.zeroDivisor == 1
    ensures w.c.Value() == 0 && w.q.Value() == TWO_32 - 1
  {
    hide Vanishes, Word.Value;
    AllVanish(w.c);
    AllOnes(w.q);
  }

  lemma InvertibleUnless(flag: int, x: int, y: int)
    requires Vanishes((1 - flag) * (x * y - 1)) && flag == 0
    ensures x != 0
  {
    assert (1 - flag) * (x * y - 1) == x * y - 1;
    InvertibleIsNonZero(x, y);
  }

  lemma AllOnes(v: Word)
    requires v.Bytes() && Vanishes(v.l0 - 255) && Vanishes(v.l1 - 255)
    requires Vanishes(v.l2 - 255) && Vanishes(v.l3 - 255)
    ensures v.Value() == TWO_32 - 1
  {
  }

  lemma ZeroRemainderFlag(w: Row)
    requires w.r.Bytes() && w.ZeroConstraints()
    requires Bit(w.zeroDivisor) && Bit(w.rZero) && Bit(w.SpecialCase())
    ensures w.zeroDivisor == 1 ==> w.rZero == 0
    ensures w.zeroDivisor == 0 ==> (w.rZero == 1 <==> w.r.Value() == 0)
  {
    hide Vanishes;
    WordRange(w.r);
    hide Word.Value, Word.Sum;
    if w.rZero == 1 {
      ZeroRemainderWord(w);
    } else if w.zeroDivisor == 0 {
      InvertibleUnless(w.SpecialCase(), w.r.Sum(), w.rSumInv);
    }
  }

  lemma ZeroRemainderWord(w: Row)
    requires w.r.Bytes() && w.ZeroConstraints() && w.rZero == 1
    ensures w.r.Value() == 0
  {
    hide Vanishes, Word.Value;
    AllVanish(w.r);
  }

  lemma AllVanish(v: Word)
    requires v.Bytes() && Vanishes(v.l0) && Vanishes(v.l1) && Vanishes(v.l2) && Vanishes(v.l3)
    ensures v.Value() == 0
  {
  }

  lemma InvertibleIsNonZero(x: int, y: int)
    requires Vanishes(x * y - 1)
    ensures x != 0
  {
    assert x == 0 ==> x * y - 1 == -1;
  }

  lemma QuotientSign(w: Row)
    requires w.q.Bytes() && w.SignConstraints() && w.zeroDivisor == 0
    requires Bit(w.qSign) && Bit(w.signXor)
    ensures w.qSign == 1 ==> w.signXor == 1
    ensures w.q.Value() != 0 ==> w.qSign == w.signXor
  {
    hide Vanishes;
    WordRange(w.q);
    hide Word.Sum;
    SelectedSign(w.q.Sum(), w.qSign, w.signXor, w.zeroDivisor);
  }

  lemma SelectedSign(sum: int, sign: int, xor: int, flag: int)
    requires 0 <= sum <= 1020 && Bit(sign) && Bit(xor) && flag == 0
    requires Vanishes((1 - flag) * sum * (sign - xor)) && Vanishes((1 - flag) * (sign - xor) * sign)
    ensures sign == 1 ==> xor == 1
    ensures sum != 0 ==> sign == xor
  {
    if sign == 1 && xor == 0 {
      VanishesSmall((1 - flag) * (sign - xor) * sign);
      assert false;
    } else if sign == 0 && xor == 1 {
      assert (1 - flag) * sum * (sign - xor) == -sum;
    }
  }

  // The absolute remainder: one limb of the two's complement negation.

  lemma NegatedLimb(w: Row, r: Felt, a: Felt, inv: Felt, carryIn: int, carry: Felt)
    requires w.signXor == 1 && w.AbsLimb(r, a, inv, carryIn, carry)
    requires Byte(r) && Bit(carryIn) && carry == Reduce((carryIn + r + a) * INV_256)
    ensures Bit(carry) && a < 256 && carryIn + r + a == 256 * carry
    ensures carry == 0 <==> carryIn == 0 && r == 0
    ensures carry == 0 ==> a == 0
  {
    TwoValues(carry, carryIn);
    CarryResidue(carryIn + r + a, carry);
    InvertibleIsNonZero(a - 256, inv);
  }

  lemma KeptLimb(w: Row, r: Felt, a: Felt, inv: Felt, carryIn: int, carry: Felt)
    requires w.signXor == 0 && w.AbsLimb(r, a, inv, carryIn, carry)
    ensures a == r
  {
    VanishesSmall(a - r);
  }

  /** A reduced carry satisfies its equation in the field. */
  lemma CarryResidue(x: int, k: Felt)
    requires k == Reduce(x * INV_256)
    ensures Vanishes(x - 256 * k)
  {
    var t := (x * INV_256) / P;
    assert x * INV_256 == P * t + k;
    assert x - 256 * k == (256 * t - x) * P;
    MultipleIsDivisible(P, 256 * t - x);
  }

  lemma LimbsOfNegation(w: Row)
    requires w.r.Bytes() && w.AbsConstraints() && w.signXor == 1
    ensures w.rAbs.Bytes()
    ensures w.r.Value() != 0 ==> w.rAbs.Value() == TWO_32 - w.r.Value()
  {
    hide Vanishes, Reduce;
    hide Row.AbsLimb;
    NegatedLimb(w, w.r.l0, w.rAbs.l0, w.rInv.l0, 0, w.CarryLt0());
    NegatedLimb(w, w.r.l1, w.rAbs.l1, w.rInv.l1, w.CarryLt0(), w.CarryLt1());
    NegatedLimb(w, w.r.l2, w.rAbs.l2, w.rInv.l2, w.CarryLt1(), w.CarryLt2());
    NegatedLimb(w, w.r.l3, w.rAbs.l3, w.rInv.l3, w.CarryLt2(), w.CarryLt3());
  }

  lemma LimbsKept(w: Row)
    requires w.r.Bytes() && w.AbsConstraints() && w.signXor == 0
    ensures w.rAbs == w.r
  {
    hide Vanishes, Reduce, Row.AbsLimb;
    KeptLimb(w, w.r.l0, w.rAbs.l0, w.rInv.l0, 0, w.CarryLt0());
    KeptLimb(w, w.r.l1, w.rAbs.l1, w.rInv.l1, w.CarryLt0(), w.CarryLt1());
    KeptLimb(w, w.r.l2, w.rAbs.l2, w.rInv.l2, w.CarryLt1(), w.CarryLt2());
    KeptLimb(w, w.r.l3, w.rAbs.l3, w.rInv.l3, w.CarryLt2(), w.CarryLt3());
  }

  // The comparison scan.

  lemma MarkedLimb(diff: int, lt: Felt)
    requires -256 < diff < 256 && Vanishes(lt - diff) && Reduce(lt - 1) < 0x10_0000
    ensures diff > 0
  {
  }

  /** The first non-zero difference from the top limb down is positive. */
  ghost predicate FirstDifferencePositive(d3: int, d2: int, d1: int, d0: int) {
    d3 > 0 || (d3 == 0 && (d2 > 0 || (d2 == 0 && (d1 > 0 || (d1 == 0 && d0 > 0)))))
  }

  lemma ScanStep(prefix: int, marker: Felt, diff: int, lt: Felt)
    requires -256 < diff < 256 && Bit(marker) && Bit(prefix) && Bit(prefix + marker)
    requires Vanishes((1 - (prefix + marker)) * diff) && Vanishes(marker * (lt - diff))
    requires Reduce(lt - 1) < 0x10_0000
    ensures prefix + marker == 0 ==> diff == 0
    ensures marker == 1 ==> diff > 0
  {
    if marker == 1 {
      MarkedLimb(diff, lt);
    } else if prefix == 0 {
      VanishesSmall(diff);
    }
  }

  lemma ScanSteps(w: Row)
    requires w.c.Bytes() && w.rAbs.Bytes() && Bit(w.cSign)
    requires w.ScanConstraints() && w.SpecialCase() == 0 && Reduce(w.ltDiff - 1) < 0x10_0000
    requires Bit(w.ltMarker.l0) && Bit(w.ltMarker.l1) && Bit(w.ltMarker.l2) && Bit(w.ltMarker.l3)
    ensures FirstDifferencePositive(w.Diff3(), w.Diff2(), w.Diff1(), w.Diff0())
  {
    DiffRange(w);
    hide Vanishes, Reduce, Row.Diff0, Row.Diff1, Row.Diff2, Row.Diff3;
    VanishesSmall(1 - w.Prefix0());
    var m := w.ltMarker;
    assert m.l3 + m.l2 + m.l1 + m.l0 == 1;
    ScanStep(0, m.l3, w.Diff3(), w.ltDiff);
    ScanStep(m.l3, m.l2, w.Diff2(), w.ltDiff);
    ScanStep(m.l3 + m.l2, m.l1, w.Diff1(), w.ltDiff);
    ScanStep(m.l3 + m.l2 + m.l1, m.l0, w.Diff0(), w.ltDiff);
  }

  lemma DiffRange(w: Row)
    requires w.c.Bytes() && w.rAbs.Bytes() && Bit(w.cSign)
    ensures -256 < w.Diff0() < 256 && -256 < w.Diff1() < 256
    ensures -256 < w.Diff2() < 256 && -256 < w.Diff3() < 256
  {
  }

  /** The scan compares |r| with |c|, in the reading the divisor's sign selects. */
  lemma ScanIsComparison(w: Row)
    requires w.c.Bytes() && w.rAbs.Bytes() && Bit(w.cSign)
    requires w.ScanConstraints() && w.OtherLookups() && w.SpecialCase() == 0
    requires Bit(w.ltMarker.l0) && Bit(w.ltMarker.l1) && Bit(w.ltMarker.l2) && Bit(w.ltMarker.l3)
    ensures w.cSign == 0 ==> w.rAbs.Value() < w.c.Value()
    ensures w.cSign == 1 ==> w.rAbs.Value() > w.c.Value()
  {
    hide Vanishes, Reduce;
    NotVanishing();
    ScanSteps(w);
    hide Row.ScanConstraints;
  }

  lemma NotVanishing()
    ensures !Vanishes(1)
  {
  }

  // From the identity modulo 2^64 to the quotient and remainder.

  function Magnitude(x: int): int { if x < 0 then -x else x }

  lemma ProductBound(x: int, y: int, m: int, n: int)
    requires Magnitude(x) <= m && Magnitude(y) <= n
    ensures Magnitude(x * y) <= m * n
  {
    MagnitudeOfProduct(x, y);
    OrderedProduct(Magnitude(x), Magnitude(y), m, n);
  }

  lemma MagnitudeOfProduct(x: int, y: int)
    ensures Magnitude(x * y) == Magnitude(x) * Magnitude(y)
  {
  }

  lemma OrderedProduct(a: int, b: int, m: int, n: int)
    requires 0 <= a <= m && 0 <= b <= n
    ensures a * b <= m * n
  {
    assert a * b <= m * b;
  }

  lemma ExactIdentity(c: int, q: int, r: int, b: int, t: int)
    requires c * q + r - b == TWO_64 * t
    requires || (0 <= c < TWO_32 && 0 <= q < TWO_32 && 0 <= r < TWO_32 && 0 <= b < TWO_32)
             || (Magnitude(c) <= TWO_31 && Magnitude(q) <= TWO_32
                 && Magnitude(r) <= TWO_32 && Magnitude(b) <= TWO_31)
    ensures c * q + r == b
  {
    if Magnitude(c) <= TWO_31 && Magnitude(q) <= TWO_32 && Magnitude(r) <= TWO_32 && Magnitude(b) <= TWO_31 {
      ProductBound(c, q, TWO_31, TWO_32);
    } else {
      ProductBound(c, q, TWO_32 - 1, TWO_32 - 1);
      assert c * q >= 0;
    }
  }

  /** Truncated division is the only one with a small remainder of the dividend's sign. */
  lemma TruncatedIsUnique(b: int, c: int, q: int, r: int)
    requires c != 0 && b == c * q + r && Magnitude(r) < Magnitude(c)
    requires b >= 0 ==> r >= 0
    requires b < 0 ==> r <= 0
    ensures q == Truncated(b, c)
  {
    if b >= 0 {
      EuclideanIsUnique(b, c, q, r);
    } else {
      assert -b == c * (-q) + (-r);
      EuclideanIsUnique(-b, c, -q, -r);
    }
  }

  lemma EuclideanIsUnique(b: int, c: int, q: int, r: int)
    requires c != 0 && b == c * q + r && 0 <= r < Magnitude(c)
    ensures q == b / c && r == b % c
  {
    var d := q - b / c;
    assert c * d == b % c - r;
    MagnitudeOfProduct(c, d);
    if d != 0 {
      OrderedProduct(Magnitude(c), 1, Magnitude(c), Magnitude(d));
    }
  }

  /** The remainder and its comparison with the divisor, once the flags are read off. */
  ghost predicate Remainders(w: Row) {
    && Bit(w.bSign) && Bit(w.cSign) && Bit(w.rZero) && Bit(w.zeroDivisor)
    && w.signXor == (if w.bSign == w.cSign then 0 else 1)
    && 0 <= w.r.Value() < TWO_32 && 0 <= w.c.Value() < TWO_32
    && (w.rZero == 1 ==> w.r.Value() == 0)
    && (w.SpecialCase() == 0 ==>
          && w.r.Value() != 0
          && w.rAbs.Value() == (if w.signXor == 0 then w.r.Value() else TWO_32 - w.r.Value())
          && (w.cSign == 0 ==> w.rAbs.Value() < w.c.Value())
          && (w.cSign == 1 ==> w.rAbs.Value() > w.c.Value()))
  }

  lemma RemaindersHold(w: Row, op: Opcode)
    requires w.Operands(op) && w.Accepted()
    ensures Remainders(w)
  {
    hide Vanishes;
    Bits(w);
    SignBits(w, op);
    assert w.r.Bytes();
    ZeroRemainderFlag(w);
    WordRange(w.r);
    WordRange(w.c);
    if w.SpecialCase() == 0 {
      AbsoluteRemainder(w);
    }
  }

  lemma AbsoluteRemainder(w: Row)
    requires w.c.Bytes() && w.Accepted() && w.SpecialCase() == 0
    requires Bit(w.signXor) && Bit(w.cSign)
    requires w.r.Value() != 0
    requires Bit(w.ltMarker.l0) && Bit(w.ltMarker.l1) && Bit(w.ltMarker.l2) && Bit(w.ltMarker.l3)
    ensures w.rAbs.Value() == if w.signXor == 0 then w.r.Value() else TWO_32 - w.r.Value()
    ensures w.cSign == 0 ==> w.rAbs.Value() < w.c.Value()
    ensures w.cSign == 1 ==> w.rAbs.Value() > w.c.Value()
  {
    hide Vanishes, Row.ZeroConstraints, Row.SignConstraints, Row.BitConstraints, Word.Value, Reduce;
    if w.signXor == 0 { LimbsKept(w); } else { LimbsOfNegation(w); }
    ScanIsComparison(w);
  }

  lemma RemainderIsSmall(w: Row)
    requires Remainders(w)
    ensures w.SpecialCase() == 0 ==> Magnitude(RValue(w)) < Magnitude(CValue(w))
    ensures w.SpecialCase() == 0 ==> (if w.bSign == 0 then RValue(w) > 0 else RValue(w) < 0)
    ensures w.rZero == 1 ==> RValue(w) == 0
  {
    hide Word.Value;
    if w.SpecialCase() == 0 {
      assert RSign(w) == w.bSign;
    }
  }

  /** The division identity over the integers. */
  lemma IdentityIsExact(w: Row, op: Opcode)
    requires w.Operands(op) && w.Accepted()
    ensures w.zeroDivisor == 0 ==> CValue(w) * QValue(w) + RValue(w) == BValue(w)
    ensures w.zeroDivisor == 1 ==> w.r.Value() == w.b.Value() && w.q.Value() == TWO_32 - 1
  {
    hide Vanishes, Reduce;
    Bits(w);
    SignBits(w, op);
    CarriesAreExact(w);
    var t := Identity(w, [w.Carry0(), w.Carry1(), w.Carry2(), w.Carry3(),
                          w.Carry4(), w.Carry5(), w.Carry6(), w.Carry7()]);
    assert w.q.Bytes() && w.r.Bytes();
    ZeroDivisorFlag(w);
    ZeroRemainderFlag(w);
    if w.zeroDivisor == 0 { QuotientSign(w); }
    WordRanges(w);
    hide Row.Accepted, Row.Operands, Word.Value, LimbEquations;
    ExactFromFlags(w, op, t);
  }

  lemma WordRanges(w: Row)
    requires w.b.Bytes() && w.c.Bytes() && w.q.Bytes() && w.r.Bytes()
    ensures 0 <= w.b.Value() < TWO_32 && 0 <= w.c.Value() < TWO_32
    ensures 0 <= w.q.Value() < TWO_32 && 0 <= w.r.Value() < TWO_32
  {
    WordRange(w.b);
    WordRange(w.c);
    WordRange(w.q);
    WordRange(w.r);
  }

  lemma ExactFromFlags(w: Row, op: Opcode, t: int)
    requires CValue(w) * QValue(w) + RValue(w) - BValue(w) == TWO_64 * t
    requires Bit(w.bSign) && Bit(w.cSign) && Bit(w.rZero) && Bit(w.zeroDivisor) && Bit(w.qSign)
    requires w.bSign == if IsSignedOp(op) && w.b.Value() >= TWO_31 then 1 else 0
    requires w.cSign == if IsSignedOp(op) && w.c.Value() >= TWO_31 then 1 else 0
    requires w.signXor == if w.bSign == w.cSign then 0 else 1
    requires w.zeroDivisor == 1 <==> w.c.Value() == 0
    requires w.zeroDivisor == 1 ==> w.rZero == 0 && w.q.Value() == TWO_32 - 1
    requires w.zeroDivisor == 0 ==> (w.rZero == 1 <==> w.r.Value() == 0)
    requires w.zeroDivisor == 0 ==> (w.qSign == 1 ==> w.signXor == 1)
    requires 0 <= w.b.Value() < TWO_32 && 0 <= w.c.Value() < TWO_32
    requires 0 <= w.q.Value() < TWO_32 && 0 <= w.r.Value() < TWO_32
    ensures w.zeroDivisor == 0 ==> CValue(w) * QValue(w) + RValue(w) == BValue(w)
    ensures w.zeroDivisor == 1 ==> w.r.Value() == w.b.Value() && w.q.Value() == TWO_32 - 1
  {
    hide Word.Value;
    if w.zeroDivisor == 1 {
      assert CValue(w) == 0;
      assert CValue(w) * QValue(w) == 0;
      assert RSign(w) == w.bSign;
    } else {
      ExactIdentity(CValue(w), QValue(w), RValue(w), BValue(w), t);
    }
  }

  lemma WrittenWord(w: Row, op: Opcode)
    requires w.Operands(op) && w.q.Bytes() && w.r.Bytes()
    ensures w.Written() == if op == Div || op == DivU then w.q else w.r
  {
    hide Reduce;
    Select(w.IsDiv(), w.q.l0, w.r.l0);
    Select(w.IsDiv(), w.q.l1, w.r.l1);
    Select(w.IsDiv(), w.q.l2, w.r.l2);
    Select(w.IsDiv(), w.q.l3, w.r.l3);
  }

  lemma Select(isDiv: int, x: int, y: int)
    requires Bit(isDiv) && Byte(x) && Byte(y)
    ensures Reduce(isDiv * x + (1 - isDiv) * y) == if isDiv == 1 then x else y
  {
  }

  /** A word is the residue of its sign-extended reading. */
  lemma ResidueOfReading(word: int, sign: int, value: int)
    requires 0 <= word < TWO_32 && Bit(sign) && value == word - TWO_32 * sign
    ensures value % TWO_32 == word
  {
  }

  /**
   * DIV soundness.  An accepted row on byte operands writes the RISC-V result of
   * its opcode: truncated signed or unsigned quotient or remainder, the zero
   * divisor and the overflow of -2^31 by -1 included.
   */
  lemma DivSound(w: Row, op: Opcode)
    requires w.Operands(op) && w.Accepted()
    ensures 0 <= w.b.Value() < TWO_32 && 0 <= w.c.Value() < TWO_32
    ensures w.Written().Bytes()
    ensures w.Written().Value() == RiscvResult(op, w.b.Value(), w.c.Value())
  {
    hide Vanishes, Reduce, Word.Value, RiscvResult;
    assert w.q.Bytes() && w.r.Bytes();
    WordRanges(w);
    WrittenWord(w, op);
    IdentityIsExact(w, op);
    RemaindersHold(w, op);
    RemainderIsSmall(w);
    FlagFacts(w, op);
    hide Row.Accepted, Row.Operands, Remainders;
    ResultFromFacts(w, op);
  }

  lemma FlagFacts(w: Row, op: Opcode)
    requires w.Operands(op) && w.Accepted()
    ensures Bit(w.bSign) && Bit(w.cSign) && Bit(w.rZero) && Bit(w.zeroDivisor) && Bit(w.qSign)
    ensures w.zeroDivisor == 1 <==> w.c.Value() == 0
    ensures w.bSign == if IsSignedOp(op) && w.b.Value() >= TWO_31 then 1 else 0
    ensures w.cSign == if IsSignedOp(op) && w.c.Value() >= TWO_31 then 1 else 0
  {
    hide Vanishes, Reduce;
    Bits(w);
    SignBits(w, op);
    assert w.q.Bytes();
    ZeroDivisorFlag(w);
  }

  lemma ResultFromFacts(w: Row, op: Opcode)
    requires Bit(w.bSign) && Bit(w.cSign) && Bit(w.rZero) && Bit(w.zeroDivisor) && Bit(w.qSign)
    requires w.zeroDivisor == 1 <==> w.c.Value() == 0
    requires w.bSign == if IsSignedOp(op) && w.b.Value() >= TWO_31 then 1 else 0
    requires w.cSign == if IsSignedOp(op) && w.c.Value() >= TWO_31 then 1 else 0
    requires 0 <= w.b.Value() < TWO_32 && 0 <= w.c.Value() < TWO_32
    requires 0 <= w.q.Value() < TWO_32 && 0 <= w.r.Value() < TWO_32
    requires w.zeroDivisor == 0 ==> CValue(w) * QValue(w) + RValue(w) == BValue(w)
    requires w.zeroDivisor == 1 ==> w.r.Value() == w.b.Value() && w.q.Value() == TWO_32 - 1
    requires w.SpecialCase() == 0 ==> Magnitude(RValue(w)) < Magnitude(CValue(w))
    requires w.SpecialCase() == 0 ==> (if w.bSign == 0 then RValue(w) > 0 else RValue(w) < 0)
    requires w.rZero == 1 ==> RValue(w) == 0
    ensures (if op == Div || op == DivU then w.q else w.r).Value()
         == RiscvResult(op, w.b.Value(), w.c.Value())
  {
    hide Word.Value;
    if w.zeroDivisor == 0 {
      TruncatedIsUnique(BValue(w), CValue(w), QValue(w), RValue(w));
      ResidueOfReading(w.q.Value(), w.qSign, QValue(w));
      ResidueOfReading(w.r.Value(), RSign(w), RValue(w));
      hide Truncated, Magnitude;
      DivisionCases(op, w.b.Value(), w.c.Value(), BValue(w), CValue(w), w.q.Value(), w.r.Value(), RValue(w));
    }
  }

  /** The four opcodes read off one truncated division. */
  lemma DivisionCases(op: Opcode, b: int, c: int, bv: int, cv: int, q: int, r: int, rv: int)
    requires 0 <= b < TWO_32 && 0 < c < TWO_32 && cv != 0
    requires bv == (if IsSignedOp(op) then Signed(b) else b)
    requires cv == (if IsSignedOp(op) then Signed(c) else c)
    requires q == Truncated(bv, cv) % TWO_32 && r == rv % TWO_32
    requires rv == bv - cv * Truncated(bv, cv)
    ensures RiscvResult(op, b, c) == if op == Div || op == DivU then q else r
  {
    match op
    case DivU =>
      assert Truncated(b, c) == b / c;
      QuotientRange(b, c);
    case RemU =>
      assert Truncated(b, c) == b / c;
      QuotientRange(b, c);
    case Div =>
    case Rem =>
  }

  lemma QuotientRange(b: int, c: int)
    requires 0 <= b < TWO_32 && 0 < c < TWO_32
    ensures 0 <= b / c < TWO_32 && b - c * (b / c) == b % c && 0 <= b % c < TWO_32
  {
    var q := b / c;
    assert q >= TWO_32 ==> c * q >= q;
  }
}
