// The mul table and the add/sub half of the base_alu_reg table: an enabled row
// on byte operands is accepted exactly when it writes the 32-bit result.
module AluRows {
  import opened M31
  import opened RowFacts

  // -- Carry chains ------------------------------------------------------------------------------

  /** Four columns carried into a word: column i leaves 256 times its carry. */
  predicate Carried(c0: int, c1: int, c2: int, c3: int, d: Word, k0: int, k1: int, k2: int, k3: int) {
    && c0 - d.l0 == 256 * k0 && k0 + c1 - d.l1 == 256 * k1
    && k1 + c2 - d.l2 == 256 * k2 && k2 + c3 - d.l3 == 256 * k3
  }

  function Columns(c0: int, c1: int, c2: int, c3: int): int {
    c0 + 0x100 * c1 + 0x1_0000 * c2 + 0x100_0000 * c3
  }

  lemma CarriedValue(c0: int, c1: int, c2: int, c3: int, d: Word, k0: int, k1: int, k2: int, k3: int)
    requires Carried(c0, c1, c2, c3, d, k0, k1, k2, k3)
    ensures Columns(c0, c1, c2, c3) == d.Value() + TWO_32 * k3
  {
  }

  lemma MultiplesOf32(x: int, y: int, k: int)
    requires x == y + TWO_32 * k
    ensures x % TWO_32 == y % TWO_32
  {
  }

  lemma Residue(y: int)
    requires 0 <= y < TWO_32
    ensures y % TWO_32 == y
  {
  }

  /** A carried word of bytes is the columns' value modulo 2^32. */
  lemma CarriedSound(c0: int, c1: int, c2: int, c3: int, d: Word, k0: int, k1: int, k2: int, k3: int)
    requires Carried(c0, c1, c2, c3, d, k0, k1, k2, k3) && d.Bytes()
    ensures d.Value() == Columns(c0, c1, c2, c3) % TWO_32
  {
    hide *;
    CarriedValue(c0, c1, c2, c3, d, k0, k1, k2, k3);
    WordRange(d);
    MultiplesOf32(Columns(c0, c1, c2, c3), d.Value(), k3);
    Residue(d.Value());
  }

  /** The word of the columns' value is carried, by the quotients. */
  lemma CarriedComplete(c0: int, c1: int, c2: int, c3: int, d: Word) returns (k0: int, k1: int, k2: int, k3: int)
    requires d.Bytes() && d.Value() == Columns(c0, c1, c2, c3) % TWO_32
    ensures Carried(c0, c1, c2, c3, d, k0, k1, k2, k3)
    ensures k0 == c0 / 256 && k1 == (k0 + c1) / 256 && k2 == (k1 + c2) / 256 && k3 == (k2 + c3) / 256
  {
    k0 := c0 / 256;
    k1 := (k0 + c1) / 256;
    k2 := (k1 + c2) / 256;
    k3 := (k2 + c3) / 256;
    var e := Word(c0 % 256, (k0 + c1) % 256, (k1 + c2) % 256, (k2 + c3) % 256);
    assert Carried(c0, c1, c2, c3, e, k0, k1, k2, k3);
    assert e.Bytes();
    hide *;
    CarriedSound(c0, c1, c2, c3, e, k0, k1, k2, k3);
    WordInjective(d, e);
  }

  // -- Multiplication ----------------------------------------------------------------------------

  /** rs1, rs2 and rd of an enabled mul row. */
  datatype MulRow = MulRow(a: Word, b: Word, d: Word) {
    function Column0(): int { a.l0 * b.l0 }

    function Column1(): int { a.l1 * b.l0 + a.l0 * b.l1 }

    function Column2(): int { a.l2 * b.l0 + a.l1 * b.l1 + a.l0 * b.l2 }

    function Column3(): int { a.l3 * b.l0 + a.l2 * b.l1 + a.l1 * b.l2 + a.l0 * b.l3 }

    function Carry0(): Felt { Reduce((Column0() - d.l0) * INV_256) }

    function Carry1(): Felt { Reduce((Carry0() + Column1() - d.l1) * INV_256) }

    function Carry2(): Felt { Reduce((Carry1() + Column2() - d.l2) * INV_256) }

    function Carry3(): Felt { Reduce((Carry2() + Column3() - d.l3) * INV_256) }

    /** The range_check_8_11 lookups. */
    predicate Accepted() {
      && d.Bytes() && Carry0() < 2048 && Carry1() < 2048 && Carry2() < 2048 && Carry3() < 2048
    }
  }

  lemma ByteProduct(x: int, y: int)
    requires 0 <= x < 256 && 0 <= y < 256
    ensures 0 <= x * y <= 65025
  {
    assert x * y <= 255 * y;
  }

  /** The columns stay small: the carries they leave fit in eleven bits. */
  lemma ColumnBounds(w: MulRow)
    requires w.a.Bytes() && w.b.Bytes()
    ensures 0 <= w.Column0() <= 65025 && 0 <= w.Column1() <= 130050
    ensures 0 <= w.Column2() <= 195075 && 0 <= w.Column3() <= 260100
  {
    ByteProduct(w.a.l0, w.b.l0);
    ByteProduct(w.a.l1, w.b.l0);
    ByteProduct(w.a.l0, w.b.l1);
    ByteProduct(w.a.l2, w.b.l0);
    ByteProduct(w.a.l1, w.b.l1);
    ByteProduct(w.a.l0, w.b.l2);
    ByteProduct(w.a.l3, w.b.l0);
    ByteProduct(w.a.l2, w.b.l1);
    ByteProduct(w.a.l1, w.b.l2);
    ByteProduct(w.a.l0, w.b.l3);
  }

  function ProductColumns(w: MulRow): int {
    Columns(w.Column0(), w.Column1(), w.Column2(), w.Column3())
  }

  lemma Distribute(w: Word, y: int)
    ensures w.Value() * y == w.l0 * y + 0x100 * (w.l1 * y) + 0x1_0000 * (w.l2 * y) + 0x100_0000 * (w.l3 * y)
  {
  }

  lemma DistributeRight(x: int, w: Word)
    ensures x * w.Value() == x * w.l0 + 0x100 * (x * w.l1) + 0x1_0000 * (x * w.l2) + 0x100_0000 * (x * w.l3)
  {
  }

  /** The four columns are the product, up to a multiple of 2^32. */
  lemma ProductIsColumns(w: MulRow) returns (high: int)
    ensures w.a.Value() * w.b.Value() == ProductColumns(w) + TWO_32 * high
  {
    var a, b := w.a, w.b;
    Distribute(a, b.Value());
    DistributeRight(a.l0, b);
    DistributeRight(a.l1, b);
    DistributeRight(a.l2, b);
    DistributeRight(a.l3, b);
    high := (a.l3 * b.l1 + a.l2 * b.l2 + a.l1 * b.l3)
      + 0x100 * (a.l3 * b.l2 + a.l2 * b.l3) + 0x1_0000 * (a.l3 * b.l3);
    ProductAtoms(a.l0 * b.l0, a.l0 * b.l1, a.l0 * b.l2, a.l0 * b.l3,
                 a.l1 * b.l0, a.l1 * b.l1, a.l1 * b.l2, a.l1 * b.l3,
                 a.l2 * b.l0, a.l2 * b.l1, a.l2 * b.l2, a.l2 * b.l3,
                 a.l3 * b.l0, a.l3 * b.l1, a.l3 * b.l2, a.l3 * b.l3);
  }

  lemma ProductAtoms(
      p00: int, p01: int, p02: int, p03: int, p10: int, p11: int, p12: int, p13: int,
      p20: int, p21: int, p22: int, p23: int, p30: int, p31: int, p32: int, p33: int)
    ensures (p00 + 0x100 * p01 + 0x1_0000 * p02 + 0x100_0000 * p03)
            + 0x100 * (p10 + 0x100 * p11 + 0x1_0000 * p12 + 0x100_0000 * p13)
            + 0x1_0000 * (p20 + 0x100 * p21 + 0x1_0000 * p22 + 0x100_0000 * p23)
            + 0x100_0000 * (p30 + 0x100 * p31 + 0x1_0000 * p32 + 0x100_0000 * p33)
         == p00 + 0x100 * (p10 + p01) + 0x1_0000 * (p20 + p11 + p02) + 0x100_0000 * (p30 + p21 + p12 + p03)
            + TWO_32 * ((p31 + p22 + p13) + 0x100 * (p32 + p23) + 0x1_0000 * p33)
  {
  }

  lemma ProductResidue(w: MulRow)
    ensures w.a.Value() * w.b.Value() % TWO_32 == ProductColumns(w) % TWO_32
  {
    hide *;
    var high := ProductIsColumns(w);
    MultiplesOf32(w.a.Value() * w.b.Value(), ProductColumns(w), high);
  }

  lemma MulSteps(w: MulRow)
    requires w.a.Bytes() && w.b.Bytes() && w.Accepted()
    ensures Carried(w.Column0(), w.Column1(), w.Column2(), w.Column3(), w.d,
                    w.Carry0(), w.Carry1(), w.Carry2(), w.Carry3())
  {
    ColumnBounds(w);
    hide Reduce, MulRow.Column0, MulRow.Column1, MulRow.Column2, MulRow.Column3;
    ExactCarry(w.Column0() - w.d.l0, w.Carry0());
    ExactCarry(w.Carry0() + w.Column1() - w.d.l1, w.Carry1());
    ExactCarry(w.Carry1() + w.Column2() - w.d.l2, w.Carry2());
    ExactCarry(w.Carry2() + w.Column3() - w.d.l3, w.Carry3());
  }

  lemma AcceptedBytes(w: MulRow)
    requires w.Accepted()
    ensures w.d.Bytes()
  {
  }

  /** An accepted row writes the product modulo 2^32. */
  lemma MulSound(w: MulRow)
    requires w.a.Bytes() && w.b.Bytes() && w.Accepted()
    ensures w.d.Bytes() && w.d.Value() == w.a.Value() * w.b.Value() % TWO_32
  {
    hide *;
    AcceptedBytes(w);
    MulSteps(w);
    CarriedSound(w.Column0(), w.Column1(), w.Column2(), w.Column3(), w.d,
                 w.Carry0(), w.Carry1(), w.Carry2(), w.Carry3());
    ProductColumnsIs(w);
    ProductResidue(w);
  }

  lemma ProductColumnsIs(w: MulRow)
    ensures ProductColumns(w) == Columns(w.Column0(), w.Column1(), w.Column2(), w.Column3())
  {
  }

  /** The product word has such a row: every carry is below 2^11. */
  lemma MulComplete(w: MulRow)
    requires w.a.Bytes() && w.b.Bytes() && w.d.Bytes()
    requires w.d.Value() == w.a.Value() * w.b.Value() % TWO_32
    ensures w.Accepted()
  {
    hide *;
    ProductResidue(w);
    ProductColumnsIs(w);
    ColumnBounds(w);
    var k0, k1, k2, k3 := CarriedComplete(w.Column0(), w.Column1(), w.Column2(), w.Column3(), w.d);
    CarriesAre(w, k0, k1, k2, k3);
  }

  lemma CarriesAre(w: MulRow, k0: int, k1: int, k2: int, k3: int)
    requires Carried(w.Column0(), w.Column1(), w.Column2(), w.Column3(), w.d, k0, k1, k2, k3) && w.d.Bytes()
    requires 0 <= k0 < 2048 && 0 <= k1 < 2048 && 0 <= k2 < 2048 && 0 <= k3 < 2048
    ensures w.Accepted()
  {
    hide Reduce, MulRow.Column0, MulRow.Column1, MulRow.Column2, MulRow.Column3;
    CarryOfMultiple(w.Column0() - w.d.l0, k0);
    CarryOfMultiple(k0 + w.Column1() - w.d.l1, k1);
    CarryOfMultiple(k1 + w.Column2() - w.d.l2, k2);
    CarryOfMultiple(k2 + w.Column3() - w.d.l3, k3);
  }

  /** A mul row on byte operands is accepted exactly when rd is the product modulo 2^32. */
  lemma MulRowIff(w: MulRow)
    requires w.a.Bytes() && w.b.Bytes()
    ensures w.Accepted() <==> w.d.Bytes() && w.d.Value() == w.a.Value() * w.b.Value() % TWO_32
  {
    hide MulRow.Carry0, MulRow.Carry1, MulRow.Carry2, MulRow.Carry3;
    if w.Accepted() { MulSound(w); }
    if w.d.Bytes() && w.d.Value() == w.a.Value() * w.b.Value() % TWO_32 { MulComplete(w); }
  }

  // -- Addition and subtraction ------------------------------------------------------------------

  /** The carry chain of z = x + y. */
  datatype AddChain = AddChain(x: Word, y: Word, z: Word) {
    function Carry0(): Felt { Reduce((x.l0 + y.l0 - z.l0) * INV_256) }

    function Carry1(): Felt { Reduce((x.l1 + y.l1 + Carry0() - z.l1) * INV_256) }

    function Carry2(): Felt { Reduce((x.l2 + y.l2 + Carry1() - z.l2) * INV_256) }

    function Carry3(): Felt { Reduce((x.l3 + y.l3 + Carry2() - z.l3) * INV_256) }

    predicate Holds(flag: Felt) {
      && Vanishes(flag * Carry0() * (1 - Carry0())) && Vanishes(flag * Carry1() * (1 - Carry1()))
      && Vanishes(flag * Carry2() * (1 - Carry2())) && Vanishes(flag * Carry3() * (1 - Carry3()))
    }
  }

  lemma CarryBit(k: Felt)
    ensures Vanishes(1 * k * (1 - k)) <==> k == 0 || k == 1
  {
    if Vanishes(1 * k * (1 - k)) { BitColumn(k); }
  }

  lemma AddCarries(t: AddChain)
    ensures t.Holds(1) <==> t.Carry0() <= 1 && t.Carry1() <= 1 && t.Carry2() <= 1 && t.Carry3() <= 1
  {
    hide Vanishes, AddChain.Carry0, AddChain.Carry1, AddChain.Carry2, AddChain.Carry3;
    CarryBit(t.Carry0());
    CarryBit(t.Carry1());
    CarryBit(t.Carry2());
    CarryBit(t.Carry3());
  }

  lemma AddSteps(t: AddChain)
    requires t.x.Bytes() && t.y.Bytes() && t.z.Bytes()
    requires t.Carry0() <= 1 && t.Carry1() <= 1 && t.Carry2() <= 1 && t.Carry3() <= 1
    ensures Carried(t.x.l0 + t.y.l0, t.x.l1 + t.y.l1, t.x.l2 + t.y.l2, t.x.l3 + t.y.l3, t.z,
                    t.Carry0(), t.Carry1(), t.Carry2(), t.Carry3())
  {
    hide Reduce;
    ExactCarry(t.x.l0 + t.y.l0 - t.z.l0, t.Carry0());
    ExactCarry(t.x.l1 + t.y.l1 + t.Carry0() - t.z.l1, t.Carry1());
    ExactCarry(t.x.l2 + t.y.l2 + t.Carry1() - t.z.l2, t.Carry2());
    ExactCarry(t.x.l3 + t.y.l3 + t.Carry2() - t.z.l3, t.Carry3());
  }

  lemma SumColumns(t: AddChain)
    ensures Columns(t.x.l0 + t.y.l0, t.x.l1 + t.y.l1, t.x.l2 + t.y.l2, t.x.l3 + t.y.l3) == t.x.Value() + t.y.Value()
  {
  }

  lemma AddSound(t: AddChain)
    requires t.x.Bytes() && t.y.Bytes() && t.z.Bytes()
    requires t.Carry0() <= 1 && t.Carry1() <= 1 && t.Carry2() <= 1 && t.Carry3() <= 1
    ensures t.z.Value() == (t.x.Value() + t.y.Value()) % TWO_32
  {
    hide *;
    AddSteps(t);
    CarriedSound(t.x.l0 + t.y.l0, t.x.l1 + t.y.l1, t.x.l2 + t.y.l2, t.x.l3 + t.y.l3, t.z,
                 t.Carry0(), t.Carry1(), t.Carry2(), t.Carry3());
    SumColumns(t);
  }

  lemma AddComplete(t: AddChain)
    requires t.x.Bytes() && t.y.Bytes() && t.z.Bytes() && t.z.Value() == (t.x.Value() + t.y.Value()) % TWO_32
    ensures t.Carry0() <= 1 && t.Carry1() <= 1 && t.Carry2() <= 1 && t.Carry3() <= 1
  {
    hide Columns, Carried, Word.Value, AddChain.Carry0, AddChain.Carry1, AddChain.Carry2, AddChain.Carry3;
    SumColumns(t);
    var k0, k1, k2, k3 :=
      CarriedComplete(t.x.l0 + t.y.l0, t.x.l1 + t.y.l1, t.x.l2 + t.y.l2, t.x.l3 + t.y.l3, t.z);
    AddCarriesAre(t, k0, k1, k2, k3);
  }

  lemma AddCarriesAre(t: AddChain, k0: int, k1: int, k2: int, k3: int)
    requires Carried(t.x.l0 + t.y.l0, t.x.l1 + t.y.l1, t.x.l2 + t.y.l2, t.x.l3 + t.y.l3, t.z, k0, k1, k2, k3)
    requires 0 <= k0 <= 1 && 0 <= k1 <= 1 && 0 <= k2 <= 1 && 0 <= k3 <= 1
    ensures t.Carry0() == k0 && t.Carry1() == k1 && t.Carry2() == k2 && t.Carry3() == k3
  {
    hide Reduce;
    CarryOfMultiple(t.x.l0 + t.y.l0 - t.z.l0, k0);
    CarryOfMultiple(t.x.l1 + t.y.l1 + k0 - t.z.l1, k1);
    CarryOfMultiple(t.x.l2 + t.y.l2 + k1 - t.z.l2, k2);
    CarryOfMultiple(t.x.l3 + t.y.l3 + k2 - t.z.l3, k3);
  }

  lemma ChainIff(t: AddChain)
    requires t.x.Bytes() && t.y.Bytes() && t.z.Bytes()
    ensures t.Holds(1) <==> t.z.Value() == (t.x.Value() + t.y.Value()) % TWO_32
  {
    hide AddChain.Holds, AddChain.Carry0, AddChain.Carry1, AddChain.Carry2, AddChain.Carry3;
    AddCarries(t);
    if t.Holds(1) { AddSound(t); }
    if t.z.Value() == (t.x.Value() + t.y.Value()) % TWO_32 { AddComplete(t); }
  }

  lemma ChainOff(t: AddChain)
    ensures t.Holds(0)
  {
  }

  datatype AddSub = Add | Sub

  /** rs1, rs2 and rd of an enabled base_alu_reg row for add or sub. */
  datatype AluRow = AluRow(a: Word, b: Word, d: Word, addFlag: Felt, subFlag: Felt) {
    /** The carry constraints of both chains, and the byte lookups on rd. */
    predicate Accepted() {
      AddChain(a, b, d).Holds(addFlag) && AddChain(d, b, a).Holds(subFlag) && d.Bytes()
    }

    predicate Operands(op: AddSub) {
      && a.Bytes() && b.Bytes()
      && addFlag == (if op == Add then 1 else 0) && subFlag == (if op == Sub then 1 else 0)
    }
  }

  /** An add or sub row is accepted exactly when rd is the sum or difference modulo 2^32. */
  lemma AddSubRowIff(w: AluRow, op: AddSub)
    requires w.Operands(op)
    ensures w.Accepted() <==>
            w.d.Bytes()
            && w.d.Value() == (if op == Add then w.a.Value() + w.b.Value() else w.a.Value() - w.b.Value()) % TWO_32
  {
    hide AddChain.Holds;
    if w.d.Bytes() {
      WordRange(w.a);
      WordRange(w.b);
      WordRange(w.d);
      match op
      case Add =>
        ChainIff(AddChain(w.a, w.b, w.d));
        ChainOff(AddChain(w.d, w.b, w.a));
      case Sub =>
        ChainIff(AddChain(w.d, w.b, w.a));
        ChainOff(AddChain(w.a, w.b, w.d));
        Difference(w.a.Value(), w.b.Value(), w.d.Value());
    }
  }

  lemma Difference(a: int, b: int, d: int)
    requires 0 <= a < TWO_32 && 0 <= b < TWO_32 && 0 <= d < TWO_32
    ensures a == (d + b) % TWO_32 <==> d == (a - b) % TWO_32
  {
  }
}
