// The comparison rows: lt_reg, branch_lt and branch_eq.  The limb scan from the
// most significant limb down decides the signed or unsigned comparison, and the
// runner's witness always passes it.
module CompareRows {
  import opened M31
  import opened RowFacts

  /** The columns shared by lt_reg and branch_lt: operands, top limbs, markers, difference, result. */
  datatype Scan = Scan(
    a: Word, b: Word, aTop: Felt, bTop: Felt, marker: Word, diffVal: Felt, less: Felt, signed: Felt)
  {
    /** Sign of the comparison. */
    function Sign(): int { 2 * less - 1 }

    function Fired(): int { marker.l0 + marker.l1 + marker.l2 + marker.l3 }

    function Diff3(): int { Sign() * (bTop - aTop) }

    function Diff2(): int { Sign() * (b.l2 - a.l2) }

    function Diff1(): int { Sign() * (b.l1 - a.l1) }

    function Diff0(): int { Sign() * (b.l0 - a.l0) }

    predicate Bits() {
      Vanishes(less * (1 - less)) && MarkerBits()
    }

    predicate MarkerBits() {
      && Vanishes(marker.l0 * (1 - marker.l0)) && Vanishes(marker.l1 * (1 - marker.l1))
      && Vanishes(marker.l2 * (1 - marker.l2)) && Vanishes(marker.l3 * (1 - marker.l3))
      && Vanishes(Fired() * (1 - Fired()))
    }

    /** The top limbs are the operands' own, or 2^8 less, and in range after the sign shift. */
    predicate Tops() {
      && Vanishes((a.l3 - aTop) * (256 - (a.l3 - aTop)))
      && Vanishes((b.l3 - bTop) * (256 - (b.l3 - bTop)))
      && Reduce(aTop + signed * 128) < 256
      && Reduce(bTop + signed * 128) < 256
    }

    predicate Scans() {
      && Vanishes((1 - marker.l3) * Diff3())
      && Vanishes(marker.l3 * (diffVal - Diff3()))
      && Vanishes((1 - marker.l3 - marker.l2) * Diff2())
      && Vanishes(marker.l2 * (diffVal - Diff2()))
      && Vanishes((1 - marker.l3 - marker.l2 - marker.l1) * Diff1())
      && Vanishes(marker.l1 * (diffVal - Diff1()))
      && Vanishes((1 - Fired()) * Diff0())
      && Vanishes(marker.l0 * (diffVal - Diff0()))
      && Vanishes((1 - Fired()) * less)
      // looked up with multiplicity Fired()
      && (!Vanishes(Fired()) ==> Reduce(diffVal - 1) < 0x10_0000)
    }

    predicate Accepted() {
      Bits() && Tops() && Scans()
    }

    /** The scan's constraints but for the result bit, which a table may imply otherwise. */
    predicate Passes() {
      MarkerBits() && Tops() && Scans()
    }
  }

  /** The top limb as the comparison reads it. */
  function TopOf(l3: int, signed: bool): int {
    if signed && l3 >= 128 then l3 - 256 else l3
  }

  function Read(x: int, signed: bool): int {
    if signed then Signed(x) else x
  }

  // -- The scan over the integers ----------------------------------------------------------------

  predicate Bit(x: int) { x == 0 || x == 1 }

  /** At most one marker fires; limbs above it agree, and it marks a positive difference. */
  predicate Decides(d3: int, d2: int, d1: int, d0: int, m: Word, less: int) {
    && Bit(m.l0) && Bit(m.l1) && Bit(m.l2) && Bit(m.l3) && Bit(m.l0 + m.l1 + m.l2 + m.l3)
    && (m.l3 == 0 ==> d3 == 0) && (m.l3 == 1 ==> d3 > 0)
    && (m.l3 + m.l2 == 0 ==> d2 == 0) && (m.l2 == 1 ==> d2 > 0)
    && (m.l3 + m.l2 + m.l1 == 0 ==> d1 == 0) && (m.l1 == 1 ==> d1 > 0)
    && (m.l3 + m.l2 + m.l1 + m.l0 == 0 ==> d0 == 0 && less == 0) && (m.l0 == 1 ==> d0 > 0)
  }

  lemma SmallMultiple(x: int)
    requires Vanishes(x) && -P < x < P
    ensures x == 0
  {
  }

  lemma SmallIs(x: int, y: Felt)
    requires Vanishes(y - x) && -512 < x < 512 && Reduce(y - 1) < 0x10_0000
    ensures x > 0
  {
  }

  /** The range checks leave one reading of each top limb. */
  lemma TopLimb(l3: int, top: Felt, signed: bool)
    requires 0 <= l3 < 256 && Vanishes((l3 - top) * (256 - (l3 - top)))
    requires Reduce(top + (if signed then 1 else 0) * 128) < 256
    ensures Vanishes(top - TopOf(l3, signed))
  {
    ProductVanishes(l3 - top, 256 - (l3 - top));
    if Vanishes(l3 - top) {
      SmallMultiple(l3 - top);
    } else {
      Wrapped(l3, top);
    }
  }

  lemma Wrapped(l3: int, top: Felt)
    requires 0 <= l3 < 256 && Vanishes(256 - (l3 - top))
    ensures top == l3 - 256 + P
  {
  }

  /** One limb's two constraints. */
  lemma LimbDecides(above: int, marker: int, diffVal: Felt, col: int, d: int)
    requires Bit(marker) && Bit(above + marker) && above >= 0 && -512 < d < 512 && Vanishes(col - d)
    requires Vanishes((1 - above - marker) * col) && Vanishes(marker * (diffVal - col))
    requires marker == 1 ==> Reduce(diffVal - 1) < 0x10_0000
    ensures above + marker == 0 ==> d == 0
    ensures marker == 1 ==> d > 0
  {
    if above + marker == 0 {
      VanishesSum(col, d, col - d);
      SmallMultiple(d);
    }
    if marker == 1 {
      assert marker * (diffVal - col) == diffVal - col;
      VanishesJoin(diffVal - col, col - d);
      SmallIs(d, diffVal);
    }
  }

  lemma VanishesSum(col: int, d: int, gap: int)
    requires Vanishes(col) && Vanishes(gap) && gap == col - d
    ensures Vanishes(d)
  {
  }

  lemma VanishesJoin(x: int, y: int)
    requires Vanishes(x) && Vanishes(y)
    ensures Vanishes(x + y)
  {
  }

  /** The top difference column is congruent to the difference of the read limbs. */
  lemma TopDifference(sign: int, aTop: Felt, bTop: Felt, x: int, y: int)
    requires Vanishes(aTop - x) && Vanishes(bTop - y) && (sign == 1 || sign == -1)
    ensures Vanishes(sign * (bTop - aTop) - sign * (y - x))
  {
    if sign == 1 {
      Subtract(bTop - y, aTop - x);
    } else {
      Subtract(aTop - x, bTop - y);
    }
  }

  lemma Subtract(x: int, y: int)
    requires Vanishes(x) && Vanishes(y)
    ensures Vanishes(x - y)
  {
  }

  lemma ScanBits(w: Scan)
    requires w.Bits()
    ensures Bit(w.less) && Bit(w.marker.l0) && Bit(w.marker.l1) && Bit(w.marker.l2) && Bit(w.marker.l3)
    ensures Bit(w.Fired())
  {
    hide Vanishes, Scan.Fired;
    BitColumn(w.less);
    BitColumn(w.marker.l0);
    BitColumn(w.marker.l1);
    BitColumn(w.marker.l2);
    BitColumn(w.marker.l3);
    FiredSmall(w);
    BitColumn(w.Fired());
  }

  lemma FiredSmall(w: Scan)
    requires Bit(w.marker.l0) && Bit(w.marker.l1) && Bit(w.marker.l2) && Bit(w.marker.l3)
    ensures 0 <= w.Fired() < P
  {
  }

  lemma FiredRange(w: Scan)
    requires w.Scans() && Bit(w.Fired()) && Bit(w.marker.l0) && Bit(w.marker.l1) && Bit(w.marker.l2) && Bit(w.marker.l3)
    ensures w.marker.l0 == 1 || w.marker.l1 == 1 || w.marker.l2 == 1 || w.marker.l3 == 1 ==>
              Reduce(w.diffVal - 1) < 0x10_0000
  {
  }

  function Diff(w: Scan, x: int, y: int): int {
    w.Sign() * (y - x)
  }

  lemma TopLimbs(w: Scan, signed: bool)
    requires w.a.Bytes() && w.b.Bytes() && w.signed == (if signed then 1 else 0) && w.Tops() && Bit(w.less)
    ensures Vanishes(w.Sign() * (w.bTop - w.aTop) - w.Sign() * (TopOf(w.b.l3, signed) - TopOf(w.a.l3, signed)))
  {
    hide Vanishes, Reduce, TopOf;
    TopLimb(w.a.l3, w.aTop, signed);
    TopLimb(w.b.l3, w.bTop, signed);
    TopDifference(w.Sign(), w.aTop, w.bTop, TopOf(w.a.l3, signed), TopOf(w.b.l3, signed));
  }

  /** The constraints make the scan decide over the integers. */
  lemma ScanDecides(w: Scan, signed: bool)
    requires w.a.Bytes() && w.b.Bytes() && w.signed == (if signed then 1 else 0) && w.Accepted()
    ensures Bit(w.less)
    ensures Decides(Diff(w, TopOf(w.a.l3, signed), TopOf(w.b.l3, signed)),
                    Diff(w, w.a.l2, w.b.l2), Diff(w, w.a.l1, w.b.l1), Diff(w, w.a.l0, w.b.l0), w.marker, w.less)
  {
    ScanBits(w);
    FiredRange(w);
    var x, y := TopOf(w.a.l3, signed), TopOf(w.b.l3, signed);
    var m := w.marker;
    TopLimbs(w, signed);
    hide Vanishes, Reduce;
    DiffRange(w, x, y);
    DiffRange(w, w.a.l2, w.b.l2);
    DiffRange(w, w.a.l1, w.b.l1);
    DiffRange(w, w.a.l0, w.b.l0);
    ScanColumns(w, x, y);
    hide Diff, Scan.Accepted, Scan.Bits, Scan.Tops, Scan.Scans, Scan.Diff3, Scan.Diff2, Scan.Diff1, Scan.Diff0, Scan.Sign, TopOf;
    LimbDecides(0, m.l3, w.diffVal, w.Diff3(), Diff(w, x, y));
    LimbDecides(m.l3, m.l2, w.diffVal, w.Diff2(), Diff(w, w.a.l2, w.b.l2));
    LimbDecides(m.l3 + m.l2, m.l1, w.diffVal, w.Diff1(), Diff(w, w.a.l1, w.b.l1));
    LimbDecides(m.l3 + m.l2 + m.l1, m.l0, w.diffVal, w.Diff0(), Diff(w, w.a.l0, w.b.l0));
    LastLess(w);
  }

  lemma LastLess(w: Scan)
    requires w.Accepted() && Bit(w.less)
    ensures w.Fired() == 0 ==> w.less == 0
  {
    if w.Fired() == 0 {
      assert (1 - w.Fired()) * w.less == w.less;
      SmallMultiple(w.less);
    }
  }

  lemma DiffRange(w: Scan, x: int, y: int)
    requires Bit(w.less) && -128 <= x < 256 && -128 <= y < 256
    ensures -512 < Diff(w, x, y) < 512
  {
  }

  /** The scan's constraints, regrouped limb by limb. */
  lemma ScanColumns(w: Scan, x: int, y: int)
    requires w.Scans() && Vanishes(w.Sign() * (w.bTop - w.aTop) - w.Sign() * (y - x))
    ensures var m := w.marker;
            && Vanishes((1 - 0 - m.l3) * w.Diff3()) && Vanishes(m.l3 * (w.diffVal - w.Diff3()))
            && Vanishes((1 - m.l3 - m.l2) * w.Diff2()) && Vanishes(m.l2 * (w.diffVal - w.Diff2()))
            && Vanishes((1 - (m.l3 + m.l2) - m.l1) * w.Diff1()) && Vanishes(m.l1 * (w.diffVal - w.Diff1()))
            && Vanishes((1 - (m.l3 + m.l2 + m.l1) - m.l0) * w.Diff0()) && Vanishes(m.l0 * (w.diffVal - w.Diff0()))
    ensures Vanishes(w.Diff3() - Diff(w, x, y)) && Vanishes(w.Diff2() - Diff(w, w.a.l2, w.b.l2))
    ensures Vanishes(w.Diff1() - Diff(w, w.a.l1, w.b.l1)) && Vanishes(w.Diff0() - Diff(w, w.a.l0, w.b.l0))
  {
    var m := w.marker;
    assert 1 - 0 - m.l3 == 1 - m.l3;
    assert 1 - (m.l3 + m.l2) - m.l1 == 1 - m.l3 - m.l2 - m.l1;
    assert 1 - (m.l3 + m.l2 + m.l1) - m.l0 == 1 - w.Fired();
    SameVanishes(w.Diff2() - Diff(w, w.a.l2, w.b.l2));
    SameVanishes(w.Diff1() - Diff(w, w.a.l1, w.b.l1));
    SameVanishes(w.Diff0() - Diff(w, w.a.l0, w.b.l0));
  }

  lemma SameVanishes(x: int)
    requires x == 0
    ensures Vanishes(x)
  {
  }

  // -- Soundness ---------------------------------------------------------------------------------

  function ReadValue(w: Word, signed: bool): int {
    w.l0 + 0x100 * w.l1 + 0x1_0000 * w.l2 + 0x100_0000 * TopOf(w.l3, signed)
  }

  lemma ReadIs(w: Word, signed: bool)
    requires w.Bytes()
    ensures ReadValue(w, signed) == Read(w.Value(), signed)
  {
  }

  function Total(d3: int, d2: int, d1: int, d0: int): int {
    d0 + 0x100 * d1 + 0x1_0000 * d2 + 0x100_0000 * d3
  }

  /** The marked difference outweighs everything below it. */
  lemma MarkedOutweighs(d3: int, d2: int, d1: int, d0: int, m: Word, less: int)
    requires Decides(d3, d2, d1, d0, m, less) && -256 < d2 < 256 && -256 < d1 < 256 && -256 < d0 < 256
    ensures Total(d3, d2, d1, d0) > 0 || (Total(d3, d2, d1, d0) == 0 && less == 0)
  {
    if m.l3 == 1 {
    } else if m.l2 == 1 {
    } else if m.l1 == 1 {
    } else {
    }
  }

  lemma TotalOfDifferences(a: Word, b: Word, signed: bool, less: int)
    requires Bit(less)
    ensures var s := 2 * less - 1;
            Total(s * (TopOf(b.l3, signed) - TopOf(a.l3, signed)), s * (b.l2 - a.l2), s * (b.l1 - a.l1), s * (b.l0 - a.l0))
            == if less == 1 then ReadValue(b, signed) - ReadValue(a, signed)
               else ReadValue(a, signed) - ReadValue(b, signed)
  {
    hide TopOf;
  }

  /** A deciding scan orders the words: the first difference from the top settles it. */
  lemma ScanOrders(a: Word, b: Word, signed: bool, m: Word, less: int)
    requires a.Bytes() && b.Bytes() && Bit(less)
    requires var s := 2 * less - 1;
             Decides(s * (TopOf(b.l3, signed) - TopOf(a.l3, signed)), s * (b.l2 - a.l2), s * (b.l1 - a.l1),
                     s * (b.l0 - a.l0), m, less)
    ensures less == 1 <==> ReadValue(a, signed) < ReadValue(b, signed)
  {
    var s := 2 * less - 1;
    SmallDifference(s, a.l2, b.l2);
    SmallDifference(s, a.l1, b.l1);
    SmallDifference(s, a.l0, b.l0);
    hide Decides, Total, TopOf, ReadValue;
    MarkedOutweighs(s * (TopOf(b.l3, signed) - TopOf(a.l3, signed)), s * (b.l2 - a.l2), s * (b.l1 - a.l1),
                    s * (b.l0 - a.l0), m, less);
    TotalOfDifferences(a, b, signed, less);
  }

  lemma SmallDifference(s: int, x: int, y: int)
    requires (s == 1 || s == -1) && 0 <= x < 256 && 0 <= y < 256
    ensures -256 < s * (y - x) < 256
  {
  }

  /** An accepted scan's result bit is the signed or unsigned comparison of its operands. */
  lemma ScanSound(w: Scan, signed: bool)
    requires w.a.Bytes() && w.b.Bytes() && w.signed == (if signed then 1 else 0) && w.Accepted()
    ensures w.less == if Read(w.a.Value(), signed) < Read(w.b.Value(), signed) then 1 else 0
  {
    ScanDecides(w, signed);
    hide Vanishes, Reduce, Scan.Accepted, Read, ReadValue;
    ScanOrders(w.a, w.b, signed, w.marker, w.less);
    ReadIs(w.a, signed);
    ReadIs(w.b, signed);
  }
}
