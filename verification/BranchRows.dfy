// Whole comparison and branch rows: what slt, sltu, blt, bltu, bge, bgeu, beq
// and bne rows write and where they branch, with the runner's witness methods.
module BranchRows {
  import opened M31
  import opened RowFacts
  import opened CompareRows

  function Flag(on: bool): Felt {
    if on then 1 else 0
  }

  // -- The less-than witness -----------------------------------------------------------------------

  function Limb(w: Word, top: Felt, i: int): Felt {
    if i == 0 then w.l0 else if i == 1 then w.l1 else if i == 2 then w.l2 else top
  }

  /** The top limb in the field: a negative byte wraps below P. */
  function TopFelt(l3: Felt, signed: bool): Felt
    requires l3 < 256
  {
    if signed && l3 >= 128 then P - 256 + l3 else l3
  }

  /** One marker at limb i, or none when i is negative. */
  function MarkerAt(i: int): Word {
    Word(Flag(i == 0), Flag(i == 1), Flag(i == 2), Flag(i == 3))
  }

  /** i is the highest limb at which the words differ as read; -1 when they are equal. */
  predicate HighestDifference(a: Word, b: Word, aTop: Felt, bTop: Felt, i: int) {
    && -1 <= i < 4 && (forall k :: i < k < 4 ==> Limb(a, aTop, k) == Limb(b, bTop, k))
    && (i >= 0 ==> Limb(a, aTop, i) != Limb(b, bTop, i))
  }

  function Witnessed(a: Word, b: Word, signed: bool, i: int): Scan
    requires a.Bytes() && b.Bytes()
  {
    var less := Read(a.Value(), signed) < Read(b.Value(), signed);
    var aTop, bTop := TopFelt(a.l3, signed), TopFelt(b.l3, signed);
    var diff: int := if less then Limb(b, bTop, i) - Limb(a, aTop, i) else Limb(a, aTop, i) - Limb(b, bTop, i);
    Scan(a, b, aTop, bTop, MarkerAt(i), if i < 0 then 0 else Reduce(diff), Flag(less), Flag(signed))
  }

  /** Difference of limb i, oriented by the result, as the comparison reads it. */
  function Oriented(a: Word, b: Word, signed: bool, less: bool, i: int): int {
    var x := if i == 3 then TopOf(a.l3, signed) else Limb(a, 0, i);
    var y := if i == 3 then TopOf(b.l3, signed) else Limb(b, 0, i);
    if less then y - x else x - y
  }

  lemma TopFeltReads(l3: Felt, signed: bool)
    requires l3 < 256
    ensures Vanishes(TopFelt(l3, signed) - TopOf(l3, signed))
    ensures Vanishes((l3 - TopFelt(l3, signed)) * (256 - (l3 - TopFelt(l3, signed))))
    ensures Reduce(TopFelt(l3, signed) + Flag(signed) * 128) < 256
  {
    TopFeltGap(l3, signed);
    if signed && l3 >= 128 {
      Shifted(l3);
    }
  }

  lemma Shifted(l3: Felt)
    requires 128 <= l3 < 256
    ensures Reduce(P - 256 + l3 + 1 * 128) < 256 && Vanishes(P - 256 + l3 - (l3 - 256))
  {
  }

  lemma TopFeltGap(l3: Felt, signed: bool)
    requires l3 < 256
    ensures Vanishes((l3 - TopFelt(l3, signed)) * (256 - (l3 - TopFelt(l3, signed))))
  {
    var gap := l3 - TopFelt(l3, signed);
    if signed && l3 >= 128 {
      assert 256 - gap == P && gap * P == P * gap;
      hide TopFelt;
      MultipleIsDivisible(P, gap);
    } else {
      assert gap == 0;
    }
  }

  lemma SameTops(x: Felt, y: Felt, signed: bool)
    requires x < 256 && y < 256
    ensures TopFelt(x, signed) == TopFelt(y, signed) <==> TopOf(x, signed) == TopOf(y, signed)
  {
  }

  /** At the highest difference the oriented difference is positive. */
  lemma HighestIsPositive(a: Word, b: Word, signed: bool, i: int)
    requires a.Bytes() && b.Bytes() && 0 <= i < 4
    requires HighestDifference(a, b, TopFelt(a.l3, signed), TopFelt(b.l3, signed), i)
    ensures var less := Read(a.Value(), signed) < Read(b.Value(), signed);
            0 < Oriented(a, b, signed, less, i) < 512
  {
    var less := Read(a.Value(), signed) < Read(b.Value(), signed);
    var d3, d2 := Oriented(a, b, signed, less, 3), Oriented(a, b, signed, less, 2);
    var d1, d0 := Oriented(a, b, signed, less, 1), Oriented(a, b, signed, less, 0);
    SameTops(a.l3, b.l3, signed);
    ReadIs(a, signed);
    ReadIs(b, signed);
    assert Total(d3, d2, d1, d0) >= 0 by { hide TopOf, Read, TopFelt, HighestDifference; }
    HighestSettles(a, b, signed, less, i);
    hide Read, ReadValue, TopFelt, HighestDifference, Oriented, TopOf;
    PositiveTotal(d3, d2, d1, d0, i);
  }

  lemma HighestSettles(a: Word, b: Word, signed: bool, less: bool, i: int)
    requires a.Bytes() && b.Bytes() && 0 <= i < 4
    requires HighestDifference(a, b, TopFelt(a.l3, signed), TopFelt(b.l3, signed), i)
    ensures forall k :: 0 <= k < 4 ==> -512 < Oriented(a, b, signed, less, k) < 512
    ensures forall k :: 0 <= k < 3 ==> -256 < Oriented(a, b, signed, less, k) < 256
    ensures forall k :: i < k < 4 ==> Oriented(a, b, signed, less, k) == 0
    ensures Oriented(a, b, signed, less, i) != 0
  {
    SameTops(a.l3, b.l3, signed);
    forall k | i < k < 4
      ensures Oriented(a, b, signed, less, k) == 0
    {
      assert Limb(a, TopFelt(a.l3, signed), k) == Limb(b, TopFelt(b.l3, signed), k);
    }
  }

  lemma PositiveTotal(d3: int, d2: int, d1: int, d0: int, i: int)
    requires Total(d3, d2, d1, d0) >= 0 && 0 <= i < 4
    requires -256 < d2 < 256 && -256 < d1 < 256 && -256 < d0 < 256
    requires (i < 3 ==> d3 == 0) && (i < 2 ==> d2 == 0) && (i < 1 ==> d1 == 0)
    requires (i == 3 ==> d3 != 0) && (i == 2 ==> d2 != 0) && (i == 1 ==> d1 != 0) && (i == 0 ==> d0 != 0)
    ensures (i == 3 ==> d3 > 0) && (i == 2 ==> d2 > 0) && (i == 1 ==> d1 > 0) && (i == 0 ==> d0 > 0)
  {
  }

  /** One limb's constraints hold when the limbs above agree, or the marker is above. */
  lemma LimbHolds(above: int, marker: int, diffVal: Felt, col: int)
    requires Bit(above) && Bit(marker) && above + marker <= 1
    requires above + marker == 0 ==> Vanishes(col)
    requires marker == 1 ==> Vanishes(diffVal - col)
    ensures Vanishes((1 - above - marker) * col) && Vanishes(marker * (diffVal - col))
  {
    if above + marker == 0 {
      assert (1 - above - marker) * col == col && marker * (diffVal - col) == 0;
    } else if marker == 1 {
      assert (1 - above - marker) * col == 0 && marker * (diffVal - col) == diffVal - col;
    } else {
      assert (1 - above - marker) * col == 0 && marker * (diffVal - col) == 0;
    }
  }

  lemma ReducedDifference(x: int)
    ensures Vanishes(Reduce(x) - x)
  {
  }

  /** The difference column of limb i, in the field. */
  function Column(w: Scan, i: int): int {
    w.Sign() * (Limb(w.b, w.bTop, i) - Limb(w.a, w.aTop, i))
  }

  lemma ColumnsVanish(w: Scan, i: int, k: int)
    requires HighestDifference(w.a, w.b, w.aTop, w.bTop, i) && i < k < 4
    ensures Vanishes(Column(w, k))
  {
    assert Limb(w.b, w.bTop, k) - Limb(w.a, w.aTop, k) == 0;
    assert w.Sign() * 0 == 0;
  }

  /** The marked value is congruent to its column, and small. */
  lemma MarkedValue(a: Word, b: Word, signed: bool, i: int)
    requires a.Bytes() && b.Bytes() && 0 <= i < 4
    requires HighestDifference(a, b, TopFelt(a.l3, signed), TopFelt(b.l3, signed), i)
    ensures var w := Witnessed(a, b, signed, i);
            Vanishes(w.diffVal - Column(w, i)) && Reduce(w.diffVal - 1) < 0x10_0000
  {
    var w := Witnessed(a, b, signed, i);
    var less := Read(a.Value(), signed) < Read(b.Value(), signed);
    HighestIsPositive(a, b, signed, i);
    hide HighestDifference, Read;
    var x, y: int := Limb(a, w.aTop, i), Limb(b, w.bTop, i);
    var diff := if less then y - x else x - y;
    assert Column(w, i) == diff by {
      if less { assert w.Sign() == 1; } else { assert w.Sign() == -1; }
    }
    ReducedDifference(diff);
    TopFeltReads(a.l3, signed);
    TopFeltReads(b.l3, signed);
    SmallDiff(a, b, signed, less, i, diff);
  }

  lemma SmallDiff(a: Word, b: Word, signed: bool, less: bool, i: int, diff: int)
    requires a.Bytes() && b.Bytes() && 0 <= i < 4 && 0 < Oriented(a, b, signed, less, i) < 512
    requires var x, y: int := Limb(a, TopFelt(a.l3, signed), i), Limb(b, TopFelt(b.l3, signed), i);
             diff == if less then y - x else x - y
    ensures Reduce(Reduce(diff) - 1) < 0x10_0000
  {
    assert Reduce(diff) == Oriented(a, b, signed, less, i);
  }

  lemma LimbsHold(w: Scan, i: int)
    requires -1 <= i < 4 && w.marker == MarkerAt(i)
    requires forall k :: i < k < 4 ==> Vanishes(Column(w, k))
    requires i >= 0 ==> Vanishes(w.diffVal - Column(w, i))
    ensures var m := w.marker;
            && Vanishes((1 - 0 - m.l3) * Column(w, 3)) && Vanishes(m.l3 * (w.diffVal - Column(w, 3)))
            && Vanishes((1 - m.l3 - m.l2) * Column(w, 2)) && Vanishes(m.l2 * (w.diffVal - Column(w, 2)))
            && Vanishes((1 - (m.l3 + m.l2) - m.l1) * Column(w, 1)) && Vanishes(m.l1 * (w.diffVal - Column(w, 1)))
            && Vanishes((1 - (m.l3 + m.l2 + m.l1) - m.l0) * Column(w, 0)) && Vanishes(m.l0 * (w.diffVal - Column(w, 0)))
  {
    hide Vanishes, Column;
    var m := w.marker;
    LimbHolds(0, m.l3, w.diffVal, Column(w, 3));
    LimbHolds(m.l3, m.l2, w.diffVal, Column(w, 2));
    LimbHolds(m.l3 + m.l2, m.l1, w.diffVal, Column(w, 1));
    LimbHolds(m.l3 + m.l2 + m.l1, m.l0, w.diffVal, Column(w, 0));
  }

  lemma WitnessTops(a: Word, b: Word, signed: bool, i: int)
    requires a.Bytes() && b.Bytes()
    ensures Witnessed(a, b, signed, i).Tops()
  {
    hide Vanishes, Reduce, Read, TopFelt, Limb, MarkerAt, Word.Value;
    TopFeltReads(a.l3, signed);
    TopFeltReads(b.l3, signed);
  }

  /** Every constraint of the scan holds on the witness. */
  lemma WitnessAccepted(a: Word, b: Word, signed: bool, i: int)
    requires a.Bytes() && b.Bytes() && HighestDifference(a, b, TopFelt(a.l3, signed), TopFelt(b.l3, signed), i)
    ensures Witnessed(a, b, signed, i).Accepted()
  {
    var w := Witnessed(a, b, signed, i);
    hide Vanishes, Reduce, Read, TopFelt, Column, Limb, MarkerAt, Scan.Scans, Scan.Bits, Scan.Tops, Word.Value;
    WitnessBits(w, i);
    WitnessTops(a, b, signed, i);
    if i >= 0 { MarkedValue(a, b, signed, i); } else { EqualNotLess(a, b, signed); }
    forall k | i < k < 4
      ensures Vanishes(Column(w, k))
    {
      ColumnsVanish(w, i, k);
    }
    hide HighestDifference;
    LimbsHold(w, i);
    ScansFrom(w, i);
  }

  lemma WitnessBits(w: Scan, i: int)
    requires w.marker == MarkerAt(i) && Bit(w.less)
    ensures w.Bits()
  {
  }

  lemma EqualNotLess(a: Word, b: Word, signed: bool)
    requires a.Bytes() && b.Bytes() && HighestDifference(a, b, TopFelt(a.l3, signed), TopFelt(b.l3, signed), -1)
    ensures Witnessed(a, b, signed, -1).less == 0
  {
    assert forall k :: 0 <= k < 4 ==> Limb(a, TopFelt(a.l3, signed), k) == Limb(b, TopFelt(b.l3, signed), k);
    assert Limb(a, TopFelt(a.l3, signed), 0) == Limb(b, TopFelt(b.l3, signed), 0);
    assert Limb(a, TopFelt(a.l3, signed), 1) == Limb(b, TopFelt(b.l3, signed), 1);
    assert Limb(a, TopFelt(a.l3, signed), 2) == Limb(b, TopFelt(b.l3, signed), 2);
    assert Limb(a, TopFelt(a.l3, signed), 3) == Limb(b, TopFelt(b.l3, signed), 3);
    assert a == b;
  }

  lemma ScansFrom(w: Scan, i: int)
    requires -1 <= i < 4 && w.marker == MarkerAt(i)
    requires i < 0 ==> w.less == 0
    requires i >= 0 ==> Reduce(w.diffVal - 1) < 0x10_0000
    requires var m := w.marker;
             && Vanishes((1 - 0 - m.l3) * Column(w, 3)) && Vanishes(m.l3 * (w.diffVal - Column(w, 3)))
             && Vanishes((1 - m.l3 - m.l2) * Column(w, 2)) && Vanishes(m.l2 * (w.diffVal - Column(w, 2)))
             && Vanishes((1 - (m.l3 + m.l2) - m.l1) * Column(w, 1)) && Vanishes(m.l1 * (w.diffVal - Column(w, 1)))
             && Vanishes((1 - (m.l3 + m.l2 + m.l1) - m.l0) * Column(w, 0)) && Vanishes(m.l0 * (w.diffVal - Column(w, 0)))
    ensures w.Scans()
  {
    var m := w.marker;
    assert Vanishes((1 - w.Fired()) * w.less) by {
      if i >= 0 { assert w.Fired() == 1; }
    }
    assert !Vanishes(w.Fired()) ==> i >= 0;
    hide Vanishes, Reduce;
    assert 1 - (m.l3 + m.l2) - m.l1 == 1 - m.l3 - m.l2 - m.l1;
    assert 1 - (m.l3 + m.l2 + m.l1) - m.l0 == 1 - w.Fired();
    assert 1 - 0 - m.l3 == 1 - m.l3;
  }

  lemma FieldGap(x: int, y: int)
    ensures (y + P - x) % P == Reduce(y - x)
  {
  }

  /** Find the first differing byte from the top, and orient its difference by the result. */
  method ComputeLtRegWitness(a: Word, b: Word, isSigned: bool) returns (w: Scan)
    requires a.Bytes() && b.Bytes()
    ensures w.Accepted()
    ensures w.a == a && w.b == b && w.signed == Flag(isSigned)
    ensures w.less == Flag(Read(a.Value(), isSigned) < Read(b.Value(), isSigned))
  {
    hide Scan.Accepted, Read, Word.Value, Reduce;
    var cmpResult := Read(a.Value(), isSigned) < Read(b.Value(), isSigned);
    var aTop := if isSigned && a.l3 >= 128 then P - 256 + a.l3 else a.l3;
    var bTop := if isSigned && b.l3 >= 128 then P - 256 + b.l3 else b.l3;
    var marker: seq<Felt>, diffVal: Felt := [0, 0, 0, 0], 0;
    ghost var at := -1;
    var i := 4;
    while i > 0
      invariant 0 <= i <= 4 && marker == [0, 0, 0, 0] && diffVal == 0 && at == -1
      invariant forall k :: i <= k < 4 ==> Limb(a, aTop, k) == Limb(b, bTop, k)
    {
      i := i - 1;
      var x: int, y: int := if i == 3 then aTop else Limb(a, aTop, i), if i == 3 then bTop else Limb(b, bTop, i);
      if x != y {
        marker := marker[i := 1];
        diffVal := if cmpResult then (y + P - x) % P else (x + P - y) % P;
        FieldGap(x, y);
        FieldGap(y, x);
        at := i;
        break;
      }
    }
    assert HighestDifference(a, b, aTop, bTop, at);
    WitnessAccepted(a, b, isSigned, at);
    w := Scan(a, b, aTop, bTop, Word(marker[0], marker[1], marker[2], marker[3]), diffVal, Flag(cmpResult), Flag(isSigned));
  }
}
