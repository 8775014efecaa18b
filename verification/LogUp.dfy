// LogUp columns: the constraints a finalized component adds, and why they make the
// sum of all its fractions the claimed sum.
module LogUp {
  import opened M31
  import opened FeltSemantics
  import opened Qm31Field

  // -- Sums in QM31 ---------------------------------------------------------------------

  lemma FieldMove(a: Felt, b: Felt, c: Felt)
    ensures FAdd(FSub(a, b), b) == a && FSub(FAdd(a, b), b) == a && FAdd(a, b) == FAdd(b, a)
    ensures FSub(a, b) == 0 <==> a == b
    ensures FAdd(FSub(a, b), FSub(b, c)) == FSub(a, c)
  {
    Chain(a, b, c);
    Undo(a, b);
    Same(a, b);
    hide FAdd, FSub;
  }

  lemma Difference(a: Felt, b: Felt)
    ensures FSub(a, b) == if a >= b then a - b else a - b + P
  {
  }

  lemma Sum(a: Felt, b: Felt)
    ensures FAdd(a, b) == if a + b < P then a + b else a + b - P
  {
  }

  lemma Chain(a: Felt, b: Felt, c: Felt)
    ensures FAdd(FSub(a, b), FSub(b, c)) == FSub(a, c)
  {
    hide FAdd, FSub;
    Difference(a, b);
    Difference(b, c);
    Difference(a, c);
    Sum(FSub(a, b), FSub(b, c));
  }

  lemma Undo(a: Felt, b: Felt)
    ensures FAdd(FSub(a, b), b) == a && FSub(FAdd(a, b), b) == a
  {
    hide FAdd, FSub;
    Difference(a, b);
    Sum(FSub(a, b), b);
    Sum(a, b);
    Difference(FAdd(a, b), b);
  }

  lemma Same(a: Felt, b: Felt)
    ensures FAdd(a, b) == FAdd(b, a) && (FSub(a, b) == 0 <==> a == b)
  {
    hide FSub;
    Difference(a, b);
  }

  lemma QMove(a: Qm31, b: Qm31, c: Qm31)
    ensures QAdd(QSub(a, b), b) == a && QSub(QAdd(a, b), b) == a && QAdd(a, b) == QAdd(b, a)
    ensures QSub(a, b) == ZERO <==> a == b
    ensures QAdd(QSub(a, b), QSub(b, c)) == QSub(a, c)
  {
    FieldMove(a.x0, b.x0, c.x0);
    FieldMove(a.x1, b.x1, c.x1);
    FieldMove(a.x2, b.x2, c.x2);
    FieldMove(a.x3, b.x3, c.x3);
    hide FAdd, FSub;
  }

  function Total(vs: seq<Qm31>): Qm31 {
    if vs == [] then ZERO else QAdd(Total(vs[..|vs| - 1]), vs[|vs| - 1])
  }

  /** n * a. */
  function Times(n: nat, a: Qm31): Qm31 {
    if n == 0 then ZERO else QAdd(Times(n - 1, a), a)
  }

  // -- Fractions ----------------------------------------------------------------------------

  datatype Fraction = Fraction(num: Qm31, den: Qm31)

  function FracAdd(a: Fraction, b: Fraction): Fraction {
    Fraction(QAdd(QMul(b.den, a.num), QMul(a.den, b.num)), QMul(a.den, b.den))
  }

  ghost predicate Invertible(d: Qm31) {
    exists i :: QMul(d, i) == ONE
  }

  /** v is num / den. */
  ghost predicate IsValue(f: Fraction, v: Qm31) {
    Invertible(f.den) && QMul(v, f.den) == f.num
  }

  lemma Cancel(d: Qm31, a: Qm31, b: Qm31)
    requires Invertible(d) && QMul(a, d) == QMul(b, d)
    ensures a == b
  {
    hide QMul;
    var i :| QMul(d, i) == ONE;
    QMulAssociates(a, d, i);
    QMulAssociates(b, d, i);
    QMulOne(a);
    QMulOne(b);
  }

  lemma InvertibleProduct(a: Qm31, b: Qm31)
    requires Invertible(a) && Invertible(b)
    ensures Invertible(QMul(a, b))
  {
    hide QMul;
    var i :| QMul(a, i) == ONE;
    var j :| QMul(b, j) == ONE;
    // (a b)(j i) = a (b j) i
    QMulAssociates(QMul(a, b), j, i);
    QMulAssociates(a, b, j);
    QMulOne(a);
    assert QMul(QMul(a, b), QMul(j, i)) == ONE;
  }

  /** Fractions add as their values do. */
  lemma FracAddValue(f: Fraction, g: Fraction, v: Qm31, w: Qm31)
    requires IsValue(f, v) && IsValue(g, w)
    ensures IsValue(FracAdd(f, g), QAdd(v, w))
  {
    hide QMul, QAdd, Invertible;
    InvertibleProduct(f.den, g.den);
    QDistributes(v, w, QMul(f.den, g.den));
    QMulAssociates(v, f.den, g.den);
    QMulCommutes(f.num, g.den);
    QMulCommutes(f.den, g.den);
    QMulAssociates(w, g.den, f.den);
    QMulCommutes(g.num, f.den);
  }

  /** The framework's fraction sum: the first fraction, then the rest in order. */
  function FracSum(fs: seq<Fraction>): Fraction
    requires |fs| > 0
  {
    if |fs| == 1 then fs[0] else FracAdd(FracSum(fs[..|fs| - 1]), fs[|fs| - 1])
  }

  ghost predicate AreValues(fs: seq<Fraction>, vs: seq<Qm31>) {
    |fs| == |vs| && forall i :: 0 <= i < |fs| ==> IsValue(fs[i], vs[i])
  }

  lemma {:induction false} FracSumValue(fs: seq<Fraction>, vs: seq<Qm31>)
    requires |fs| > 0 && AreValues(fs, vs)
    ensures IsValue(FracSum(fs), Total(vs))
  {
    hide IsValue, QAdd;
    var n := |fs| - 1;
    if n == 0 {
      assert vs[..0] == [];
      QAddZero(vs[0]);
    } else {
      FracSumValue(fs[..n], vs[..n]);
      FracAddValue(FracSum(fs[..n]), fs[n], Total(vs[..n]), vs[n]);
    }
  }

  // -- Batches -----------------------------------------------------------------------------------

  /** The elements assigned to batch b, in order. */
  function Batch<T>(xs: seq<T>, batching: seq<nat>, b: nat): seq<T>
    requires |xs| == |batching|
  {
    if xs == [] then []
    else
      var n := |xs| - 1;
      Batch(xs[..n], batching[..n], b) + (if batching[n] == b then [xs[n]] else [])
  }

  /** Every batch up to the last has an element, and there are no others. */
  ghost predicate Consecutive(batching: seq<nat>, last: nat) {
    && (forall i :: 0 <= i < |batching| ==> batching[i] <= last)
    && (forall b :: 0 <= b <= last ==> |Batch(batching, batching, b)| > 0)
  }

  lemma {:induction false} BatchValues(fs: seq<Fraction>, vs: seq<Qm31>, batching: seq<nat>, b: nat)
    requires AreValues(fs, vs) && |fs| == |batching|
    ensures AreValues(Batch(fs, batching, b), Batch(vs, batching, b))
    ensures |Batch(fs, batching, b)| == |Batch(batching, batching, b)|
    decreases |fs|
  {
    hide IsValue;
    if fs != [] {
      var n := |fs| - 1;
      BatchValues(fs[..n], vs[..n], batching[..n], b);
      BatchLength(fs, batching, batching, b);
    } else {
      assert batching == [];
    }
  }

  lemma {:induction false} BatchLength<T, U>(xs: seq<T>, ys: seq<U>, batching: seq<nat>, b: nat)
    requires |xs| == |ys| == |batching|
    ensures |Batch(xs, batching, b)| == |Batch(ys, batching, b)|
    decreases |xs|
  {
    if xs != [] {
      var n := |xs| - 1;
      BatchLength(xs[..n], ys[..n], batching[..n], b);
    }
  }

  /** Totals of the first k batches. */
  function BatchTotals(vs: seq<Qm31>, batching: seq<nat>, k: nat): Qm31
    requires |vs| == |batching|
  {
    if k == 0 then ZERO else QAdd(BatchTotals(vs, batching, k - 1), Total(Batch(vs, batching, k - 1)))
  }

  lemma TotalPush(vs: seq<Qm31>, v: Qm31)
    ensures Total(vs + [v]) == QAdd(Total(vs), v)
  {
    hide QAdd;
    assert (vs + [v])[..|vs|] == vs;
  }

  lemma {:induction false} BatchTotalsPush(vs: seq<Qm31>, batching: seq<nat>, k: nat)
    requires |vs| == |batching| && |vs| > 0
    ensures batching[|vs| - 1] < k ==>
              BatchTotals(vs, batching, k)
              == QAdd(BatchTotals(vs[..|vs| - 1], batching[..|vs| - 1], k), vs[|vs| - 1])
    ensures batching[|vs| - 1] >= k ==>
              BatchTotals(vs, batching, k) == BatchTotals(vs[..|vs| - 1], batching[..|vs| - 1], k)
    decreases k
  {
    hide QAdd, Total, Batch, BatchTotals;
    var n := |vs| - 1;
    BatchTotalsStep(vs, batching, k);
    BatchTotalsStep(vs[..n], batching[..n], k);
    if k > 0 {
      BatchTotalsPush(vs, batching, k - 1);
      BatchPush(vs, batching, k - 1);
      var batch, before := Total(Batch(vs[..n], batching[..n], k - 1)), BatchTotals(vs[..n], batching[..n], k - 1);
      if batching[n] == k - 1 {
        QAddAssociates(before, batch, vs[n]);
      } else if batching[n] < k - 1 {
        SwapLast(before, vs[n], batch);
      }
    }
  }

  lemma BatchPush(vs: seq<Qm31>, batching: seq<nat>, b: nat)
    requires |vs| == |batching| && |vs| > 0
    ensures batching[|vs| - 1] == b ==>
              Total(Batch(vs, batching, b)) == QAdd(Total(Batch(vs[..|vs| - 1], batching[..|vs| - 1], b)), vs[|vs| - 1])
    ensures batching[|vs| - 1] != b ==>
              Total(Batch(vs, batching, b)) == Total(Batch(vs[..|vs| - 1], batching[..|vs| - 1], b))
  {
    hide QAdd;
    var n := |vs| - 1;
    var batch := Batch(vs[..n], batching[..n], b);
    TotalPush(batch, vs[n]);
    assert batch + [] == batch;
  }

  lemma SwapLast(a: Qm31, b: Qm31, c: Qm31)
    ensures QAdd(QAdd(a, b), c) == QAdd(QAdd(a, c), b)
  {
    hide QAdd;
    QAddAssociates(a, b, c);
    QMove(b, c, ZERO);
    QAddAssociates(a, c, b);
  }

  /** Batching only regroups the sum. */
  lemma {:induction false} BatchesPartition(vs: seq<Qm31>, batching: seq<nat>, last: nat)
    requires |vs| == |batching| && forall i :: 0 <= i < |batching| ==> batching[i] <= last
    ensures BatchTotals(vs, batching, last + 1) == Total(vs)
    decreases |vs|
  {
    hide QAdd;
    if vs == [] {
      EmptyBatches(last + 1);
    } else {
      var n := |vs| - 1;
      BatchesPartition(vs[..n], batching[..n], last);
      BatchTotalsPush(vs, batching, last + 1);
    }
  }

  lemma {:induction false} EmptyBatches(k: nat)
    ensures BatchTotals([], [], k) == ZERO
  {
    hide QAdd;
    if k > 0 {
      EmptyBatches(k - 1);
      QAddZero(ZERO);
    }
  }

  // -- The constraints of finalize_logup_batched ---------------------------------------------------

  /** One row: its fractions and its cumulative columns, one per batch. */
  datatype Row = Row(fracs: seq<Fraction>, cums: seq<Qm31>)

  function Column(cums: seq<Qm31>, b: int): Qm31 {
    if 0 <= b < |cums| then cums[b] else ZERO
  }

  ghost predicate BatchVanishes(diff: Qm31, f: Fraction) {
    QSub(QMul(diff, f.den), f.num) == ZERO
  }

  /** The constraints on a row whose predecessor's last column is prev. */
  ghost predicate RowVanishes(row: Row, batching: seq<nat>, last: nat, prev: Qm31, shift: Qm31)
    requires |row.fracs| == |batching| && Consecutive(batching, last) && |row.cums| == last + 1
  {
    && (forall b :: 0 <= b < last ==>
          |Batch(row.fracs, batching, b)| > 0
          && BatchVanishes(QSub(row.cums[b], Column(row.cums, b - 1)), FracSum(Batch(row.fracs, batching, b))))
    && |Batch(row.fracs, batching, last)| > 0
    && BatchVanishes(QAdd(QSub(QSub(row.cums[last], prev), Column(row.cums, last - 1)), shift),
                     FracSum(Batch(row.fracs, batching, last)))
  }

  lemma VanishingValue(diff: Qm31, fs: seq<Fraction>, vs: seq<Qm31>)
    requires |fs| > 0 && AreValues(fs, vs) && BatchVanishes(diff, FracSum(fs))
    ensures diff == Total(vs)
  {
    hide QMul, QSub, Invertible, FracSum;
    FracSumValue(fs, vs);
    var f := FracSum(fs);
    QMove(QMul(diff, f.den), f.num, ZERO);
    Cancel(f.den, diff, Total(vs));
  }

  lemma RowBatch(row: Row, batching: seq<nat>, last: nat, prev: Qm31, shift: Qm31, b: nat)
    requires |row.fracs| == |batching| && Consecutive(batching, last) && |row.cums| == last + 1 && b < last
    requires RowVanishes(row, batching, last, prev, shift)
    ensures |Batch(row.fracs, batching, b)| > 0
    ensures BatchVanishes(QSub(row.cums[b], Column(row.cums, b - 1)), FracSum(Batch(row.fracs, batching, b)))
  {
    hide QSub, BatchVanishes, Consecutive, FracSum;
  }

  /** The columns accumulate the batches. */
  lemma {:induction false} ColumnsAccumulate(
      row: Row, vs: seq<Qm31>, batching: seq<nat>, last: nat, prev: Qm31, shift: Qm31, k: nat)
    requires |row.fracs| == |batching| && Consecutive(batching, last) && |row.cums| == last + 1 && k <= last
    requires |vs| == |batching| && AreValues(row.fracs, vs) && RowVanishes(row, batching, last, prev, shift)
    ensures Column(row.cums, k - 1) == BatchTotals(vs, batching, k)
    decreases k
  {
    hide QAdd, QSub, AreValues, Consecutive, RowVanishes, Total, Batch, BatchTotals;
    BatchTotalsStep(vs, batching, k);
    if k > 0 {
      ColumnsAccumulate(row, vs, batching, last, prev, shift, k - 1);
      ColumnStep(row, vs, batching, last, prev, shift, k - 1);
    }
  }

  lemma ColumnStep(row: Row, vs: seq<Qm31>, batching: seq<nat>, last: nat, prev: Qm31, shift: Qm31, b: nat)
    requires |row.fracs| == |batching| && Consecutive(batching, last) && |row.cums| == last + 1 && b < last
    requires |vs| == |batching| && AreValues(row.fracs, vs) && RowVanishes(row, batching, last, prev, shift)
    ensures Column(row.cums, b) == QAdd(Column(row.cums, b - 1), Total(Batch(vs, batching, b)))
  {
    hide QAdd, QSub, AreValues, BatchVanishes, Consecutive, RowVanishes, FracSum, Total, Batch;
    RowBatch(row, batching, last, prev, shift, b);
    BatchValues2(row.fracs, vs, batching, b);
    VanishingValue(QSub(row.cums[b], Column(row.cums, b - 1)), Batch(row.fracs, batching, b), Batch(vs, batching, b));
    GrowColumn(row.cums[b], Column(row.cums, b - 1));
  }

  lemma GrowColumn(c: Qm31, p: Qm31)
    ensures c == QAdd(p, QSub(c, p))
  {
    hide QAdd, QSub;
    QMove(c, p, ZERO);
    QMove(QSub(c, p), p, ZERO);
  }

  lemma BatchTotalsStep(vs: seq<Qm31>, batching: seq<nat>, k: nat)
    requires |vs| == |batching|
    ensures BatchTotals(vs, batching, k)
         == if k == 0 then ZERO else QAdd(BatchTotals(vs, batching, k - 1), Total(Batch(vs, batching, k - 1)))
  {
    hide QAdd, Total, Batch;
  }

  lemma BatchValues2(fs: seq<Fraction>, vs: seq<Qm31>, batching: seq<nat>, b: nat)
    requires AreValues(fs, vs) && |fs| == |batching|
    ensures |vs| == |fs| && AreValues(Batch(fs, batching, b), Batch(vs, batching, b))
  {
    BatchValues(fs, vs, batching, b);
  }

  /** A row's fractions sum to the growth of its last column, plus the shift. */
  lemma RowTotal(row: Row, vs: seq<Qm31>, batching: seq<nat>, last: nat, prev: Qm31, shift: Qm31)
    requires |row.fracs| == |batching| && Consecutive(batching, last) && |row.cums| == last + 1
    requires AreValues(row.fracs, vs) && RowVanishes(row, batching, last, prev, shift)
    ensures Total(vs) == QAdd(QSub(row.cums[last], prev), shift)
  {
    hide QAdd, QSub, BatchVanishes;
    ColumnsAccumulate(row, vs, batching, last, prev, shift, last);
    BatchValues2(row.fracs, vs, batching, last);
    var column := Column(row.cums, last - 1);
    var growth := QSub(row.cums[last], prev);
    VanishingValue(QAdd(QSub(growth, column), shift), Batch(row.fracs, batching, last), Batch(vs, batching, last));
    BatchesPartition(vs, batching, last);
    Regroup(column, growth, shift);
  }

  lemma Regroup(c: Qm31, g: Qm31, s: Qm31)
    ensures QAdd(c, QAdd(QSub(g, c), s)) == QAdd(g, s)
  {
    hide QAdd, QSub;
    QAddAssociates(c, QSub(g, c), s);
    QMove(c, QSub(g, c), ZERO);
    QMove(g, c, ZERO);
  }

  // -- The whole table ---------------------------------------------------------------------------------

  /** The last column of the cyclically previous row. */
  function Previous(rows: seq<Row>, last: nat, r: nat): Qm31
    requires r < |rows| && forall i :: 0 <= i < |rows| ==> |rows[i].cums| == last + 1
  {
    if r == 0 then rows[|rows| - 1].cums[last] else rows[r - 1].cums[last]
  }

  ghost predicate Shaped(rows: seq<Row>, batching: seq<nat>, last: nat) {
    Consecutive(batching, last)
    && forall i :: 0 <= i < |rows| ==> |rows[i].fracs| == |batching| && |rows[i].cums| == last + 1
  }

  ghost predicate TableVanishes(rows: seq<Row>, batching: seq<nat>, last: nat, shift: Qm31)
    requires Shaped(rows, batching, last)
  {
    forall r :: 0 <= r < |rows| ==> RowVanishes(rows[r], batching, last, Previous(rows, last, r), shift)
  }

  function RowTotals(vss: seq<seq<Qm31>>): Qm31 {
    if vss == [] then ZERO else QAdd(RowTotals(vss[..|vss| - 1]), Total(vss[|vss| - 1]))
  }

  lemma {:induction false} Telescopes(
      rows: seq<Row>, vss: seq<seq<Qm31>>, batching: seq<nat>, last: nat, shift: Qm31, k: nat)
    requires Shaped(rows, batching, last) && TableVanishes(rows, batching, last, shift) && |vss| == |rows| && k <= |rows|
    requires forall r :: 0 <= r < |rows| ==> AreValues(rows[r].fracs, vss[r])
    ensures RowTotals(vss[..k])
         == if k == 0 then ZERO
            else QAdd(QSub(rows[k - 1].cums[last], rows[|rows| - 1].cums[last]), Times(k, shift))
    decreases k
  {
    hide QAdd, QSub, RowVanishes, Consecutive, AreValues, Total;
    if k > 0 {
      Telescopes(rows, vss, batching, last, shift, k - 1);
      var row, prev := rows[k - 1], Previous(rows, last, k - 1);
      assert vss[..k][..k - 1] == vss[..k - 1] && vss[..k][k - 1] == vss[k - 1];
      RowTotal(row, vss[k - 1], batching, last, prev, shift);
      hide TableVanishes;
      var final := rows[|rows| - 1].cums[last];
      if k == 1 {
        QAddZero(Total(vss[0]));
        QAddZero(shift);
      } else {
        AddGrowth(prev, final, Times(k - 1, shift), row.cums[last], shift);
      }
    }
  }

  lemma AddGrowth(p: Qm31, f: Qm31, t: Qm31, c: Qm31, s: Qm31)
    ensures QAdd(QAdd(QSub(p, f), t), QAdd(QSub(c, p), s)) == QAdd(QSub(c, f), QAdd(t, s))
  {
    hide QAdd, QSub;
    var x, y := QSub(p, f), QSub(c, p);
    QAddAssociates(x, t, QAdd(y, s));
    QAddAssociates(t, y, s);
    QMove(t, y, ZERO);
    QAddAssociates(y, t, s);
    QAddAssociates(x, y, QAdd(t, s));
    QMove(x, y, ZERO);
    QMove(c, p, f);
  }

  /**
   * LogUp telescoping: when every constraint vanishes on all n cyclic rows and
   * denominators are invertible, all fractions of the table sum to n times the
   * shift, for any consecutive batching.
   */
  lemma FractionsSumToShift(rows: seq<Row>, vss: seq<seq<Qm31>>, batching: seq<nat>, last: nat, shift: Qm31)
    requires Shaped(rows, batching, last) && TableVanishes(rows, batching, last, shift) && |vss| == |rows| && |rows| > 0
    requires forall r :: 0 <= r < |rows| ==> AreValues(rows[r].fracs, vss[r])
    ensures RowTotals(vss) == Times(|rows|, shift)
  {
    hide QAdd, QSub, TableVanishes, Consecutive, AreValues;
    Telescopes(rows, vss, batching, last, shift, |rows|);
    assert vss[..|rows|] == vss;
    var final := rows[|rows| - 1].cums[last];
    QMove(final, final, ZERO);
    QAddZero(Times(|rows|, shift));
  }
}
