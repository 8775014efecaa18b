// Which pair of segments a failed aggregation reports: the leftmost mismatch
// among those that meet lowest in the tree.
module AggregationReport {
  import opened Wrappers
  import opened Aggregation
  import opened AggregationTheorems
  import SparseTree

  /** The largest power of two dividing k: the width at which leaves k - 1 and k meet. */
  function LowBit(k: nat): nat
    requires k > 0
  {
    if k % 2 == 1 then 1 else 2 * LowBit(k / 2)
  }

  ghost predicate Mismatch(bs: seq<Boundary>, k: int) {
    0 < k < |bs| && Gap(bs[k - 1], bs[k]).Some?
  }

  /** k comes after `next` in the order in which the tree tests pairs: by width, then left to right. */
  ghost predicate TestedLater(next: nat, k: nat)
    requires next > 0 && k > 0
  {
    LowBit(k) > LowBit(next) || (LowBit(k) == LowBit(next) && k >= next)
  }

  /** The error names the first mismatch tested; `prev` is the first leaf of the span on its left. */
  ghost predicate Reported(bs: seq<Boundary>, e: VerificationError) {
    && e.SegmentChainMismatch? && Mismatch(bs, e.next) && Gap(bs[e.next - 1], bs[e.next]) == Some(e.what)
    && e.prev == e.next - LowBit(e.next)
    && forall k: nat :: Mismatch(bs, k) ==> TestedLater(e.next, k)
  }

  // -- Low bits ----------------------------------------------------------------------------------

  lemma {:induction false} OddMultiple(i: nat, d: nat)
    ensures Start(2 * i + 1, SparseTree.Pow2(d)) > 0
    ensures LowBit(Start(2 * i + 1, SparseTree.Pow2(d))) == SparseTree.Pow2(d)
  {
    hide Start, LowBit;
    SparseTree.Pow2Positive(d);
    MultiplePositive(2 * i + 1, SparseTree.Pow2(d));
    if d == 0 {
      OddLowBit(2 * i + 1);
    } else {
      OddMultiple(i, d - 1);
      Doubled(2 * i + 1, SparseTree.Pow2(d - 1));
      LowBitDoubled(Start(2 * i + 1, SparseTree.Pow2(d - 1)));
    }
  }

  lemma LowBitDoubled(k: nat)
    requires k > 0
    ensures LowBit(2 * k) == 2 * LowBit(k)
  {
  }

  lemma OddLowBit(k: nat)
    requires k % 2 == 1
    ensures Start(k, 1) == k && LowBit(k) == 1
  {
  }

  lemma {:induction false} AnyMultiple(j: nat, d: nat)
    requires j > 0
    ensures Start(j, SparseTree.Pow2(d)) > 0
    ensures LowBit(Start(j, SparseTree.Pow2(d))) >= SparseTree.Pow2(d)
  {
    SparseTree.Pow2Positive(d);
    MultiplePositive(j, SparseTree.Pow2(d));
    if d > 0 {
      AnyMultiple(j, d - 1);
      Doubled(j, SparseTree.Pow2(d - 1));
    } else {
      LowBitPositive(Start(j, 1));
    }
  }

  lemma {:induction false} LowBitPositive(k: nat)
    requires k > 0
    ensures LowBit(k) >= 1 && (LowBit(k) == 1 <==> k % 2 == 1)
  {
    if k % 2 == 0 { LowBitPositive(k / 2); }
  }

  lemma MultiplePositive(j: nat, width: nat)
    requires j > 0 && width > 0
    ensures Start(j, width) > 0
  {
  }

  lemma Doubled(j: nat, width: nat)
    ensures Start(j, 2 * width) == 2 * Start(j, width)
  {
  }

  // -- The failing level -------------------------------------------------------------------------

  /** The pairs before the one that fails all meet. */
  lemma {:induction false} FirstFailure(level: seq<Boundary>, bs: seq<Boundary>, width: nat, index: nat) returns (i: nat)
    requires Covers(level, bs, width) && 2 * index <= |level| && PairUp(level[2 * index..], index, width).Failed?
    ensures index <= i && 0 < Start(2 * i + 1, width) < |bs|
    ensures var e := PairUp(level[2 * index..], index, width).error;
            && e.SegmentChainMismatch? && e.next == Start(2 * i + 1, width) && e.prev + width == e.next
            && Gap(bs[e.next - 1], bs[e.next]) == Some(e.what)
    ensures forall j: nat :: index <= j < i ==> !Mismatch(bs, Start(2 * j + 1, width))
    decreases |level| - 2 * index
  {
    hide Covers, Gap, Join;
    var rest := level[2 * index..];
    PairSpans(level, bs, width, index);
    assert rest[0] == level[2 * index] && rest[1] == level[2 * index + 1];
    if Gap(rest[0], rest[1]).Some? {
      i := index;
      PairNumbers(index, width);
    } else {
      assert rest[2..] == level[2 * (index + 1)..];
      i := FirstFailure(level, bs, width, index + 1);
      forall j: nat | index <= j < i
        ensures !Mismatch(bs, Start(2 * j + 1, width))
      {
      }
    }
  }

  lemma PairNumbers(index: nat, width: nat)
    ensures (index * 2 + 1) * width == Start(2 * index + 1, width)
    ensures index * 2 * width + width == (index * 2 + 1) * width
  {
  }

  /** Below the failing level everything meets: a mismatch starts a node. */
  lemma MismatchStarts(level: seq<Boundary>, bs: seq<Boundary>, width: nat, k: nat) returns (j: nat)
    requires Covers(level, bs, width) && Mismatch(bs, k)
    ensures 0 < j < |level| && k == Start(j, width)
  {
    hide Gap, Join;
    WidthPositive(level, bs, width);
    j := k / width;
    Quotient(k, width);
    if j >= |level| { StartOrder(|level|, j, width); }
    assert Spans(level, bs, width, j);
    if Start(j, width) < k { ContinuesInside(bs, Start(j, width), End(j, width, |bs|), k); }
  }

  lemma WidthPositive(level: seq<Boundary>, bs: seq<Boundary>, width: nat)
    requires Covers(level, bs, width)
    ensures width > 0
  {
    NoWidth(|level|);
  }

  lemma NoWidth(j: int)
    ensures Start(j, 0) == 0
  {
  }

  lemma ContinuesInside(bs: seq<Boundary>, lo: int, hi: int, k: int)
    requires Chained(bs, lo, hi) && lo < k < hi
    ensures Continues(bs, k)
  {
  }

  lemma Quotient(k: nat, width: nat)
    requires width > 0
    ensures Start(k / width, width) <= k < Start(k / width + 1, width)
  {
    assert k == k / width * width + k % width;
  }

  lemma LevelReports(level: seq<Boundary>, bs: seq<Boundary>, depth: nat)
    requires Covers(level, bs, SparseTree.Pow2(depth)) && PairUp(level, 0, SparseTree.Pow2(depth)).Failed?
    ensures Reported(bs, PairUp(level, 0, SparseTree.Pow2(depth)).error)
  {
    hide Covers, Gap, Join, PairUp, Start, LowBit, SparseTree.Pow2;
    var width := SparseTree.Pow2(depth);
    assert level[2 * 0..] == level;
    var i := FirstFailure(level, bs, width, 0);
    var e := PairUp(level, 0, width).error;
    OddMultiple(i, depth);
    forall k: nat | Mismatch(bs, k)
      ensures TestedLater(e.next, k)
    {
      var j := MismatchStarts(level, bs, width, k);
      var m := j / 2;
      if j % 2 == 1 {
        assert j == 2 * m + 1;
        OddMultiple(m, depth);
        if i <= m { StartOrder(2 * i + 1, j, width); }
      } else {
        assert j == 2 * m;
        StartSteps(m, width);
        AnyMultiple(m, depth + 1);
        SparseTree.Pow2Positive(depth);
        assert SparseTree.Pow2(depth + 1) == 2 * width by { Twice(depth); }
      }
    }
  }

  lemma Twice(d: nat)
    ensures SparseTree.Pow2(d + 1) == 2 * SparseTree.Pow2(d)
  {
  }

  lemma {:induction false} TreeReports(level: seq<Boundary>, bs: seq<Boundary>, depth: nat)
    requires Covers(level, bs, SparseTree.Pow2(depth)) && FoldTree(level, depth).Failed?
    ensures Reported(bs, FoldTree(level, depth).error)
    decreases |level|
  {
    assert |level| > 1;
    hide PairUp, Covers, Reported;
    var width := SparseTree.Pow2(depth);
    if PairUp(level, 0, width).Failed? {
      LevelReports(level, bs, depth);
    } else {
      LevelCovers(level, bs, width);
      PairUpHalves(level, 0, width);
      TreeReports(PairUp(level, 0, width).value, bs, depth + 1);
    }
  }

  // -- What is reported --------------------------------------------------------------------------

  /** A failed aggregation reports the first mismatch in testing order, with the start of its left span. */
  lemma FailureReports(proofs: seq<Proof>)
    requires proofs != [] && Aggregate(proofs).Failed? && FirstFlaw(proofs) == None
    ensures Reported(Leaves(proofs), Aggregate(proofs).error)
  {
    hide FoldTree, FirstFlaw, Covers, Reported;
    LeavesCover(Leaves(proofs));
    assert SparseTree.Pow2(0) == 1;
    TreeReports(Leaves(proofs), Leaves(proofs), 0);
  }

  /** The reported pair are neighbours if and only if some odd-numbered segment mismatches its left neighbour. */
  lemma ReportsNeighboursIff(proofs: seq<Proof>)
    requires proofs != [] && Aggregate(proofs).Failed? && FirstFlaw(proofs) == None
    ensures var e := Aggregate(proofs).error;
            && e.SegmentChainMismatch?
            && (e.prev + 1 == e.next <==> exists k: nat :: k % 2 == 1 && Mismatch(Leaves(proofs), k))
  {
    hide Aggregate, Gap, LowBit, FirstFlaw;
    FailureReports(proofs);
    var e := Aggregate(proofs).error;
    LowBitPositive(e.next);
    if k: nat :| k % 2 == 1 && Mismatch(Leaves(proofs), k) {
      LowBitPositive(k);
      assert TestedLater(e.next, k);
    }
  }

  // -- An input with distant reports -------------------------------------------------------------

  function Segment(entry: nat, exit: nat): Proof {
    Proof(Boundary(entry, exit, [], [], None, None, None), None)
  }

  /** Segments 1 and 2 fail to meet at 8 and 12; 0 and 2 are reported. */
  lemma DistantReport()
    ensures Aggregate([Segment(0, 4), Segment(4, 8), Segment(12, 16)]) == Failed(SegmentChainMismatch(0, 2, PC_GAP))
  {
    hide Aggregate;
    PrevNeedNotMismatch(Segment(0, 4).boundary, Segment(4, 8).boundary, Segment(12, 16).boundary);
  }
}
