// The tree fold decides exactly what the pairwise checks decide, and spans the
// whole execution.
module AggregationTheorems {
  import opened Wrappers
  import opened Aggregation
  import SparseTree

  /** Segment k continues segment k - 1. */
  ghost predicate Continues(bs: seq<Boundary>, k: int) {
    0 < k < |bs| && Gap(bs[k - 1], bs[k]) == None
  }

  ghost predicate Chained(bs: seq<Boundary>, lo: int, hi: int) {
    forall k :: lo < k < hi ==> Continues(bs, k)
  }

  function Span(bs: seq<Boundary>, lo: int, hi: int): Boundary
    requires 0 <= lo < hi <= |bs|
  {
    Join(bs[lo], bs[hi - 1])
  }

  /** First leaf of node j when every node spans `width` leaves. */
  function Start(j: int, width: nat): int {
    j * width
  }

  function End(j: int, width: nat, n: nat): int {
    if Start(j + 1, width) <= n then Start(j + 1, width) else n
  }

  /** Node j spans its leaves, all of which continue one another. */
  ghost predicate Spans(level: seq<Boundary>, bs: seq<Boundary>, width: nat, j: int) {
    && 0 <= j < |level| && 0 <= Start(j, width) < End(j, width, |bs|) <= |bs|
    && level[j] == Span(bs, Start(j, width), End(j, width, |bs|))
    && Chained(bs, Start(j, width), End(j, width, |bs|))
  }

  /** The level covers all leaves, `width` to a node. */
  ghost predicate Covers(level: seq<Boundary>, bs: seq<Boundary>, width: nat) {
    && level != [] && Start(|level| - 1, width) < |bs| <= Start(|level|, width)
    && forall j :: 0 <= j < |level| ==> Spans(level, bs, width, j)
  }

  lemma StartSteps(j: int, width: nat)
    ensures Start(j + 1, width) == Start(j, width) + width
    ensures Start(2 * j, width) == Start(j, 2 * width)
  {
  }

  lemma StartOrder(i: int, j: int, width: nat)
    requires i <= j
    ensures Start(i, width) <= Start(j, width)
  {
    assert (j - i) * width >= 0;
  }

  lemma {:induction false} SameProgram(bs: seq<Boundary>, lo: int, hi: int)
    requires 0 <= lo < hi <= |bs| && Chained(bs, lo, hi)
    ensures bs[lo].programRoot == bs[hi - 1].programRoot
    decreases hi
  {
    if hi - lo > 1 {
      SameProgram(bs, lo, hi - 1);
      assert Continues(bs, hi - 1);
    }
  }

  /** Two adjacent spans meet exactly when their touching leaves do, and fail for the same reason. */
  lemma SpansMeet(bs: seq<Boundary>, lo: int, mid: int, hi: int)
    requires 0 <= lo < mid < hi <= |bs| && Chained(bs, lo, mid) && Chained(bs, mid, hi)
    ensures Gap(Span(bs, lo, mid), Span(bs, mid, hi)) == Gap(bs[mid - 1], bs[mid])
    ensures Join(Span(bs, lo, mid), Span(bs, mid, hi)) == Span(bs, lo, hi)
    ensures Gap(bs[mid - 1], bs[mid]) == None ==> Chained(bs, lo, hi)
  {
    SameProgram(bs, lo, mid);
    SameProgram(bs, mid, hi);
    if Gap(bs[mid - 1], bs[mid]) == None {
      forall k | lo < k < hi
        ensures Continues(bs, k)
      {
      }
    }
  }

  // -- One level ---------------------------------------------------------------------------------

  /** A pair of nodes joins to a node of twice the width. */
  lemma PairSpans(level: seq<Boundary>, bs: seq<Boundary>, width: nat, i: int)
    requires Covers(level, bs, width) && 0 <= 2 * i && 2 * i + 1 < |level|
    ensures 0 < Start(2 * i + 1, width) < |bs| && width > 0
    ensures Gap(level[2 * i], level[2 * i + 1]) == Gap(bs[Start(2 * i + 1, width) - 1], bs[Start(2 * i + 1, width)])
    ensures Gap(level[2 * i], level[2 * i + 1]) == None ==>
              Spans(Padded(i, Join(level[2 * i], level[2 * i + 1])), bs, 2 * width, i)
  {
    hide Gap, Join, Start, Chained, Span;
    assert Spans(level, bs, width, 2 * i) && Spans(level, bs, width, 2 * i + 1);
    StartSteps(2 * i, width);
    StartSteps(2 * i + 1, width);
    StartSteps(i, width);
    StartSteps(i + 1, width);
    assert Start(2 * (i + 1), width) == Start(i + 1, 2 * width);
    var lo, mid, hi := Start(2 * i, width), Start(2 * i + 1, width), End(2 * i + 1, width, |bs|);
    StartOrder(2 * i + 1, |level| - 1, width);
    assert End(2 * i, width, |bs|) == mid;
    SpansMeet(bs, lo, mid, hi);
    assert End(i, 2 * width, |bs|) == hi;
  }

  /** A level whose node i is `b`. */
  function Padded(i: nat, b: Boundary): seq<Boundary> {
    seq(i + 1, _ => b)
  }

  lemma SpansAt(level: seq<Boundary>, other: seq<Boundary>, bs: seq<Boundary>, width: nat, i: int, j: int)
    requires Spans(other, bs, width, j) && 0 <= j < |level| && level[j] == other[j] && i == j
    ensures Spans(level, bs, width, i)
  {
  }

  /** An odd last node is carried up: it already spans the rest. */
  lemma OddSpans(level: seq<Boundary>, bs: seq<Boundary>, width: nat, i: int)
    requires Covers(level, bs, width) && 0 <= i && 2 * i + 1 == |level|
    ensures Spans(Padded(i, level[2 * i]), bs, 2 * width, i)
  {
    hide Gap, Join, Start, Chained, Span;
    assert Spans(level, bs, width, 2 * i);
    StartSteps(2 * i, width);
    StartSteps(2 * i + 1, width);
    StartSteps(i, width);
    StartSteps(i + 1, width);
    assert Start(2 * (i + 1), width) == Start(i + 1, 2 * width);
    assert End(2 * i, width, |bs|) == |bs|;
    assert End(i, 2 * width, |bs|) == |bs|;
  }

  /** What the pairs from `index` on give: spans of twice the width, or a real mismatch. */
  lemma {:induction false} PairUpSpans(level: seq<Boundary>, bs: seq<Boundary>, width: nat, index: nat)
    requires Covers(level, bs, width) && 2 * index <= |level|
    ensures var r := PairUp(level[2 * index..], index, width);
            && (r.Failed? ==> RealMismatch(bs, r.error))
            && (r.Passed? ==> forall j: nat :: j < |r.value| ==>
                  Spans(Padded(index + j, r.value[j]), bs, 2 * width, index + j))
    decreases |level| - 2 * index
  {
    hide Covers, Spans, Gap, Join;
    var rest := level[2 * index..];
    var r := PairUp(rest, index, width);
    if |rest| == 1 {
      OddSpans(level, bs, width, index);
    } else if |rest| >= 2 {
      PairSpans(level, bs, width, index);
      assert rest[0] == level[2 * index] && rest[1] == level[2 * index + 1];
      MismatchIs(bs, width, index, Gap(rest[0], rest[1]));
      if Gap(rest[0], rest[1]) == None {
        assert rest[2..] == level[2 * (index + 1)..];
        PairUpSpans(level, bs, width, index + 1);
        var later := PairUp(level[2 * (index + 1)..], index + 1, width);
        if r.Passed? {
          assert r.value == [Join(rest[0], rest[1])] + later.value;
          forall j: nat | j < |r.value|
            ensures Spans(Padded(index + j, r.value[j]), bs, 2 * width, index + j)
          {
            if j > 0 {
              var k: nat := j - 1;
              assert r.value[j] == later.value[k];
              assert Spans(Padded(index + 1 + k, later.value[k]), bs, 2 * width, index + 1 + k);
            }
          }
        }
      }
    }
  }

  /** The reported `next` is a segment that does not continue its left neighbour, for the reason given. */
  ghost predicate RealMismatch(bs: seq<Boundary>, e: VerificationError) {
    && e.SegmentChainMismatch? && e.prev < e.next < |bs|
    && Gap(bs[e.next - 1], bs[e.next]) == Some(e.what)
  }

  lemma MismatchIs(bs: seq<Boundary>, width: nat, index: nat, gap: Option<string>)
    requires 0 < Start(2 * index + 1, width) < |bs| && width > 0
    requires gap == Gap(bs[Start(2 * index + 1, width) - 1], bs[Start(2 * index + 1, width)])
    ensures gap.Some? ==>
              RealMismatch(bs, SegmentChainMismatch(index * 2 * width, (index * 2 + 1) * width, gap.value))
  {
    hide Gap;
    assert (index * 2 + 1) * width == index * 2 * width + width;
    assert Start(2 * index + 1, width) == (index * 2 + 1) * width;
  }

  /** A level that pairs up covers the leaves at twice the width. */
  lemma LevelCovers(level: seq<Boundary>, bs: seq<Boundary>, width: nat)
    requires Covers(level, bs, width) && |level| > 1 && PairUp(level, 0, width).Passed?
    ensures Covers(PairUp(level, 0, width).value, bs, 2 * width)
  {
    hide Spans, PairUp, Start, Covers, Padded;
    var next := PairUp(level, 0, width).value;
    PairUpHalves(level, 0, width);
    assert level[2 * 0..] == level;
    PairUpSpans(level, bs, width, 0);
    forall j: nat | j < |next|
      ensures Spans(next, bs, 2 * width, j)
    {
      assert Spans(Padded(0 + j, next[j]), bs, 2 * width, 0 + j);
      PaddedAt(j, next[j]);
      SpansAt(next, Padded(j, next[j]), bs, 2 * width, j, j);
    }
    HalfBounds(level, bs, width, |next|);
    CoversFrom(next, bs, 2 * width);
  }

  lemma PaddedAt(i: nat, b: Boundary)
    ensures |Padded(i, b)| == i + 1 && Padded(i, b)[i] == b
  {
  }

  lemma CoversFrom(next: seq<Boundary>, bs: seq<Boundary>, width: nat)
    requires next != [] && Start(|next| - 1, width) < |bs| <= Start(|next|, width)
    requires forall j: nat :: j < |next| ==> Spans(next, bs, width, j)
    ensures Covers(next, bs, width)
  {
    hide Spans, Start;
  }

  lemma HalfBounds(level: seq<Boundary>, bs: seq<Boundary>, width: nat, m: nat)
    requires Covers(level, bs, width) && m == (|level| + 1) / 2
    ensures Start(m - 1, 2 * width) < |bs| <= Start(m, 2 * width)
  {
    hide Spans, Start;
    StartSteps(m - 1, width);
    StartSteps(m, width);
    StartOrder(2 * (m - 1), |level| - 1, width);
    StartOrder(|level|, 2 * m, width);
  }

  lemma LeavesCover(bs: seq<Boundary>)
    requires bs != []
    ensures Covers(bs, bs, 1)
  {
    forall j | 0 <= j < |bs|
      ensures Spans(bs, bs, 1, j)
    {
      assert Start(j, 1) == j && Start(j + 1, 1) == j + 1;
    }
  }

  // -- The whole tree ----------------------------------------------------------------------------

  /** The fold of a covering level: the whole span, or a real mismatch. */
  lemma {:induction false} TreeSpans(level: seq<Boundary>, bs: seq<Boundary>, depth: nat)
    requires Covers(level, bs, SparseTree.Pow2(depth))
    ensures var r := FoldTree(level, depth);
            && (r.Passed? ==> bs != [] && Chained(bs, 0, |bs|) && r.value == Span(bs, 0, |bs|))
            && (r.Failed? ==> RealMismatch(bs, r.error))
    decreases |level|
  {
    hide PairUp, Gap, Join;
    var width := SparseTree.Pow2(depth);
    if |level| == 1 {
      assert Spans(level, bs, width, 0);
      assert Start(0, width) == 0 && Start(1, width) == width;
    } else {
      assert level[2 * 0..] == level;
      PairUpSpans(level, bs, width, 0);
      hide Covers, Spans;
      if PairUp(level, 0, width).Passed? {
        LevelCovers(level, bs, width);
        PairUpHalves(level, 0, width);
        TreeSpans(PairUp(level, 0, width).value, bs, depth + 1);
      }
    }
  }

  /** The fold succeeds exactly when all segments are chained pairwise, and then spans the execution. */
  lemma TreeIsPairwise(bs: seq<Boundary>)
    requires bs != []
    ensures var r := FoldTree(bs, 0);
            && (r.Passed? <==> Chained(bs, 0, |bs|))
            && (r.Passed? ==> r.value == Join(bs[0], bs[|bs| - 1]))
            && (r.Failed? ==> RealMismatch(bs, r.error))
  {
    hide FoldTree, Gap, Join, Covers;
    LeavesCover(bs);
    assert SparseTree.Pow2(0) == 1;
    TreeSpans(bs, bs, 0);
    var r := FoldTree(bs, 0);
    if r.Failed? {
      assert !Continues(bs, r.error.next);
    }
  }

  // -- Against the pairwise verifier -------------------------------------------------------------

  lemma {:induction false} FirstGapIs(proofs: seq<Proof>, i: nat)
    requires i < |proofs|
    ensures FirstGap(proofs, i) == None <==> Chained(Leaves(proofs), i, |proofs|)
    decreases |proofs| - i
  {
    hide Gap;
    var bs := Leaves(proofs);
    if i + 1 < |proofs| {
      FirstGapIs(proofs, i + 1);
      if FirstGap(proofs, i) == None {
        forall k | i < k < |proofs|
          ensures Continues(bs, k)
        {
          if k > i + 1 { assert Continues(bs, k); }
        }
      }
      assert Chained(bs, i, |proofs|) ==> Continues(bs, i + 1);
      assert Chained(bs, i, |proofs|) ==> Chained(bs, i + 1, |proofs|);
    }
  }

  /** Aggregation accepts exactly the segment lists the pairwise verifier accepts. */
  lemma AggregationIsPairwise(proofs: seq<Proof>)
    requires proofs != []
    ensures Aggregate(proofs).Passed? <==> PairwiseResult(proofs).Passed?
    ensures Aggregate(proofs).Passed? ==>
              Aggregate(proofs).value == Join(proofs[0].boundary, proofs[|proofs| - 1].boundary)
  {
    hide FoldTree, FirstFlaw, FirstGap, Join, Gap, Chained;
    TreeIsPairwise(Leaves(proofs));
    FirstGapIs(proofs, 0);
  }

  /** A reported mismatch names a real one: `next` does not continue its left neighbour. */
  lemma ReportedMismatchIsReal(proofs: seq<Proof>)
    requires proofs != [] && Aggregate(proofs).Failed? && FirstFlaw(proofs) == None
    ensures var e := Aggregate(proofs).error;
            && e.SegmentChainMismatch? && e.prev < e.next < |proofs|
            && Gap(proofs[e.next - 1].boundary, proofs[e.next].boundary) == Some(e.what)
  {
    hide FoldTree, FirstFlaw, Join, Gap, Chained;
    TreeIsPairwise(Leaves(proofs));
  }

  /** The reported `prev` is where the left span starts, not always the neighbour: here segments 1 and 2
      fail to meet and 0 and 2 are reported. */
  lemma PrevNeedNotMismatch(a: Boundary, b: Boundary, c: Boundary)
    requires Gap(a, b) == None && Gap(b, c) == Some(PC_GAP)
    ensures Aggregate([Proof(a, None), Proof(b, None), Proof(c, None)]) == Failed(SegmentChainMismatch(0, 2, PC_GAP))
  {
    var proofs := [Proof(a, None), Proof(b, None), Proof(c, None)];
    assert proofs[1..][1..] == [proofs[2]] && proofs[2..][1..] == [];
    assert FirstFlaw([proofs[2]]) == None;
    assert FirstFlaw(proofs[1..]) == None;
    assert FirstFlaw(proofs) == None;
    var level := Leaves(proofs);
    assert level[2..] == [c];
    assert level[0] == a && level[1] == b && PairUp(level[2..], 1, 1) == Passed([c]);
    assert [Join(a, b)] + [c] == [Join(a, b), c];
    assert SparseTree.Pow2(0) == 1 && SparseTree.Pow2(1) == 2;
    assert PairUp(level, 0, 1) == Passed([Join(a, b), c]);
    assert Gap(Join(a, b), c) == Some(PC_GAP);
    assert PairUp([Join(a, b), c], 0, 2) == Failed(SegmentChainMismatch(0, 2, PC_GAP));
    assert FoldTree([Join(a, b), c], 1) == Failed(SegmentChainMismatch(0, 2, PC_GAP));
    assert FoldTree(level, 0) == Failed(SegmentChainMismatch(0, 2, PC_GAP));
  }
}
