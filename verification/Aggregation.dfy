// Folding segment boundaries up a 2-to-1 tree, against the pairwise checks of
// adjacent segments.
module Aggregation {
  import opened Wrappers
  import SparseTree

  /** The execution boundary a segment proof or an aggregate exposes. */
  datatype Boundary = Boundary(
    entryPc: nat, exitPc: nat, entryRegs: seq<nat>, exitRegs: seq<nat>,
    entryRwRoot: Option<int>, exitRwRoot: Option<int>, programRoot: Option<int>)

  /** A segment proof: what it exposes, and why its own verification fails, if it does. */
  datatype Proof = Proof(boundary: Boundary, flaw: Option<string>)

  datatype VerificationError = SegmentChainMismatch(prev: nat, next: nat, what: string) | ProofRejected(reason: string)
  datatype Outcome<+T> = Passed(value: T) | Failed(error: VerificationError)

  const PC_GAP := "exit_pc != entry_pc"
  const REGS_GAP := "exit_regs != entry_regs"
  const ROOT_GAP := "exit_rw_root != entry_rw_root"
  const PROGRAM_DIFFERS := "program_root differs"

  /** The first field at which two boundaries fail to meet. */
  function Gap(left: Boundary, right: Boundary): Option<string> {
    if left.exitPc != right.entryPc then Some(PC_GAP)
    else if left.exitRegs != right.entryRegs then Some(REGS_GAP)
    else if left.exitRwRoot != right.entryRwRoot then Some(ROOT_GAP)
    else if left.programRoot != right.programRoot then Some(PROGRAM_DIFFERS)
    else None
  }

  /** From the left entry to the right exit. */
  function Join(left: Boundary, right: Boundary): Boundary {
    Boundary(left.entryPc, right.exitPc, left.entryRegs, right.exitRegs,
             left.entryRwRoot, right.exitRwRoot, left.programRoot)
  }

  method Chain(left: Boundary, right: Boundary) returns (r: Result<Boundary>)
    ensures r == match Gap(left, right) case Some(what) => Err(what) case None => Ok(Join(left, right))
  {
    if left.exitPc != right.entryPc { return Err(PC_GAP); }
    if left.exitRegs != right.entryRegs { return Err(REGS_GAP); }
    if left.exitRwRoot != right.entryRwRoot { return Err(ROOT_GAP); }
    if left.programRoot != right.programRoot { return Err(PROGRAM_DIFFERS); }
    return Ok(Join(left, right));
  }

  // -- One level, and the tree -------------------------------------------------------------------

  /** Chain adjacent nodes; an odd node is carried up. `index` counts the pairs before. */
  function PairUp(level: seq<Boundary>, index: nat, width: nat): Outcome<seq<Boundary>>
    decreases |level|
  {
    if level == [] then Passed([])
    else if |level| == 1 then Passed([level[0]])
    else
      match Gap(level[0], level[1])
      case Some(what) => Failed(SegmentChainMismatch(index * 2 * width, (index * 2 + 1) * width, what))
      case None =>
        match PairUp(level[2..], index + 1, width)
        case Failed(e) => Failed(e)
        case Passed(next) => Passed([Join(level[0], level[1])] + next)
  }

  lemma {:induction false} PairUpHalves(level: seq<Boundary>, index: nat, width: nat)
    requires PairUp(level, index, width).Passed?
    ensures |PairUp(level, index, width).value| == (|level| + 1) / 2
    decreases |level|
  {
    if |level| >= 2 { PairUpHalves(level[2..], index + 1, width); }
  }

  ghost function FoldTree(level: seq<Boundary>, depth: nat): Outcome<Boundary>
    requires level != []
    decreases |level|
  {
    if |level| == 1 then Passed(level[0])
    else
      match PairUp(level, 0, SparseTree.Pow2(depth))
      case Failed(e) => Failed(e)
      case Passed(next) =>
        PairUpHalves(level, 0, SparseTree.Pow2(depth));
        FoldTree(next, depth + 1)
  }

  /** The first proof that fails on its own. */
  function FirstFlaw(proofs: seq<Proof>): Option<string> {
    if proofs == [] then None
    else if proofs[0].flaw.Some? then proofs[0].flaw
    else FirstFlaw(proofs[1..])
  }

  function Leaves(proofs: seq<Proof>): (bs: seq<Boundary>)
    ensures |bs| == |proofs|
  {
    seq(|proofs|, i requires 0 <= i < |proofs| => proofs[i].boundary)
  }

  ghost function Aggregate(proofs: seq<Proof>): Outcome<Boundary>
    requires proofs != []
  {
    match FirstFlaw(proofs)
    case Some(reason) => Failed(ProofRejected(reason))
    case None => FoldTree(Leaves(proofs), 0)
  }

  method CheckProofs(proofs: seq<Proof>) returns (flaw: Option<string>)
    ensures flaw == FirstFlaw(proofs)
  {
    var i := 0;
    assert proofs[0..] == proofs;
    while i < |proofs|
      invariant i <= |proofs| && FirstFlaw(proofs) == FirstFlaw(proofs[i..])
    {
      assert proofs[i..][1..] == proofs[i + 1..];
      if proofs[i].flaw.Some? { return proofs[i].flaw; }
      i := i + 1;
    }
    return None;
  }

  /** The levels' results, joined to the pairs already chained. */
  function After(chained: seq<Boundary>, rest: Outcome<seq<Boundary>>): Outcome<seq<Boundary>> {
    match rest
    case Failed(e) => Failed(e)
    case Passed(next) => Passed(chained + next)
  }

  method ChainLevel(level: seq<Boundary>, width: nat) returns (r: Outcome<seq<Boundary>>)
    ensures r == PairUp(level, 0, width)
  {
    var next, index := [], 0;
    assert level[0..] == level;
    AfterNothing(PairUp(level, 0, width));
    while 2 * index < |level|
      invariant 2 * index <= |level| + 1
      invariant 2 * index <= |level| ==> PairUp(level, 0, width) == After(next, PairUp(level[2 * index..], index, width))
      invariant 2 * index > |level| ==> PairUp(level, 0, width) == Passed(next)
      decreases |level| + 1 - 2 * index
    {
      ghost var rest := level[2 * index..];
      if 2 * index + 1 < |level| {
        var node := Chain(level[2 * index], level[2 * index + 1]);
        if node.Err? { return Failed(SegmentChainMismatch(index * 2 * width, (index * 2 + 1) * width, node.message)); }
        assert rest[2..] == level[2 * (index + 1)..];
        AfterPush(next, node.value, PairUp(rest[2..], index + 1, width));
        next := next + [node.value];
      } else {
        next := next + [level[2 * index]];
      }
      index := index + 1;
    }
    if 2 * index == |level| { assert next + [] == next; }
    return Passed(next);
  }

  lemma AfterNothing(r: Outcome<seq<Boundary>>)
    ensures After([], r) == r
  {
    if r.Passed? { assert [] + r.value == r.value; }
  }

  lemma AfterPush(chained: seq<Boundary>, b: Boundary, rest: Outcome<seq<Boundary>>)
    ensures After(chained, After([b], rest)) == After(chained + [b], rest)
  {
    if rest.Passed? { assert chained + ([b] + rest.value) == chained + [b] + rest.value; }
  }

  /** Verify every proof, then fold the boundaries up the tree. */
  method AggregateSegments(proofs: seq<Proof>) returns (r: Outcome<Boundary>)
    requires proofs != []
    ensures r == Aggregate(proofs)
  {
    hide PairUp, FirstFlaw;
    var level := Leaves(proofs);
    var flaw := CheckProofs(proofs);
    if flaw.Some? { return Failed(ProofRejected(flaw.value)); }
    var depth: nat := 0;
    while |level| > 1
      invariant level != [] && FoldTree(Leaves(proofs), 0) == FoldTree(level, depth)
      decreases |level|
    {
      var next := ChainLevel(level, SparseTree.Pow2(depth));
      if next.Failed? { return Failed(next.error); }
      PairUpHalves(level, 0, SparseTree.Pow2(depth));
      level := next.value;
      depth := depth + 1;
    }
    return Passed(level[0]);
  }

  // -- Pairwise checks -------------------------------------------------------------------------

  const FINAL_PC := "final_pc != initial_pc"
  const FINAL_REGS := "final_regs != initial_regs"
  const FINAL_ROOT := "final_rw_root != initial_rw_root"

  /** The pairwise checks test the same fields in the same order, with their own wording. */
  function PairMessage(what: string): string {
    if what == PC_GAP then FINAL_PC else if what == REGS_GAP then FINAL_REGS else if what == ROOT_GAP then FINAL_ROOT
    else PROGRAM_DIFFERS
  }

  /** The first segment that does not continue its predecessor. */
  function FirstGap(proofs: seq<Proof>, i: nat): Option<(nat, string)>
    decreases |proofs| - i
  {
    if i + 1 >= |proofs| then None
    else
      match Gap(proofs[i].boundary, proofs[i + 1].boundary)
      case Some(what) => Some((i, what))
      case None => FirstGap(proofs, i + 1)
  }

  function PairwiseResult(proofs: seq<Proof>): Outcome<()> {
    match FirstGap(proofs, 0)
    case Some(at) => Failed(SegmentChainMismatch(at.0, at.0 + 1, PairMessage(at.1)))
    case None => match FirstFlaw(proofs) case Some(reason) => Failed(ProofRejected(reason)) case None => Passed(())
  }

  /** Check adjacent boundaries, then every proof. */
  method VerifySegments(proofs: seq<Proof>) returns (r: Outcome<()>)
    ensures r == PairwiseResult(proofs)
  {
    hide FirstFlaw;
    DistinctMessages();
    var index := 0;
    while index + 1 < |proofs|
      invariant index <= |proofs| && FirstGap(proofs, 0) == FirstGap(proofs, index)
    {
      var (prev, next) := (proofs[index].boundary, proofs[index + 1].boundary);
      if prev.exitPc != next.entryPc { return Failed(SegmentChainMismatch(index, index + 1, FINAL_PC)); }
      if prev.exitRegs != next.entryRegs { return Failed(SegmentChainMismatch(index, index + 1, FINAL_REGS)); }
      if prev.exitRwRoot != next.entryRwRoot { return Failed(SegmentChainMismatch(index, index + 1, FINAL_ROOT)); }
      if prev.programRoot != next.programRoot { return Failed(SegmentChainMismatch(index, index + 1, PROGRAM_DIFFERS)); }
      index := index + 1;
    }
    var flaw := CheckProofs(proofs);
    return if flaw.Some? then Failed(ProofRejected(flaw.value)) else Passed(());
  }

  lemma DistinctMessages()
    ensures PC_GAP != REGS_GAP && PC_GAP != ROOT_GAP && PC_GAP != PROGRAM_DIFFERS
    ensures REGS_GAP != ROOT_GAP && REGS_GAP != PROGRAM_DIFFERS && ROOT_GAP != PROGRAM_DIFFERS
  {
    assert PC_GAP[5] == 'p' && REGS_GAP[5] == 'r' && REGS_GAP[6] == 'e' && ROOT_GAP[5] == 'r' && ROOT_GAP[6] == 'w';
    assert PROGRAM_DIFFERS[0] == 'p' && PC_GAP[0] == 'e' && REGS_GAP[0] == 'e' && ROOT_GAP[0] == 'e';
  }
}
