// The rows of slt/sltu, blt/bltu/bge/bgeu and beq/bne: what an accepted row says
// about the operands, and the rows the runner pushes.
module BranchSteps {
  import opened M31
  import opened RowFacts
  import opened CompareRows
  import opened BranchRows
  import Fermat

  // -- slt, sltu ---------------------------------------------------------------------------------

  datatype LtOp = Slt | Sltu

  datatype LtRow = LtRow(scan: Scan, sltFlag: Felt, sltuFlag: Felt) {
    predicate Accepted() {
      scan.Accepted() && scan.signed == sltFlag
    }

    predicate Operands(op: LtOp) {
      scan.a.Bytes() && scan.b.Bytes() && sltFlag == Flag(op == Slt) && sltuFlag == Flag(op == Sltu)
    }

    /** The word written to rd. */
    function Written(): Word {
      Word(scan.less, 0, 0, 0)
    }
  }

  /** An accepted row writes one when rs1 is less than rs2, signed or unsigned, and zero otherwise. */
  lemma LtRowSound(r: LtRow, op: LtOp)
    requires r.Operands(op) && r.Accepted()
    ensures r.Written().Value() == if Read(r.scan.a.Value(), op == Slt) < Read(r.scan.b.Value(), op == Slt) then 1 else 0
  {
    hide Scan.Accepted, Read;
    ScanSound(r.scan, op == Slt);
  }

  // -- blt, bltu, bge, bgeu ----------------------------------------------------------------------

  datatype BranchOp = Blt | Bltu | Bge | Bgeu

  function IsSignedOp(op: BranchOp): bool {
    op == Blt || op == Bge
  }

  /** Whether the instruction branches. */
  predicate Taken(op: BranchOp, x: int, y: int) {
    match op
    case Blt => Signed(x) < Signed(y)
    case Bltu => x < y
    case Bge => Signed(x) >= Signed(y)
    case Bgeu => x >= y
  }

  datatype BranchLtRow = BranchLtRow(
    scan: Scan, cmpResult: Felt, pc: Felt, imm: Felt, target: Felt,
    bltFlag: Felt, bltuFlag: Felt, bgeFlag: Felt, bgeuFlag: Felt)
  {
    predicate Accepted() {
      && scan.Passes() && scan.signed == Reduce(bltFlag + bgeFlag)
      && Vanishes(cmpResult * (1 - cmpResult))
      && Vanishes(target - (pc + imm * cmpResult + 4 * (1 - cmpResult)))
      && Vanishes(scan.less - (cmpResult * (bltFlag + bltuFlag) + (1 - cmpResult) * (bgeFlag + bgeuFlag)))
    }

    predicate Operands(op: BranchOp) {
      && scan.a.Bytes() && scan.b.Bytes()
      && bltFlag == Flag(op == Blt) && bltuFlag == Flag(op == Bltu)
      && bgeFlag == Flag(op == Bge) && bgeuFlag == Flag(op == Bgeu)
    }
  }

  /** The result column carries the branch decision, and the target follows it. */
  lemma BranchLtRowSound(r: BranchLtRow, op: BranchOp)
    requires r.Operands(op) && r.Accepted()
    ensures var taken := Taken(op, r.scan.a.Value(), r.scan.b.Value());
            r.cmpResult == Flag(taken) && r.target == Reduce(r.pc + (if taken then r.imm else 4))
  {
    hide Vanishes, Scan.Accepted, Scan.Passes, Word.Value, Read, Taken;
    BitColumn(r.cmpResult);
    assert r.scan.signed == Flag(IsSignedOp(op));
    SelectResult(r, op);
    ResultBit(r.scan);
    TargetIs(r.target, r.pc, r.imm, r.cmpResult);
    hide Reduce, BranchLtRow.Accepted;
    ScanSound(r.scan, IsSignedOp(op));
    TakenIs(op, r.scan.a.Value(), r.scan.b.Value());
  }

  /** The table does not constrain the scan's result to a bit; the selection does. */
  lemma ResultBit(scan: Scan)
    requires scan.less == 0 || scan.less == 1
    ensures scan.Passes() <==> scan.Accepted()
  {
    hide Scan.MarkerBits, Scan.Tops, Scan.Scans;
    assert scan.less * (1 - scan.less) == 0;
  }

  lemma SelectResult(r: BranchLtRow, op: BranchOp)
    requires r.Operands(op) && (r.cmpResult == 0 || r.cmpResult == 1)
    requires Vanishes(r.scan.less - (r.cmpResult * (r.bltFlag + r.bltuFlag) + (1 - r.cmpResult) * (r.bgeFlag + r.bgeuFlag)))
    ensures r.scan.less == if op == Blt || op == Bltu then r.cmpResult else 1 - r.cmpResult
  {
  }

  lemma TargetIs(target: Felt, pc: Felt, imm: Felt, cmp: Felt)
    requires (cmp == 0 || cmp == 1) && Vanishes(target - (pc + imm * cmp + 4 * (1 - cmp)))
    ensures target == Reduce(pc + (if cmp == 1 then imm else 4))
  {
    if cmp == 1 {
      assert pc + imm * cmp + 4 * (1 - cmp) == pc + imm;
    } else {
      assert pc + imm * cmp + 4 * (1 - cmp) == pc + 4;
    }
  }

  // -- Where the machine goes --------------------------------------------------------------------

  type Address = x: int | 0 <= x < TWO_32

  type Immediate = x: int | -0x8000_0000 <= x < 0x8000_0000

  /** What is added to the program counter. */
  function Offset(taken: bool, imm: Immediate): Immediate {
    if taken then imm else 4
  }

  /** The machine's next program counter, a wrapping addition. */
  function NextPc(pc: Address, step: Immediate): Address {
    (pc + step) % TWO_32
  }

  /** The field follows the machine exactly when the addition does not wrap: 2^32 is 2 in the field. */
  lemma TargetIsAddress(pc: Address, step: Immediate)
    ensures Reduce(NextPc(pc, step)) == Reduce(Reduce(pc) + Reduce(step)) <==> 0 <= pc + step < TWO_32
  {
    var x := pc + step;
    ReducedSum(pc, step);
    if x < 0 {
      assert NextPc(pc, step) == x + TWO_32;
      Congruent(P, x + TWO_32, x);
    } else if x >= TWO_32 {
      assert NextPc(pc, step) == x - TWO_32;
      Congruent(P, x - TWO_32, x);
    }
  }

  lemma ReducedSum(x: int, y: int)
    ensures Reduce(Reduce(x) + Reduce(y)) == Reduce(x + y)
  {
    AddMod(x, Reduce(y), P);
    AddMod(y, x, P);
    assert x + Reduce(y) == Reduce(y) + x && x + y == y + x;
  }

  /** The target column holds the machine's next program counter: the row is accepted exactly when that
      address did not wrap. */
  lemma BranchLtHoldsIff(r: BranchLtRow, op: BranchOp, pc: Address, imm: Immediate)
    requires r.Operands(op) && r.scan.Accepted() && r.scan.signed == Flag(IsSignedOp(op)) && r.scan.less <= 1
    requires r.cmpResult == (if op == Blt || op == Bltu then r.scan.less else 1 - r.scan.less)
    requires r.pc == Reduce(pc) && r.imm == Reduce(imm)
    requires r.target == Reduce(NextPc(pc, Offset(r.cmpResult == 1, imm)))
    ensures r.Accepted() <==> 0 <= pc + Offset(r.cmpResult == 1, imm) < TWO_32
  {
    var step := Offset(r.cmpResult == 1, imm);
    TargetIsAddress(pc, step);
    ResultBit(r.scan);
    SelectionHolds(r, op);
    hide Scan.Accepted, Scan.Passes, NextPc, Vanishes, Reduce;
    assert r.pc + r.imm * r.cmpResult + 4 * (1 - r.cmpResult) == r.pc + Reduce(step) by { OffsetColumn(r.cmpResult, imm); }
    TargetVanishes(r.target, r.pc + Reduce(step));
  }

  lemma SelectionHolds(r: BranchLtRow, op: BranchOp)
    requires r.Operands(op) && r.scan.less <= 1 && r.cmpResult == (if op == Blt || op == Bltu then r.scan.less else 1 - r.scan.less)
    ensures Vanishes(r.cmpResult * (1 - r.cmpResult)) && Reduce(r.bltFlag + r.bgeFlag) == Flag(IsSignedOp(op))
    ensures Vanishes(r.scan.less - (r.cmpResult * (r.bltFlag + r.bltuFlag) + (1 - r.cmpResult) * (r.bgeFlag + r.bgeuFlag)))
  {
    assert r.cmpResult * (1 - r.cmpResult) == 0;
  }

  lemma OffsetColumn(cmp: Felt, imm: Immediate)
    requires cmp <= 1
    ensures Reduce(imm) * cmp + 4 * (1 - cmp) == Reduce(Offset(cmp == 1, imm))
  {
  }

  lemma TargetVanishes(target: Felt, x: int)
    ensures Vanishes(target - x) <==> target == Reduce(x)
  {
    Congruent(P, target, x);
  }

  /** The row the runner pushes for a less-than branch, and its next program counter. */
  method PushBranchLt(op: BranchOp, a: Word, b: Word, pc: Address, imm: Immediate) returns (r: BranchLtRow, next: Address)
    requires a.Bytes() && b.Bytes()
    ensures r.Operands(op) && r.scan.a == a && r.scan.b == b && r.pc == Reduce(pc) && r.imm == Reduce(imm)
    ensures next == NextPc(pc, Offset(Taken(op, a.Value(), b.Value()), imm)) && r.target == Reduce(next)
    ensures r.Accepted() <==> 0 <= pc + Offset(Taken(op, a.Value(), b.Value()), imm) < TWO_32
  {
    hide Scan.Accepted, Read, Word.Value, NextPc;
    var w := ComputeLtRegWitness(a, b, IsSignedOp(op));
    var cmpResult := if op == Blt || op == Bltu then w.less else 1 - w.less;
    ScanSound(w, IsSignedOp(op));
    TakenIs(op, a.Value(), b.Value());
    next := NextPc(pc, Offset(cmpResult == 1, imm));
    r := BranchLtRow(w, cmpResult, Reduce(pc), Reduce(imm), Reduce(next),
                     Flag(op == Blt), Flag(op == Bltu), Flag(op == Bge), Flag(op == Bgeu));
    BranchLtHoldsIff(r, op, pc, imm);
  }

  lemma TakenIs(op: BranchOp, x: int, y: int)
    ensures Taken(op, x, y) <==> ((Read(x, IsSignedOp(op)) < Read(y, IsSignedOp(op))) <==> op == Blt || op == Bltu)
  {
  }

  /** A backward branch over address zero: the machine goes to 2^32 - 4, and no row is accepted. */
  lemma WrappedBranchRejected(r: BranchLtRow, op: BranchOp)
    requires r.Operands(op) && r.pc == Reduce(0) && r.imm == Reduce(-4)
    requires Taken(op, r.scan.a.Value(), r.scan.b.Value()) && r.target == Reduce(NextPc(0, -4))
    ensures !r.Accepted()
  {
    hide Scan.Passes, Word.Value;
    if r.Accepted() {
      BranchLtRowSound(r, op);
      TargetIsAddress(0, -4);
      assert false;
    }
  }

  // -- beq, bne ----------------------------------------------------------------------------------

  datatype EqOp = Beq | Bne

  predicate Branches(op: EqOp, x: int, y: int) {
    if op == Beq then x == y else x != y
  }

  datatype BranchEqRow = BranchEqRow(
    a: Word, b: Word, cmpResult: Felt, inv: Word, pc: Felt, imm: Felt, beqFlag: Felt, bneFlag: Felt)
  {
    function MustEqual(): int { cmpResult * beqFlag + (1 - cmpResult) * bneFlag }

    function InverseSum(): int {
      MustEqual() + (a.l0 - b.l0) * inv.l0 + (a.l1 - b.l1) * inv.l1 + (a.l2 - b.l2) * inv.l2 + (a.l3 - b.l3) * inv.l3
    }

    predicate Accepted() {
      && Vanishes(cmpResult * (1 - cmpResult))
      && Vanishes(MustEqual() * (a.l0 - b.l0)) && Vanishes(MustEqual() * (a.l1 - b.l1))
      && Vanishes(MustEqual() * (a.l2 - b.l2)) && Vanishes(MustEqual() * (a.l3 - b.l3))
      && Vanishes(1 - InverseSum())
    }

    predicate Operands(op: EqOp) {
      a.Bytes() && b.Bytes() && beqFlag == Flag(op == Beq) && bneFlag == Flag(op == Bne)
    }

    /** to_pc, which the row emits. */
    function Target(): Felt { Reduce(pc + imm * cmpResult + 4 * (1 - cmpResult)) }
  }

  lemma EqualLimb(must: int, x: int, y: int)
    requires must == 1 && Vanishes(must * (x - y)) && 0 <= x < 256 && 0 <= y < 256
    ensures x == y
  {
    SmallMultiple(x - y);
  }

  lemma EqualWords(r: BranchEqRow)
    requires r.a.Bytes() && r.b.Bytes() && r.Accepted() && r.MustEqual() == 1
    ensures r.a == r.b
  {
    hide Vanishes, BranchEqRow.MustEqual, BranchEqRow.InverseSum;
    EqualLimb(r.MustEqual(), r.a.l0, r.b.l0);
    EqualLimb(r.MustEqual(), r.a.l1, r.b.l1);
    EqualLimb(r.MustEqual(), r.a.l2, r.b.l2);
    EqualLimb(r.MustEqual(), r.a.l3, r.b.l3);
  }

  lemma DifferentWords(r: BranchEqRow)
    requires r.Accepted() && r.MustEqual() == 0
    ensures r.a != r.b
  {
    if r.a == r.b {
      NothingMarked(r);
      assert false;
    }
  }

  lemma NothingMarked(r: BranchEqRow)
    requires r.a == r.b
    ensures r.InverseSum() == r.MustEqual()
  {
  }

  lemma MustEqualIs(r: BranchEqRow, op: EqOp)
    requires r.Operands(op) && (r.cmpResult == 0 || r.cmpResult == 1)
    ensures r.MustEqual() == if op == Beq then r.cmpResult else 1 - r.cmpResult
  {
  }

  /** An accepted row's result column carries the decision of beq or bne, and its target follows it. */
  lemma BranchEqRowSound(r: BranchEqRow, op: EqOp)
    requires r.Operands(op) && r.Accepted()
    ensures var taken := Branches(op, r.a.Value(), r.b.Value());
            r.cmpResult == Flag(taken) && r.Target() == Reduce(r.pc + (if taken then r.imm else 4))
  {
    BitColumn(r.cmpResult);
    MustEqualIs(r, op);
    if r.cmpResult == 1 {
      assert r.pc + r.imm * r.cmpResult + 4 * (1 - r.cmpResult) == r.pc + r.imm;
    } else {
      assert r.pc + r.imm * r.cmpResult + 4 * (1 - r.cmpResult) == r.pc + 4;
    }
    if r.MustEqual() == 1 { EqualWords(r); } else { DifferentWords(r); }
    hide Vanishes, BranchEqRow.Accepted, Word.Value;
    if r.a.Value() == r.b.Value() { WordInjective(r.a, r.b); }
  }

  // -- The runner's row for beq and bne ----------------------------------------------------------

  /** One marker, at limb i. */
  function MarkedWith(i: int, y: Felt): Word {
    Word(if i == 0 then y else 0, if i == 1 then y else 0, if i == 2 then y else 0, if i == 3 then y else 0)
  }

  /** Limb `at` is the first at which the words differ, and is marked with the inverse of its difference. */
  ghost predicate MarksFirst(a: Word, b: Word, marker: Word, at: int, y: Felt) {
    && 0 <= at < 4 && marker == MarkedWith(at, y)
    && (forall k :: 0 <= k < at ==> Limb(a, a.l3, k) == Limb(b, b.l3, k))
    && Vanishes((Limb(a, a.l3, at) - Limb(b, b.l3, at)) * y - 1)
  }

  /** compute_branch_eq_witness: the inverse of the first limb difference, zeros elsewhere. */
  method ComputeBranchEqWitness(a: Word, b: Word) returns (marker: Word)
    requires a.Bytes() && b.Bytes()
    ensures a == b ==> marker == Word(0, 0, 0, 0)
    ensures a != b ==> exists at, y :: MarksFirst(a, b, marker, at, y)
  {
    hide Vanishes;
    var markers: seq<Felt> := [0, 0, 0, 0];
    ghost var at := -1;
    var i := 0;
    while i < 4
      invariant i <= 4 && markers == [0, 0, 0, 0] && at == -1
      invariant forall k :: 0 <= k < i ==> Limb(a, a.l3, k) == Limb(b, b.l3, k)
    {
      var x: int, y: int := Limb(a, a.l3, i), Limb(b, b.l3, i);
      if x != y {
        var diff: Felt := if x > y then x - y else P - (y - x);
        var inverse := Fermat.M31Inverse(diff);
        markers := markers[i := inverse];
        InverseOfDifference(x, y, diff, inverse);
        at := i;
        break;
      }
      i := i + 1;
    }
    marker := Word(markers[0], markers[1], markers[2], markers[3]);
    if at >= 0 {
      assert MarksFirst(a, b, marker, at, markers[at]);
    } else {
      SameLimbs(a, b);
    }
  }

  lemma SameLimbs(a: Word, b: Word)
    requires forall k :: 0 <= k < 4 ==> Limb(a, a.l3, k) == Limb(b, b.l3, k)
    ensures a == b
  {
    assert Limb(a, a.l3, 0) == Limb(b, b.l3, 0) && Limb(a, a.l3, 1) == Limb(b, b.l3, 1);
    assert Limb(a, a.l3, 2) == Limb(b, b.l3, 2) && Limb(a, a.l3, 3) == Limb(b, b.l3, 3);
  }

  lemma InverseOfDifference(x: int, y: int, diff: Felt, z: Felt)
    requires 0 <= x < 256 && 0 <= y < 256 && x != y && diff == (if x > y then x - y else P - (y - x))
    requires Vanishes(diff * z - 1)
    ensures Vanishes((x - y) * z - 1)
  {
    if x < y {
      assert diff * z - 1 == (x - y) * z - 1 + P * z;
      DropMultiple((x - y) * z - 1, z);
    }
  }

  lemma DropMultiple(x: int, q: int)
    requires Vanishes(x + P * q)
    ensures Vanishes(x)
  {
  }

  /** The row the runner pushes for beq or bne, and its next program counter: the row is accepted, and
      the target it emits is that address exactly when the addition did not wrap. */
  method PushBranchEq(op: EqOp, a: Word, b: Word, pc: Address, imm: Immediate) returns (r: BranchEqRow, next: Address)
    requires a.Bytes() && b.Bytes()
    ensures r.Operands(op) && r.Accepted() && r.a == a && r.b == b && r.pc == Reduce(pc) && r.imm == Reduce(imm)
    ensures next == NextPc(pc, Offset(Branches(op, a.Value(), b.Value()), imm))
    ensures r.Target() == Reduce(next) <==> 0 <= pc + Offset(Branches(op, a.Value(), b.Value()), imm) < TWO_32
  {
    hide Vanishes, BranchEqRow.Accepted, MarkedWith, NextPc, Word.Value;
    var marker := ComputeBranchEqWitness(a, b);
    var taken := if op == Beq then a == b else a != b;
    r := BranchEqRow(a, b, Flag(taken), marker, Reduce(pc), Reduce(imm), Flag(op == Beq), Flag(op == Bne));
    next := NextPc(pc, Offset(taken, imm));
    if a.Value() == b.Value() { WordInjective(a, b); }
    OffsetColumn(r.cmpResult, imm);
    TargetIsAddress(pc, Offset(taken, imm));
    MustEqualIs(r, op);
    if a == b {
      EqualHolds(r);
    } else {
      ghost var at, y :| MarksFirst(a, b, marker, at, y);
      DifferentHolds(r, at, y);
    }
  }

  lemma EqualHolds(r: BranchEqRow)
    requires r.a == r.b && r.MustEqual() == 1 && (r.cmpResult == 0 || r.cmpResult == 1)
    ensures r.Accepted()
  {
    hide BranchEqRow.MustEqual;
    assert r.InverseSum() == 1;
    assert r.MustEqual() * (r.a.l0 - r.b.l0) == 0 && r.MustEqual() * (r.a.l1 - r.b.l1) == 0;
    assert r.MustEqual() * (r.a.l2 - r.b.l2) == 0 && r.MustEqual() * (r.a.l3 - r.b.l3) == 0;
  }

  lemma DifferentHolds(r: BranchEqRow, at: int, y: Felt)
    requires 0 <= at < 4 && r.MustEqual() == 0 && (r.cmpResult == 0 || r.cmpResult == 1)
    requires r.inv == MarkedWith(at, y) && Vanishes((Limb(r.a, r.a.l3, at) - Limb(r.b, r.b.l3, at)) * y - 1)
    ensures r.Accepted()
  {
    var d := (Limb(r.a, r.a.l3, at) - Limb(r.b, r.b.l3, at)) * y;
    assert r.InverseSum() == d by { hide Vanishes, BranchEqRow.MustEqual; }
    Negated(d);
  }

  lemma Negated(d: int)
    requires Vanishes(d - 1)
    ensures Vanishes(1 - d)
  {
  }
}
