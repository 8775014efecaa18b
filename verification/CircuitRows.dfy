// A recorded circuit and the rows that implement it: expression nodes over QM31,
// the three row tables with their constraints, and the op_def and wire entries
// that tie rows together.
module CircuitRows {
  import opened M31
  import opened FeltSemantics
  import opened Qm31Field
  import RowFacts
  import Mersenne

  // -- Recorded circuits ----------------------------------------------------------------

  datatype Op =
    | Input
    | Const
    | Add(a: nat, b: nat)
    | Sub(a: nat, b: nat)
    | Mul(a: nat, b: nat)
    | Neg(a: nat)
    | Inverse(a: nat)

  datatype Node = Node(op: Op, value: Qm31)

  type Arena = seq<Node>

  /** Operands in order. */
  function Operands(op: Op): seq<nat> {
    match op
    case Input => []
    case Const => []
    case Add(a, b) => [a, b]
    case Sub(a, b) => [a, b]
    case Mul(a, b) => [a, b]
    case Neg(a) => [a]
    case Inverse(a) => [a]
  }

  predicate Arithmetic(op: Op) {
    !op.Input? && !op.Const?
  }

  predicate Below(op: Op, id: nat) {
    match op
    case Input => true
    case Const => true
    case Add(a, b) => a < id && b < id
    case Sub(a, b) => a < id && b < id
    case Mul(a, b) => a < id && b < id
    case Neg(a) => a < id
    case Inverse(a) => a < id
  }

  /** Operands come earlier. */
  ghost predicate Ordered(arena: Arena) {
    forall id :: 0 <= id < |arena| ==> Below(arena[id].op, id)
  }

  /** The node's value is its operation on its operands' values. */
  ghost predicate Computed(arena: Arena, id: nat)
    requires id < |arena| && Below(arena[id].op, id)
  {
    var v := arena[id].value;
    match arena[id].op
    case Input => true
    case Const => true
    case Add(a, b) => v == QAdd(arena[a].value, arena[b].value)
    case Sub(a, b) => v == QSub(arena[a].value, arena[b].value)
    case Mul(a, b) => v == QMul(arena[a].value, arena[b].value)
    case Neg(a) => v == QNeg(arena[a].value)
    case Inverse(a) => QMul(arena[a].value, v) == ONE
  }

  ghost predicate WellFormed(arena: Arena) {
    Ordered(arena) && forall id :: 0 <= id < |arena| ==> Computed(arena, id)
  }

  // -- Rows --------------------------------------------------------------------------------

  datatype Row =
    | MulRow(a: Qm31, b: Qm31, c: Qm31, circuitId: Felt, nodeId: Felt, lhsId: Felt, rhsId: Felt, uses: Felt,
             inCircuit: Felt, enabler: Felt)
    | InvRow(a: Qm31, inv: Qm31, circuitId: Felt, nodeId: Felt, lhsId: Felt, uses: Felt, inCircuit: Felt, enabler: Felt)
    | LinearRow(circuitId: Felt, nodeId: Felt, isAdd: Felt, isSub: Felt, isNeg: Felt, lhsId: Felt, rhsId: Felt,
                lhs: Qm31, rhs: Qm31, out: Qm31, uses: Felt, enabler: Felt)

  ghost predicate Bit(x: Felt) {
    RowFacts.Vanishes(x * (1 - x))
  }

  /** One limb of a linear row. */
  ghost predicate LinearLimb(row: Row, l: Felt, r: Felt, o: Felt)
    requires row.LinearRow?
  {
    RowFacts.Vanishes(row.isAdd * (l + r) + row.isSub * (l - r) - row.isNeg * l - o)
  }

  /** The constraints of the row's table. */
  ghost predicate Satisfied(row: Row) {
    match row
    case MulRow(a, b, c, _, _, _, _, _, inCircuit, enabler) =>
      Bit(enabler) && Bit(inCircuit) && RowFacts.Vanishes(inCircuit * (1 - enabler)) && ProductLimbs(a, b, c)
    case InvRow(a, inv, _, _, _, _, inCircuit, enabler) =>
      Bit(enabler) && Bit(inCircuit) && RowFacts.Vanishes(inCircuit * (1 - enabler))
      && ProductLimbs(a, inv, Qm31(enabler, 0, 0, 0))
    case LinearRow(_, _, isAdd, isSub, isNeg, _, _, lhs, rhs, out, _, enabler) =>
      Bit(enabler) && Bit(isAdd) && Bit(isSub) && Bit(isNeg)
      && RowFacts.Vanishes(isAdd + isSub + isNeg - enabler)
      && LinearLimb(row, lhs.x0, rhs.x0, out.x0) && LinearLimb(row, lhs.x1, rhs.x1, out.x1)
      && LinearLimb(row, lhs.x2, rhs.x2, out.x2) && LinearLimb(row, lhs.x3, rhs.x3, out.x3)
  }

  // -- Relation entries -----------------------------------------------------------------------

  const ADD: Felt := 1
  const SUB: Felt := 2
  const MUL: Felt := 3
  const NEG: Felt := 4
  const INVERSE: Felt := 5

  datatype OpDef = OpDef(circuit: Felt, node: Felt, kind: Felt, lhs: Felt, rhs: Felt)

  datatype Wire = Wire(circuit: Felt, node: Felt, value: Qm31)

  /** A relation entry of a row, with the multiplicity it is consumed or emitted with. */
  datatype Entry<T> = Entry(multiplicity: Felt, tuple: T)

  /** The structure a row consumes. */
  function Definition(row: Row): Entry<OpDef> {
    match row
    case MulRow(_, _, _, cid, id, l, r, _, inCircuit, _) => Entry(inCircuit, OpDef(cid, id, MUL, l, r))
    case InvRow(_, _, cid, id, l, _, inCircuit, _) => Entry(inCircuit, OpDef(cid, id, INVERSE, l, 0))
    case LinearRow(cid, id, isAdd, isSub, isNeg, l, r, _, _, _, _, enabler) =>
      Entry(enabler, OpDef(cid, id, Reduce(isAdd * ADD + isSub * SUB + isNeg * NEG), l, r))
  }

  /** The operand values a row consumes. */
  function Reads(row: Row): seq<Entry<Wire>> {
    match row
    case MulRow(a, b, _, cid, _, l, r, _, inCircuit, _) => [Entry(inCircuit, Wire(cid, l, a)), Entry(inCircuit, Wire(cid, r, b))]
    case InvRow(a, _, cid, _, l, _, inCircuit, _) => [Entry(inCircuit, Wire(cid, l, a))]
    case LinearRow(cid, _, isAdd, isSub, _, l, r, lhs, rhs, _, _, enabler) =>
      [Entry(enabler, Wire(cid, l, lhs)), Entry(FAdd(isAdd, isSub), Wire(cid, r, rhs))]
  }

  /** The value a row emits. */
  function Emits(row: Row): Entry<Wire> {
    match row
    case MulRow(_, _, c, cid, id, _, _, uses, inCircuit, _) => Entry(FMul(uses, inCircuit), Wire(cid, id, c))
    case InvRow(_, inv, cid, id, _, uses, inCircuit, _) => Entry(FMul(uses, inCircuit), Wire(cid, id, inv))
    case LinearRow(cid, id, _, _, _, _, _, _, _, out, uses, _) => Entry(uses, Wire(cid, id, out))
  }

  /** The row takes part in a circuit. */
  predicate On(row: Row) {
    if row.LinearRow? then row.enabler == 1 else row.inCircuit == 1
  }

  /** The result column. */
  function Output(row: Row): Qm31 {
    match row
    case MulRow(_, _, c, _, _, _, _, _, _, _) => c
    case InvRow(_, inv, _, _, _, _, _, _) => inv
    case LinearRow(_, _, _, _, _, _, _, _, _, out, _, _) => out
  }

  // -- What one satisfied row says ---------------------------------------------------------------

  lemma BitValue(x: Felt)
    requires Bit(x)
    ensures x == 0 || x == 1
  {
    Mersenne.PIsPrime();
    hide RowFacts.Vanishes;
    RowFacts.ProductVanishes(x, 1 - x);
    SmallVanishing(x);
    SmallVanishing(1 - x);
  }

  lemma SmallVanishing(x: int)
    requires -P < x < P
    ensures RowFacts.Vanishes(x) <==> x == 0
  {
    if RowFacts.Vanishes(x) { SmallMultipleIsZero(P, x); }
  }

  /** Flags of a linear row: at most one, and one exactly when enabled. */
  lemma LinearFlags(row: Row)
    requires row.LinearRow? && Satisfied(row)
    ensures row.enabler == 0 ==> row.isAdd == 0 && row.isSub == 0 && row.isNeg == 0
    ensures row.enabler == 1 ==>
      (row.isAdd, row.isSub, row.isNeg) == (1, 0, 0) || (row.isAdd, row.isSub, row.isNeg) == (0, 1, 0)
      || (row.isAdd, row.isSub, row.isNeg) == (0, 0, 1)
    ensures row.enabler == 0 || row.enabler == 1
  {
    hide Bit, RowFacts.Vanishes, LinearLimb;
    BitValue(row.isAdd);
    BitValue(row.isSub);
    BitValue(row.isNeg);
    BitValue(row.enabler);
    SmallVanishing(row.isAdd + row.isSub + row.isNeg - row.enabler);
  }

  /** A row that is off consumes nothing. */
  lemma OffRow(row: Row)
    requires Satisfied(row) && !On(row)
    ensures Definition(row).multiplicity == 0
    ensures forall k :: 0 <= k < |Reads(row)| ==> Reads(row)[k].multiplicity == 0
    ensures !row.LinearRow? ==> Emits(row).multiplicity == 0
  {
    hide Bit, RowFacts.Vanishes, ProductLimbs, LinearLimb;
    match row
    case MulRow(_, _, _, _, _, _, _, uses, inCircuit, _) => BitValue(inCircuit);
    case InvRow(_, _, _, _, _, uses, inCircuit, _) => BitValue(inCircuit);
    case LinearRow(_, _, _, _, _, _, _, _, _, _, _, _) => LinearFlags(row);
  }

  /** A row that is on consumes its structure and its operands once each. */
  lemma OnRow(row: Row)
    requires Satisfied(row) && On(row)
    ensures Definition(row).multiplicity == 1
    ensures forall k :: 0 <= k < |Reads(row)| ==> Reads(row)[k].multiplicity <= 1
    ensures Reads(row)[0].multiplicity == 1
    ensures row.MulRow? || (row.LinearRow? && row.isNeg == 0) ==> Reads(row)[1].multiplicity == 1
  {
    hide Bit, RowFacts.Vanishes, ProductLimbs, LinearLimb;
    if row.LinearRow? { LinearFlags(row); }
  }

  /** The result of a row that is on, by kind. */
  ghost predicate Implements(row: Row) {
    match row
    case MulRow(a, b, c, _, _, _, _, _, _, _) => c == QMul(a, b)
    case InvRow(a, inv, _, _, _, _, _, _) => QMul(a, inv) == ONE
    case LinearRow(_, _, isAdd, isSub, isNeg, _, _, lhs, rhs, out, _, _) =>
      && (isAdd == 1 ==> out == QAdd(lhs, rhs)) && (isSub == 1 ==> out == QSub(lhs, rhs))
      && (isNeg == 1 ==> out == QNeg(lhs))
  }

  lemma LimbValue(row: Row, l: Felt, r: Felt, o: Felt)
    requires row.LinearRow? && LinearLimb(row, l, r, o)
    ensures (row.isAdd, row.isSub, row.isNeg) == (1, 0, 0) ==> o == FAdd(l, r)
    ensures (row.isAdd, row.isSub, row.isNeg) == (0, 1, 0) ==> o == FSub(l, r)
    ensures (row.isAdd, row.isSub, row.isNeg) == (0, 0, 1) ==> o == FNeg(l)
    ensures (row.isAdd, row.isSub, row.isNeg) == (0, 0, 0) ==> o == 0
  {
    if (row.isAdd, row.isSub, row.isNeg) == (1, 0, 0) {
      Pinned(l + r, o);
    } else if (row.isAdd, row.isSub, row.isNeg) == (0, 1, 0) {
      Pinned(l - r, o);
    } else if (row.isAdd, row.isSub, row.isNeg) == (0, 0, 1) {
      Pinned(0 - l, o);
    } else if (row.isAdd, row.isSub, row.isNeg) == (0, 0, 0) {
      Pinned(0, o);
    }
  }

  lemma RowImplements(row: Row)
    requires Satisfied(row) && On(row)
    ensures Implements(row)
  {
    hide Bit, RowFacts.Vanishes, ProductLimbs, LinearLimb, QMul, FAdd, FSub, FNeg;
    match row
    case MulRow(a, b, c, _, _, _, _, _, _, _) => ProductLimbsExact(a, b, c);
    case InvRow(a, inv, _, _, _, _, inCircuit, enabler) =>
      BitValue(enabler);
      SmallVanishing(inCircuit * (1 - enabler));
      ProductLimbsExact(a, inv, ONE);
    case LinearRow(_, _, _, _, _, _, _, lhs, rhs, out, _, _) =>
      LinearFlags(row);
      LimbValue(row, lhs.x0, rhs.x0, out.x0);
      LimbValue(row, lhs.x1, rhs.x1, out.x1);
      LimbValue(row, lhs.x2, rhs.x2, out.x2);
      LimbValue(row, lhs.x3, rhs.x3, out.x3);
  }
}
