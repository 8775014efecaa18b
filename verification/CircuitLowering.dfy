// Lowering a recorded circuit into rows: use counts, one row per arithmetic node,
// and a proof that what is pushed is satisfied and balances the public side.
module CircuitLowering {
  import opened M31
  import opened FeltSemantics
  import opened Qm31Field
  import opened CircuitRows
  import opened Wiring

  // -- Use counts -------------------------------------------------------------------------

  /** Add one use per operand. */
  method CountOperands(uses: array<nat>, ks: seq<nat>)
    requires forall i :: 0 <= i < |ks| ==> ks[i] < uses.Length
    modifies uses
    ensures forall id :: 0 <= id < uses.Length ==> uses[id] == old(uses[id]) + Count(ks, id)
  {
    var i := 0;
    assert ks[0..] == ks;
    while i < |ks|
      invariant i <= |ks|
      invariant forall id :: 0 <= id < uses.Length ==> uses[id] + Count(ks[i..], id) == old(uses[id]) + Count(ks, id)
    {
      assert ks[i..][0] == ks[i] && ks[i..][1..] == ks[i + 1..];
      uses[ks[i]] := uses[ks[i]] + 1;
      i := i + 1;
    }
    assert ks[i..] == [];
  }

  lemma OperandsBelow(op: Op, n: nat)
    requires Below(op, n)
    ensures forall i :: 0 <= i < |Operands(op)| ==> Operands(op)[i] < n
  {
  }

  /** How often each node is consumed: as an operand, plus once if it is the output. */
  method UseCounts(arena: Arena, output: nat) returns (uses: array<nat>)
    requires Ordered(arena) && output < |arena|
    ensures fresh(uses) && uses.Length == |arena|
    ensures forall id :: 0 <= id < |arena| ==> uses[id] == UseCount(arena, output, id)
  {
    uses := new nat[|arena|](i => 0);
    var n := 0;
    while n < |arena|
      invariant n <= |arena|
      invariant forall id :: 0 <= id < |arena| ==> uses[id] == OperandUses(arena, n, id)
    {
      OperandsBelow(arena[n].op, n);
      CountOperands(uses, Operands(arena[n].op));
      n := n + 1;
    }
    uses[output] := uses[output] + 1;
  }

  // -- Rows --------------------------------------------------------------------------------

  function OperandValue(arena: Arena, k: nat): Qm31 {
    if k < |arena| then arena[k].value else Qm31Field.ZERO
  }

  /** The row pushed for an arithmetic node. */
  function RowOf(c: Circuit, id: nat): Row
    requires id < |c.arena| && Arithmetic(c.arena[id].op)
  {
    var op, v := c.arena[id].op, c.arena[id].value;
    var uses := Reduce(UseCount(c.arena, c.output, id));
    var l, r := OperandValue(c.arena, Lhs(op)), OperandValue(c.arena, Rhs(op));
    match op
    case Mul(a, b) => MulRow(l, r, v, c.id, Reduce(id), Reduce(a), Reduce(b), uses, 1, 1)
    case Inverse(a) => InvRow(l, v, c.id, Reduce(id), Reduce(a), uses, 1, 1)
    case Neg(a) => LinearRow(c.id, Reduce(id), 0, 0, 1, Reduce(a), 0, l, Qm31Field.ZERO, v, uses, 1)
    case Add(a, b) => LinearRow(c.id, Reduce(id), 1, 0, 0, Reduce(a), Reduce(b), l, r, v, uses, 1)
    case Sub(a, b) => LinearRow(c.id, Reduce(id), 0, 1, 0, Reduce(a), Reduce(b), l, r, v, uses, 1)
    case _ => LinearRow(0, 0, 0, 0, 0, 0, 0, l, r, v, 0, 0)
  }

  /** The three tables after the first n nodes. */
  datatype Tables = Tables(mul: seq<Row>, inv: seq<Row>, linear: seq<Row>)

  function Push(t: Tables, row: Row): Tables {
    match row
    case MulRow(_, _, _, _, _, _, _, _, _, _) => t.(mul := t.mul + [row])
    case InvRow(_, _, _, _, _, _, _, _) => t.(inv := t.inv + [row])
    case LinearRow(_, _, _, _, _, _, _, _, _, _, _, _) => t.(linear := t.linear + [row])
  }

  function Lowered(start: Tables, c: Circuit, n: nat): Tables
    requires n <= |c.arena|
  {
    if n == 0 then start
    else
      var before := Lowered(start, c, n - 1);
      if Arithmetic(c.arena[n - 1].op) then Push(before, RowOf(c, n - 1)) else before
  }

  function AllRows(t: Tables): seq<Row> {
    t.mul + t.inv + t.linear
  }

  // -- The tables in place --------------------------------------------------------------------

  class Traces {
    var mul: seq<Row>
    var inv: seq<Row>
    var linear: seq<Row>

    function State(): Tables
      reads this
    {
      Tables(mul, inv, linear)
    }

    /** lower_arena: push every arithmetic node's row, in arena order. */
    method LowerArena(circuitId: Felt, arena: Arena, output: nat) returns (claim: Circuit, inputs: seq<(nat, Qm31)>)
      requires WellFormed(arena) && output < |arena| <= P
      modifies this
      ensures claim == Circuit(circuitId, arena, output, Reduce(output), arena[output].value)
      ensures State() == Lowered(old(State()), claim, |arena|)
      ensures inputs == InputsOf(arena, |arena|)
    {
      claim := Circuit(circuitId, arena, output, Reduce(output), arena[output].value);
      var uses := UseCounts(arena, output);
      inputs := [];
      var id := 0;
      while id < |arena|
        modifies this
        invariant id <= |arena|
        invariant State() == Lowered(old(State()), claim, id)
        invariant inputs == InputsOf(arena, id)
        invariant forall k :: 0 <= k < |arena| ==> uses[k] == UseCount(arena, output, k)
      {
        var node := arena[id];
        assert Below(node.op, id);
        var count := Reduce(uses[id]);
        match node.op {
          case Input => inputs := inputs + [(id, node.value)];
          case Const =>
          case Mul(a, b) =>
            mul := mul + [MulRow(arena[a].value, arena[b].value, node.value, circuitId, Reduce(id), Reduce(a), Reduce(b),
                                 count, 1, 1)];
          case Inverse(a) =>
            inv := inv + [InvRow(arena[a].value, node.value, circuitId, Reduce(id), Reduce(a), count, 1, 1)];
          case Add(a, b) =>
            linear := linear + [LinearRow(circuitId, Reduce(id), 1, 0, 0, Reduce(a), Reduce(b), arena[a].value,
                                          arena[b].value, node.value, count, 1)];
          case Sub(a, b) =>
            linear := linear + [LinearRow(circuitId, Reduce(id), 0, 1, 0, Reduce(a), Reduce(b), arena[a].value,
                                          arena[b].value, node.value, count, 1)];
          case Neg(a) =>
            linear := linear + [LinearRow(circuitId, Reduce(id), 0, 0, 1, Reduce(a), 0, arena[a].value, Qm31Field.ZERO,
                                          node.value, count, 1)];
        }
        id := id + 1;
      }
    }
  }

  /** The input nodes in arena order. */
  function InputsOf(arena: Arena, n: nat): seq<(nat, Qm31)>
    requires n <= |arena|
  {
    if n == 0 then []
    else InputsOf(arena, n - 1) + (if arena[n - 1].op.Input? then [(n - 1, arena[n - 1].value)] else [])
  }

  // -- The pushed rows are satisfied --------------------------------------------------------------

  const EMPTY := Tables([], [], [])

  lemma BitsVanish()
    ensures Bit(0) && Bit(1)
  {
  }

  lemma RowSatisfied(c: Circuit, id: nat)
    requires WellFormed(c.arena) && id < |c.arena| && Arithmetic(c.arena[id].op)
    ensures Satisfied(RowOf(c, id)) && On(RowOf(c, id))
  {
    assert Below(c.arena[id].op, id) && Computed(c.arena, id);
    hide WellFormed;
    BitsVanish();
    hide Bit, QMul, UseCount;
    var op, v, row := c.arena[id].op, c.arena[id].value, RowOf(c, id);
    if op.Mul? {
      ProductLimbsExact(c.arena[op.a].value, c.arena[op.b].value, v);
    } else if op.Inverse? {
      ProductLimbsExact(c.arena[op.a].value, v, Qm31Field.ONE);
    } else {
      LinearSatisfied(row);
    }
  }

  lemma LinearSatisfied(row: Row)
    requires row.LinearRow? && row.enabler == 1
    requires (row.isAdd, row.isSub, row.isNeg) in {(1, 0, 0), (0, 1, 0), (0, 0, 1)}
    requires Implements(row)
    ensures Satisfied(row)
  {
    BitsVanish();
    hide Bit;
    LimbHolds(row, row.lhs.x0, row.rhs.x0, row.out.x0);
    LimbHolds(row, row.lhs.x1, row.rhs.x1, row.out.x1);
    LimbHolds(row, row.lhs.x2, row.rhs.x2, row.out.x2);
    LimbHolds(row, row.lhs.x3, row.rhs.x3, row.out.x3);
  }

  lemma LimbHolds(row: Row, l: Felt, r: Felt, o: Felt)
    requires row.LinearRow? && (row.isAdd, row.isSub, row.isNeg) in {(1, 0, 0), (0, 1, 0), (0, 0, 1)}
    requires row.isAdd == 1 ==> o == FAdd(l, r)
    requires row.isSub == 1 ==> o == FSub(l, r)
    requires row.isNeg == 1 ==> o == FNeg(l)
    ensures LinearLimb(row, l, r, o)
  {
    if row.isAdd == 1 {
      Pinned(l + r, o);
    } else if row.isSub == 1 {
      Pinned(l - r, o);
    } else {
      Pinned(0 - l, o);
    }
  }

  // -- The bags of three tables ----------------------------------------------------------------------

  function TableDefs(t: Tables, d: OpDef): nat { Defs(t.mul, d) + Defs(t.inv, d) + Defs(t.linear, d) }

  function TableReads(t: Tables, w: Wire): nat { Read(t.mul, w) + Read(t.inv, w) + Read(t.linear, w) }

  function TableEmits(t: Tables, w: Wire): nat { Emitted(t.mul, w) + Emitted(t.inv, w) + Emitted(t.linear, w) }

  lemma RowPushed(rows: seq<Row>, row: Row, d: OpDef, w: Wire)
    ensures Defs(rows + [row], d) == Defs(rows, d) + At(Definition(row), d)
    ensures Read(rows + [row], w) == Read(rows, w) + SumAt(Reads(row), w)
    ensures Emitted(rows + [row], w) == Emitted(rows, w) + At(Emits(row), w)
  {
    assert (rows + [row])[..|rows|] == rows;
  }

  lemma PushAdds(t: Tables, row: Row, d: OpDef, w: Wire)
    ensures TableDefs(Push(t, row), d) == TableDefs(t, d) + At(Definition(row), d)
    ensures TableReads(Push(t, row), w) == TableReads(t, w) + SumAt(Reads(row), w)
    ensures TableEmits(Push(t, row), w) == TableEmits(t, w) + At(Emits(row), w)
  {
    hide Defs, Read, Emitted, Definition, Reads, Emits;
    match row
    case MulRow(_, _, _, _, _, _, _, _, _, _) => RowPushed(t.mul, row, d, w);
    case InvRow(_, _, _, _, _, _, _, _) => RowPushed(t.inv, row, d, w);
    case LinearRow(_, _, _, _, _, _, _, _, _, _, _, _) => RowPushed(t.linear, row, d, w);
  }

  lemma {:induction false} BagsConcat(a: seq<Row>, b: seq<Row>, d: OpDef, w: Wire)
    ensures Defs(a + b, d) == Defs(a, d) + Defs(b, d)
    ensures Read(a + b, w) == Read(a, w) + Read(b, w)
    ensures Emitted(a + b, w) == Emitted(a, w) + Emitted(b, w)
    decreases |b|
  {
    hide Definition, Reads, Emits;
    if b == [] {
      assert a + b == a;
    } else {
      var n := |b| - 1;
      BagsConcat(a, b[..n], d, w);
      assert (a + b)[..|a| + n] == a + b[..n] && (a + b)[|a| + n] == b[n];
      assert b[..n] + [b[n]] == b;
    }
  }

  lemma BagsOfTables(t: Tables, d: OpDef, w: Wire)
    ensures Defs(AllRows(t), d) == TableDefs(t, d)
    ensures Read(AllRows(t), w) == TableReads(t, w)
    ensures Emitted(AllRows(t), w) == TableEmits(t, w)
  {
    hide Defs, Read, Emitted;
    BagsConcat(t.mul, t.inv, d, w);
    BagsConcat(t.mul + t.inv, t.linear, d, w);
  }

  // -- What one node contributes -------------------------------------------------------------------------

  lemma RowDefines(c: Circuit, id: nat)
    requires WellFormed(c.arena) && id < |c.arena| && Arithmetic(c.arena[id].op)
    ensures Definition(RowOf(c, id)) == Entry(1, DefOf(c, id))
  {
    assert Below(c.arena[id].op, id);
    hide WellFormed, UseCount, Reduce;
    KindsReduced();
  }

  lemma KindsReduced()
    ensures Reduce(1 * ADD + 0 * SUB + 0 * NEG) == ADD && Reduce(0 * ADD + 1 * SUB + 0 * NEG) == SUB
    ensures Reduce(0 * ADD + 0 * SUB + 1 * NEG) == NEG && Reduce(0) == 0
  {
  }

  lemma RowEmits(c: Circuit, id: nat)
    requires WellFormed(c.arena) && id < |c.arena| && Arithmetic(c.arena[id].op)
    ensures Emits(RowOf(c, id)) == Entry(Reduce(UseCount(c.arena, c.output, id)), WireOf(c, id))
  {
    assert Below(c.arena[id].op, id);
    hide WellFormed, UseCount, Reduce, FMul;
    TimesOne(Reduce(UseCount(c.arena, c.output, id)));
  }

  lemma TimesOne(x: Felt)
    ensures FMul(x, 1) == x
  {
  }

  /** How often the operands' canonical wires are w. */
  function OperandWires(c: Circuit, ks: seq<nat>, w: Wire): nat
    requires forall i :: 0 <= i < |ks| ==> ks[i] < |c.arena|
  {
    if ks == [] then 0 else (if WireOf(c, ks[0]) == w then 1 else 0) + OperandWires(c, ks[1..], w)
  }

  lemma RowReads(c: Circuit, id: nat, w: Wire)
    requires WellFormed(c.arena) && id < |c.arena| && Arithmetic(c.arena[id].op)
    requires forall i :: 0 <= i < |Operands(c.arena[id].op)| ==> Operands(c.arena[id].op)[i] < |c.arena|
    ensures SumAt(Reads(RowOf(c, id)), w) == OperandWires(c, Operands(c.arena[id].op), w)
  {
    var op, row := c.arena[id].op, RowOf(c, id);
    assert Below(op, id);
    hide WellFormed, UseCount, Reduce;
    SumOfTwo(Reads(row), w);
    FlagSums();
    TwoOperands(c, Operands(op), w);
  }

  lemma FlagSums()
    ensures FAdd(0, 0) == 0 && FAdd(1, 0) == 1 && FAdd(0, 1) == 1
  {
  }

  lemma TwoOperands(c: Circuit, ks: seq<nat>, w: Wire)
    requires 1 <= |ks| <= 2 && forall i :: 0 <= i < |ks| ==> ks[i] < |c.arena|
    ensures OperandWires(c, ks, w)
         == (if WireOf(c, ks[0]) == w then 1 else 0) + (if |ks| == 2 && WireOf(c, ks[1]) == w then 1 else 0)
  {
    hide WireOf;
    if |ks| == 2 { assert ks[1..] == [ks[1]]; }
  }

  // -- The bags of a lowered circuit ------------------------------------------------------------------------

  lemma {:induction false} LoweredDefs(start: Tables, c: Circuit, n: nat, d: OpDef)
    requires WellFormed(c.arena) && n <= |c.arena|
    ensures TableDefs(Lowered(start, c, n), d) == TableDefs(start, d) + PublicDefs(c, n, d)
  {
    hide WellFormed, RowOf, DefOf, Arithmetic, TableDefs;
    if n > 0 {
      LoweredDefs(start, c, n - 1, d);
      if Arithmetic(c.arena[n - 1].op) {
        PushAdds(Lowered(start, c, n - 1), RowOf(c, n - 1), d, Wire(0, 0, Qm31Field.ZERO));
        RowDefines(c, n - 1);
      }
    }
  }

  /** Emissions of the first n nodes, by rows and publicly: each node's wire once per use. */
  function NodeEmissions(c: Circuit, n: nat, w: Wire): nat
    requires n <= |c.arena|
  {
    if n == 0 then 0
    else NodeEmissions(c, n - 1, w) + (if WireOf(c, n - 1) == w then Reduce(UseCount(c.arena, c.output, n - 1)) else 0)
  }

  lemma {:induction false} LoweredEmits(start: Tables, c: Circuit, n: nat, w: Wire)
    requires WellFormed(c.arena) && n <= |c.arena|
    ensures TableEmits(Lowered(start, c, n), w) + PublicWires(c, n, w) == TableEmits(start, w) + NodeEmissions(c, n, w)
  {
    hide WellFormed, RowOf, WireOf, Arithmetic, TableEmits, UseCount;
    if n > 0 {
      LoweredEmits(start, c, n - 1, w);
      if Arithmetic(c.arena[n - 1].op) {
        PushAdds(Lowered(start, c, n - 1), RowOf(c, n - 1), OpDef(0, 0, 0, 0, 0), w);
        RowEmits(c, n - 1);
      }
    }
  }

  /** Operand consumptions of the first n nodes. */
  function NodeReads(c: Circuit, n: nat, w: Wire): nat
    requires Ordered(c.arena) && n <= |c.arena|
  {
    if n == 0 then 0
    else
      OperandsBelow(c.arena[n - 1].op, n - 1);
      NodeReads(c, n - 1, w) + OperandWires(c, Operands(c.arena[n - 1].op), w)
  }

  lemma {:induction false} LoweredReads(start: Tables, c: Circuit, n: nat, w: Wire)
    requires WellFormed(c.arena) && n <= |c.arena|
    ensures TableReads(Lowered(start, c, n), w) == TableReads(start, w) + NodeReads(c, n, w)
  {
    if n > 0 {
      assert Below(c.arena[n - 1].op, n - 1);
      OperandsBelow(c.arena[n - 1].op, n - 1);
      LoweredReads(start, c, n - 1, w);
      hide WellFormed, RowOf, TableReads, WireOf, Reads;
      if Arithmetic(c.arena[n - 1].op) {
        PushAdds(Lowered(start, c, n - 1), RowOf(c, n - 1), OpDef(0, 0, 0, 0, 0), w);
        RowReads(c, n - 1, w);
      }
    }
  }

  // -- Emissions meet consumptions ------------------------------------------------------------------------------

  lemma {:induction false} EmissionsOf(c: Circuit, n: nat, m: nat)
    requires n <= |c.arena| <= P && m < |c.arena|
    ensures NodeEmissions(c, n, WireOf(c, m)) == if m < n then Reduce(UseCount(c.arena, c.output, m)) else 0
  {
    hide UseCount;
    if n > 0 {
      EmissionsOf(c, n - 1, m);
      assert Reduce(n - 1) == n - 1 && Reduce(m) == m;
    }
  }

  lemma {:induction false} OperandWiresOf(c: Circuit, ks: seq<nat>, m: nat)
    requires |c.arena| <= P && m < |c.arena| && forall i :: 0 <= i < |ks| ==> ks[i] < |c.arena|
    ensures OperandWires(c, ks, WireOf(c, m)) == Count(ks, m)
  {
    if ks != [] {
      OperandWiresOf(c, ks[1..], m);
      assert Reduce(ks[0]) == ks[0] && Reduce(m) == m;
    }
  }

  lemma {:induction false} ReadsOf(c: Circuit, n: nat, m: nat)
    requires Ordered(c.arena) && n <= |c.arena| <= P && m < |c.arena|
    ensures NodeReads(c, n, WireOf(c, m)) == OperandUses(c.arena, n, m)
  {
    hide WireOf;
    if n > 0 {
      OperandsBelow(c.arena[n - 1].op, n - 1);
      ReadsOf(c, n - 1, m);
      OperandWiresOf(c, Operands(c.arena[n - 1].op), m);
    }
  }

  lemma {:induction false} NothingAbout(c: Circuit, n: nat, w: Wire)
    requires Ordered(c.arena) && n <= |c.arena| && forall m :: 0 <= m < |c.arena| ==> WireOf(c, m) != w
    ensures NodeEmissions(c, n, w) == 0 && NodeReads(c, n, w) == 0
  {
    hide WireOf, UseCount;
    if n > 0 {
      OperandsBelow(c.arena[n - 1].op, n - 1);
      NothingAbout(c, n - 1, w);
      NoOperandWires(c, Operands(c.arena[n - 1].op), w);
      assert WireOf(c, n - 1) != w;
    }
  }

  lemma {:induction false} NoOperandWires(c: Circuit, ks: seq<nat>, w: Wire)
    requires forall i :: 0 <= i < |ks| ==> ks[i] < |c.arena|
    requires forall m :: 0 <= m < |c.arena| ==> WireOf(c, m) != w
    ensures OperandWires(c, ks, w) == 0
  {
    hide WireOf;
    if ks != [] {
      assert WireOf(c, ks[0]) != w;
      NoOperandWires(c, ks[1..], w);
    }
  }

  /** The claim is the output node's own wire. */
  ghost predicate HonestClaim(c: Circuit) {
    c.output < |c.arena| && c.claimedNode == Reduce(c.output) && c.claimed == c.arena[c.output].value
  }

  lemma {:induction false} UsesBounded(arena: Arena, n: nat, id: nat)
    requires n <= |arena|
    ensures OperandUses(arena, n, id) <= 2 * n
  {
    if n > 0 {
      UsesBounded(arena, n - 1, id);
      CountBounded(Operands(arena[n - 1].op), id);
    }
  }

  lemma {:induction false} CountBounded(ks: seq<nat>, id: nat)
    ensures Count(ks, id) <= |ks|
  {
    if ks != [] { CountBounded(ks[1..], id); }
  }

  /** A circuit's emissions are its operand consumptions plus the output claim. */
  lemma CircuitBalances(c: Circuit, w: Wire)
    requires WellFormed(c.arena) && HonestClaim(c) && 2 * |c.arena| + 1 < P
    ensures NodeEmissions(c, |c.arena|, w)
         == NodeReads(c, |c.arena|, w) + (if ClaimWire(c) == w then 1 else 0)
  {
    hide WellFormed, Ordered, NodeEmissions, NodeReads, OperandUses;
    var n := |c.arena|;
    OrderedOf(c.arena);
    if m :| 0 <= m < n && WireOf(c, m) == w {
      EmissionsOf(c, n, m);
      ReadsOf(c, n, m);
      UsesBounded(c.arena, n, m);
      assert Reduce(m) == m && Reduce(c.output) == c.output;
    } else {
      NothingAbout(c, n, w);
      assert WireOf(c, c.output) != w;
    }
  }

  lemma OrderedOf(arena: Arena)
    requires WellFormed(arena)
    ensures Ordered(arena)
  {
  }

  // -- Several circuits in the same tables ------------------------------------------------------------------------

  function LowerAll(cs: seq<Circuit>): Tables {
    if cs == [] then EMPTY
    else
      var n := |cs| - 1;
      Lowered(LowerAll(cs[..n]), cs[n], |cs[n].arena|)
  }

  ghost predicate Lowerable(cs: seq<Circuit>) {
    forall i :: 0 <= i < |cs| ==> WellFormed(cs[i].arena) && HonestClaim(cs[i]) && 2 * |cs[i].arena| + 1 < P
  }

  lemma {:induction false} AllBalances(cs: seq<Circuit>, d: OpDef, w: Wire)
    requires Lowerable(cs)
    ensures TableDefs(LowerAll(cs), d) == AllDefs(cs, d)
    ensures TableEmits(LowerAll(cs), w) + AllWires(cs, w) == TableReads(LowerAll(cs), w) + AllClaims(cs, w)
  {
    if cs != [] {
      var n := |cs| - 1;
      var c := cs[n];
      assert WellFormed(c.arena) && HonestClaim(c);
      hide WellFormed, Lowered, TableDefs, TableEmits, TableReads, PublicDefs, PublicWires, HonestClaim;
      AllBalances(cs[..n], d, w);
      LoweredDefs(LowerAll(cs[..n]), c, |c.arena|, d);
      LoweredEmits(LowerAll(cs[..n]), c, |c.arena|, w);
      OrderedOf(c.arena);
      LoweredReads(LowerAll(cs[..n]), c, |c.arena|, w);
      CircuitBalances(c, w);
    }
  }

  ghost predicate Clean(rows: seq<Row>) {
    forall i :: 0 <= i < |rows| ==> Satisfied(rows[i]) && On(rows[i])
  }

  ghost predicate CleanTables(t: Tables) {
    Clean(t.mul) && Clean(t.inv) && Clean(t.linear)
  }

  lemma {:induction false} LoweredClean(start: Tables, c: Circuit, n: nat)
    requires WellFormed(c.arena) && n <= |c.arena| && CleanTables(start)
    ensures CleanTables(Lowered(start, c, n))
  {
    hide WellFormed, Satisfied, On, RowOf, Arithmetic;
    if n > 0 {
      LoweredClean(start, c, n - 1);
      if Arithmetic(c.arena[n - 1].op) { RowSatisfied(c, n - 1); }
    }
  }

  lemma {:induction false} AllClean(cs: seq<Circuit>)
    requires Lowerable(cs)
    ensures CleanTables(LowerAll(cs))
  {
    if cs != [] {
      var n := |cs| - 1;
      assert WellFormed(cs[n].arena);
      hide WellFormed, Lowered, CleanTables;
      AllClean(cs[..n]);
      LoweredClean(LowerAll(cs[..n]), cs[n], |cs[n].arena|);
    } else {
      assert CleanTables(EMPTY);
    }
  }

  /**
   * Completeness: the rows lowered from well-formed circuits satisfy their
   * constraints, none is disabled, and they balance the public terms exactly,
   * as integers.
   */
  lemma LoweringBalances(cs: seq<Circuit>)
    requires Lowerable(cs)
    ensures var rows := AllRows(LowerAll(cs));
            && RowsOK(rows) && RowsGated(rows)
            && (forall d :: AllDefs(cs, d) == Defs(rows, d))
            && (forall w :: AllWires(cs, w) + Emitted(rows, w) == Read(rows, w) + AllClaims(cs, w))
  {
    var t := LowerAll(cs);
    AllClean(cs);
    hide Lowerable, LowerAll, Satisfied, On, Defs, Emitted, Read, AllDefs, AllWires, AllClaims;
    forall d
      ensures AllDefs(cs, d) == Defs(AllRows(t), d)
    {
      AllBalances(cs, d, Wire(0, 0, Qm31Field.ZERO));
      BagsOfTables(t, d, Wire(0, 0, Qm31Field.ZERO));
    }
    forall w
      ensures AllWires(cs, w) + Emitted(AllRows(t), w) == Read(AllRows(t), w) + AllClaims(cs, w)
    {
      AllBalances(cs, OpDef(0, 0, 0, 0, 0), w);
      BagsOfTables(t, OpDef(0, 0, 0, 0, 0), w);
    }
  }
}
