// The operation recorder: running an AIR's evaluate() on handles records an
// arena of QM31 operations, and folds constants on the way.
module Recorder {
  import opened M31
  import opened Wrappers
  import opened FeltSemantics
  import opened Qm31Field
  import opened CircuitRows

  /** A handle: a pure constant, or a node of the shared arena. */
  datatype Rec = Literal(value: Qm31) | Ref(id: nat, value: Qm31)

  datatype BinOp = Plus | Minus | Times

  function Apply(op: BinOp, a: Qm31, b: Qm31): Qm31 {
    match op
    case Plus => QAdd(a, b)
    case Minus => QSub(a, b)
    case Times => QMul(a, b)
  }

  function NodeOp(op: BinOp, a: nat, b: nat): CircuitRows.Op {
    match op
    case Plus => CircuitRows.Add(a, b)
    case Minus => CircuitRows.Sub(a, b)
    case Times => CircuitRows.Mul(a, b)
  }

  /** Field inversion, undefined at zero. */
  type Inverter = Qm31 -> Option<Qm31>

  ghost predicate Inverts(inverter: Inverter) {
    forall a :: inverter(a).Some? ==> QMul(a, inverter(a).value) == ONE
  }

  // -- Specification ---------------------------------------------------------------------

  /** A handle as an arena node; constants become Const nodes. */
  function NodeId(nodes: Arena, r: Rec): (Arena, nat) {
    match r
    case Literal(v) => (nodes + [Node(Const, v)], |nodes|)
    case Ref(id, _) => (nodes, id)
  }

  function Binary(nodes: Arena, op: BinOp, l: Rec, r: Rec): (Arena, Rec) {
    var v := Apply(op, l.value, r.value);
    if l.Literal? && r.Literal? then (nodes, Literal(v))
    else
      var (nodes1, a) := NodeId(nodes, l);
      var (nodes2, b) := NodeId(nodes1, r);
      (nodes2 + [Node(NodeOp(op, a, b), v)], Ref(|nodes2|, v))
  }

  function Negate(nodes: Arena, r: Rec): (Arena, Rec) {
    var v := QNeg(r.value);
    match r
    case Literal(_) => (nodes, Literal(v))
    case Ref(id, _) => (nodes + [Node(CircuitRows.Neg(id), v)], Ref(|nodes|, v))
  }

  function Invert(nodes: Arena, r: Rec, inverter: Inverter): Option<(Arena, Rec)> {
    var v :- inverter(r.value);
    match r
    case Literal(_) => Some((nodes, Literal(v)))
    case Ref(id, _) => Some((nodes + [Node(Inverse(id), v)], Ref(|nodes|, v)))
  }

  function Record(nodes: Arena, v: Qm31): (Arena, Rec) {
    (nodes + [Node(Input, v)], Ref(|nodes|, v))
  }

  /** What evaluate() is recorded into: the arena, the weights, and the accumulated combination. */
  datatype RState = RState(nodes: Arena, alpha: Rec, denomInverse: Rec, accumulation: Rec)

  function Start(alpha: Qm31, denomInverse: Qm31): RState {
    var (nodes, a) := Record([], alpha);
    var (nodes1, d) := Record(nodes, denomInverse);
    RState(nodes1, a, d, Literal(ZERO))
  }

  /** accumulation = accumulation * alpha + denomInverse * constraint. */
  function AddConstraint(s: RState, constraint: Rec): RState {
    var (nodes1, weighted) := Binary(s.nodes, Times, s.denomInverse, constraint);
    var (nodes2, scaled) := Binary(nodes1, Times, s.accumulation, s.alpha);
    var (nodes3, sum) := Binary(nodes2, Plus, scaled, weighted);
    s.(nodes := nodes3, accumulation := sum)
  }

  /** The next component has its own vanishing denominator; the accumulation carries over. */
  function NextComponent(s: RState, denomInverse: Qm31): RState {
    var (nodes, d) := Record(s.nodes, denomInverse);
    s.(nodes := nodes, denomInverse := d)
  }

  // -- Programs -----------------------------------------------------------------------------

  /** One step of an evaluate(): operands are earlier results. */
  datatype Instr =
    | MaskValue
    | Constant(v: Qm31)
    | Combine(op: BinOp, i: nat, j: nat)
    | Negation(i: nat)
    | Inversion(i: nat)
    | Constraint(i: nat)
    | Component

  /** A recording in progress: results so far, and inputs still to come. */
  datatype Run = Run(s: RState, regs: seq<Rec>, inputs: seq<Qm31>)

  function StepRun(run: Run, instr: Instr, inverter: Inverter): Option<Run> {
    match instr
    case MaskValue =>
      if run.inputs == [] then None
      else
        var (nodes, r) := Record(run.s.nodes, run.inputs[0]);
        Some(Run(run.s.(nodes := nodes), run.regs + [r], run.inputs[1..]))
    case Constant(v) => Some(run.(regs := run.regs + [Literal(v)]))
    case Combine(op, i, j) =>
      if i >= |run.regs| || j >= |run.regs| then None
      else
        var (nodes, r) := Binary(run.s.nodes, op, run.regs[i], run.regs[j]);
        Some(run.(s := run.s.(nodes := nodes), regs := run.regs + [r]))
    case Negation(i) =>
      if i >= |run.regs| then None
      else
        var (nodes, r) := Negate(run.s.nodes, run.regs[i]);
        Some(run.(s := run.s.(nodes := nodes), regs := run.regs + [r]))
    case Inversion(i) =>
      if i >= |run.regs| then None
      else
        var (nodes, r) :- Invert(run.s.nodes, run.regs[i], inverter);
        Some(run.(s := run.s.(nodes := nodes), regs := run.regs + [r]))
    case Constraint(i) =>
      if i >= |run.regs| then None else Some(run.(s := AddConstraint(run.s, run.regs[i])))
    case Component =>
      if run.inputs == [] then None
      else Some(Run(NextComponent(run.s, run.inputs[0]), run.regs, run.inputs[1..]))
  }

  /** Recording of a program on inputs alpha, denominator, masks and later denominators. */
  function Recording(prog: seq<Instr>, inputs: seq<Qm31>, inverter: Inverter): Option<Run> {
    if |inputs| < 2 then None
    else if prog == [] then Some(Run(Start(inputs[0], inputs[1]), [], inputs[2..]))
    else
      var before :- Recording(prog[..|prog| - 1], inputs, inverter);
      StepRun(before, prog[|prog| - 1], inverter)
  }

  // -- Every recorded arena is well formed -----------------------------------------------------

  ghost predicate Valid(r: Rec, nodes: Arena) {
    r.Ref? ==> r.id < |nodes| && nodes[r.id].value == r.value
  }

  ghost predicate AllValid(rs: seq<Rec>, nodes: Arena) {
    forall i :: 0 <= i < |rs| ==> Valid(rs[i], nodes)
  }

  ghost predicate StateOK(s: RState) {
    WellFormed(s.nodes) && Valid(s.alpha, s.nodes) && Valid(s.denomInverse, s.nodes) && Valid(s.accumulation, s.nodes)
  }

  /** Appending a node computed from earlier ones keeps the arena well formed. */
  lemma PushKeeps(nodes: Arena, node: Node)
    requires WellFormed(nodes) && Below(node.op, |nodes|) && Computed(nodes + [node], |nodes|)
    ensures WellFormed(nodes + [node])
  {
    var next := nodes + [node];
    forall id | 0 <= id < |next|
      ensures Below(next[id].op, id)
    {
      if id < |nodes| { assert next[id] == nodes[id]; }
    }
    forall id | 0 <= id < |next|
      ensures Computed(next, id)
    {
      if id < |nodes| { assert Computed(nodes, id) && Below(nodes[id].op, id) && next[id] == nodes[id]; }
    }
  }

  lemma NodeIdOK(nodes: Arena, r: Rec)
    requires WellFormed(nodes) && Valid(r, nodes)
    ensures var (nodes', id) := NodeId(nodes, r);
            WellFormed(nodes') && nodes <= nodes' && id < |nodes'| && nodes'[id].value == r.value
  {
    if r.Literal? { PushKeeps(nodes, Node(Const, r.value)); }
  }

  lemma BinaryOK(nodes: Arena, op: BinOp, l: Rec, r: Rec)
    requires WellFormed(nodes) && Valid(l, nodes) && Valid(r, nodes)
    ensures var (nodes', rec) := Binary(nodes, op, l, r);
            WellFormed(nodes') && nodes <= nodes' && Valid(rec, nodes') && rec.value == Apply(op, l.value, r.value)
  {
    hide WellFormed, Computed;
    if !(l.Literal? && r.Literal?) {
      var (nodes1, a) := NodeId(nodes, l);
      NodeIdOK(nodes, l);
      var (nodes2, b) := NodeId(nodes1, r);
      NodeIdOK(nodes1, r);
      BinaryNodeOK(nodes2, op, a, b);
    }
  }

  lemma BinaryNodeOK(nodes: Arena, op: BinOp, a: nat, b: nat)
    requires WellFormed(nodes) && a < |nodes| && b < |nodes|
    ensures WellFormed(nodes + [Node(NodeOp(op, a, b), Apply(op, nodes[a].value, nodes[b].value))])
  {
    var node := Node(NodeOp(op, a, b), Apply(op, nodes[a].value, nodes[b].value));
    hide WellFormed, QAdd, QSub, QMul;
    assert (nodes + [node])[a] == nodes[a] && (nodes + [node])[b] == nodes[b];
    PushKeeps(nodes, node);
  }

  lemma NegateOK(nodes: Arena, r: Rec)
    requires WellFormed(nodes) && Valid(r, nodes)
    ensures var (nodes', rec) := Negate(nodes, r);
            WellFormed(nodes') && nodes <= nodes' && Valid(rec, nodes') && rec.value == QNeg(r.value)
  {
    hide WellFormed, QNeg;
    if r.Ref? {
      var node := Node(CircuitRows.Neg(r.id), QNeg(r.value));
      assert (nodes + [node])[r.id] == nodes[r.id];
      PushKeeps(nodes, node);
    }
  }

  lemma InvertOK(nodes: Arena, r: Rec, inverter: Inverter)
    requires WellFormed(nodes) && Valid(r, nodes) && Inverts(inverter) && inverter(r.value).Some?
    ensures var (nodes', rec) := Invert(nodes, r, inverter).value;
            WellFormed(nodes') && nodes <= nodes' && Valid(rec, nodes') && rec.value == inverter(r.value).value
  {
    hide WellFormed, QMul;
    if r.Ref? {
      var node := Node(Inverse(r.id), inverter(r.value).value);
      assert (nodes + [node])[r.id] == nodes[r.id];
      PushKeeps(nodes, node);
    }
  }

  lemma RecordOK(nodes: Arena, v: Qm31)
    requires WellFormed(nodes)
    ensures var (nodes', rec) := Record(nodes, v);
            WellFormed(nodes') && nodes <= nodes' && Valid(rec, nodes') && rec.value == v
  {
    PushKeeps(nodes, Node(Input, v));
  }

  lemma AddConstraintOK(s: RState, r: Rec)
    requires StateOK(s) && Valid(r, s.nodes)
    ensures var s' := AddConstraint(s, r);
            && StateOK(s') && s.nodes <= s'.nodes && s'.alpha == s.alpha && s'.denomInverse == s.denomInverse
            && s'.accumulation.value
               == QAdd(QMul(s.accumulation.value, s.alpha.value), QMul(s.denomInverse.value, r.value))
  {
    hide WellFormed, QAdd, QMul;
    BinaryOK(s.nodes, Times, s.denomInverse, r);
    var (nodes1, weighted) := Binary(s.nodes, Times, s.denomInverse, r);
    BinaryOK(nodes1, Times, s.accumulation, s.alpha);
    var (nodes2, scaled) := Binary(nodes1, Times, s.accumulation, s.alpha);
    BinaryOK(nodes2, Plus, scaled, weighted);
    hide Binary;
  }

  // -- Masks and LogUp contexts --------------------------------------------------------------------

  /** Mask values per interaction and column, offsets flattened in order. */
  type Mask = seq<seq<seq<Qm31>>>

  /** A component's LogUp bookkeeping: its claimed sum over 2^logSize rows, and the fractions written so far. */
  datatype LogupContext = LogupContext(claimedSum: Qm31, logSize: nat, fracs: seq<(Rec, Rec)>)

  function FreshLogup(claimedSum: Qm31, logSize: nat): LogupContext {
    LogupContext(claimedSum, logSize, [])
  }

  /** Values recorded as inputs, in order. */
  function RecordAll(nodes: Arena, values: seq<Qm31>): (Arena, seq<Rec>) {
    if values == [] then (nodes, [])
    else
      var n := |values| - 1;
      var (before, recs) := RecordAll(nodes, values[..n]);
      var (after, r) := Record(before, values[n]);
      (after, recs + [r])
  }

  /** The column the cursor points at, if it has n values. */
  function CurrentColumn(mask: Mask, colIndex: seq<nat>, interaction: nat, n: nat): Option<seq<Qm31>> {
    if interaction >= |colIndex| || interaction >= |mask| || colIndex[interaction] >= |mask[interaction]| then None
    else
      var values := mask[interaction][colIndex[interaction]];
      if |values| == n then Some(values) else None
  }

  /** Reading a column of the mask is one input step of the program for each of its values. */
  function MaskSteps(run: Run, n: nat, inverter: Inverter): Option<Run> {
    if n == 0 then Some(run)
    else
      var before :- MaskSteps(run, n - 1, inverter);
      StepRun(before, MaskValue, inverter)
  }

  lemma {:induction false} MaskIsInputs(run: Run, values: seq<Qm31>, n: nat, inverter: Inverter)
    requires n <= |values| && values <= run.inputs
    ensures var (nodes, recs) := RecordAll(run.s.nodes, values[..n]);
            MaskSteps(run, n, inverter) == Some(Run(run.s.(nodes := nodes), run.regs + recs, run.inputs[n..]))
  {
    if n == 0 {
      assert run.regs + [] == run.regs && run.inputs[0..] == run.inputs && values[..0] == [];
    } else {
      MaskIsInputs(run, values, n - 1, inverter);
      assert values[..n][..n - 1] == values[..n - 1] && values[..n][n - 1] == values[n - 1];
      assert run.inputs[n - 1..][0] == values[n - 1] && run.inputs[n - 1..][1..] == run.inputs[n..];
      var (before, recs) := RecordAll(run.s.nodes, values[..n - 1]);
      var (_, r) := Record(before, values[n - 1]);
      assert (run.regs + recs) + [r] == run.regs + (recs + [r]);
    }
  }

  // -- The recorder in place ---------------------------------------------------------------------

  class RecorderObject {
    var nodes: Arena
    var alpha: Rec
    var denomInverse: Rec
    var accumulation: Rec
    const mask: Mask
    var colIndex: seq<nat>
    var logup: LogupContext

    function State(): RState
      reads this
    {
      RState(nodes, alpha, denomInverse, accumulation)
    }

    constructor (mask: Mask, alpha: Qm31, denomInverse: Qm31, logSize: nat, claimedSum: Qm31)
      ensures State() == Start(alpha, denomInverse) && StateOK(State())
      ensures this.mask == mask && colIndex == seq(|mask|, _ => 0) && logup == FreshLogup(claimedSum, logSize)
    {
      this.mask, colIndex, logup := mask, seq(|mask|, _ => 0), FreshLogup(claimedSum, logSize);
      nodes := [Node(Input, alpha), Node(Input, denomInverse)];
      this.alpha, this.denomInverse := Ref(0, alpha), Ref(1, denomInverse);
      accumulation := Literal(ZERO);
      new;
      assert [] + [Node(Input, alpha)] + [Node(Input, denomInverse)] == nodes;
      assert Computed(nodes, 0) && Computed(nodes, 1);
    }

    method Push(op: CircuitRows.Op, v: Qm31) returns (id: nat)
      modifies this`nodes
      ensures nodes == old(nodes) + [Node(op, v)] && id == |old(nodes)|
    {
      nodes := nodes + [Node(op, v)];
      id := |nodes| - 1;
    }

    method Materialized(r: Rec) returns (id: nat)
      modifies this`nodes
      ensures (nodes, id) == NodeId(old(nodes), r)
    {
      match r
      case Literal(v) => id := Push(Const, v);
      case Ref(k, _) => id := k;
    }

    method BinaryRec(op: BinOp, l: Rec, r: Rec) returns (rec: Rec)
      modifies this`nodes
      ensures (nodes, rec) == Binary(old(nodes), op, l, r)
    {
      var v := Apply(op, l.value, r.value);
      if l.Literal? && r.Literal? { return Literal(v); }
      var a := Materialized(l);
      var b := Materialized(r);
      var id := Push(NodeOp(op, a, b), v);
      rec := Ref(id, v);
    }

    method NegateRec(r: Rec) returns (rec: Rec)
      modifies this`nodes
      ensures (nodes, rec) == Negate(old(nodes), r)
    {
      var v := QNeg(r.value);
      match r
      case Literal(_) => rec := Literal(v);
      case Ref(k, _) =>
        var id := Push(CircuitRows.Neg(k), v);
        rec := Ref(id, v);
    }

    method InvertRec(r: Rec, inverter: Inverter) returns (rec: Option<Rec>)
      modifies this`nodes
      ensures rec.Some? <==> Invert(old(nodes), r, inverter).Some?
      ensures rec.Some? ==> Invert(old(nodes), r, inverter) == Some((nodes, rec.value))
      ensures rec.None? ==> nodes == old(nodes)
    {
      var v := inverter(r.value);
      if v.None? { return None; }
      match r
      case Literal(_) => rec := Some(Literal(v.value));
      case Ref(k, _) =>
        var id := Push(Inverse(k), v.value);
        rec := Some(Ref(id, v.value));
    }

    method RecordInput(v: Qm31) returns (rec: Rec)
      modifies this`nodes
      ensures (nodes, rec) == Record(old(nodes), v)
    {
      var id := Push(Input, v);
      rec := Ref(id, v);
    }

    method Constrain(constraint: Rec)
      modifies this`nodes, this`accumulation
      ensures State() == AddConstraint(old(State()), constraint)
    {
      var weighted := BinaryRec(Times, denomInverse, constraint);
      var scaled := BinaryRec(Times, accumulation, alpha);
      accumulation := BinaryRec(Plus, scaled, weighted);
    }

    /** Record the next column of an interaction's mask. */
    method NextInteractionMask(interaction: nat, n: nat) returns (r: Option<seq<Rec>>)
      modifies this`nodes, this`colIndex
      ensures var column := CurrentColumn(mask, old(colIndex), interaction, n);
              && (r.Some? <==> column.Some?)
              && (r.Some? ==> (nodes, r.value) == RecordAll(old(nodes), column.value)
                              && colIndex == old(colIndex)[interaction := old(colIndex[interaction]) + 1])
              && (r.None? ==> nodes == old(nodes))
    {
      if interaction >= |colIndex| || interaction >= |mask| { return None; }
      var at := colIndex[interaction];
      colIndex := colIndex[interaction := at + 1];
      if at >= |mask[interaction]| || |mask[interaction][at]| != n { return None; }
      var values := mask[interaction][at];
      var recs, i := [], 0;
      assert values[..0] == [];
      while i < n
        invariant i <= n && (nodes, recs) == RecordAll(old(nodes), values[..i])
        invariant colIndex == old(colIndex)[interaction := at + 1]
      {
        assert values[..i + 1][..i] == values[..i];
        var rec := RecordInput(values[i]);
        recs, i := recs + [rec], i + 1;
      }
      assert values[..i] == values;
      r := Some(recs);
    }

    /** A new vanishing denominator and a fresh LogUp context; accumulation and mask cursor carry over. */
    method Next(denominator: Qm31, logSize: nat, claimedSum: Qm31)
      modifies this
      ensures State() == NextComponent(old(State()), denominator)
      ensures logup == FreshLogup(claimedSum, logSize) && colIndex == old(colIndex)
    {
      denomInverse := RecordInput(denominator);
      logup := FreshLogup(claimedSum, logSize);
    }
  }
}
