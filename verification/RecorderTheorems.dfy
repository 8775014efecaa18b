// What a recording is: the arena computes what evaluate() computes, the
// accumulation is the weighted constraint sum in powers of alpha, and the recorded
// operations do not depend on the mask values.
module RecorderTheorems {
  import opened Wrappers
  import opened M31
  import opened Qm31Field
  import opened CircuitRows
  import opened Recorder

  // -- Evaluating the same program on values -------------------------------------------------

  /** A point evaluation in progress; weighted lists denominator * constraint so far. */
  datatype Point = Point(regs: seq<Qm31>, alpha: Qm31, denomInverse: Qm31, weighted: seq<Qm31>, inputs: seq<Qm31>)

  function StepPoint(p: Point, instr: Instr, inverter: Inverter): Option<Point> {
    match instr
    case MaskValue =>
      if p.inputs == [] then None else Some(p.(regs := p.regs + [p.inputs[0]], inputs := p.inputs[1..]))
    case Constant(v) => Some(p.(regs := p.regs + [v]))
    case Combine(op, i, j) =>
      if i >= |p.regs| || j >= |p.regs| then None else Some(p.(regs := p.regs + [Apply(op, p.regs[i], p.regs[j])]))
    case Negation(i) =>
      if i >= |p.regs| then None else Some(p.(regs := p.regs + [QNeg(p.regs[i])]))
    case Inversion(i) =>
      if i >= |p.regs| then None
      else
        var v :- inverter(p.regs[i]);
        Some(p.(regs := p.regs + [v]))
    case Constraint(i) =>
      if i >= |p.regs| then None else Some(p.(weighted := p.weighted + [QMul(p.denomInverse, p.regs[i])]))
    case Component =>
      if p.inputs == [] then None else Some(p.(denomInverse := p.inputs[0], inputs := p.inputs[1..]))
  }

  function Evaluation(prog: seq<Instr>, inputs: seq<Qm31>, inverter: Inverter): Option<Point> {
    if |inputs| < 2 then None
    else if prog == [] then Some(Point([], inputs[0], inputs[1], [], inputs[2..]))
    else
      var before :- Evaluation(prog[..|prog| - 1], inputs, inverter);
      StepPoint(before, prog[|prog| - 1], inverter)
  }

  function QPow(a: Qm31, n: nat): Qm31 {
    if n == 0 then ONE else QMul(QPow(a, n - 1), a)
  }

  /** The composition: the sum of ws[k] * alpha ** (|ws| - 1 - k). */
  function Composition(ws: seq<Qm31>, alpha: Qm31): Qm31 {
    if ws == [] then ZERO
    else QAdd(QMul(QPow(alpha, |ws| - 1), ws[0]), Composition(ws[1..], alpha))
  }

  /** Multiplying by alpha and adding one weight extends the composition. */
  lemma {:induction false} CompositionPush(ws: seq<Qm31>, alpha: Qm31, w: Qm31)
    ensures Composition(ws + [w], alpha) == QAdd(QMul(Composition(ws, alpha), alpha), w)
    decreases |ws|
  {
    hide QMul, QAdd;
    var next := ws + [w];
    if ws == [] {
      assert next[1..] == [];
      QMulOne(w);
      QMulZero(alpha);
      QAddZero(w);
    } else {
      assert next[1..] == ws[1..] + [w];
      CompositionPush(ws[1..], alpha, w);
      var first, rest, n := ws[0], Composition(ws[1..], alpha), |ws| - 1;
      var head := QMul(QPow(alpha, n), first);
      QDistributes(head, rest, alpha);
      SlideAlpha(QPow(alpha, n), first, alpha);
      QAddAssociates(QMul(head, alpha), QMul(rest, alpha), w);
      assert QPow(alpha, n + 1) == QMul(QPow(alpha, n), alpha);
      hide QPow;
    }
  }

  lemma SlideAlpha(p: Qm31, x: Qm31, alpha: Qm31)
    ensures QMul(QMul(p, x), alpha) == QMul(QMul(p, alpha), x)
  {
    hide QMul;
    QMulAssociates(p, x, alpha);
    QMulCommutes(x, alpha);
    QMulAssociates(p, alpha, x);
  }

  // -- A recording computes the evaluation ------------------------------------------------------

  /** The recording's handles carry the evaluation's values. */
  ghost predicate Tracks(run: Run, p: Point) {
    && StateOK(run.s) && AllValid(run.regs, run.s.nodes) && |run.regs| == |p.regs| && run.inputs == p.inputs
    && (forall i :: 0 <= i < |p.regs| ==> run.regs[i].value == p.regs[i])
    && run.s.alpha.value == p.alpha && run.s.denomInverse.value == p.denomInverse
    && run.s.accumulation.value == Composition(p.weighted, p.alpha)
  }

  lemma StateGrows(s: RState, nodes: Arena)
    requires StateOK(s) && WellFormed(nodes) && s.nodes <= nodes
    ensures StateOK(s.(nodes := nodes))
  {
    hide WellFormed;
  }

  lemma RegsGrow(regs: seq<Rec>, r: Rec, nodes: Arena, nodes': Arena)
    requires AllValid(regs, nodes) && nodes <= nodes' && Valid(r, nodes')
    ensures AllValid(regs + [r], nodes')
  {
    forall i | 0 <= i < |regs + [r]|
      ensures Valid((regs + [r])[i], nodes')
    {
      if i < |regs| { assert Valid(regs[i], nodes); }
    }
  }

  /** One new result. */
  lemma TracksPush(run: Run, p: Point, nodes: Arena, r: Rec, v: Qm31, inputs: seq<Qm31>)
    requires Tracks(run, p) && WellFormed(nodes) && run.s.nodes <= nodes && Valid(r, nodes) && r.value == v
    ensures Tracks(Run(run.s.(nodes := nodes), run.regs + [r], inputs), p.(regs := p.regs + [v], inputs := inputs))
  {
    hide WellFormed, Composition;
    StateGrows(run.s, nodes);
    RegsGrow(run.regs, r, run.s.nodes, nodes);
    hide Valid, AllValid;
  }

  lemma StepTracks(run: Run, p: Point, instr: Instr, inverter: Inverter)
    requires Tracks(run, p) && Inverts(inverter)
    ensures StepRun(run, instr, inverter).Some? <==> StepPoint(p, instr, inverter).Some?
    ensures StepRun(run, instr, inverter).Some? ==>
              Tracks(StepRun(run, instr, inverter).value, StepPoint(p, instr, inverter).value)
  {
    match instr
    case Constraint(i) => ConstraintTracks(run, p, i);
    case Component =>
      if run.inputs != [] {
        RecordOK(run.s.nodes, run.inputs[0]);
        StateGrows(run.s, Record(run.s.nodes, run.inputs[0]).0);
        hide WellFormed, Composition;
      }
    case _ => ResultTracks(run, p, instr, inverter);
  }

  lemma ResultTracks(run: Run, p: Point, instr: Instr, inverter: Inverter)
    requires Tracks(run, p) && Inverts(inverter) && !instr.Constraint? && !instr.Component?
    ensures StepRun(run, instr, inverter).Some? <==> StepPoint(p, instr, inverter).Some?
    ensures StepRun(run, instr, inverter).Some? ==>
              Tracks(StepRun(run, instr, inverter).value, StepPoint(p, instr, inverter).value)
  {
    ParallelRegs(run, p);
    hide WellFormed, Composition, Tracks, Computed, QMul, QNeg, QAdd, QSub;
    var nodes := run.s.nodes;
    match instr
    case MaskValue =>
      if run.inputs != [] {
        RecordOK(nodes, run.inputs[0]);
        var (nodes', r) := Record(nodes, run.inputs[0]);
        TracksPush(run, p, nodes', r, run.inputs[0], run.inputs[1..]);
      }
    case Constant(v) => TracksPush(run, p, nodes, Literal(v), v, run.inputs);
    case Combine(op, i, j) =>
      if i < |run.regs| && j < |run.regs| {
        BinaryOK(nodes, op, run.regs[i], run.regs[j]);
        var (nodes', r) := Binary(nodes, op, run.regs[i], run.regs[j]);
        TracksPush(run, p, nodes', r, Apply(op, p.regs[i], p.regs[j]), run.inputs);
      }
    case Negation(i) =>
      if i < |run.regs| {
        NegateOK(nodes, run.regs[i]);
        var (nodes', r) := Negate(nodes, run.regs[i]);
        TracksPush(run, p, nodes', r, QNeg(p.regs[i]), run.inputs);
      }
    case Inversion(i) =>
      if i < |run.regs| && inverter(run.regs[i].value).Some? {
        InvertOK(nodes, run.regs[i], inverter);
        var (nodes', r) := Invert(nodes, run.regs[i], inverter).value;
        TracksPush(run, p, nodes', r, inverter(p.regs[i]).value, run.inputs);
      }
  }

  lemma ParallelRegs(run: Run, p: Point)
    requires Tracks(run, p)
    ensures |run.regs| == |p.regs| && run.inputs == p.inputs && WellFormed(run.s.nodes)
    ensures forall i :: 0 <= i < |p.regs| ==> run.regs[i].value == p.regs[i] && Valid(run.regs[i], run.s.nodes)
  {
    hide WellFormed, Composition;
  }

  lemma ConstraintTracks(run: Run, p: Point, i: nat)
    requires Tracks(run, p)
    ensures StepRun(run, Constraint(i), _ => None).Some? <==> i < |p.regs|
    ensures i < |p.regs| ==>
              Tracks(run.(s := AddConstraint(run.s, run.regs[i])),
                     p.(weighted := p.weighted + [QMul(p.denomInverse, p.regs[i])]))
  {
    hide WellFormed, Composition, QMul, QAdd;
    if i < |p.regs| {
      ParallelRegs(run, p);
      AddConstraintOK(run.s, run.regs[i]);
      CompositionPush(p.weighted, p.alpha, QMul(p.denomInverse, p.regs[i]));
      hide AddConstraint;
      forall k | 0 <= k < |run.regs|
        ensures Valid(run.regs[k], AddConstraint(run.s, run.regs[i]).nodes)
      {
        assert Valid(run.regs[k], run.s.nodes);
      }
    }
  }

  /**
   * A recording succeeds exactly when the point evaluation does; its arena is well
   * formed, every handle carries the evaluated value, and the accumulation is the
   * composition of the weighted constraints in powers of alpha, across components.
   */
  lemma {:induction false} RecordingFaithful(prog: seq<Instr>, inputs: seq<Qm31>, inverter: Inverter)
    requires Inverts(inverter)
    ensures Recording(prog, inputs, inverter).Some? <==> Evaluation(prog, inputs, inverter).Some?
    ensures Recording(prog, inputs, inverter).Some? ==>
              Tracks(Recording(prog, inputs, inverter).value, Evaluation(prog, inputs, inverter).value)
  {
    if |inputs| < 2 {
    } else if prog == [] {
      StartTracks(inputs);
    } else {
      hide Tracks, StepRun, StepPoint, Inverts;
      var n := |prog| - 1;
      RecordingFaithful(prog[..n], inputs, inverter);
      var before := Recording(prog[..n], inputs, inverter);
      if before.Some? {
        StepTracks(before.value, Evaluation(prog[..n], inputs, inverter).value, prog[n], inverter);
      }
    }
  }

  lemma StartTracks(inputs: seq<Qm31>)
    requires |inputs| >= 2
    ensures Tracks(Run(Start(inputs[0], inputs[1]), [], inputs[2..]), Point([], inputs[0], inputs[1], [], inputs[2..]))
  {
    var nodes := Start(inputs[0], inputs[1]).nodes;
    assert nodes == [Node(Input, inputs[0]), Node(Input, inputs[1])];
    assert Computed(nodes, 0) && Computed(nodes, 1);
  }

  // -- The operations do not depend on the masks ---------------------------------------------------

  ghost predicate SameOps(a: Arena, b: Arena) {
    |a| == |b| && forall i :: 0 <= i < |a| ==> a[i].op == b[i].op
  }

  /** Equal constants, or the same node of either arena. */
  ghost predicate SameHandle(r: Rec, q: Rec) {
    match r
    case Literal(_) => q == r
    case Ref(id, _) => q.Ref? && q.id == id
  }

  ghost predicate SameHandles(rs: seq<Rec>, qs: seq<Rec>) {
    |rs| == |qs| && forall i :: 0 <= i < |rs| ==> SameHandle(rs[i], qs[i])
  }

  ghost predicate SameShape(run: Run, run': Run) {
    && SameOps(run.s.nodes, run'.s.nodes) && SameHandle(run.s.alpha, run'.s.alpha)
    && SameHandle(run.s.denomInverse, run'.s.denomInverse) && SameHandle(run.s.accumulation, run'.s.accumulation)
    && SameHandles(run.regs, run'.regs) && |run.inputs| == |run'.inputs|
  }

  lemma SameNodeId(a: Arena, b: Arena, r: Rec, q: Rec)
    requires SameOps(a, b) && SameHandle(r, q)
    ensures SameOps(NodeId(a, r).0, NodeId(b, q).0) && NodeId(a, r).1 == NodeId(b, q).1
  {
  }

  lemma SameBinary(a: Arena, b: Arena, op: BinOp, l: Rec, l': Rec, r: Rec, r': Rec)
    requires SameOps(a, b) && SameHandle(l, l') && SameHandle(r, r')
    ensures SameOps(Binary(a, op, l, r).0, Binary(b, op, l', r').0)
    ensures SameHandle(Binary(a, op, l, r).1, Binary(b, op, l', r').1)
  {
    hide Apply, SameOps;
    if l.Literal? && r.Literal? {
    } else {
      SameNodeId(a, b, l, l');
      SameNodeId(NodeId(a, l).0, NodeId(b, l').0, r, r');
      var (nodes, i) := NodeId(a, l);
      var (nodes', j) := NodeId(nodes, r);
      SamePush(nodes', NodeId(NodeId(b, l').0, r').0, NodeOp(op, i, j), Apply(op, l.value, r.value), Apply(op, l'.value, r'.value));
    }
  }

  lemma SamePush(a: Arena, b: Arena, op: CircuitRows.Op, v: Qm31, v': Qm31)
    requires SameOps(a, b)
    ensures |a| == |b| && SameOps(a + [Node(op, v)], b + [Node(op, v')])
  {
  }

  lemma SamePushed(rs: seq<Rec>, qs: seq<Rec>, r: Rec, q: Rec)
    requires SameHandles(rs, qs) && SameHandle(r, q)
    ensures SameHandles(rs + [r], qs + [q])
  {
  }

  lemma StepSame(run: Run, run': Run, instr: Instr, inverter: Inverter)
    requires SameShape(run, run')
    requires StepRun(run, instr, inverter).Some? && StepRun(run', instr, inverter).Some?
    ensures SameShape(StepRun(run, instr, inverter).value, StepRun(run', instr, inverter).value)
  {
    hide Apply, SameOps, QNeg, SameHandles;
    SameRegs(run.regs, run'.regs);
    var a, b := run.s.nodes, run'.s.nodes;
    match instr
    case MaskValue =>
      SamePush(a, b, Input, run.inputs[0], run'.inputs[0]);
      SamePushed(run.regs, run'.regs, Record(a, run.inputs[0]).1, Record(b, run'.inputs[0]).1);
    case Constant(v) => SamePushed(run.regs, run'.regs, Literal(v), Literal(v));
    case Combine(op, i, j) =>
      SameBinary(a, b, op, run.regs[i], run'.regs[i], run.regs[j], run'.regs[j]);
      SamePushed(run.regs, run'.regs, Binary(a, op, run.regs[i], run.regs[j]).1, Binary(b, op, run'.regs[i], run'.regs[j]).1);
      hide Binary;
    case Negation(i) =>
      var r, q := run.regs[i], run'.regs[i];
      if r.Ref? { SamePush(a, b, CircuitRows.Neg(r.id), QNeg(r.value), QNeg(q.value)); }
      SamePushed(run.regs, run'.regs, Negate(a, r).1, Negate(b, q).1);
    case Inversion(i) =>
      var r, q := run.regs[i], run'.regs[i];
      if r.Ref? { SamePush(a, b, Inverse(r.id), inverter(r.value).value, inverter(q.value).value); }
      SamePushed(run.regs, run'.regs, Invert(a, r, inverter).value.1, Invert(b, q, inverter).value.1);
    case Constraint(i) => SameConstraint(run.s, run'.s, run.regs[i], run'.regs[i]);
    case Component => SamePush(a, b, Input, run.inputs[0], run'.inputs[0]);
  }

  lemma SameRegs(rs: seq<Rec>, qs: seq<Rec>)
    requires SameHandles(rs, qs)
    ensures |rs| == |qs| && forall i :: 0 <= i < |rs| ==> SameHandle(rs[i], qs[i])
  {
  }

  lemma SameConstraint(s: RState, s': RState, r: Rec, q: Rec)
    requires SameOps(s.nodes, s'.nodes) && SameHandle(s.alpha, s'.alpha) && SameHandle(s.denomInverse, s'.denomInverse)
    requires SameHandle(s.accumulation, s'.accumulation) && SameHandle(r, q)
    ensures var t, t' := AddConstraint(s, r), AddConstraint(s', q);
            && SameOps(t.nodes, t'.nodes) && SameHandle(t.accumulation, t'.accumulation)
            && t.alpha == s.alpha && t.denomInverse == s.denomInverse
            && t'.alpha == s'.alpha && t'.denomInverse == s'.denomInverse
  {
    hide Binary, SameOps;
    SameBinary(s.nodes, s'.nodes, Times, s.denomInverse, s'.denomInverse, r, q);
    var (a, weighted) := Binary(s.nodes, Times, s.denomInverse, r);
    var (b, weighted') := Binary(s'.nodes, Times, s'.denomInverse, q);
    SameBinary(a, b, Times, s.accumulation, s'.accumulation, s.alpha, s'.alpha);
    var (c, scaled) := Binary(a, Times, s.accumulation, s.alpha);
    var (d, scaled') := Binary(b, Times, s'.accumulation, s'.alpha);
    SameBinary(c, d, Plus, scaled, scaled', weighted, weighted');
  }

  /** Two recordings of one program, on any inputs, record the same operations. */
  lemma {:induction false} OperationsMaskIndependent(
      prog: seq<Instr>, inputs: seq<Qm31>, inputs': seq<Qm31>, inverter: Inverter)
    requires |inputs| == |inputs'|
    requires Recording(prog, inputs, inverter).Some? && Recording(prog, inputs', inverter).Some?
    ensures SameShape(Recording(prog, inputs, inverter).value, Recording(prog, inputs', inverter).value)
  {
    if prog != [] {
      hide StepRun, SameShape;
      var n := |prog| - 1;
      OperationsMaskIndependent(prog[..n], inputs, inputs', inverter);
      StepSame(Recording(prog[..n], inputs, inverter).value, Recording(prog[..n], inputs', inverter).value, prog[n], inverter);
    }
  }
}
