// The segmenting run loop: a segment is closed when its clock reaches the limit,
// and the next one starts from its registers, memory and program counter with a
// fresh tracer. What an instruction does is a parameter.
module SegmentLoop {
  import opened Wrappers
  import opened Tracing
  import opened Machine
  import opened Commitment
  import opened Segments

  /** One executed instruction: the clock ticks, then its accesses. */
  ghost predicate Instruction(ops: seq<Op>) {
    |ops| >= 1 && ops[0] == Tick && forall i :: 1 <= i < |ops| ==> AccessOK(ops[i])
  }

  ghost predicate AccessOK(op: Op) {
    match op
    case Tick => false
    case ReadReg(i) => i < 32
    case WriteReg(i, _) => i < 32
    case ReadMem(_) => true
    case WriteMem(a, bytes) => a + |bytes| <= Aligned(a) + 4
  }

  /** What lies at the program counter: nothing decodable, a jump to itself, or an instruction with its
      accesses and its successor. */
  datatype Fetched = Undecodable | Spin | Inst(ops: seq<Op>, next: nat)

  /** Fetching and executing, as a function of registers, memory and program counter. */
  type Processor = (seq<nat>, Data, nat) -> Fetched

  ghost predicate Sound(p: Processor) {
    forall regs, data, pc :: p(regs, data, pc).Inst? ==> Instruction(p(regs, data, pc).ops)
  }

  datatype End = Halted(pc: nat) | InvalidInstruction(pc: nat) | MaxCyclesExceeded(cycles: nat)

  datatype Segment = Segment(start: MState, initialPc: nat, ops: seq<Op>, end: MState, finalPc: nat, role: Role)

  /** execute: run one instruction's accesses in order. */
  method Execute(m: MState, ghost start: MState, ghost before: seq<Op>, ops: seq<Op>) returns (m': MState)
    requires Shaped(start) && Runs(start, before) && m == After(start, before) && Instruction(ops)
    ensures Runs(start, before + ops) && m' == After(start, before + ops)
    ensures m'.t.clock == m.t.clock + 1
  {
    hide Step, Allowed;
    m' := m;
    var i := 0;
    assert before + ops[..0] == before;
    while i < |ops|
      invariant i <= |ops| && Runs(start, before + ops[..i]) && m' == After(start, before + ops[..i])
      invariant m'.t.clock == m.t.clock + (if i == 0 then 0 else 1)
    {
      var next := before + ops[..i + 1];
      assert next[..|next| - 1] == before + ops[..i] && next[|next| - 1] == ops[i];
      OpAllowed(m', ops, i);
      m' := Step(m', ops[i]);
      i := i + 1;
    }
    assert ops[..i] == ops;
  }

  lemma OpAllowed(m: MState, ops: seq<Op>, i: nat)
    requires Shaped(m) && Instruction(ops) && i < |ops| && (i > 0 ==> m.t.clock >= 1)
    ensures Allowed(m, ops[i])
    ensures Step(m, ops[i]).t.clock == m.t.clock + (if i == 0 then 1 else 0)
  {
    hide GapRows, CaughtUp, WriteBytes;
  }

  lemma {:induction false} PrefixRuns(m: MState, ops: seq<Op>, i: nat)
    requires Shaped(m) && Instruction(ops) && i <= |ops|
    ensures Runs(m, ops[..i]) && After(m, ops[..i]).t.clock == m.t.clock + (if i == 0 then 0 else 1)
    decreases i
  {
    hide Step, Allowed;
    if i > 0 {
      PrefixRuns(m, ops, i - 1);
      assert ops[..i][..i - 1] == ops[..i - 1] && ops[..i][i - 1] == ops[i - 1];
      OpAllowed(After(m, ops[..i - 1]), ops, i - 1);
    }
  }

  /** An instruction can be executed anywhere, and ticks once. */
  lemma InstructionRuns(m: MState, ops: seq<Op>)
    requires Shaped(m) && Instruction(ops)
    ensures Runs(m, ops) && After(m, ops).t.clock == m.t.clock + 1
  {
    PrefixRuns(m, ops, |ops|);
    assert ops[..|ops|] == ops;
  }

  /** The execution without segments: its accesses and how it ends. */
  ghost function Execution(p: Processor, halt: nat, m: MState, pc: nat, maxCycles: nat): (seq<Op>, End)
    requires Shaped(m) && Sound(p)
    decreases if m.t.clock <= maxCycles then maxCycles + 1 - m.t.clock else 0
  {
    if ReadWord(m.data, halt) != 0 then ([], Halted(pc))
    else
      match p(m.regs, m.data, pc)
      case Undecodable => ([], InvalidInstruction(pc))
      case Spin => ([], Halted(pc))
      case Inst(ops, next) =>
        InstructionRuns(m, ops);
        var m' := After(m, ops);
        if next == pc then (ops, Halted(pc))
        else if m'.t.clock > maxCycles then (ops, MaxCyclesExceeded(m'.t.clock))
        else
          var (rest, end) := Execution(p, halt, m', next, maxCycles);
          (ops + rest, end)
  }

  /** Segment k ran from where the one before it ended; only the ends have special roles. */
  ghost predicate Link(init: MState, segments: seq<Segment>, last: bool, k: nat)
    requires k < |segments|
  {
    var s := segments[k];
    && Shaped(s.start) && Runs(s.start, s.ops) && s.end == After(s.start, s.ops)
    && s.start == (if k == 0 then init else Next(segments[k - 1].end))
    && s.role == Role(k == 0, last && k == |segments| - 1)
  }

  /** Segments in order. */
  ghost predicate Chained(init: MState, segments: seq<Segment>, last: bool) {
    forall k :: 0 <= k < |segments| ==> Link(init, segments, last, k)
  }

  function OpsOf(segments: seq<Segment>): seq<Op> {
    if segments == [] then [] else OpsOf(segments[..|segments| - 1]) + segments[|segments| - 1].ops
  }

  /** No segment runs longer than the limit, and only the last one may be shorter. */
  ghost predicate Limited(segments: seq<Segment>, limit: Option<nat>, closed: nat)
    requires closed <= |segments|
  {
    limit.Some? ==>
      && (forall k :: 0 <= k < |segments| ==> segments[k].end.t.clock <= limit.value)
      && (forall k :: 0 <= k < closed ==> segments[k].end.t.clock == limit.value)
  }

  lemma OpsPush(segments: seq<Segment>, s: Segment)
    ensures OpsOf(segments + [s]) == OpsOf(segments) + s.ops
  {
    assert (segments + [s])[..|segments|] == segments;
  }

  lemma ChainedPush(init: MState, segments: seq<Segment>, s: Segment, last: bool)
    requires Chained(init, segments, false) && Shaped(s.start) && Runs(s.start, s.ops) && s.end == After(s.start, s.ops)
    requires s.start == (if segments == [] then init else Next(segments[|segments| - 1].end))
    requires s.role == Role(segments == [], last)
    ensures Chained(init, segments + [s], last)
  {
    hide Runs, After;
    forall k | 0 <= k < |segments + [s]|
      ensures Link(init, segments + [s], last, k)
    {
      if k < |segments| { assert Link(init, segments, false, k); }
    }
  }

  /** Program counters are handed over, from pc to the final one. */
  ghost predicate PcsChained(segments: seq<Segment>, pc: nat, finalPc: nat) {
    && (forall k :: 0 <= k < |segments| ==> segments[k].initialPc == PcAt(segments, pc, k))
    && finalPc == PcAt(segments, pc, |segments|)
  }

  /** The program counter before segment k. */
  function PcAt(segments: seq<Segment>, pc: nat, k: nat): nat
    requires k <= |segments|
  {
    if k == 0 then pc else segments[k - 1].finalPc
  }

  /** The same machine under another tracer. */
  ghost predicate SameMachine(m: MState, u: MState, completed: nat) {
    Shaped(m) && Shaped(u) && m.regs == u.regs && m.data == u.data && u.t.clock == completed + m.t.clock
  }

  /**
   * The run loop: halt flag, self-loops, invalid instructions and the cycle limit
   * stop it, and a segment is cut whenever the current tracer's clock has reached
   * the limit. Where it cuts changes nothing: the segments hold the accesses of
   * the execution without segments, which ends in the same way.
   */
  method RunSegments(init: MState, pc0: nat, p: Processor, halt: nat, limit: Option<nat>, maxCycles: nat)
    returns (segments: seq<Segment>, end: End)
    requires Started(init) && Sound(p) && (limit.Some? ==> limit.value > 0)
    ensures end == Execution(p, halt, init, pc0, maxCycles).1
    ensures end.Halted? ==>
              && |segments| >= 1 && Chained(init, segments, true) && PcsChained(segments, pc0, end.pc)
              && OpsOf(segments) == Execution(p, halt, init, pc0, maxCycles).0
              && Limited(segments, limit, |segments| - 1)
    ensures !end.Halted? ==> segments == []
  {
    hide Progress, Runs, After, Step, Instruction, Chained, OpsOf, Limited, Shaped, SameMachine, ReadWord, PcsChained,
         Execution, Sound, Started, Next, Link, PcAt;
    segments := [];
    var start, m, startPc, pc := init, init, pc0, pc0;
    var completed: nat := 0;
    var ops: seq<Op> := [];
    StartsSame(init);
    ghost var u, whole := init, Execution(p, halt, init, pc0, maxCycles);
    NothingYet(init, pc0, limit);
    while true
      invariant Progress(init, pc0, limit, segments, start, startPc, ops, m) && SameMachine(m, u, completed) && Shaped(u)
      invariant u.t.clock <= maxCycles || u.t.clock == 0
      invariant whole.0 == OpsOf(segments) + ops + Execution(p, halt, u, pc, maxCycles).0
      invariant whole.1 == Execution(p, halt, u, pc, maxCycles).1
      decreases maxCycles + 1 - u.t.clock
    {
      SameIs(m, u, completed);
      if ReadWord(m.data, halt) != 0 {
        StopsHere(p, halt, u, pc, maxCycles);
        break;
      }
      if limit.Some? && m.t.clock >= limit.value {
        var s := Segment(start, startPc, ops, m, pc, Role(segments == [], false));
        Cut(init, pc0, limit, segments, s);
        completed := completed + m.t.clock;
        segments := segments + [s];
        NextSame(m, u, completed);
        start, startPc, ops := Next(m), pc, [];
        m := start;
        SameIs(m, u, completed);
      }
      var fetched := p(m.regs, m.data, pc);
      match fetched {
        case Undecodable =>
          StopsHere(p, halt, u, pc, maxCycles);
          end := InvalidInstruction(pc);
          segments := [];
          return;
        case Spin =>
          StopsHere(p, halt, u, pc, maxCycles);
          break;
        case Inst(accesses, next) =>
          GoesOn(p, halt, u, pc, maxCycles);
          ghost var u' := After(u, accesses);
          ProgressRuns(init, pc0, limit, segments, start, startPc, ops, m);
          var m' := Execute(m, start, ops, accesses);
          ExecutesSame(m, m', u, start, ops, accesses, completed);
          Advance(init, pc0, limit, segments, start, startPc, ops, m, accesses);
          m, u, ops := m', u', ops + accesses;
          SameIs(m, u, completed);
          if next == pc {
            break;
          }
          if completed + m.t.clock > maxCycles {
            end := MaxCyclesExceeded(completed + m.t.clock);
            segments := [];
            return;
          }
          pc := next;
      }
    }
    end := Halted(pc);
    var s := Segment(start, startPc, ops, m, pc, Role(segments == [], true));
    Finish(init, pc0, limit, segments, s);
    segments := segments + [s];
  }

  /** The segments closed so far, and the one that is running. */
  ghost predicate Progress(
      init: MState, pc0: nat, limit: Option<nat>, segments: seq<Segment>, start: MState, startPc: nat, ops: seq<Op>, m: MState)
  {
    && Shaped(start) && Runs(start, ops) && m == After(start, ops)
    && start == (if segments == [] then init else Next(segments[|segments| - 1].end))
    && Chained(init, segments, false) && Limited(segments, limit, |segments|) && PcsChained(segments, pc0, startPc)
    && (limit.Some? ==> m.t.clock <= limit.value)
  }

  lemma NothingYet(init: MState, pc0: nat, limit: Option<nat>)
    requires Started(init)
    ensures Progress(init, pc0, limit, [], init, pc0, [], init) && OpsOf([]) == []
  {
    NothingRun(init);
    NothingChained(init, limit, pc0);
    StartsSame(init);
    hide Chained, Limited, PcsChained, Shaped, Runs, After, OpsOf, Started, SameMachine;
  }

  lemma ProgressRuns(
      init: MState, pc0: nat, limit: Option<nat>, segments: seq<Segment>, start: MState, startPc: nat, ops: seq<Op>, m: MState)
    requires Progress(init, pc0, limit, segments, start, startPc, ops, m)
    ensures Shaped(start) && Runs(start, ops) && m == After(start, ops)
  {
    hide Chained, Limited, PcsChained, Shaped, Runs, After;
  }

  /** Closing the running segment. */
  lemma Cut(init: MState, pc0: nat, limit: Option<nat>, segments: seq<Segment>, s: Segment)
    requires Progress(init, pc0, limit, segments, s.start, s.initialPc, s.ops, s.end) && s.role == Role(segments == [], false)
    requires limit.Some? && s.end.t.clock >= limit.value
    ensures Progress(init, pc0, limit, segments + [s], Next(s.end), s.finalPc, [], Next(s.end))
    ensures OpsOf(segments + [s]) == OpsOf(segments) + s.ops
  {
    hide Chained, Limited, PcsChained, Shaped, Runs, After, OpsOf, Started;
    ChainedPush(init, segments, s, false);
    OpsPush(segments, s);
    PcsPush(segments, s, pc0);
    LimitedPush(segments, s, limit, |segments| + 1);
    NextStarted(s.end);
    StartedShaped(Next(s.end));
    NothingRun(Next(s.end));
  }

  lemma StartedShaped(m: MState)
    requires Started(m)
    ensures Shaped(m) && m.t.clock == 0
  {
  }

  lemma Advance(
      init: MState, pc0: nat, limit: Option<nat>, segments: seq<Segment>, start: MState, startPc: nat, ops: seq<Op>, m: MState,
      accesses: seq<Op>)
    requires Progress(init, pc0, limit, segments, start, startPc, ops, m) && Instruction(accesses)
    requires limit.Some? ==> m.t.clock < limit.value
    ensures Runs(start, ops + accesses)
    ensures Progress(init, pc0, limit, segments, start, startPc, ops + accesses, After(start, ops + accesses))
  {
    hide Chained, Limited, PcsChained, Shaped, Runs, After, Instruction;
    InstructionRuns(m, accesses);
    RunsJoin(start, ops, accesses);
  }

  /** The last segment. */
  lemma Finish(init: MState, pc0: nat, limit: Option<nat>, segments: seq<Segment>, s: Segment)
    requires Progress(init, pc0, limit, segments, s.start, s.initialPc, s.ops, s.end) && s.role == Role(segments == [], true)
    ensures Chained(init, segments + [s], true) && PcsChained(segments + [s], pc0, s.finalPc)
    ensures Limited(segments + [s], limit, |segments|) && OpsOf(segments + [s]) == OpsOf(segments) + s.ops
  {
    hide Chained, Limited, PcsChained, Shaped, Runs, After, OpsOf;
    ChainedPush(init, segments, s, true);
    OpsPush(segments, s);
    PcsPush(segments, s, pc0);
    LimitedPush(segments, s, limit, |segments|);
  }

  lemma {:induction false} RunsJoin(m: MState, a: seq<Op>, b: seq<Op>)
    requires Shaped(m) && Runs(m, a) && Runs(After(m, a), b)
    ensures Runs(m, a + b) && After(m, a + b) == After(After(m, a), b)
    decreases |b|
  {
    hide Step, Allowed;
    if b == [] {
      assert a + b == a;
    } else {
      var n := |b| - 1;
      assert (a + b)[..|a| + n] == a + b[..n] && (a + b)[|a| + n] == b[n];
      RunsJoin(m, a, b[..n]);
    }
  }

  lemma StartsSame(init: MState)
    requires Started(init)
    ensures Shaped(init) && SameMachine(init, init, 0) && init.t.clock == 0
  {
  }

  lemma SameIs(m: MState, u: MState, completed: nat)
    requires SameMachine(m, u, completed)
    ensures m.regs == u.regs && m.data == u.data && u.t.clock == completed + m.t.clock && Shaped(u) && Shaped(m)
  {
  }

  lemma NextSame(m: MState, u: MState, completed: nat)
    requires completed >= m.t.clock && SameMachine(m, u, completed - m.t.clock)
    ensures SameMachine(Next(m), u, completed)
  {
    NextStarted(m);
  }

  lemma ExecutesSame(m: MState, m': MState, u: MState, start: MState, before: seq<Op>, ops: seq<Op>, completed: nat)
    requires Shaped(start) && Runs(start, before + ops) && Runs(start, before) && m == After(start, before)
    requires m' == After(start, before + ops) && Instruction(ops) && SameMachine(m, u, completed)
    ensures Runs(u, ops) && SameMachine(m', After(u, ops), completed)
  {
    hide Runs, After, Instruction;
    RunsConcat(start, before, ops);
    InstructionRuns(m, ops);
    InstructionRuns(u, ops);
    RunForgetsTracer(m, u, ops);
  }

  lemma PcsPush(segments: seq<Segment>, s: Segment, pc: nat)
    requires PcsChained(segments, pc, s.initialPc)
    ensures PcsChained(segments + [s], pc, s.finalPc)
  {
    var more := segments + [s];
    forall k | 0 <= k < |more|
      ensures more[k].initialPc == PcAt(more, pc, k)
    {
      assert PcAt(more, pc, k) == PcAt(segments, pc, k);
    }
  }

  /** Stopping without an instruction. */
  lemma StopsHere(p: Processor, halt: nat, m: MState, pc: nat, maxCycles: nat)
    requires Shaped(m) && Sound(p) && (ReadWord(m.data, halt) != 0 || !p(m.regs, m.data, pc).Inst?)
    ensures Execution(p, halt, m, pc, maxCycles)
         == ([], if ReadWord(m.data, halt) == 0 && p(m.regs, m.data, pc).Undecodable? then InvalidInstruction(pc) else Halted(pc))
  {
  }

  /** One instruction of the execution. */
  lemma GoesOn(p: Processor, halt: nat, m: MState, pc: nat, maxCycles: nat)
    requires Shaped(m) && Sound(p) && ReadWord(m.data, halt) == 0 && p(m.regs, m.data, pc).Inst?
    ensures var ops, next := p(m.regs, m.data, pc).ops, p(m.regs, m.data, pc).next;
            && Instruction(ops) && Runs(m, ops) && After(m, ops).t.clock == m.t.clock + 1
            && var e, cycles := Execution(p, halt, m, pc, maxCycles), m.t.clock + 1;
               if next == pc then e == (ops, Halted(pc))
               else if cycles > maxCycles then e == (ops, MaxCyclesExceeded(cycles))
               else e == (ops + Execution(p, halt, After(m, ops), next, maxCycles).0,
                          Execution(p, halt, After(m, ops), next, maxCycles).1)
  {
    hide ReadWord, Instruction;
    InstructionRuns(m, p(m.regs, m.data, pc).ops);
    hide Runs, After;
  }

  lemma NothingRun(m: MState)
    requires Shaped(m)
    ensures Runs(m, []) && After(m, []) == m
  {
  }

  lemma NothingChained(init: MState, limit: Option<nat>, pc: nat)
    ensures Chained(init, [], false) && Limited([], limit, 0) && OpsOf([]) == [] && PcsChained([], pc, pc)
  {
  }

  lemma LimitedPush(segments: seq<Segment>, s: Segment, limit: Option<nat>, closed: nat)
    requires Limited(segments, limit, |segments|) && |segments| <= closed <= |segments| + 1
    requires limit.Some? ==> s.end.t.clock <= limit.value && (closed > |segments| ==> s.end.t.clock == limit.value)
    ensures Limited(segments + [s], limit, closed)
  {
  }

  lemma NextStarted(m: MState)
    requires Shaped(m)
    ensures Started(Next(m))
  {
    var d := m.t.maxDiff;
    assert Fresh(d).maxDiff == d && |Fresh(d).regClock| == 32;
  }

  lemma SegmentStarted(init: MState, segments: seq<Segment>, k: nat)
    requires Started(init) && Chained(init, segments, true) && k < |segments|
    ensures Started(segments[k].start)
  {
    hide Runs, After;
    assert Link(init, segments, true, k);
    if k > 0 {
      assert Link(init, segments, true, k - 1);
      NextStarted(segments[k - 1].end);
    }
  }

  /**
   * In every segmented run the final memory root of each segment is the initial
   * root of the next if the first segment accessed its non-zero input words and
   * bare words agree, and otherwise only where the hash collides above a changed leaf.
   */
  lemma ConsecutiveRoots(
      init: MState, segments: seq<Segment>, k: nat, l: Layout, h: SparseTree.Hash, defaults: seq<int>,
      leaves: SparseTree.Level, leaves': SparseTree.Level, nodes: seq<SparseTree.NodeData>, nodes': seq<SparseTree.NodeData>,
      root: int, root': int)
    requires Started(init) && Chained(init, segments, true) && k + 1 < |segments| && InField(l)
    requires FinalLeaves(leaves, Of(segments[k].end), l, segments[k].role)
    requires InitialLeaves(leaves', Of(segments[k + 1].end), l, segments[k + 1].role)
    requires SparseTree.Defaults(defaults, h, HEIGHT)
    requires SparseTree.TreeOf(leaves, h, defaults, HEIGHT, nodes, root)
    requires SparseTree.TreeOf(leaves', h, defaults, HEIGHT, nodes', root')
    ensures var s, s' := Of(segments[k].end), Of(segments[k + 1].end);
            && (InputsAccessed(s, l, k == 0) && BareWordsAgree(s, s', l) ==> root == root')
            && (root == root' ==>
                  || (InputsAccessed(s, l, k == 0) && BareWordsAgree(s, s', l))
                  || ChangeHidden(s, s', l, k == 0, segments[k + 1].role.isLast, leaves, leaves', h))
  {
    var a, b := segments[k], segments[k + 1];
    SegmentStarted(init, segments, k);
    assert Link(init, segments, true, k) && Link(init, segments, true, k + 1);
    hide SparseTree.TreeOf, SparseTree.Defaults, FinalLeaves, InitialLeaves, InputsAccessed, BareWordsAgree, After, Runs;
    RootsChain(a.start, a.ops, b.ops, l, a.role.isFirst, b.role.isLast, h, defaults, leaves, leaves', nodes, nodes', root, root');
  }

  /** With no partly read-write word only the first segment's input matters. */
  lemma WholeWordRoots(
      init: MState, segments: seq<Segment>, k: nat, l: Layout, h: SparseTree.Hash, defaults: seq<int>,
      leaves: SparseTree.Level, leaves': SparseTree.Level, nodes: seq<SparseTree.NodeData>, nodes': seq<SparseTree.NodeData>,
      root: int, root': int)
    requires Started(init) && Chained(init, segments, true) && k + 1 < |segments| && WholeWords(l) && InField(l)
    requires FinalLeaves(leaves, Of(segments[k].end), l, segments[k].role)
    requires InitialLeaves(leaves', Of(segments[k + 1].end), l, segments[k + 1].role)
    requires SparseTree.Defaults(defaults, h, HEIGHT)
    requires SparseTree.TreeOf(leaves, h, defaults, HEIGHT, nodes, root)
    requires SparseTree.TreeOf(leaves', h, defaults, HEIGHT, nodes', root')
    ensures k > 0 || InputsAccessed(Of(segments[k].end), l, true) ==> root == root'
  {
    hide SparseTree.TreeOf, SparseTree.Defaults, FinalLeaves, InitialLeaves, BareWordsAgree, WholeWords, Chained;
    ConsecutiveRoots(init, segments, k, l, h, defaults, leaves, leaves', nodes, nodes', root, root');
    WholeWordsAgree(Of(segments[k].end), Of(segments[k + 1].end), l);
  }
}
