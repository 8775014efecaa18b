// Registers and byte memory with traced accesses, and what every run keeps: the
// memory-access bag of each cell telescopes from its initial to its current value.
module Machine {
  import opened Tracing

  // -- Memory -------------------------------------------------------------------------------

  type Byte = x: int | 0 <= x < 256

  type Data = map<nat, Byte>

  function Aligned(a: nat): nat { a - a % 4 }

  function ReadByte(data: Data, a: nat): Byte {
    if a in data then data[a] else 0
  }

  /** Little-endian word. */
  function ReadWord(data: Data, a: nat): nat {
    ReadByte(data, a) + 0x100 * ReadByte(data, a + 1) + 0x1_0000 * ReadByte(data, a + 2)
    + 0x100_0000 * ReadByte(data, a + 3)
  }

  function WriteBytes(data: Data, a: nat, bytes: seq<Byte>): Data {
    if bytes == [] then data
    else WriteBytes(data, a, bytes[..|bytes| - 1])[a + |bytes| - 1 := bytes[|bytes| - 1]]
  }

  /** Little-endian bytes of a value. */
  function LittleEndian(v: nat, n: nat): (bytes: seq<Byte>)
    ensures |bytes| == n
  {
    if n == 0 then [] else [v % 256] + LittleEndian(v / 256, n - 1)
  }

  lemma {:induction false} WriteFrame(data: Data, a: nat, bytes: seq<Byte>, b: nat)
    ensures b < a || b >= a + |bytes| ==>
              ReadByte(WriteBytes(data, a, bytes), b) == ReadByte(data, b) && (b in WriteBytes(data, a, bytes) <==> b in data)
    ensures a <= b < a + |bytes| ==> b in WriteBytes(data, a, bytes) && ReadByte(WriteBytes(data, a, bytes), b) == bytes[b - a]
    ensures data.Keys <= WriteBytes(data, a, bytes).Keys
    decreases |bytes|
  {
    if bytes != [] { WriteFrame(data, a, bytes[..|bytes| - 1], b); }
  }

  // -- The machine -------------------------------------------------------------------------------

  datatype MState = MState(regs: seq<nat>, data: Data, t: TState)

  /** One traced step of an instruction; Tick starts the next instruction. */
  datatype Op =
    | Tick
    | ReadReg(index: nat)
    | WriteReg(index: nat, value: nat)
    | ReadMem(addr: nat)
    | WriteMem(addr: nat, bytes: seq<Byte>)

  ghost predicate Shaped(m: MState) {
    |m.regs| == 32 && m.regs[0] == 0 && |m.t.regClock| == 32 && m.t.maxDiff > 0
  }

  /** Accesses happen inside instructions, on registers that exist and within one word. */
  ghost predicate Allowed(m: MState, op: Op) {
    match op
    case Tick => true
    case ReadReg(i) => m.t.clock >= 1 && i < 32
    case WriteReg(i, _) => m.t.clock >= 1 && i < 32
    case ReadMem(_) => m.t.clock >= 1
    case WriteMem(a, bytes) => m.t.clock >= 1 && a + |bytes| <= Aligned(a) + 4
  }

  function Step(m: MState, op: Op): MState
    requires Shaped(m) && Allowed(m, op)
  {
    match op
    case Tick => m.(t := m.t.(clock := m.t.clock + 1))
    case ReadReg(i) => m.(t := Trace(m.t, Reg(i), m.regs[i], m.regs[i]))
    case WriteReg(i, v) =>
      var next := if i == 0 then 0 else v;
      m.(regs := m.regs[i := next], t := Trace(m.t, Reg(i), m.regs[i], next))
    case ReadMem(a) =>
      var w := ReadWord(m.data, Aligned(a));
      m.(t := Trace(m.t, Mem(Aligned(a)), w, w))
    case WriteMem(a, bytes) =>
      var data := WriteBytes(m.data, a, bytes);
      m.(data := data, t := Trace(m.t, Mem(Aligned(a)), ReadWord(m.data, Aligned(a)), ReadWord(data, Aligned(a))))
  }

  // -- The invariant -----------------------------------------------------------------------------------

  ghost predicate InRange(cell: Cell) {
    cell.Reg? ==> cell.index < 32
  }

  /** Everything consumed and emitted for the cell, from (clock 0, init) to (last clock, current). */
  ghost predicate Conserved(t: TState, cell: Cell, init: nat, current: nat)
    requires |t.regClock| == 32 && InRange(cell)
  {
    forall u: Tuple :: u.cell == cell ==>
      Balance(t.gaps, u) + Balance(t.log, u) + Is(Tuple(cell, 0, init), u) - Is(Tuple(cell, LastClock(t, cell), current), u) == 0
  }

  /** Clock differences of recorded accesses stay range-checkable. */
  ghost predicate Spaced(events: seq<Event>, maxDiff: nat) {
    forall i :: 0 <= i < |events| ==> events[i].clockPrev <= events[i].clock <= events[i].clockPrev + maxDiff
  }

  ghost predicate ClocksOK(t: TState) {
    && |t.regClock| == 32 && t.maxDiff > 0
    && (forall i :: 0 <= i < 32 ==> t.regClock[i] <= t.clock)
    && (forall a :: a in t.memClock ==> 1 <= t.memClock[a] <= t.clock && a % 4 == 0)
    && t.memClock.Keys == t.memInitial.Keys
    && CatchUps(t.gaps, t.maxDiff) && Spaced(t.log, t.maxDiff)
  }

  ghost predicate RegOK(m: MState, init: MState, i: nat)
    requires Shaped(m) && Shaped(init) && i < 32
  {
    Conserved(m.t, Reg(i), init.regs[i], m.regs[i])
  }

  ghost predicate WordOK(m: MState, init: MState, a: nat)
    requires Shaped(m)
  {
    && Conserved(m.t, Mem(a), ReadWord(init.data, a), ReadWord(m.data, a))
    && (a in m.t.memInitial ==> m.t.memInitial[a] == ReadWord(init.data, a))
  }

  /** Bytes of words never accessed are as they were. */
  ghost predicate ByteOK(m: MState, init: MState, b: nat) {
    Aligned(b) !in m.t.memInitial ==> ReadByte(m.data, b) == ReadByte(init.data, b) && (b in m.data <==> b in init.data)
  }

  ghost predicate Inv(m: MState, init: MState) {
    && Shaped(m) && Shaped(init) && ClocksOK(m.t) && init.data.Keys <= m.data.Keys
    && (forall i :: 0 <= i < 32 ==> RegOK(m, init, i))
    && (forall a: nat :: a % 4 == 0 ==> WordOK(m, init, a))
    && (forall b: nat :: ByteOK(m, init, b))
  }

  /** A traced access moves its cell's tuple from prev to next. */
  lemma TraceConserves(t: TState, cell: Cell, init: nat, prev: nat, next: nat)
    requires |t.regClock| == 32 && t.maxDiff > 0 && InRange(cell) && Conserved(t, cell, init, prev)
    ensures Conserved(Trace(t, cell, prev, next), cell, init, next)
  {
    var t', last := Trace(t, cell, prev, next), LastClock(t, cell);
    var rows := GapRows(cell, prev, last, t.clock, t.maxDiff);
    var e := Event(cell, CaughtUp(last, t.clock, t.maxDiff), prev, t.clock, next);
    assert LastClock(t', cell) == t.clock;
    forall u: Tuple | u.cell == cell
      ensures Balance(t'.gaps, u) + Balance(t'.log, u) + Is(Tuple(cell, 0, init), u) - Is(Tuple(cell, t.clock, next), u) == 0
    {
      hide Is, Balance, GapRows, CaughtUp;
      BalanceAppend(t.gaps, rows, u);
      GapTelescopes(cell, prev, last, t.clock, t.maxDiff, u);
      BalancePush(t.log, e, u);
    }
  }

  /** Other cells are not touched. */
  lemma TraceFrame(t: TState, cell: Cell, prev: nat, next: nat, other: Cell, init: nat, current: nat)
    requires |t.regClock| == 32 && t.maxDiff > 0 && InRange(cell) && InRange(other) && other != cell
    requires Conserved(t, other, init, current)
    ensures Conserved(Trace(t, cell, prev, next), other, init, current)
  {
    var t', last := Trace(t, cell, prev, next), LastClock(t, cell);
    var rows := GapRows(cell, prev, last, t.clock, t.maxDiff);
    var e := Event(cell, CaughtUp(last, t.clock, t.maxDiff), prev, t.clock, next);
    assert LastClock(t', other) == LastClock(t, other);
    forall u: Tuple | u.cell == other
      ensures Balance(t'.gaps, u) + Balance(t'.log, u) == Balance(t.gaps, u) + Balance(t.log, u)
    {
      hide Balance, GapRows, CaughtUp;
      BalanceAppend(t.gaps, rows, u);
      GapTelescopes(cell, prev, last, t.clock, t.maxDiff, u);
      BalancePush(t.log, e, u);
    }
  }

  lemma TraceClocks(t: TState, cell: Cell, prev: nat, next: nat)
    requires ClocksOK(t) && InRange(cell) && t.clock >= 1 && (cell.Mem? ==> cell.addr % 4 == 0)
    ensures ClocksOK(Trace(t, cell, prev, next))
    ensures Trace(t, cell, prev, next).memInitial.Keys == t.memInitial.Keys + (if cell.Mem? then {cell.addr} else {})
  {
    var last := LastClock(t, cell);
    assert last <= t.clock;
    GapRowsCatchUp(cell, prev, last, t.clock, t.maxDiff);
    hide GapRows, CaughtUp;
  }

  // -- Steps keep the invariant -----------------------------------------------------------------------

  lemma StartInv(init: MState)
    requires Shaped(init) && init.t == Fresh(init.t.maxDiff)
    ensures Inv(init, init)
  {
    forall a: nat | a % 4 == 0
      ensures WordOK(init, init, a)
    {
    }
  }

  lemma RegStep(m: MState, init: MState, i: nat, next: nat)
    requires Inv(m, init) && i < 32 && m.t.clock >= 1 && (i == 0 ==> next == 0)
    ensures Inv(m.(regs := m.regs[i := next], t := Trace(m.t, Reg(i), m.regs[i], next)), init)
  {
    var m' := m.(regs := m.regs[i := next], t := Trace(m.t, Reg(i), m.regs[i], next));
    TraceClocks(m.t, Reg(i), m.regs[i], next);
    hide ClocksOK, Conserved;
    forall j | 0 <= j < 32
      ensures RegOK(m', init, j)
    {
      assert RegOK(m, init, j);
      if j == i {
        TraceConserves(m.t, Reg(i), init.regs[i], m.regs[i], next);
      } else {
        TraceFrame(m.t, Reg(i), m.regs[i], next, Reg(j), init.regs[j], m.regs[j]);
      }
    }
    forall a: nat | a % 4 == 0
      ensures WordOK(m', init, a)
    {
      assert WordOK(m, init, a);
      TraceFrame(m.t, Reg(i), m.regs[i], next, Mem(a), ReadWord(init.data, a), ReadWord(m.data, a));
    }
    forall b: nat
      ensures ByteOK(m', init, b)
    {
      assert ByteOK(m, init, b);
    }
  }

  /** A memory access of word w that leaves the bytes of other words alone. */
  lemma MemStep(m: MState, init: MState, w: nat, data: Data)
    requires Inv(m, init) && w % 4 == 0 && m.t.clock >= 1 && m.data.Keys <= data.Keys
    requires forall b: nat :: Aligned(b) != w ==> ReadByte(data, b) == ReadByte(m.data, b) && (b in data <==> b in m.data)
    ensures Inv(m.(data := data, t := Trace(m.t, Mem(w), ReadWord(m.data, w), ReadWord(data, w))), init)
  {
    var prev, next := ReadWord(m.data, w), ReadWord(data, w);
    var m' := m.(data := data, t := Trace(m.t, Mem(w), prev, next));
    TraceClocks(m.t, Mem(w), prev, next);
    hide ClocksOK, Conserved;
    forall j | 0 <= j < 32
      ensures RegOK(m', init, j)
    {
      assert RegOK(m, init, j);
      TraceFrame(m.t, Mem(w), prev, next, Reg(j), init.regs[j], m.regs[j]);
    }
    forall a: nat | a % 4 == 0
      ensures WordOK(m', init, a)
    {
      MemWordStep(m, m', init, w, a);
    }
    forall b: nat
      ensures ByteOK(m', init, b)
    {
      assert ByteOK(m, init, b);
    }
  }

  lemma MemWordStep(m: MState, m': MState, init: MState, w: nat, a: nat)
    requires Inv(m, init) && w % 4 == 0 && a % 4 == 0
    requires m' == m.(data := m'.data, t := Trace(m.t, Mem(w), ReadWord(m.data, w), ReadWord(m'.data, w)))
    requires forall b: nat :: Aligned(b) != w ==> ReadByte(m'.data, b) == ReadByte(m.data, b)
    ensures Shaped(m') && WordOK(m', init, a)
  {
    assert WordOK(m, init, a);
    var prev, next := ReadWord(m.data, w), ReadWord(m'.data, w);
    if a == w {
      if a !in m.t.memInitial { UntouchedWord(m, init, a); }
      hide Conserved, ReadWord, ClocksOK;
      TraceConserves(m.t, Mem(w), ReadWord(init.data, a), prev, next);
    } else {
      OtherWord(m.data, m'.data, w, a);
      hide Conserved, ReadWord, ClocksOK;
      TraceFrame(m.t, Mem(w), prev, next, Mem(a), ReadWord(init.data, a), ReadWord(m.data, a));
    }
  }

  lemma UntouchedWord(m: MState, init: MState, a: nat)
    requires Inv(m, init) && a % 4 == 0 && a !in m.t.memInitial
    ensures ReadWord(m.data, a) == ReadWord(init.data, a)
  {
    assert ByteOK(m, init, a) && ByteOK(m, init, a + 1) && ByteOK(m, init, a + 2) && ByteOK(m, init, a + 3);
    assert Aligned(a) == a && Aligned(a + 1) == a && Aligned(a + 2) == a && Aligned(a + 3) == a;
  }

  lemma OtherWord(data: Data, data': Data, w: nat, a: nat)
    requires w % 4 == 0 && a % 4 == 0 && a != w
    requires forall b: nat :: Aligned(b) != w ==> ReadByte(data', b) == ReadByte(data, b)
    ensures ReadWord(data', a) == ReadWord(data, a)
  {
    assert Aligned(a) == a && Aligned(a + 1) == a && Aligned(a + 2) == a && Aligned(a + 3) == a;
  }

  lemma StepKeeps(m: MState, init: MState, op: Op)
    requires Inv(m, init) && Allowed(m, op)
    ensures Inv(Step(m, op), init)
  {
    match op
    case Tick => TickKeeps(m, init);
    case ReadReg(i) =>
      RegStep(m, init, i, m.regs[i]);
      assert m.regs[i := m.regs[i]] == m.regs;
    case WriteReg(i, v) => RegStep(m, init, i, if i == 0 then 0 else v);
    case ReadMem(a) => MemStep(m, init, Aligned(a), m.data);
    case WriteMem(a, bytes) => WriteStep(m, init, a, bytes);
  }

  lemma TickKeeps(m: MState, init: MState)
    requires Inv(m, init)
    ensures Inv(Step(m, Tick), init)
  {
    var m' := Step(m, Tick);
    forall i | 0 <= i < 32
      ensures RegOK(m', init, i)
    {
      assert RegOK(m, init, i);
    }
    forall a: nat | a % 4 == 0
      ensures WordOK(m', init, a)
    {
      assert WordOK(m, init, a);
    }
    forall b: nat
      ensures ByteOK(m', init, b)
    {
      assert ByteOK(m, init, b);
    }
  }

  lemma WriteStep(m: MState, init: MState, a: nat, bytes: seq<Byte>)
    requires Inv(m, init) && Allowed(m, WriteMem(a, bytes))
    ensures Inv(Step(m, WriteMem(a, bytes)), init)
  {
    var data := WriteBytes(m.data, a, bytes);
    WriteFrame(m.data, a, bytes, 0);
    forall b: nat | Aligned(b) != Aligned(a)
      ensures ReadByte(data, b) == ReadByte(m.data, b) && (b in data <==> b in m.data)
    {
      WriteFrame(m.data, a, bytes, b);
    }
    hide Inv;
    MemStep(m, init, Aligned(a), data);
  }

  // -- Runs ------------------------------------------------------------------------------------------------

  ghost predicate Runs(init: MState, ops: seq<Op>)
    requires Shaped(init)
    decreases |ops|, 0
  {
    ops == [] || (Runs(init, ops[..|ops| - 1]) && Allowed(After(init, ops[..|ops| - 1]), ops[|ops| - 1]))
  }

  ghost function After(init: MState, ops: seq<Op>): (m: MState)
    requires Shaped(init) && Runs(init, ops)
    ensures Shaped(m) && m.t.maxDiff == init.t.maxDiff
    decreases |ops|, 1
  {
    if ops == [] then init
    else
      StepShaped(After(init, ops[..|ops| - 1]), ops[|ops| - 1]);
      Step(After(init, ops[..|ops| - 1]), ops[|ops| - 1])
  }

  lemma StepShaped(m: MState, op: Op)
    requires Shaped(m) && Allowed(m, op)
    ensures Shaped(Step(m, op)) && Step(m, op).t.maxDiff == m.t.maxDiff
  {
    hide GapRows, CaughtUp;
  }

  /**
   * Conservation: over any run from a fresh tracer, for every cell, consumed tuples
   * plus the final tuple are the emitted tuples plus the clock-0 tuple, catch-up
   * rows included, and every clock difference is at most maxDiff.
   */
  lemma {:induction false} RunConserves(init: MState, ops: seq<Op>)
    requires Shaped(init) && init.t == Fresh(init.t.maxDiff) && Runs(init, ops)
    ensures Inv(After(init, ops), init)
    decreases |ops|
  {
    hide Inv, Step, Allowed;
    if ops == [] {
      StartInv(init);
    } else {
      var n := |ops| - 1;
      RunConserves(init, ops[..n]);
      StepKeeps(After(init, ops[..n]), init, ops[n]);
    }
  }

  /** The public register terms: initial values at clock 0, final values at the last clocks. */
  function PublicRegisters(initial: seq<nat>, final: seq<nat>, lastClock: seq<nat>, n: nat, u: Tuple): int
    requires n <= |initial| && n <= |final| && n <= |lastClock|
  {
    if n == 0 then 0
    else
      PublicRegisters(initial, final, lastClock, n - 1, u)
      + Is(Tuple(Reg(n - 1), 0, initial[n - 1]), u) - Is(Tuple(Reg(n - 1), lastClock[n - 1], final[n - 1]), u)
  }

  lemma {:induction false} PublicRegisterTerm(initial: seq<nat>, final: seq<nat>, lastClock: seq<nat>, n: nat, u: Tuple)
    requires n <= |initial| && n <= |final| && n <= |lastClock|
    ensures PublicRegisters(initial, final, lastClock, n, u)
         == if u.cell.Reg? && u.cell.index < n
            then Is(Tuple(u.cell, 0, initial[u.cell.index]), u) - Is(Tuple(u.cell, lastClock[u.cell.index], final[u.cell.index]), u)
            else 0
  {
    if n > 0 { PublicRegisterTerm(initial, final, lastClock, n - 1, u); }
  }

  /** The register part of the bag is cancelled exactly by the public terms. */
  lemma RegistersCancel(init: MState, ops: seq<Op>, u: Tuple)
    requires Shaped(init) && init.t == Fresh(init.t.maxDiff) && Runs(init, ops)
    requires u.cell.Reg? && u.cell.index < 32
    ensures var m := After(init, ops);
            Balance(m.t.gaps, u) + Balance(m.t.log, u) + PublicRegisters(init.regs, m.regs, m.t.regClock, 32, u) == 0
  {
    var m := After(init, ops);
    RunConserves(init, ops);
    assert RegOK(m, init, u.cell.index);
    PublicRegisterTerm(init.regs, m.regs, m.t.regClock, 32, u);
    hide Balance, Is, Inv, PublicRegisters;
  }
}
