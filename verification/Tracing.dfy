// The execution tracer: last access clocks, synthetic catch-up rows, and the
// memory-access bag they keep telescoping.
module Tracing {

  // -- Accesses ---------------------------------------------------------------------------

  /** A register or an aligned memory word. */
  datatype Cell = Reg(index: nat) | Mem(addr: nat)

  /** Consumes (cell, clockPrev, prev) and emits (cell, clock, next). */
  datatype Event = Event(cell: Cell, clockPrev: nat, prev: nat, clock: nat, next: nat)

  datatype Tuple = Tuple(cell: Cell, clock: nat, value: nat)

  /** The access columns an opcode row is filled from. */
  datatype Access = Access(addr: nat, prev: nat, clockPrev: nat, next: nat)

  function Is(a: Tuple, t: Tuple): int {
    if a == t then 1 else 0
  }

  /** Emissions minus consumptions of t. */
  function Balance(events: seq<Event>, t: Tuple): int {
    if events == [] then 0
    else
      var e := events[|events| - 1];
      Balance(events[..|events| - 1], t) + Is(Tuple(e.cell, e.clock, e.next), t) - Is(Tuple(e.cell, e.clockPrev, e.prev), t)
  }

  lemma {:induction false} BalanceAppend(a: seq<Event>, b: seq<Event>, t: Tuple)
    ensures Balance(a + b, t) == Balance(a, t) + Balance(b, t)
    decreases |b|
  {
    if b == [] {
      assert a + b == a;
    } else {
      var n := |b| - 1;
      BalanceAppend(a, b[..n], t);
      assert (a + b)[..|a| + n] == a + b[..n] && (a + b)[|a| + n] == b[n];
    }
  }

  lemma BalancePush(events: seq<Event>, e: Event, t: Tuple)
    ensures Balance(events + [e], t)
         == Balance(events, t) + Is(Tuple(e.cell, e.clock, e.next), t) - Is(Tuple(e.cell, e.clockPrev, e.prev), t)
  {
    assert (events + [e])[..|events|] == events;
  }

  // -- Catch-up rows ----------------------------------------------------------------------------

  /** Where the catch-up of a gap ends: within maxDiff of the target. */
  function CaughtUp(clockPrev: nat, target: nat, maxDiff: nat): (c: nat)
    requires maxDiff > 0
    ensures c >= clockPrev && (clockPrev <= target ==> c <= target)
    ensures target <= c + maxDiff
    decreases if target > clockPrev then target - clockPrev else 0
  {
    if target > clockPrev + maxDiff then CaughtUp(clockPrev + maxDiff, target, maxDiff) else clockPrev
  }

  /** Value-preserving rows, one per maxDiff cycles. */
  function GapRows(cell: Cell, value: nat, clockPrev: nat, target: nat, maxDiff: nat): seq<Event>
    requires maxDiff > 0
    decreases if target > clockPrev then target - clockPrev else 0
  {
    if target > clockPrev + maxDiff then
      [Event(cell, clockPrev, value, clockPrev + maxDiff, value)]
      + GapRows(cell, value, clockPrev + maxDiff, target, maxDiff)
    else []
  }

  /** The catch-up rows move the cell's tuple forward, value unchanged. */
  lemma {:induction false} GapTelescopes(cell: Cell, value: nat, clockPrev: nat, target: nat, maxDiff: nat, t: Tuple)
    requires maxDiff > 0
    ensures Balance(GapRows(cell, value, clockPrev, target, maxDiff), t)
         == Is(Tuple(cell, CaughtUp(clockPrev, target, maxDiff), value), t) - Is(Tuple(cell, clockPrev, value), t)
    decreases if target > clockPrev then target - clockPrev else 0
  {
    if target > clockPrev + maxDiff {
      var first := Event(cell, clockPrev, value, clockPrev + maxDiff, value);
      GapTelescopes(cell, value, clockPrev + maxDiff, target, maxDiff, t);
      BalanceAppend([first], GapRows(cell, value, clockPrev + maxDiff, target, maxDiff), t);
      assert Balance([], t) == 0;
      BalancePush([], first, t);
      assert [] + [first] == [first];
    }
  }

  /** Each row advances the clock by exactly maxDiff and keeps its cell and value. */
  ghost predicate CatchUps(events: seq<Event>, maxDiff: nat) {
    forall i :: 0 <= i < |events| ==> events[i].clock == events[i].clockPrev + maxDiff && events[i].next == events[i].prev
  }

  lemma {:induction false} GapRowsCatchUp(cell: Cell, value: nat, clockPrev: nat, target: nat, maxDiff: nat)
    requires maxDiff > 0
    ensures CatchUps(GapRows(cell, value, clockPrev, target, maxDiff), maxDiff)
    decreases if target > clockPrev then target - clockPrev else 0
  {
    if target > clockPrev + maxDiff { GapRowsCatchUp(cell, value, clockPrev + maxDiff, target, maxDiff); }
  }

  // -- The tracer's state ------------------------------------------------------------------------------

  datatype TState = TState(
    clock: nat,
    maxDiff: nat,
    regClock: seq<nat>,
    memClock: map<nat, nat>,
    memInitial: map<nat, nat>,
    gaps: seq<Event>,
    log: seq<Event>)

  function Fresh(maxDiff: nat): TState {
    TState(0, maxDiff, seq(32, i => 0), map[], map[], [], [])
  }

  function LastClock(s: TState, cell: Cell): nat
    requires |s.regClock| == 32 && (cell.Reg? ==> cell.index < 32)
  {
    match cell
    case Reg(i) => s.regClock[i]
    case Mem(a) => if a in s.memClock then s.memClock[a] else 0
  }

  function SetClock(s: TState, cell: Cell, clock: nat): TState
    requires |s.regClock| == 32 && (cell.Reg? ==> cell.index < 32)
  {
    match cell
    case Reg(i) => s.(regClock := s.regClock[i := clock])
    case Mem(a) => s.(memClock := s.memClock[a := clock])
  }

  /** One traced access: catch up, record, stamp the clock. */
  function Trace(s: TState, cell: Cell, prev: nat, next: nat): TState
    requires |s.regClock| == 32 && s.maxDiff > 0 && (cell.Reg? ==> cell.index < 32)
  {
    var last := LastClock(s, cell);
    var initial := if cell.Mem? && cell.addr !in s.memInitial then s.memInitial[cell.addr := prev] else s.memInitial;
    SetClock(s, cell, s.clock).(
      memInitial := initial,
      gaps := s.gaps + GapRows(cell, prev, last, s.clock, s.maxDiff),
      log := s.log + [Event(cell, CaughtUp(last, s.clock, s.maxDiff), prev, s.clock, next)])
  }

  // -- The tracer in place --------------------------------------------------------------------------------

  class Tracer {
    var clock: nat
    const maxDiff: nat
    const regClock: array<nat>
    var memClock: map<nat, nat>
    var memInitial: map<nat, nat>
    var gaps: seq<Event>
    var log: seq<Event>

    ghost predicate Valid()
      reads this, regClock
    {
      regClock.Length == 32 && maxDiff > 0
    }

    ghost function State(): TState
      reads this, regClock
    {
      TState(clock, maxDiff, regClock[..], memClock, memInitial, gaps, log)
    }

    constructor (maxDiff: nat)
      requires maxDiff > 0
      ensures Valid() && fresh(regClock) && State() == Fresh(maxDiff)
    {
      this.maxDiff := maxDiff;
      regClock := new nat[32](i => 0);
      clock, memClock, memInitial, gaps, log := 0, map[], map[], [], [];
      new;
      assert regClock[..] == seq(32, i => 0);
    }

    /** Push catch-up rows until the target is within reach. */
    method FillGap(cell: Cell, value: nat, clockPrev: nat, target: nat) returns (current: nat)
      requires Valid()
      modifies this`gaps
      ensures gaps == old(gaps) + GapRows(cell, value, clockPrev, target, maxDiff)
      ensures current == CaughtUp(clockPrev, target, maxDiff)
    {
      current := clockPrev;
      while target > current + maxDiff
        invariant gaps + GapRows(cell, value, current, target, maxDiff)
               == old(gaps) + GapRows(cell, value, clockPrev, target, maxDiff)
        invariant CaughtUp(current, target, maxDiff) == CaughtUp(clockPrev, target, maxDiff)
        decreases target - current
      {
        gaps := gaps + [Event(cell, current, value, current + maxDiff, value)];
        current := current + maxDiff;
      }
    }

    method TraceRegAccess(index: nat, prev: nat, next: nat) returns (access: Access)
      requires Valid() && index < 32
      modifies this, regClock
      ensures Valid() && State() == Trace(old(State()), Reg(index), prev, next)
      ensures access == Access(index, prev, CaughtUp(old(regClock[index]), old(clock), maxDiff), next)
    {
      var clockPrev := regClock[index];
      var final := FillGap(Reg(index), prev, clockPrev, clock);
      if final != clockPrev { regClock[index] := final; }
      access := Access(index, prev, final, next);
      log := log + [Event(Reg(index), final, prev, clock, next)];
      regClock[index] := clock;
      assert regClock[..] == old(regClock[..])[index := clock];
    }

    method TraceMemAccess(addr: nat, prev: nat, next: nat) returns (access: Access)
      requires Valid()
      modifies this, regClock
      ensures Valid() && State() == Trace(old(State()), Mem(addr - addr % 4), prev, next)
      ensures access.addr == addr - addr % 4 && access.prev == prev && access.next == next
    {
      var aligned := addr - addr % 4;
      if aligned !in memInitial { memInitial := memInitial[aligned := prev]; }
      var clockPrev := if aligned in memClock then memClock[aligned] else 0;
      var final := FillGap(Mem(aligned), prev, clockPrev, clock);
      if final != clockPrev { memClock := memClock[aligned := final]; }
      access := Access(aligned, prev, final, next);
      log := log + [Event(Mem(aligned), final, prev, clock, next)];
      memClock := memClock[aligned := clock];
    }

    method Tick()
      modifies this`clock
      ensures State() == old(State()).(clock := old(clock) + 1)
    {
      clock := clock + 1;
    }
  }
}
