// The CPU registers and the memory as the runner updates them, each traced access
// proved to be a step of the machine.
module MachineClasses {
  import opened Tracing
  import opened Machine

  const WORD := 0x1_0000_0000

  class Cpu {
    const regs: array<nat>
    var pc: nat

    ghost predicate Valid()
      reads this, regs
    {
      regs.Length == 32 && regs[0] == 0
    }

    /** All registers zero apart from sp and gp. */
    constructor (entry: nat, sp: nat, gp: nat)
      ensures Valid() && fresh(regs) && pc == entry
      ensures forall i :: 0 <= i < 32 ==> regs[i] == if i == 2 then sp else if i == 3 then gp else 0
    {
      regs := new nat[32](i => if i == 2 then sp else if i == 3 then gp else 0);
      pc := entry;
    }

    /** x0 is hardwired to zero. */
    function Get(i: nat): (v: nat)
      requires Valid() && i < 32
      reads this, regs
      ensures v == regs[i]
    {
      if i == 0 then 0 else regs[i]
    }

    method Set(i: nat, v: nat)
      requires Valid() && i < 32
      modifies regs
      ensures Valid() && regs[..] == old(regs[..])[i := if i == 0 then 0 else v]
    {
      if i != 0 { regs[i] := v; }
    }

    method ReadReg(i: nat, tracer: Tracer) returns (access: Access)
      requires Valid() && tracer.Valid() && i < 32 && tracer.regClock != regs && tracer.clock >= 1
      modifies tracer, tracer.regClock
      ensures Valid() && tracer.Valid() && regs[..] == old(regs[..])
      ensures MState(regs[..], map[], tracer.State())
           == Step(MState(old(regs[..]), map[], old(tracer.State())), Op.ReadReg(i))
      ensures access.prev == access.next == old(regs[i])
    {
      var value := Get(i);
      access := tracer.TraceRegAccess(i, value, value);
    }

    method WriteReg(i: nat, v: nat, tracer: Tracer) returns (access: Access)
      requires Valid() && tracer.Valid() && i < 32 && tracer.regClock != regs && tracer.clock >= 1
      modifies regs, tracer, tracer.regClock
      ensures Valid() && tracer.Valid()
      ensures MState(regs[..], map[], tracer.State())
           == Step(MState(old(regs[..]), map[], old(tracer.State())), Op.WriteReg(i, v))
      ensures access.prev == old(regs[i]) && access.next == regs[i]
    {
      var prev := Get(i);
      Set(i, v);
      var next := if i == 0 then 0 else v;
      access := tracer.TraceRegAccess(i, prev, next);
    }
  }

  /** wrapping_add on u32 addresses. */
  function Wrapping(a: nat, k: nat): nat {
    (a + k) % WORD
  }

  /** No aligned access crosses the end of the address space. */
  lemma AlignedNeverWraps(a: nat, size: nat)
    requires a < WORD && (size == 2 || size == 4) && a % size == 0
    ensures forall k: nat :: k < size ==> Wrapping(a, k) == a + k
  {
  }

  class Memory {
    var data: Data

    constructor ()
      ensures data == map[]
    {
      data := map[];
    }

    /** A word of four bytes at wrapping addresses. */
    function ReadU32(a: nat): (w: nat)
      requires a < WORD && a % 4 == 0
      reads this
      ensures w == ReadWord(data, a)
    {
      AlignedNeverWraps(a, 4);
      ReadByte(data, a) + 0x100 * ReadByte(data, Wrapping(a, 1)) + 0x1_0000 * ReadByte(data, Wrapping(a, 2))
      + 0x100_0000 * ReadByte(data, Wrapping(a, 3))
    }

    method WriteU8(a: nat, v: nat)
      modifies this
      ensures data == WriteBytes(old(data), a, LittleEndian(v, 1))
    {
      data := data[a := v % 256];
    }

    method WriteU16(a: nat, v: nat)
      requires a < WORD && a % 2 == 0
      modifies this
      ensures data == WriteBytes(old(data), a, LittleEndian(v, 2))
    {
      AlignedNeverWraps(a, 2);
      WriteU8(a, v);
      WriteU8(Wrapping(a, 1), v / 0x100);
      TwoBytes(old(data), a, v);
    }

    method WriteU32(a: nat, v: nat)
      requires a < WORD && a % 4 == 0
      modifies this
      ensures data == WriteBytes(old(data), a, LittleEndian(v, 4))
    {
      AlignedNeverWraps(a, 4);
      WriteU8(a, v);
      WriteU8(Wrapping(a, 1), v / 0x100);
      WriteU8(Wrapping(a, 2), v / 0x1_0000);
      WriteU8(Wrapping(a, 3), v / 0x100_0000);
      FourBytes(old(data), a, v);
    }

    /** Reads trace the aligned word holding the byte. */
    method ReadTraced(a: nat, tracer: Tracer) returns (access: Access)
      requires tracer.Valid() && tracer.clock >= 1 && a < WORD
      modifies tracer, tracer.regClock
      ensures tracer.Valid() && data == old(data)
      ensures tracer.State() == Trace(old(tracer.State()), Mem(Aligned(a)), ReadWord(data, Aligned(a)), ReadWord(data, Aligned(a)))
      ensures access.prev == access.next == ReadWord(data, Aligned(a))
    {
      var aligned := Aligned(a);
      var word := ReadU32(aligned);
      access := tracer.TraceMemAccess(aligned, word, word);
    }

    method WriteU8Traced(a: nat, v: nat, tracer: Tracer) returns (access: Access)
      requires tracer.Valid() && tracer.clock >= 1 && a < WORD
      modifies this, tracer, tracer.regClock
      ensures tracer.Valid() && data == WriteBytes(old(data), a, LittleEndian(v, 1))
      ensures tracer.State()
           == Trace(old(tracer.State()), Mem(Aligned(a)), ReadWord(old(data), Aligned(a)), ReadWord(data, Aligned(a)))
    {
      var prev := ReadU32(Aligned(a));
      WriteU8(a, v);
      var next := ReadU32(Aligned(a));
      access := tracer.TraceMemAccess(a, prev, next);
    }

    method WriteU16Traced(a: nat, v: nat, tracer: Tracer) returns (access: Access)
      requires tracer.Valid() && tracer.clock >= 1 && a < WORD && a % 2 == 0
      modifies this, tracer, tracer.regClock
      ensures tracer.Valid() && data == WriteBytes(old(data), a, LittleEndian(v, 2))
      ensures tracer.State()
           == Trace(old(tracer.State()), Mem(Aligned(a)), ReadWord(old(data), Aligned(a)), ReadWord(data, Aligned(a)))
    {
      var prev := ReadU32(Aligned(a));
      WriteU16(a, v);
      var next := ReadU32(Aligned(a));
      access := tracer.TraceMemAccess(a, prev, next);
    }

    /** A word write records the value itself: it is what reading back gives. */
    method WriteU32Traced(a: nat, v: nat, tracer: Tracer) returns (access: Access)
      requires tracer.Valid() && tracer.clock >= 1 && a < WORD && a % 4 == 0 && v < WORD
      modifies this, tracer, tracer.regClock
      ensures tracer.Valid() && data == WriteBytes(old(data), a, LittleEndian(v, 4))
      ensures tracer.State()
           == Trace(old(tracer.State()), Mem(Aligned(a)), ReadWord(old(data), Aligned(a)), ReadWord(data, Aligned(a)))
    {
      var prev := ReadU32(a);
      WriteU32(a, v);
      ReadBack(old(data), a, v);
      access := tracer.TraceMemAccess(a, prev, v);
    }
  }

  // -- Little-endian writes ---------------------------------------------------------------------

  lemma TwoBytes(data: Data, a: nat, v: nat)
    ensures WriteBytes(data, a, LittleEndian(v, 2)) == data[a := v % 256][a + 1 := v / 0x100 % 256]
  {
    var bytes := LittleEndian(v, 2);
    assert LittleEndian(v / 256, 1) == [v / 256 % 256];
    assert bytes == [v % 256, v / 256 % 256] && bytes[..1] == [v % 256] && bytes[..1][..0] == [];
    assert WriteBytes(data, a, bytes[..1]) == data[a := v % 256];
  }

  lemma BytesOf(v: nat)
    ensures LittleEndian(v, 4) == [v % 256, v / 0x100 % 256, v / 0x1_0000 % 256, v / 0x100_0000 % 256]
  {
    var v1 := v / 256;
    var v2 := v1 / 256;
    var v3 := v2 / 256;
    assert LittleEndian(v3, 0) == [] && LittleEndian(v3, 1) == [v3 % 256];
    assert LittleEndian(v2, 2) == [v2 % 256, v3 % 256];
    assert LittleEndian(v1, 3) == [v1 % 256, v2 % 256, v3 % 256];
    assert LittleEndian(v, 4) == [v % 256] + LittleEndian(v1, 3);
    assert v2 == v / 0x1_0000 && v3 == v / 0x100_0000;
  }

  lemma FourBytes(data: Data, a: nat, v: nat)
    ensures WriteBytes(data, a, LittleEndian(v, 4))
         == data[a := v % 256][a + 1 := v / 0x100 % 256][a + 2 := v / 0x1_0000 % 256][a + 3 := v / 0x100_0000 % 256]
  {
    BytesOf(v);
    var b0: Byte, b1: Byte, b2: Byte, b3: Byte := v % 256, v / 0x100 % 256, v / 0x1_0000 % 256, v / 0x100_0000 % 256;
    var bytes: seq<Byte> := [b0, b1, b2, b3];
    assert bytes[..3] == [b0, b1, b2] && bytes[..3][..2] == [b0, b1] && bytes[..3][..2][..1] == [b0];
    assert WriteBytes(data, a, []) == data;
    assert [b0][..0] == [];
    assert WriteBytes(data, a, [b0]) == data[a := b0];
    assert [b0, b1][..1] == [b0];
    assert WriteBytes(data, a, [b0, b1]) == data[a := b0][a + 1 := b1];
    assert [b0, b1, b2][..2] == [b0, b1];
  }

  /** Reading a written word gives the word. */
  lemma ReadBack(data: Data, a: nat, v: nat)
    requires v < WORD
    ensures ReadWord(WriteBytes(data, a, LittleEndian(v, 4)), a) == v
  {
    FourBytes(data, a, v);
    hide WriteBytes, LittleEndian;
    var q1, q2, q3 := v / 0x100, v / 0x1_0000, v / 0x100_0000;
    assert q2 == q1 / 256 && q3 == q2 / 256;
    assert v == v % 256 + 0x100 * q1 && q1 == q1 % 256 + 0x100 * q2 && q2 == q2 % 256 + 0x100 * q3 && q3 % 256 == q3;
  }
}
