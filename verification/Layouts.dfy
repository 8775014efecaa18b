// The memory layout a loaded program gets, whether its regions cut words, and
// what a cut word can do to segment chaining.
module Layouts {
  import opened Tracing
  import opened Machine
  import opened Commitment
  import opened Segments

  /** The addresses the loader reads off the symbol table. */
  datatype Loaded = Loaded(
    dataBase: nat, dataEnd: nat, stackBottom: nat, sp: nat,
    haltFlag: nat, outputLen: nat, outputData: nat, outputEnd: nat, inputStart: nat, inputEnd: nat)

  function Min(a: nat, b: nat): nat { if a <= b then a else b }

  function Max(a: nat, b: nat): nat { if a >= b then a else b }

  /** saturating_add(1) on u32. */
  function Bump(a: nat): nat {
    if a + 1 < WORD then a + 1 else WORD - 1
  }

  /** MemoryLayout::from_loaded. */
  function FromLoaded(e: Loaded): Layout {
    var ioBase := Min(Min(e.haltFlag, e.outputLen), e.outputData);
    var ioEnd := Bump(Max(Max(Max(e.outputEnd, e.outputData), e.outputLen), e.haltFlag));
    var hasInput := e.inputStart < e.inputEnd;
    Layout(e.dataBase, e.dataEnd, e.stackBottom, e.sp,
           if hasInput then Min(ioBase, e.inputStart) else ioBase, if hasInput then Max(ioEnd, e.inputEnd) else ioEnd,
           e.inputStart, e.inputEnd, e.outputLen, e.outputData)
  }

  // -- The linker script's layout --------------------------------------------------------------------

  /** Aligned symbols, the output buffer ending where the stack begins, and everything else below it. */
  ghost predicate StackAboveOutput(e: Loaded) {
    && e.dataBase % 4 == 0 && e.stackBottom % 4 == 0 && e.sp % 4 == 0
    && e.haltFlag % 4 == 0 && e.outputLen % 4 == 0 && e.outputData % 4 == 0 && e.inputStart % 4 == 0 && e.inputEnd % 4 == 0
    && e.outputEnd == e.stackBottom < e.sp < WORD
    && e.haltFlag <= e.outputEnd && e.outputLen <= e.outputEnd && e.outputData <= e.outputEnd && e.inputEnd <= e.outputEnd
  }

  /** The odd end of the I/O region falls inside the stack: only the end of the data can cut a word. */
  lemma OddEndIsInStack(e: Loaded)
    requires StackAboveOutput(e) && e.dataEnd % 4 == 0
    ensures FromLoaded(e).ioEnd == e.stackBottom + 1 && WholeWords(FromLoaded(e))
  {
    var l := FromLoaded(e);
    assert l.ioBase % 4 == 0;
    forall a: nat
      ensures IsRw(l, a) <==> IsRw(l, Aligned(a))
    {
      WholeRegion(l.dataBase, l.dataEnd, a);
      WholeRegion(l.stackBottom, l.stackTop, a);
      WholeRegion(l.ioBase, e.stackBottom, a);
    }
  }

  lemma WholeRegion(lo: nat, hi: nat, a: nat)
    requires lo % 4 == 0 && hi % 4 == 0
    ensures lo <= a < hi <==> lo <= Aligned(a) < hi
  {
  }

  /** The symbols of the guest linker script, for a given length of static data. */
  function LinkerScript(dataLen: nat): Loaded {
    Loaded(0x20_0000, 0x20_0000 + dataLen, 0x1F_FC00, 0x20_0000,
           0x10_1000, 0x10_1004, 0x10_1008, 0x1F_FC00, 0x10_0000, 0x10_1000)
  }

  /** In that layout no word is cut if and only if the static data ends on a word boundary. */
  lemma LinkerScriptWholeIff(dataLen: nat)
    ensures WholeWords(FromLoaded(LinkerScript(dataLen))) <==> dataLen % 4 == 0
  {
    var l := FromLoaded(LinkerScript(dataLen));
    if dataLen % 4 == 0 {
      OddEndIsInStack(LinkerScript(dataLen));
    } else {
      var a := l.dataEnd;
      assert Aligned(a) == a - dataLen % 4;
      assert IsRw(l, Aligned(a)) && !IsRw(l, a);
    }
  }

  // -- A cut word that breaks the chain ----------------------------------------------------------------

  /** The linker script's layout with two bytes of static data: the word they start is cut. */
  const CUT := FromLoaded(LinkerScript(2))

  const CUT_WORD := 0x20_0000

  /** Memory holds one byte of that word, outside the region. */
  const BARE := MState(seq(32, _ => 0), map[CUT_WORD + 2 := 7], Fresh(1))

  /** Two segments of one instruction each: the first accesses nothing, the second reads the word. */
  const PASS: seq<Op> := [Tick]
  const READ_IT: seq<Op> := [Tick, ReadMem(CUT_WORD)]

  lemma BareWord()
    ensures Bare(Of(BARE), CUT, CUT_WORD) && CUT_WORD !in BARE.t.memClock
  {
    assert ReadWord(BARE.data, CUT_WORD) == 7 * 0x1_0000;
  }

  /** The untouched word is final nowhere, and initial wherever it is read. */
  lemma CutLeaves(s: MState, m: MState)
    requires Inv(s, BARE) && Inv(m, BARE) && s.data == BARE.data == m.data
    requires CUT_WORD !in s.t.memClock && CUT_WORD in m.t.memClock
    ensures FinalLeaf(Of(s), CUT, Role(true, false), CUT_WORD + 2) == 0
    ensures InitialLeaf(Of(m), CUT, Role(false, true), CUT_WORD + 2) == 7
  {
    BareWord();
    assert Aligned(CUT_WORD + 2) == CUT_WORD;
    CommittedIs(s, BARE, CUT, CUT_WORD);
    CommittedIs(m, BARE, CUT, CUT_WORD);
    FinalLeafValue(s, BARE, CUT, true, CUT_WORD + 2);
    InitialLeafValue(m, BARE, CUT, true, CUT_WORD + 2);
    hide Inv, FinalLeaf, InitialLeaf, Committed, HoldsRw, ReadWord;
  }

  lemma CutDisagrees(s: MState, m: MState)
    requires CUT_WORD !in s.t.memClock && CUT_WORD in m.t.memClock && s.data == BARE.data == m.data
    ensures InputsAccessed(Of(s), CUT, true) && !BareWordsAgree(Of(s), Of(m), CUT)
  {
    BareWord();
    assert !BareAgrees(Of(s), Of(m), CUT, CUT_WORD);
    hide ReadWord, HoldsRw;
  }

  /** A segment that leaves the cut word alone is followed by one that reads it: the leaves disagree. */
  lemma CutWordBreaksChain()
    ensures Started(BARE) && Runs(BARE, PASS) && Runs(Next(After(BARE, PASS)), READ_IT)
    ensures var s, s' := Of(After(BARE, PASS)), Of(After(Next(After(BARE, PASS)), READ_IT));
            && InputsAccessed(s, CUT, true) && !BareWordsAgree(s, s', CUT)
            && FinalLeaf(s, CUT, Role(true, false), CUT_WORD + 2) == 0
            && InitialLeaf(s', CUT, Role(false, true), CUT_WORD + 2) == 7
  {
    hide Inv, FinalLeaf, InitialLeaf, InputsAccessed, BareWordsAgree, Started;
    ReadRuns();
    var s, m := After(BARE, PASS), After(BARE, READ_IT);
    RunsFromStart();
    CutLeaves(s, m);
    CutDisagrees(s, m);
  }

  lemma RunsFromStart()
    requires Started(BARE) && Runs(BARE, PASS) && Runs(BARE, READ_IT)
    ensures Inv(After(BARE, PASS), BARE) && Inv(After(BARE, READ_IT), BARE)
  {
    hide Inv, Runs, After;
    RunConserves(BARE, PASS);
    RunConserves(BARE, READ_IT);
  }

  lemma ReadStep(m: MState)
    requires Shaped(m) && m.t.clock >= 1
    ensures Allowed(m, ReadMem(CUT_WORD))
    ensures Step(m, ReadMem(CUT_WORD)).data == m.data && CUT_WORD in Step(m, ReadMem(CUT_WORD)).t.memClock
  {
    hide GapRows, ReadWord;
    assert Aligned(CUT_WORD) == CUT_WORD;
    var w := ReadWord(m.data, CUT_WORD);
    TracedClock(m.t, CUT_WORD, w);
    hide Trace;
    assert Step(m, ReadMem(CUT_WORD)) == m.(t := Trace(m.t, Mem(CUT_WORD), w, w));
  }

  lemma TracedClock(t: TState, a: nat, w: nat)
    requires |t.regClock| == 32 && t.maxDiff > 0
    ensures Trace(t, Mem(a), w, w).memClock == t.memClock[a := t.clock]
  {
    hide GapRows;
  }

  lemma ReadRuns()
    ensures Started(BARE) && Runs(BARE, PASS) && Runs(BARE, READ_IT)
    ensures Next(After(BARE, PASS)) == BARE && After(BARE, PASS).data == BARE.data && CUT_WORD !in After(BARE, PASS).t.memClock
    ensures var m := After(BARE, READ_IT); m.data == BARE.data && CUT_WORD in m.t.memClock
  {
    assert READ_IT[..1] == PASS && PASS[..0] == [];
    assert Shaped(BARE);
    assert Runs(BARE, PASS) && After(BARE, PASS) == Step(BARE, Tick);
    hide ReadWord, GapRows, Trace;
    ReadStep(Step(BARE, Tick));
    hide Step, Allowed;
  }
}
