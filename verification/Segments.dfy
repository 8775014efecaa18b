// Segmented execution: the memory bag closes over the committed words, and the
// final memory root of a segment is the initial root of the next.
module Segments {
  import opened Tracing
  import opened Machine
  import opened SparseTree
  import opened Commitment

  // -- The memory bag -------------------------------------------------------------------

  /** A boundary row: +1 for the initial word at clock 0, -1 for the final word at its last clock. */
  function RowTerms(e: Entry, u: Tuple): int {
    (if e.includeInitial then Is(Tuple(Mem(e.addr), 0, e.initialWord), u) else 0)
    - (if e.includeFinal then Is(Tuple(Mem(e.addr), e.finalClock, e.finalWord), u) else 0)
  }

  function MemoryRows(entries: seq<Entry>, u: Tuple): int {
    if entries == [] then 0 else MemoryRows(entries[..|entries| - 1], u) + RowTerms(entries[|entries| - 1], u)
  }

  lemma {:induction false} OneEntryCounts(entries: seq<Entry>, i: nat, u: Tuple)
    requires i < |entries| && u.cell == Mem(entries[i].addr)
    requires forall j, k :: 0 <= j < k < |entries| ==> entries[j].addr < entries[k].addr
    ensures MemoryRows(entries, u) == RowTerms(entries[i], u)
  {
    var n := |entries| - 1;
    if i < n {
      OneEntryCounts(entries[..n], i, u);
    } else {
      OtherEntries(entries[..n], u);
    }
  }

  lemma {:induction false} OtherEntries(entries: seq<Entry>, u: Tuple)
    requires forall j :: 0 <= j < |entries| ==> u.cell != Mem(entries[j].addr)
    ensures MemoryRows(entries, u) == 0
  {
    if entries != [] { OtherEntries(entries[..|entries| - 1], u); }
  }

  ghost predicate Started(init: MState) {
    Shaped(init) && init.t == Fresh(init.t.maxDiff)
  }

  /** Word w is anchored by the memory table alone: neither public input nor public output. */
  ghost predicate PrivateWord(s: Snapshot, l: Layout, role: Role, w: nat) {
    var e := EntryOf(s, l, role, w);
    e.includeInitial && e.includeFinal
  }

  /** Accesses, catch-ups and boundary rows of a committed private word cancel. */
  lemma CommittedWordsCancel(init: MState, ops: seq<Op>, l: Layout, role: Role, entries: seq<Entry>, u: Tuple)
    requires Started(init) && Runs(init, ops) && u.cell.Mem?
    requires EntriesOf(entries, Of(After(init, ops)), l, role)
    requires Committed(Of(After(init, ops)), l, u.cell.addr) && PrivateWord(Of(After(init, ops)), l, role, u.cell.addr)
    ensures var t := After(init, ops).t;
            Balance(t.gaps, u) + Balance(t.log, u) + MemoryRows(entries, u) == 0
  {
    var m, w := After(init, ops), u.cell.addr;
    RunConserves(init, ops);
    CommittedAligned(Of(m), l, w);
    assert WordOK(m, init, w);
    if w !in m.t.memInitial { UntouchedWord(m, init, w); }
    var i :| 0 <= i < |entries| && entries[i].addr == w;
    OneEntryCounts(entries, i, u);
    hide Balance, MemoryRows, ReadWord, Inv, Committed;
    assert entries[i] == EntryOf(Of(m), l, role, w);
  }

  lemma CommittedAligned(s: Snapshot, l: Layout, w: nat)
    requires Committed(s, l, w)
    ensures w % 4 == 0
  {
  }

  // -- Leaves ------------------------------------------------------------------------------

  lemma ByteOfWord(data: Data, b: nat)
    ensures ByteOf(ReadWord(data, Aligned(b)), b % 4) == ReadByte(data, b)
  {
    var a, k := Aligned(b), b % 4;
    assert b == a + k;
    SplitWord(ReadByte(data, a), ReadByte(data, a + 1), ReadByte(data, a + 2), ReadByte(data, a + 3));
  }

  lemma SplitWord(b0: Byte, b1: Byte, b2: Byte, b3: Byte)
    ensures var w := b0 + 0x100 * b1 + 0x1_0000 * b2 + 0x100_0000 * b3;
            ByteOf(w, 0) == b0 && ByteOf(w, 1) == b1 && ByteOf(w, 2) == b2 && ByteOf(w, 3) == b3
  {
    var w := b0 + 0x100 * b1 + 0x1_0000 * b2 + 0x100_0000 * b3;
    assert w / 0x100 == b1 + 0x100 * b2 + 0x1_0000 * b3;
    assert w / 0x1_0000 == b2 + 0x100 * b3;
    assert w / 0x100_0000 == b3;
  }

  /** The leaf values of a segment's trees, wherever a leaf may be. */
  ghost function FinalLeaf(s: Snapshot, l: Layout, role: Role, b: nat): int {
    if FinalWords(s, l, role, Aligned(b)) then ByteOf(EntryOf(s, l, role, Aligned(b)).finalWord, b % 4) else 0
  }

  ghost function InitialLeaf(s: Snapshot, l: Layout, role: Role, b: nat): int {
    if InitialWords(s, l, role, Aligned(b)) then ByteOf(EntryOf(s, l, role, Aligned(b)).initialWord, b % 4) else 0
  }

  /** The next segment starts from the same registers and memory, with a fresh tracer. */
  function Next(m: MState): MState {
    m.(t := Fresh(m.t.maxDiff))
  }

  /** Memory holds a read-write byte of word w. */
  ghost predicate HoldsRw(data: Data, l: Layout, w: nat) {
    exists a: nat :: a in data && IsRw(l, a) && Aligned(a) == w
  }

  /** A first segment accesses the non-zero input words that memory holds read-write bytes of. */
  ghost predicate InputsAccessed(s: Snapshot, l: Layout, first: bool) {
    first ==> forall w: nat :: w % 4 == 0 && IsInput(l, w) && HoldsRw(s.data, l, w) && ReadWord(s.data, w) != 0 ==> w in s.memClock
  }

  /** A non-zero word none of whose read-write bytes memory holds is committed by access alone. */
  ghost predicate Bare(s: Snapshot, l: Layout, w: nat) {
    w % 4 == 0 && ReadWord(s.data, w) != 0 && !HoldsRw(s.data, l, w)
  }

  /** Both segments commit the bare word, or neither does. */
  ghost predicate BareAgrees(s: Snapshot, s': Snapshot, l: Layout, w: nat) {
    (w in s.memClock && IsRw(l, w)) <==> ((w in s'.memClock && IsRw(l, w)) || HoldsRw(s'.data, l, w))
  }

  ghost predicate BareWordsAgree(s: Snapshot, s': Snapshot, l: Layout) {
    forall w: nat :: Bare(s, l, w) ==> BareAgrees(s, s', l, w)
  }

  /** A word memory holds a read-write byte of is committed at both sides of a boundary. */
  lemma HeldIsCommitted(m: MState, init: MState, l: Layout, w: nat)
    requires Inv(m, init)
    ensures HoldsRw(m.data, l, w) ==> Committed(Of(m), l, w)
    ensures HoldsRw(init.data, l, w) ==> Committed(Of(m), l, w)
  {
  }

  /** Accesses are aligned, so a word no read-write byte of which is held is committed by its own access. */
  lemma CommittedIs(m: MState, init: MState, l: Layout, w: nat)
    requires Inv(m, init)
    ensures Committed(Of(m), l, w) <==> HoldsRw(m.data, l, w) || (w in m.t.memClock && IsRw(l, w))
  {
    if Committed(Of(m), l, w) {
      var a: nat :| (a in m.data || a in m.t.memClock) && IsRw(l, a) && Aligned(a) == w;
      if a in m.t.memClock { assert a == w; }
    }
    if w in m.t.memClock && IsRw(l, w) { assert Aligned(w) == w; }
  }

  /** An initial leaf is the boundary's byte, if its word is committed. */
  lemma InitialLeafValue(m: MState, init: MState, l: Layout, last: bool, b: nat)
    requires Inv(m, init)
    ensures InitialLeaf(Of(m), l, Role(false, last), b)
         == if Committed(Of(m), l, Aligned(b)) then ReadByte(init.data, b) else 0
  {
    var w := Aligned(b);
    ByteOfWord(init.data, b);
    assert WordOK(m, init, w);
    if w !in m.t.memInitial { UntouchedWord(m, init, w); }
    hide Inv, ReadWord, ReadByte, ByteOf, Committed;
  }

  /** A final leaf is the current byte, if its word is committed and no unread input. */
  lemma FinalLeafValue(m: MState, init: MState, l: Layout, first: bool, b: nat)
    requires Inv(m, init)
    ensures FinalLeaf(Of(m), l, Role(first, false), b)
         == if Kept(Of(m), l, first, Aligned(b)) then ReadByte(m.data, b) else 0
  {
    var w := Aligned(b);
    ByteOfWord(m.data, b);
    if w in m.t.memClock { assert m.t.memClock[w] >= 1; }
    hide Inv, ReadWord, ReadByte, ByteOf, Committed;
  }

  /** The final tree of a segment that is not the last keeps the word. */
  ghost predicate Kept(s: Snapshot, l: Layout, first: bool, w: nat) {
    Committed(s, l, w) && !(first && IsInput(l, w) && w !in s.memClock)
  }

  /** Non-zero words are kept by one segment exactly when the next commits them. */
  ghost predicate WordsAgree(s: Snapshot, s': Snapshot, l: Layout, first: bool) {
    forall w: nat :: w % 4 == 0 && ReadWord(s.data, w) != 0 ==> (Kept(s, l, first, w) <==> Committed(s', l, w))
  }

  /** Leaves agree across a boundary exactly when the non-zero words do. */
  lemma LeavesAreWords(init: MState, ops: seq<Op>, ops': seq<Op>, l: Layout, first: bool, last: bool)
    requires Started(init) && Runs(init, ops) && Runs(Next(After(init, ops)), ops')
    ensures var m := After(init, ops);
            var s, s' := Of(m), Of(After(Next(m), ops'));
            (forall b: nat :: FinalLeaf(s, l, Role(first, false), b) == InitialLeaf(s', l, Role(false, last), b))
            <==> WordsAgree(s, s', l, first)
  {
    var m := After(init, ops);
    var m' := After(Next(m), ops');
    var s, s' := Of(m), Of(m');
    RunConserves(init, ops);
    RunConserves(Next(m), ops');
    hide Inv, FinalLeaf, InitialLeaf, ReadWord, ReadByte, Kept, Committed;
    forall b: nat
      ensures FinalLeaf(s, l, Role(first, false), b) == InitialLeaf(s', l, Role(false, last), b) <==>
              ReadByte(m.data, b) == 0 || (Kept(s, l, first, Aligned(b)) <==> Committed(s', l, Aligned(b)))
    {
      FinalLeafValue(m, init, l, first, b);
      InitialLeafValue(m', Next(m), l, last, b);
    }
    if WordsAgree(s, s', l, first) {
      forall b: nat
        ensures ReadByte(m.data, b) == 0 || (Kept(s, l, first, Aligned(b)) <==> Committed(s', l, Aligned(b)))
      {
        if ReadByte(m.data, b) != 0 { NonZeroWord(m.data, b); }
      }
    } else {
      var w: nat :| w % 4 == 0 && ReadWord(s.data, w) != 0 && !(Kept(s, l, first, w) <==> Committed(s', l, w));
      var b := NonZeroByte(s.data, w);
    }
  }

  lemma NonZeroWord(data: Data, b: nat)
    requires ReadByte(data, b) != 0
    ensures ReadWord(data, Aligned(b)) != 0 && Aligned(b) % 4 == 0
  {
    ByteOfWord(data, b);
  }

  lemma NonZeroByte(data: Data, w: nat) returns (b: nat)
    requires w % 4 == 0 && ReadWord(data, w) != 0
    ensures Aligned(b) == w && ReadByte(data, b) != 0
  {
    b := if ReadByte(data, w) != 0 then w else if ReadByte(data, w + 1) != 0 then w + 1
         else if ReadByte(data, w + 2) != 0 then w + 2 else w + 3;
  }

  /** Words that memory holds read-write bytes of agree unless they are missed input; bare ones by access. */
  lemma WordsAgreeIff(init: MState, ops: seq<Op>, ops': seq<Op>, l: Layout, first: bool)
    requires Started(init) && Runs(init, ops) && Runs(Next(After(init, ops)), ops')
    ensures var m := After(init, ops);
            var s, s' := Of(m), Of(After(Next(m), ops'));
            WordsAgree(s, s', l, first) <==> InputsAccessed(s, l, first) && BareWordsAgree(s, s', l)
  {
    var m := After(init, ops);
    var m' := After(Next(m), ops');
    var s, s' := Of(m), Of(m');
    RunConserves(init, ops);
    RunConserves(Next(m), ops');
    hide Inv, ReadWord, Kept, Committed, HoldsRw;
    forall w: nat
      ensures HoldsRw(s.data, l, w) ==>
                ((Kept(s, l, first, w) <==> Committed(s', l, w)) <==> !(first && IsInput(l, w) && w !in s.memClock))
      ensures !HoldsRw(s.data, l, w) ==>
                ((Kept(s, l, first, w) <==> Committed(s', l, w)) <==> BareAgrees(s, s', l, w))
    {
      HeldIsCommitted(m, init, l, w);
      HeldIsCommitted(m', Next(m), l, w);
      CommittedIs(m, init, l, w);
      CommittedIs(m', Next(m), l, w);
      KeptIs(s, l, first, w);
    }
    if WordsAgree(s, s', l, first) {
      forall w: nat | Bare(s, l, w)
        ensures BareAgrees(s, s', l, w)
      {
      }
    }
  }

  lemma KeptIs(s: Snapshot, l: Layout, first: bool, w: nat)
    ensures Kept(s, l, first, w) <==> Committed(s, l, w) && !(first && IsInput(l, w) && w !in s.memClock)
  {
    hide Committed;
  }

  /**
   * Across a boundary every leaf agrees, present or absent, exactly when the first
   * segment accessed the non-zero input words and each bare word is committed by
   * both segments or by neither.
   */
  lemma LeavesChain(
      init: MState, ops: seq<Op>, ops': seq<Op>, l: Layout, first: bool, last: bool)
    requires Started(init) && Runs(init, ops) && Runs(Next(After(init, ops)), ops')
    ensures var m := After(init, ops);
            var s, s' := Of(m), Of(After(Next(m), ops'));
            (forall b: nat :: FinalLeaf(s, l, Role(first, false), b) == InitialLeaf(s', l, Role(false, last), b))
            <==> InputsAccessed(s, l, first) && BareWordsAgree(s, s', l)
  {
    hide FinalLeaf, InitialLeaf, WordsAgree, InputsAccessed, BareWordsAgree;
    LeavesAreWords(init, ops, ops', l, first, last);
    WordsAgreeIff(init, ops, ops', l, first);
  }

  // -- Layouts without bare words ----------------------------------------------------------------

  /** No word is partly read-write. */
  ghost predicate WholeWords(l: Layout) {
    forall a: nat :: IsRw(l, a) <==> IsRw(l, Aligned(a))
  }

  /** Without partly read-write words, bare words are never committed. */
  lemma WholeWordsAgree(s: Snapshot, s': Snapshot, l: Layout)
    requires WholeWords(l)
    ensures BareWordsAgree(s, s', l)
  {
    hide IsRw, ReadWord;
    forall w: nat | Bare(s, l, w)
      ensures !IsRw(l, w) && !HoldsRw(s'.data, l, w)
    {
      var b := NonZeroByte(s.data, w);
      assert b in s.data;
      assert !IsRw(l, b);
    }
  }

  // -- Roots ------------------------------------------------------------------------------------

  /** Height of the memory trees: leaf indices fit in M31. */
  const HEIGHT: nat := 30

  ghost predicate InField(l: Layout) {
    l.dataEnd <= Pow2(HEIGHT) && l.stackTop <= Pow2(HEIGHT) && l.ioEnd <= Pow2(HEIGHT)
  }

  lemma FinalLeavesValues(leaves: Level, s: Snapshot, l: Layout, role: Role)
    requires FinalLeaves(leaves, s, l, role)
    ensures forall b: nat :: LeafValue(leaves, b) == FinalLeaf(s, l, role, b) && (b in leaves ==> Committed(s, l, Aligned(b)))
  {
    hide EntryOf, Committed;
  }

  lemma InitialLeavesValues(leaves: Level, s: Snapshot, l: Layout, role: Role)
    requires InitialLeaves(leaves, s, l, role)
    ensures forall b: nat :: LeafValue(leaves, b) == InitialLeaf(s, l, role, b) && (b in leaves ==> Committed(s, l, Aligned(b)))
  {
    hide EntryOf, Committed;
  }

  /** Committed leaves are indices of the tree. */
  lemma CommittedInField(leaves: Level, s: Snapshot, l: Layout)
    requires InField(l) && forall b :: b in leaves ==> Committed(s, l, Aligned(b))
    ensures leaves == map[] || Visible(leaves, HEIGHT)
    ensures SparseTree.InRange(leaves, HEIGHT)
  {
    hide Pow2, Committed;
    forall b | b in leaves
      ensures b < Pow2(HEIGHT)
    {
      CommittedWordInField(s, l, b);
    }
    if leaves != map[] {
      var b := Pick(leaves.Keys);
      assert b in leaves && b < Pow2(HEIGHT);
    }
  }

  lemma CommittedWordInField(s: Snapshot, l: Layout, b: nat)
    requires InField(l) && Committed(s, l, Aligned(b))
    ensures b < Pow2(HEIGHT)
  {
    hide Pow2, Aligned;
    var a: nat :| (a in s.data || a in s.memClock) && IsRw(l, a) && Aligned(a) == Aligned(b);
    HeightIsWhole();
    WordInside(a, b, Pow2(HEIGHT));
  }

  /** A bound on whole words bounds every byte of a word it bounds one byte of. */
  lemma WordInside(a: nat, b: nat, top: nat)
    requires top % 4 == 0 && a < top && Aligned(a) == Aligned(b)
    ensures b < top
  {
  }

  lemma HeightIsWhole()
    ensures Pow2(HEIGHT) % 4 == 0
  {
    hide Pow2;
    FourTimes(28);
  }

  lemma FourTimes(n: nat)
    ensures Pow2(n + 2) == 4 * Pow2(n)
  {
    assert Pow2(n + 2) == 2 * Pow2(n + 1) && Pow2(n + 1) == 2 * Pow2(n);
  }

  /** A leaf changes across the boundary, and the hash collides somewhere above it. */
  ghost predicate ChangeHidden(
      s: Snapshot, s': Snapshot, l: Layout, first: bool, last: bool, leaves: Level, leaves': Level, h: Hash) {
    exists b: nat :: && FinalLeaf(s, l, Role(first, false), b) != InitialLeaf(s', l, Role(false, last), b)
                     && CollisionAbove(leaves, leaves', h, HEIGHT, 0, b)
  }

  lemma MatchedChange(
      leaves: Level, leaves': Level, s: Snapshot, s': Snapshot, l: Layout, first: bool, last: bool, h: Hash)
    requires forall b: nat :: LeafValue(leaves, b) == FinalLeaf(s, l, Role(first, false), b)
    requires forall b: nat :: LeafValue(leaves', b) == InitialLeaf(s', l, Role(false, last), b)
    requires AllMatched(leaves, leaves', h, HEIGHT) && !SameValues(leaves, leaves')
    ensures ChangeHidden(s, s', l, first, last, leaves, leaves', h)
  {
    hide FinalLeaf, InitialLeaf, LeafValue, CollisionAbove;
    var b: nat :| LeafValue(leaves, b) != LeafValue(leaves', b);
    assert Matched(leaves, leaves', h, HEIGHT, 0, b);
  }

  /**
   * Segment chaining: the final root of a segment is the initial root of the next
   * if the first segment accessed its non-zero input words and bare words agree,
   * and otherwise only where a hash collision covers every leaf that changed.
   */
  lemma RootsChain(
      init: MState, ops: seq<Op>, ops': seq<Op>, l: Layout, first: bool, last: bool, h: Hash, defaults: seq<int>,
      leaves: Level, leaves': Level, nodes: seq<NodeData>, nodes': seq<NodeData>, root: int, root': int)
    requires Started(init) && Runs(init, ops) && Runs(Next(After(init, ops)), ops') && InField(l)
    requires FinalLeaves(leaves, Of(After(init, ops)), l, Role(first, false))
    requires InitialLeaves(leaves', Of(After(Next(After(init, ops)), ops')), l, Role(false, last))
    requires Defaults(defaults, h, HEIGHT)
    requires TreeOf(leaves, h, defaults, HEIGHT, nodes, root) && TreeOf(leaves', h, defaults, HEIGHT, nodes', root')
    ensures var s, s' := Of(After(init, ops)), Of(After(Next(After(init, ops)), ops'));
            && (InputsAccessed(s, l, first) && BareWordsAgree(s, s', l) ==> root == root')
            && (root == root' <==> AllMatched(leaves, leaves', h, HEIGHT))
            && (root == root' ==>
                  || (InputsAccessed(s, l, first) && BareWordsAgree(s, s', l))
                  || ChangeHidden(s, s', l, first, last, leaves, leaves', h))
  {
    var m := After(init, ops);
    var s, s' := Of(m), Of(After(Next(m), ops'));
    LeavesChain(init, ops, ops', l, first, last);
    FinalLeavesValues(leaves, s, l, Role(first, false));
    InitialLeavesValues(leaves', s', l, Role(false, last));
    CommittedInField(leaves, s, l);
    CommittedInField(leaves', s', l);
    hide TreeOf, Visible, FinalLeaf, InitialLeaf, InputsAccessed, FinalLeaves, InitialLeaves, Pow2, Committed, LeafValue,
         Defaults, AllMatched, SparseTree.InRange, SameValues, BareWordsAgree, ChangeHidden;
    LeavesAgree(leaves, leaves', s, s', l, first, last);
    RootsDecideLeaves(leaves, leaves', h, defaults, HEIGHT, nodes, nodes', root, root');
    if AllMatched(leaves, leaves', h, HEIGHT) && !SameValues(leaves, leaves') {
      MatchedChange(leaves, leaves', s, s', l, first, last, h);
    }
  }

  lemma LeavesAgree(leaves: Level, leaves': Level, s: Snapshot, s': Snapshot, l: Layout, first: bool, last: bool)
    requires forall b: nat :: LeafValue(leaves, b) == FinalLeaf(s, l, Role(first, false), b)
    requires forall b: nat :: LeafValue(leaves', b) == InitialLeaf(s', l, Role(false, last), b)
    ensures SameValues(leaves, leaves')
            <==> forall b: nat :: FinalLeaf(s, l, Role(first, false), b) == InitialLeaf(s', l, Role(false, last), b)
  {
    hide FinalLeaf, InitialLeaf, LeafValue;
    if SameValues(leaves, leaves') {
      forall b: nat
        ensures FinalLeaf(s, l, Role(first, false), b) == InitialLeaf(s', l, Role(false, last), b)
      {
        assert LeafValue(leaves, b) == LeafValue(leaves', b);
      }
    }
  }

  // -- Cutting a run into segments changes nothing but the trace -----------------------------------

  lemma StepForgetsTracer(m: MState, m': MState, op: Op)
    requires Shaped(m) && Shaped(m') && Allowed(m, op) && Allowed(m', op) && m.regs == m'.regs && m.data == m'.data
    ensures Step(m, op).regs == Step(m', op).regs && Step(m, op).data == Step(m', op).data
  {
    hide Trace, WriteBytes;
  }

  lemma {:induction false} RunForgetsTracer(m: MState, m': MState, ops: seq<Op>)
    requires Shaped(m) && Shaped(m') && Runs(m, ops) && Runs(m', ops) && m.regs == m'.regs && m.data == m'.data
    ensures After(m, ops).regs == After(m', ops).regs && After(m, ops).data == After(m', ops).data
    decreases |ops|
  {
    hide Step, Allowed;
    if ops != [] {
      var n := |ops| - 1;
      RunForgetsTracer(m, m', ops[..n]);
      StepForgetsTracer(After(m, ops[..n]), After(m', ops[..n]), ops[n]);
    }
  }

  lemma {:induction false} RunsConcat(m: MState, a: seq<Op>, b: seq<Op>)
    requires Shaped(m) && Runs(m, a + b)
    ensures Runs(m, a) && Runs(After(m, a), b) && After(m, a + b) == After(After(m, a), b)
    decreases |b|
  {
    hide Step, Allowed;
    if b == [] {
      assert a + b == a;
    } else {
      var n := |b| - 1;
      assert (a + b)[..|a| + n] == a + b[..n] && (a + b)[|a| + n] == b[n];
      RunsConcat(m, a, b[..n]);
    }
  }

  /** The segments of a run, each started fresh from where the last one ended. */
  ghost predicate SegmentsRun(init: MState, segs: seq<seq<Op>>)
    requires Shaped(init)
    decreases |segs|, 0
  {
    segs == [] || (SegmentsRun(init, segs[..|segs| - 1]) && Runs(SegmentStart(init, segs[..|segs| - 1]), segs[|segs| - 1]))
  }

  /** Where the segment after segs starts. */
  ghost function SegmentStart(init: MState, segs: seq<seq<Op>>): (m: MState)
    requires Shaped(init) && SegmentsRun(init, segs)
    ensures Shaped(m)
    decreases |segs|, 1
  {
    if segs == [] then init
    else Next(After(SegmentStart(init, segs[..|segs| - 1]), segs[|segs| - 1]))
  }

  function Joined(segs: seq<seq<Op>>): seq<Op> {
    if segs == [] then [] else Joined(segs[..|segs| - 1]) + segs[|segs| - 1]
  }

  /** Registers and memory at every boundary are those of the unsegmented run. */
  lemma {:induction false} SegmentsFollowRun(init: MState, segs: seq<seq<Op>>)
    requires Started(init) && SegmentsRun(init, segs) && Runs(init, Joined(segs))
    ensures SegmentStart(init, segs).regs == After(init, Joined(segs)).regs
    ensures SegmentStart(init, segs).data == After(init, Joined(segs)).data
    decreases |segs|
  {
    if segs != [] {
      var n := |segs| - 1;
      RunsConcat(init, Joined(segs[..n]), segs[n]);
      SegmentsFollowRun(init, segs[..n]);
      hide After, Runs;
      RunForgetsTracer(SegmentStart(init, segs[..n]), After(init, Joined(segs[..n])), segs[n]);
    }
  }
}
