// The memory commitment of a segment: which words are committed, which leaves the
// initial and final trees get, and the boundary rows of the memory table.
module Commitment {
  import opened Tracing
  import opened Machine
  import opened SparseTree

  const WORD := 0x1_0000_0000

  datatype Layout = Layout(
    dataBase: nat, dataEnd: nat, stackBottom: nat, stackTop: nat, ioBase: nat, ioEnd: nat,
    inputBase: nat, inputEnd: nat, outputLenAddr: nat, outputDataAddr: nat)

  predicate IsRw(l: Layout, a: nat) {
    l.dataBase <= a < l.dataEnd || l.stackBottom <= a < l.stackTop || l.ioBase <= a < l.ioEnd
  }

  predicate IsInput(l: Layout, a: nat) {
    l.inputBase <= a < l.inputEnd
  }

  /** The length word, or an aligned word of the output data; 32-bit wrapping ends. */
  predicate IsPublicOutput(l: Layout, a: nat, outputLen: nat) {
    if a == Aligned(l.outputLenAddr) then true
    else if outputLen == 0 then false
    else
      var end := (l.outputDataAddr + outputLen) % WORD;
      Aligned(l.outputDataAddr) <= a < Aligned((end + 3) % WORD)
  }

  /** Position of a segment in the execution. */
  datatype Role = Role(isFirst: bool, isLast: bool)

  /** What the commitment reads: memory and the tracer's access maps. */
  datatype Snapshot = Snapshot(data: Data, memClock: map<nat, nat>, memInitial: map<nat, nat>)

  function Of(m: MState): Snapshot {
    Snapshot(m.data, m.t.memClock, m.t.memInitial)
  }

  /** Word w holds a used or accessed read-write address. */
  ghost predicate Committed(s: Snapshot, l: Layout, w: nat) {
    exists a: nat :: (a in s.data || a in s.memClock) && IsRw(l, a) && Aligned(a) == w
  }

  datatype Entry = Entry(
    addr: nat, initialWord: nat, finalWord: nat, finalClock: nat, includeInitial: bool, includeFinal: bool)

  function EntryOf(s: Snapshot, l: Layout, role: Role, w: nat): Entry {
    var isInput := role.isFirst && IsInput(l, w);
    var isOutput := role.isLast && IsPublicOutput(l, w, ReadWord(s.data, l.outputLenAddr));
    var finalClock := if w in s.memClock then s.memClock[w] else 0;
    var finalWord := ReadWord(s.data, w);
    Entry(w, if w in s.memInitial then s.memInitial[w] else finalWord, finalWord, finalClock,
          !isInput, if isInput then finalClock > 0 else !isOutput)
  }

  function Byte256(n: nat): nat {
    if n == 0 then 1 else 256 * Byte256(n - 1)
  }

  /** Little-endian byte k of a word. */
  function ByteOf(word: nat, k: nat): nat
  {
    match k
    case 0 => word % 256
    case 1 => word / 0x100 % 256
    case 2 => word / 0x1_0000 % 256
    case _ => word / 0x100_0000 % 256
  }

  /** leaves holds the four bytes of word(w) for each word in ws, and nothing else. */
  ghost predicate LeavesOf(leaves: Level, ws: set<nat>, word: nat -> nat) {
    forall b: nat ::
      && (b in leaves <==> Aligned(b) in ws)
      && (b in leaves ==> leaves[b] == MerkleValue(ByteOf(word(Aligned(b)), b % 4), 1))
  }

  method InsertWordLeaves(leaves: Level, ghost ws: set<nat>, ghost word: nat -> nat, w: nat, value: nat)
    returns (leaves': Level)
    requires w % 4 == 0 && word(w) == value && LeavesOf(leaves, ws, word)
    ensures LeavesOf(leaves', ws + {w}, word)
  {
    hide Aligned, ByteOf;
    leaves' := leaves;
    var limb := 0;
    while limb < 4
      invariant limb <= 4
      invariant forall b: nat :: b in leaves' <==> b in leaves || w <= b < w + limb
      invariant forall b: nat :: w <= b < w + limb ==> leaves'[b] == MerkleValue(ByteOf(value, b - w), 1)
      invariant forall b: nat :: b in leaves && !(w <= b < w + limb) ==> leaves'[b] == leaves[b]
    {
      leaves' := leaves'[w + limb := MerkleValue(ByteOf(value, limb), 1)];
      limb := limb + 1;
    }
    forall b: nat
      ensures b in leaves' <==> Aligned(b) in ws + {w}
      ensures b in leaves' ==> leaves'[b] == MerkleValue(ByteOf(word(Aligned(b)), b % 4), 1)
    {
      AlignedRange(w, b);
    }
  }

  lemma AlignedRange(w: nat, b: nat)
    requires w % 4 == 0
    ensures Aligned(b) == w <==> w <= b < w + 4
    ensures w <= b < w + 4 ==> b % 4 == b - w
  {
  }

  /** Aligned words of the read-write addresses among keys. */
  method RwWords(l: Layout, keys: set<nat>) returns (ws: set<nat>)
    ensures forall w: nat :: w in ws <==> exists a: nat :: a in keys && IsRw(l, a) && Aligned(a) == w
  {
    ws := {};
    var ks := SortedKeys(keys);
    var n := 0;
    while n < |ks|
      invariant n <= |ks|
      invariant forall w: nat :: w in ws ==> exists a: nat :: a in keys && IsRw(l, a) && Aligned(a) == w
      invariant forall i :: 0 <= i < n && IsRw(l, ks[i]) ==> Aligned(ks[i]) in ws
    {
      assert ks[n] in keys;
      if IsRw(l, ks[n]) { ws := ws + {Aligned(ks[n])}; }
      n := n + 1;
    }
    forall w: nat | exists a: nat :: a in keys && IsRw(l, a) && Aligned(a) == w
      ensures w in ws
    {
      var a: nat :| a in keys && IsRw(l, a) && Aligned(a) == w;
      assert a in ks;
    }
  }

  /** The committed words that the initial tree covers. */
  ghost predicate InitialWords(s: Snapshot, l: Layout, role: Role, w: nat) {
    Committed(s, l, w) && EntryOf(s, l, role, w).includeInitial
  }

  ghost predicate FinalWords(s: Snapshot, l: Layout, role: Role, w: nat) {
    Committed(s, l, w) && EntryOf(s, l, role, w).includeFinal
  }

  /** The initial tree's leaves: the initial bytes of the words it covers. */
  ghost predicate InitialLeaves(leaves: Level, s: Snapshot, l: Layout, role: Role) {
    forall b: nat ::
      && (b in leaves <==> InitialWords(s, l, role, Aligned(b)))
      && (b in leaves ==> leaves[b] == MerkleValue(ByteOf(EntryOf(s, l, role, Aligned(b)).initialWord, b % 4), 1))
  }

  /** The final tree's leaves: the final bytes of the words it covers. */
  ghost predicate FinalLeaves(leaves: Level, s: Snapshot, l: Layout, role: Role) {
    forall b: nat ::
      && (b in leaves <==> FinalWords(s, l, role, Aligned(b)))
      && (b in leaves ==> leaves[b] == MerkleValue(ByteOf(EntryOf(s, l, role, Aligned(b)).finalWord, b % 4), 1))
  }

  /** Entries for the words, by increasing address. */
  ghost predicate EntriesOf(entries: seq<Entry>, s: Snapshot, l: Layout, role: Role) {
    && (forall i :: 0 <= i < |entries| ==> Committed(s, l, entries[i].addr) && entries[i] == EntryOf(s, l, role, entries[i].addr))
    && (forall i, j :: 0 <= i < j < |entries| ==> entries[i].addr < entries[j].addr)
    && (forall w: nat :: Committed(s, l, w) ==> exists i :: 0 <= i < |entries| && entries[i].addr == w)
  }

  /** collect_memory_commitment: one entry per committed word, and the leaves of both trees. */
  method CollectMemoryCommitment(s: Snapshot, l: Layout, role: Role)
    returns (entries: seq<Entry>, initialLeaves: Level, finalLeaves: Level)
    ensures EntriesOf(entries, s, l, role)
    ensures InitialLeaves(initialLeaves, s, l, role) && FinalLeaves(finalLeaves, s, l, role)
  {
    hide Committed, EntryOf, LeavesOf, Included, EntriesOf, InitialLeaves, FinalLeaves, IsRw, InitialWords, FinalWords;
    var used := RwWords(l, s.data.Keys);
    var accessed := RwWords(l, s.memClock.Keys);
    var addrs := SortedKeys(used + accessed);
    WordsCommitted(s, l, used, accessed, addrs);
    ghost var initialWord := (w: nat) => EntryOf(s, l, role, w).initialWord;
    ghost var finalWord := (w: nat) => EntryOf(s, l, role, w).finalWord;
    entries, initialLeaves, finalLeaves := [], map[], map[];
    ghost var initials: set<nat>, finals: set<nat> := {}, {};
    var n := 0;
    NothingIncluded(s, l, role, addrs, initialWord, finalWord);
    while n < |addrs|
      invariant n <= |addrs| && |entries| == n
      invariant forall i :: 0 <= i < n ==> entries[i] == EntryOf(s, l, role, addrs[i])
      invariant Included(s, l, role, addrs, n, initials, true) && Included(s, l, role, addrs, n, finals, false)
      invariant LeavesOf(initialLeaves, initials, initialWord) && LeavesOf(finalLeaves, finals, finalWord)
    {
      var entry := EntryOf(s, l, role, addrs[n]);
      NextIncluded(s, l, role, addrs, n, initials, true);
      NextIncluded(s, l, role, addrs, n, finals, false);
      if entry.includeInitial {
        initialLeaves := InsertWordLeaves(initialLeaves, initials, initialWord, addrs[n], entry.initialWord);
        initials := initials + {addrs[n]};
      }
      if entry.includeFinal {
        finalLeaves := InsertWordLeaves(finalLeaves, finals, finalWord, addrs[n], entry.finalWord);
        finals := finals + {addrs[n]};
      }
      entries := entries + [entry];
      n := n + 1;
    }
    AllIncluded(s, l, role, addrs, entries, initials, finals);
    LeavesCollected(s, l, role, initialLeaves, finalLeaves, initials, finals, initialWord, finalWord);
  }

  lemma LeavesCollected(
      s: Snapshot, l: Layout, role: Role, initialLeaves: Level, finalLeaves: Level, initials: set<nat>, finals: set<nat>,
      initialWord: nat -> nat, finalWord: nat -> nat)
    requires forall w: nat :: w in initials <==> InitialWords(s, l, role, w)
    requires forall w: nat :: w in finals <==> FinalWords(s, l, role, w)
    requires LeavesOf(initialLeaves, initials, initialWord) && LeavesOf(finalLeaves, finals, finalWord)
    requires forall w: nat :: initialWord(w) == EntryOf(s, l, role, w).initialWord
    requires forall w: nat :: finalWord(w) == EntryOf(s, l, role, w).finalWord
    ensures InitialLeaves(initialLeaves, s, l, role) && FinalLeaves(finalLeaves, s, l, role)
  {
    hide InitialWords, FinalWords, EntryOf, ByteOf;
  }

  /** ws are the words among the first n that the initial (or final) tree covers. */
  ghost predicate Included(s: Snapshot, l: Layout, role: Role, addrs: seq<nat>, n: nat, ws: set<nat>, initial: bool)
    requires n <= |addrs|
  {
    forall w: nat :: w in ws <==> w in addrs[..n] && Covers(EntryOf(s, l, role, w), initial)
  }

  predicate Covers(entry: Entry, initial: bool) {
    if initial then entry.includeInitial else entry.includeFinal
  }

  lemma NothingIncluded(s: Snapshot, l: Layout, role: Role, addrs: seq<nat>, initialWord: nat -> nat, finalWord: nat -> nat)
    ensures Included(s, l, role, addrs, 0, {}, true) && Included(s, l, role, addrs, 0, {}, false)
    ensures LeavesOf(map[], {}, initialWord) && LeavesOf(map[], {}, finalWord)
  {
    hide EntryOf;
  }

  lemma NextIncluded(s: Snapshot, l: Layout, role: Role, addrs: seq<nat>, n: nat, ws: set<nat>, initial: bool)
    requires n < |addrs| && Included(s, l, role, addrs, n, ws, initial)
    ensures Included(s, l, role, addrs, n + 1,
                     if Covers(EntryOf(s, l, role, addrs[n]), initial) then ws + {addrs[n]} else ws, initial)
  {
    hide EntryOf, Covers;
    assert addrs[..n + 1] == addrs[..n] + [addrs[n]];
  }

  lemma AllIncluded(
      s: Snapshot, l: Layout, role: Role, addrs: seq<nat>, entries: seq<Entry>, initials: set<nat>, finals: set<nat>)
    requires (forall w: nat :: w in addrs <==> Committed(s, l, w)) && |entries| == |addrs|
    requires (forall i, j :: 0 <= i < j < |addrs| ==> addrs[i] < addrs[j])
    requires forall i :: 0 <= i < |addrs| ==> Committed(s, l, addrs[i]) && entries[i] == EntryOf(s, l, role, addrs[i])
    requires Included(s, l, role, addrs, |addrs|, initials, true) && Included(s, l, role, addrs, |addrs|, finals, false)
    ensures EntriesOf(entries, s, l, role)
    ensures forall w: nat :: w in initials <==> InitialWords(s, l, role, w)
    ensures forall w: nat :: w in finals <==> FinalWords(s, l, role, w)
  {
    assert addrs[..|addrs|] == addrs;
    hide Committed;
    forall i | 0 <= i < |addrs|
      ensures entries[i].addr == addrs[i]
    {
    }
    hide EntryOf;
    forall w: nat | Committed(s, l, w)
      ensures exists i :: 0 <= i < |entries| && entries[i].addr == w
    {
      var i :| 0 <= i < |addrs| && addrs[i] == w;
      assert entries[i].addr == w;
    }
  }

  lemma WordsCommitted(s: Snapshot, l: Layout, used: set<nat>, accessed: set<nat>, addrs: seq<nat>)
    requires forall w: nat :: w in used <==> exists a: nat :: a in s.data.Keys && IsRw(l, a) && Aligned(a) == w
    requires forall w: nat :: w in accessed <==> exists a: nat :: a in s.memClock.Keys && IsRw(l, a) && Aligned(a) == w
    requires Increasing(addrs) && forall k :: k in addrs <==> k in used + accessed
    ensures forall w: nat :: w in addrs <==> Committed(s, l, w)
    ensures forall i :: 0 <= i < |addrs| ==> addrs[i] % 4 == 0 && Committed(s, l, addrs[i])
    ensures forall i, j :: 0 <= i < j < |addrs| ==> addrs[i] < addrs[j]
    ensures forall w: nat :: Committed(s, l, w) ==> exists i :: 0 <= i < |addrs| && addrs[i] == w
  {
    forall w: nat
      ensures w in addrs <==> Committed(s, l, w)
    {
      if w in used {
        var a: nat :| a in s.data.Keys && IsRw(l, a) && Aligned(a) == w;
      }
      if w in accessed {
        var a: nat :| a in s.memClock.Keys && IsRw(l, a) && Aligned(a) == w;
      }
    }
    forall i | 0 <= i < |addrs|
      ensures addrs[i] % 4 == 0 && Committed(s, l, addrs[i])
    {
      assert addrs[i] in addrs;
    }
    forall w: nat | Committed(s, l, w)
      ensures exists i :: 0 <= i < |addrs| && addrs[i] == w
    {
      assert w in addrs;
    }
  }
}
