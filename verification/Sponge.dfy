// The Poseidon2 sponge: rate 8, additive absorption, a single 1 as end marker.
// The permutation is a parameter.
module Sponge {
  import opened M31

  const RATE := 8
  const T := 16
  const LEAF_TAG: Felt := 1

  type Words = seq<Felt>
  type State = s: Words | |s| == T witness Zeros(T)
  type Block = s: Words | |s| == RATE witness Zeros(RATE)
  type Permutation = State -> State

  function Zeros(n: nat): (z: Words)
    ensures |z| == n && forall i :: 0 <= i < n ==> z[i] == 0
  {
    seq(n, i => 0)
  }

  function Rate(s: State): Block {
    s[..RATE]
  }

  /** The empty sponge with a tag in its last capacity word. */
  function Tagged(tag: Felt): State {
    Zeros(T)[T - 1 := tag]
  }

  /** absorb_word: addition in the field. */
  function Plus(a: Felt, b: Felt): Felt {
    Reduce(a + b)
  }

  // -- Word by word ----------------------------------------------------------------------------

  /** A state and how many rate words have been absorbed since the last permutation. */
  datatype Sponge = Sponge(state: State, filled: nat)

  function AbsorbWord(s: Sponge, word: Felt, perm: Permutation): (r: Sponge)
    requires s.filled < RATE
    ensures r.filled < RATE
  {
    var state := s.state[s.filled := Plus(s.state[s.filled], word)];
    if s.filled + 1 == RATE then Sponge(perm(state), 0) else Sponge(state, s.filled + 1)
  }

  function AbsorbAll(s: Sponge, words: Words, perm: Permutation): (r: Sponge)
    requires s.filled < RATE
    ensures r.filled < RATE
    decreases |words|
  {
    if words == [] then s else AbsorbAll(AbsorbWord(s, words[0], perm), words[1..], perm)
  }

  /** hash_words: absorb the words and the marker, permute a partial block. */
  function HashWords(words: Words, tag: Felt, perm: Permutation): Block {
    var s := AbsorbAll(Sponge(Tagged(tag), 0), words + [1], perm);
    Rate(if s.filled != 0 then perm(s.state) else s.state)
  }

  lemma {:induction false} AbsorbPush(s: Sponge, words: Words, word: Felt, perm: Permutation)
    requires s.filled < RATE
    ensures AbsorbAll(s, words + [word], perm) == AbsorbWord(AbsorbAll(s, words, perm), word, perm)
    decreases |words|
  {
    if words == [] {
      assert (words + [word])[1..] == [];
    } else {
      assert (words + [word])[1..] == words[1..] + [word];
      AbsorbPush(AbsorbWord(s, words[0], perm), words[1..], word, perm);
    }
  }

  /** Sponge-hash a stream of words. */
  method HashWordStream(words: Words, tag: Felt, perm: Permutation) returns (digest: Block)
    ensures digest == HashWords(words, tag, perm)
  {
    hide AbsorbAll, AbsorbWord, Plus;
    var state: State, filled: nat := Zeros(T)[T - 1 := tag], 0;
    var marked := words + [1];
    ghost var start := Sponge(Tagged(tag), 0);
    var i := 0;
    NothingAbsorbed(start, perm);
    assert marked[..0] == [];
    while i < |marked|
      invariant i <= |marked| && |state| == T && filled < RATE
      invariant Sponge(state, filled) == AbsorbAll(start, marked[..i], perm)
    {
      AbsorbPush(start, marked[..i], marked[i], perm);
      assert marked[..i] + [marked[i]] == marked[..i + 1];
      AbsorbOne(Sponge(state, filled), marked[i], perm);
      state := state[filled := Plus(state[filled], marked[i])];
      filled := filled + 1;
      if filled == RATE {
        state := perm(state);
        filled := 0;
      }
      i := i + 1;
    }
    assert marked[..i] == marked;
    if filled != 0 { state := perm(state); }
    digest := state[..RATE];
  }

  lemma NothingAbsorbed(s: Sponge, perm: Permutation)
    requires s.filled < RATE
    ensures AbsorbAll(s, [], perm) == s
  {
  }

  lemma AbsorbOne(s: Sponge, word: Felt, perm: Permutation)
    requires s.filled < RATE
    ensures var state := s.state[s.filled := Plus(s.state[s.filled], word)];
            AbsorbWord(s, word, perm)
            == if s.filled + 1 == RATE then Sponge(perm(state), 0) else Sponge(state, s.filled + 1)
  {
  }

  // -- Block by block --------------------------------------------------------------------------

  /** Rate-sized blocks, the last one filled up with zeros. */
  function Blocks(words: Words): (bs: seq<Block>)
    decreases |words|
  {
    if words == [] then []
    else if |words| <= RATE then [words + Zeros(RATE - |words|)]
    else [words[..RATE]] + Blocks(words[RATE..])
  }

  /** chunk_stream: the blocks of the words and the end marker. */
  function ChunkStream(words: Words): seq<Block> {
    Blocks(words + [1])
  }

  /** Add a block into the rate. */
  function AddBlock(s: State, b: Block): State {
    seq(T, i requires 0 <= i < T => if i < RATE then Plus(s[i], b[i]) else s[i])
  }

  /** replay_digest from a given state: add each block, then permute. */
  function AbsorbBlocks(s: State, bs: seq<Block>, perm: Permutation): State
    decreases |bs|
  {
    if bs == [] then s else AbsorbBlocks(perm(AddBlock(s, bs[0])), bs[1..], perm)
  }

  lemma {:induction false} BlocksPush(s: State, bs: seq<Block>, b: Block, perm: Permutation)
    ensures AbsorbBlocks(s, bs + [b], perm) == perm(AddBlock(AbsorbBlocks(s, bs, perm), b))
    decreases |bs|
  {
    if bs == [] {
      assert (bs + [b])[1..] == [];
    } else {
      assert (bs + [b])[1..] == bs[1..] + [b];
      BlocksPush(perm(AddBlock(s, bs[0])), bs[1..], b, perm);
    }
  }

  /** The state after the first n words of a block have been added in place. */
  function Added(s: State, words: Words): State
    requires |words| <= RATE
  {
    seq(T, i requires 0 <= i < T => if i < |words| then Plus(s[i], words[i]) else s[i])
  }

  /** Fewer words than a block leaves: they are added in place, nothing is permuted. */
  lemma {:induction false} AbsorbPart(s: State, words: Words, perm: Permutation)
    requires |words| < RATE
    ensures AbsorbAll(Sponge(s, 0), words, perm) == Sponge(Added(s, words), |words|)
    decreases |words|
  {
    if words == [] {
      assert Added(s, words) == s;
    } else {
      var n := |words| - 1;
      var front, last := words[..n], words[n];
      AbsorbPart(s, front, perm);
      assert words == front + [last];
      AbsorbPush(Sponge(s, 0), front, last, perm);
      AbsorbOne(Sponge(Added(s, front), n), last, perm);
      hide AbsorbAll, AbsorbWord, Plus;
      assert Added(s, words) == Added(s, front)[n := Plus(Added(s, front)[n], last)];
    }
  }

  lemma AbsorbBlock(s: State, words: Words, perm: Permutation)
    requires |words| == RATE
    ensures AbsorbAll(Sponge(s, 0), words, perm) == Sponge(perm(AddBlock(s, words)), 0)
  {
    var front, last := words[..7], words[7];
    AbsorbPart(s, front, perm);
    assert words == front + [last];
    AbsorbPush(Sponge(s, 0), front, last, perm);
    AbsorbOne(Sponge(Added(s, front), 7), last, perm);
    hide AbsorbAll, AbsorbWord, Plus;
    assert AddBlock(s, words) == Added(s, front)[7 := Plus(Added(s, front)[7], last)];
  }

  lemma {:induction false} AbsorbJoin(s: Sponge, a: Words, b: Words, perm: Permutation)
    requires s.filled < RATE
    ensures AbsorbAll(s, a + b, perm) == AbsorbAll(AbsorbAll(s, a, perm), b, perm)
    decreases |a|
  {
    if a == [] {
      assert a + b == b;
    } else {
      assert (a + b)[1..] == a[1..] + b;
      AbsorbJoin(AbsorbWord(s, a[0], perm), a[1..], b, perm);
    }
  }

  /** Adding zeros to canonical words changes nothing. */
  lemma PaddedBlock(s: State, words: Words)
    requires |words| <= RATE
    ensures AddBlock(s, words + Zeros(RATE - |words|)) == Added(s, words)
  {
    var b: Block := words + Zeros(RATE - |words|);
    forall i | 0 <= i < T
      ensures AddBlock(s, b)[i] == Added(s, words)[i]
    {
      if |words| <= i < RATE { assert b[i] == 0; }
    }
  }

  function Squeeze(s: Sponge, perm: Permutation): State {
    if s.filled != 0 then perm(s.state) else s.state
  }

  /** Word-by-word absorption with a final permutation is block-by-block absorption. */
  lemma {:induction false} SpongeIsBlocks(s: State, words: Words, perm: Permutation)
    ensures Squeeze(AbsorbAll(Sponge(s, 0), words, perm), perm) == AbsorbBlocks(s, Blocks(words), perm)
    decreases |words|
  {
    hide AbsorbAll, AddBlock, Added;
    if words == [] {
      NothingAbsorbed(Sponge(s, 0), perm);
    } else if |words| < RATE {
      AbsorbPart(s, words, perm);
      PaddedBlock(s, words);
      OneBlock(s, words + Zeros(RATE - |words|), perm);
    } else if |words| == RATE {
      AbsorbBlock(s, words, perm);
      assert words + Zeros(0) == words;
      OneBlock(s, words, perm);
    } else {
      assert words == words[..RATE] + words[RATE..];
      AbsorbJoin(Sponge(s, 0), words[..RATE], words[RATE..], perm);
      AbsorbBlock(s, words[..RATE], perm);
      SpongeIsBlocks(perm(AddBlock(s, words[..RATE])), words[RATE..], perm);
      assert Blocks(words)[1..] == Blocks(words[RATE..]);
    }
  }

  lemma OneBlock(s: State, b: Block, perm: Permutation)
    ensures AbsorbBlocks(s, [b], perm) == perm(AddBlock(s, b))
  {
    assert [b][1..] == [];
  }

  /** hash_words is the replayed digest of its own chunk stream. */
  lemma HashIsReplay(words: Words, tag: Felt, perm: Permutation)
    ensures HashWords(words, tag, perm) == Rate(AbsorbBlocks(Tagged(tag), ChunkStream(words), perm))
  {
    hide AbsorbAll, AbsorbBlocks, Blocks;
    SpongeIsBlocks(Tagged(tag), words + [1], perm);
  }

  // -- The chunk stream ------------------------------------------------------------------------

  /** Split a word stream into rate-sized chunks with the end marker. */
  method ChunkWords(words: Words) returns (chunks: seq<Block>)
    ensures chunks == ChunkStream(words)
  {
    hide Blocks;
    chunks := [];
    var current: Words, filled: nat := Zeros(RATE), 0;
    var marked := words + [1];
    var i := 0;
    assert marked[0..] == marked;
    while i < |marked|
      invariant i <= |marked| && |current| == RATE && filled < RATE && filled <= i
      invariant current == marked[i - filled..i] + Zeros(RATE - filled)
      invariant Blocks(marked) == chunks + Blocks(marked[i - filled..])
    {
      current := current[filled := marked[i]];
      filled := filled + 1;
      i := i + 1;
      assert current == marked[i - filled..i] + Zeros(RATE - filled);
      if filled == RATE {
        FullBlock(marked[i - filled..]);
        assert marked[i - filled..][..RATE] == current;
        assert marked[i - filled..][RATE..] == marked[i..];
        chunks := chunks + [current];
        current, filled := Zeros(RATE), 0;
      }
    }
    PartBlock(marked[i - filled..]);
    assert marked[i - filled..] == marked[i - filled..i];
    if filled != 0 { chunks := chunks + [current]; }
  }

  lemma FullBlock(words: Words)
    requires |words| >= RATE
    ensures Blocks(words) == [words[..RATE]] + Blocks(words[RATE..])
  {
    if |words| == RATE {
      assert words + Zeros(0) == words[..RATE];
    }
  }

  lemma PartBlock(words: Words)
    requires |words| < RATE
    ensures Blocks(words) == if words == [] then [] else [words + Zeros(RATE - |words|)]
  {
  }

  function Flatten(bs: seq<Block>): Words {
    if bs == [] then [] else bs[0] + Flatten(bs[1..])
  }

  lemma {:induction false} BlocksFlatten(words: Words) returns (pad: nat)
    ensures Flatten(Blocks(words)) == words + Zeros(pad)
    decreases |words|
  {
    if words == [] {
      pad := 0;
    } else if |words| <= RATE {
      pad := RATE - |words|;
      assert [words + Zeros(pad)][1..] == [];
    } else {
      pad := BlocksFlatten(words[RATE..]);
      assert Blocks(words)[1..] == Blocks(words[RATE..]);
      assert words == words[..RATE] + words[RATE..];
    }
  }

  lemma MarkerDecides(a: Words, b: Words, m: nat, n: nat)
    requires a + [1] + Zeros(m) == b + [1] + Zeros(n)
    ensures a == b
  {
    if |a| < |b| {
      PadAt(a, m, |b|);
      MarkerAt(b, n);
      assert false;
    }
    if |b| < |a| {
      PadAt(b, n, |a|);
      MarkerAt(a, m);
      assert false;
    }
    assert a == (a + [1] + Zeros(m))[..|a|] && b == (b + [1] + Zeros(n))[..|b|];
  }

  lemma PadAt(a: Words, m: nat, k: nat)
    requires |a| < k < |a| + 1 + m
    ensures (a + [1] + Zeros(m))[k] == 0
  {
  }

  lemma MarkerAt(a: Words, m: nat)
    ensures (a + [1] + Zeros(m))[|a|] == 1
  {
  }

  /** The padding is injective: different word streams have different chunk streams. */
  lemma ChunkStreamInjective(a: Words, b: Words)
    requires ChunkStream(a) == ChunkStream(b)
    ensures a == b
  {
    hide Blocks, Flatten;
    var m := BlocksFlatten(a + [1]);
    var n := BlocksFlatten(b + [1]);
    MarkerDecides(a, b, m, n);
  }

  // -- Leaf hashing ----------------------------------------------------------------------------

  /** Incremental leaf hasher: the sponge state and the fill position. */
  class LeafHasher {
    var state: State
    var filled: nat
    ghost var absorbed: Words

    ghost predicate Valid(perm: Permutation)
      reads this
    {
      Sponge(state, filled) == AbsorbAll(Sponge(Tagged(LEAF_TAG), 0), absorbed, perm)
    }

    constructor ()
      ensures absorbed == [] && forall perm :: Valid(perm)
    {
      state, filled, absorbed := Zeros(T)[T - 1 := LEAF_TAG], 0, [];
    }

    /** Absorb column values. */
    method UpdateLeaf(values: Words, perm: Permutation)
      requires Valid(perm)
      modifies this
      ensures Valid(perm) && absorbed == old(absorbed) + values
    {
      hide AbsorbAll, AbsorbWord, Plus;
      ghost var start := Sponge(Tagged(LEAF_TAG), 0);
      var i := 0;
      assert absorbed + values[..0] == absorbed;
      while i < |values|
        invariant i <= |values| && filled < RATE && absorbed == old(absorbed) + values[..i]
        invariant Sponge(state, filled) == AbsorbAll(start, absorbed, perm)
      {
        AbsorbPush(start, absorbed, values[i], perm);
        AbsorbOne(Sponge(state, filled), values[i], perm);
        assert old(absorbed) + values[..i] + [values[i]] == old(absorbed) + values[..i + 1];
        state := state[filled := Plus(state[filled], values[i])];
        filled := filled + 1;
        if filled == RATE {
          state := perm(state);
          filled := 0;
        }
        absorbed := absorbed + [values[i]];
        i := i + 1;
      }
      assert values[..i] == values;
    }

    /** Absorb the marker and squeeze: the tagged hash of everything absorbed. */
    method Finalize(perm: Permutation) returns (digest: Block)
      requires Valid(perm)
      ensures digest == HashWords(absorbed, LEAF_TAG, perm)
    {
      hide AbsorbAll, AbsorbWord, Plus;
      AbsorbPush(Sponge(Tagged(LEAF_TAG), 0), absorbed, 1, perm);
      AbsorbOne(Sponge(state, filled), 1, perm);
      var last := perm(state[filled := Plus(state[filled], 1)]);
      digest := last[..RATE];
    }
  }
}
