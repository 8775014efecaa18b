// The Poseidon2 Fiat-Shamir channel: a digest and a draw counter.
module Channel {
  import opened M31
  import opened Sponge

  const DRAW_TAG: Felt := 0x44524157

  datatype ChannelState = ChannelState(digest: Block, nDraws: nat)

  const FRESH_CHANNEL := ChannelState(Zeros(RATE), 0)

  function Mixed(c: ChannelState, words: Words, perm: Permutation): ChannelState {
    ChannelState(HashWords(c.digest + words, 0, perm), 0)
  }

  function Drawn(c: ChannelState, perm: Permutation): Block {
    HashWords(c.digest + [Reduce(c.nDraws), DRAW_TAG], 0, perm)
  }

  /** Split u32s into 16-bit halves. */
  function EncodeU32s(data: seq<nat>): (words: Words)
    requires forall i :: 0 <= i < |data| ==> data[i] < 0x1_0000_0000
    ensures |words| == 2 * |data| && forall i :: 0 <= i < |words| ==> words[i] < 0x1_0000
    decreases |data|
  {
    if data == [] then [] else [data[0] % 0x1_0000, data[0] / 0x1_0000] + EncodeU32s(data[1..])
  }

  /** The split loses nothing, even for words beyond the modulus. */
  lemma {:induction false} EncodeU32sInjective(a: seq<nat>, b: seq<nat>)
    requires forall i :: 0 <= i < |a| ==> a[i] < 0x1_0000_0000
    requires forall i :: 0 <= i < |b| ==> b[i] < 0x1_0000_0000
    requires EncodeU32s(a) == EncodeU32s(b)
    ensures a == b
    decreases |a|
  {
    assert |a| == |b|;
    if a != [] {
      var x, y := EncodeU32s(a), EncodeU32s(b);
      assert x[0] == a[0] % 0x1_0000 && x[1] == a[0] / 0x1_0000;
      assert y[0] == b[0] % 0x1_0000 && y[1] == b[0] / 0x1_0000;
      assert a[0] == b[0];
      assert EncodeU32s(a[1..]) == x[2..] && EncodeU32s(b[1..]) == y[2..];
      EncodeU32sInjective(a[1..], b[1..]);
    }
  }

  class Poseidon2Channel {
    var digest: Block
    var nDraws: nat

    function State(): ChannelState
      reads this
    {
      ChannelState(digest, nDraws)
    }

    constructor ()
      ensures State() == FRESH_CHANNEL
    {
      digest, nDraws := Zeros(RATE), 0;
    }

    method MixWords(words: Words, perm: Permutation)
      modifies this
      ensures State() == Mixed(old(State()), words, perm)
    {
      digest := HashWordStream(digest + words, 0, perm);
      nDraws := 0;
    }

    method MixU32s(data: seq<nat>, perm: Permutation)
      requires forall i :: 0 <= i < |data| ==> data[i] < 0x1_0000_0000
      modifies this
      ensures State() == Mixed(old(State()), EncodeU32s(data), perm)
    {
      MixWords(EncodeU32s(data), perm);
    }

    /** Squeeze one block; the digest stays. */
    method DrawWords(perm: Permutation) returns (block: Block)
      modifies this
      ensures block == Drawn(old(State()), perm)
      ensures State() == old(State()).(nDraws := old(nDraws) + 1)
    {
      var input := digest + [Reduce(nDraws), DRAW_TAG];
      nDraws := nDraws + 1;
      block := HashWordStream(input, 0, perm);
    }
  }

  // -- A transcript ----------------------------------------------------------------------------

  datatype ChannelOp = Mix(data: Words) | Draw

  /** The channel after a list of operations. */
  function After(ops: seq<ChannelOp>, perm: Permutation): ChannelState {
    if ops == [] then FRESH_CHANNEL
    else
      var c := After(ops[..|ops| - 1], perm);
      match ops[|ops| - 1]
      case Mix(data) => Mixed(c, data, perm)
      case Draw => c.(nDraws := c.nDraws + 1)
  }

  /** The blocks it drew, in order. */
  function Draws(ops: seq<ChannelOp>, perm: Permutation): seq<Block> {
    if ops == [] then []
    else
      var earlier := Draws(ops[..|ops| - 1], perm);
      if ops[|ops| - 1].Draw? then earlier + [Drawn(After(ops[..|ops| - 1], perm), perm)] else earlier
  }
}
