// What the replayed session guarantees: its links are accepted exactly when no
// mix imitates a draw, and its rows cancel against its public claims.
module ReplayTheorems {
  import opened Wrappers
  import opened M31
  import opened Sponge
  import opened Channel
  import opened ChannelReplay

  // -- Mixes that look like draws --------------------------------------------------------------

  /** A mix of two to seven words whose second is the draw tag. */
  predicate Imitates(op: ChannelOp) {
    op.Mix? && 2 <= |op.data| <= 7 && op.data[1] == DRAW_TAG
  }

  lemma StreamAfterDigest(digest: Block, words: Words)
    ensures ChunkStream(digest + words) == [digest] + ChunkStream(words)
  {
    assert digest + words + [1] == digest + (words + [1]);
    hide Blocks;
    FullBlock(digest + (words + [1]));
    assert (digest + (words + [1]))[RATE..] == words + [1];
    assert (digest + (words + [1]))[..RATE] == digest;
  }

  lemma StreamLength(words: Words)
    ensures |ChunkStream(words)| == 1 <==> |words| <= 7
    ensures |ChunkStream(words)| >= 1
    ensures |words| <= 7 ==> ChunkStream(words)[0] == words + [1] + Zeros(7 - |words|)
  {
    if |words| > 7 {
      FullBlock(words + [1]);
      if |words| > 7 { NotEmpty((words + [1])[RATE..]); }
    }
  }

  lemma NotEmpty(words: Words)
    requires words != []
    ensures Blocks(words) != []
  {
  }

  /** A run is taken for a draw exactly when it is one, or imitates one. */
  lemma LooksDrawnIff(c: ChannelState, op: ChannelOp)
    ensures LooksDrawn(ChunkStream(RunWords(c, op))) <==> op.Draw? || Imitates(op)
    ensures ChunkStream(RunWords(c, op)) != [] && ChunkStream(RunWords(c, op))[0] == c.digest
  {
    hide ChunkStream;
    var words := if op.Mix? then op.data else [Reduce(c.nDraws), DRAW_TAG];
    StreamAfterDigest(c.digest, words);
    StreamLength(words);
    var chunks := ChunkStream(RunWords(c, op));
    assert chunks == [c.digest] + ChunkStream(words);
    if |words| <= 7 {
      assert chunks[1] == words + [1] + Zeros(7 - |words|);
      assert |words| == 1 ==> chunks[1][1] == 1;
      assert |words| == 0 ==> chunks[1][1] == 0;
      assert |words| >= 2 ==> chunks[1][1] == words[1];
    }
  }

  // -- Accepted exactly when nothing imitates a draw -------------------------------------------

  function Imitations(ops: seq<ChannelOp>): nat {
    if ops == [] then 0 else Imitations(ops[..|ops| - 1]) + (if Imitates(ops[|ops| - 1]) then 1 else 0)
  }

  lemma {:induction false} NoImitations(ops: seq<ChannelOp>)
    ensures Imitations(ops) == 0 <==> forall i :: 0 <= i < |ops| ==> !Imitates(ops[i])
  {
    hide Imitates;
    if ops != [] {
      var front := ops[..|ops| - 1];
      NoImitations(front);
      assert forall i :: 0 <= i < |front| ==> front[i] == ops[i];
      if (forall i :: 0 <= i < |front| ==> !Imitates(front[i])) && !Imitates(ops[|ops| - 1]) {
        forall i | 0 <= i < |ops|
          ensures !Imitates(ops[i])
        {
          if i < |front| { assert !Imitates(front[i]); }
        }
      }
    }
  }

  /** Whenever the links hold, every run taken for a draw has been counted. */
  lemma {:induction false} LinksCountDraws(first: nat, ops: seq<ChannelOp>, draws: seq<Block>, perm: Permutation)
    requires LinkRuns(Claims(first, ops, perm), draws, perm).Ok?
    ensures LinkRuns(Claims(first, ops, perm), draws, perm).value.drawIndex == |Draws(ops, perm)| + Imitations(ops)
    ensures LinkRuns(Claims(first, ops, perm), draws, perm).value.drawIndex <= |draws|
    decreases |ops|
  {
    hide After, HashWords, ReplayState, ChunkStream, RunWords, LooksDrawn, Imitates;
    if ops == [] {
      NoLinks(draws, perm);
    } else {
      var n := |ops| - 1;
      var front := ops[..n];
      LastRun(first, ops, draws, perm);
      LinksCountDraws(first, front, draws, perm);
      LooksDrawnIff(After(front, perm), ops[n]);
      DrawIsNoImitation(ops[n]);
    }
  }

  lemma DrawIsNoImitation(op: ChannelOp)
    ensures op.Draw? ==> !Imitates(op)
  {
  }

  lemma LastRun(first: nat, ops: seq<ChannelOp>, draws: seq<Block>, perm: Permutation)
    requires ops != []
    ensures var n := |ops| - 1;
            var claim := ChannelClaim(first + n, ChunkStream(RunWords(After(ops[..n], perm), ops[n])));
            var before := LinkRuns(Claims(first, ops[..n], perm), draws, perm);
            LinkRuns(Claims(first, ops, perm), draws, perm)
            == if before.Err? then before else LinkRun(before.value, claim, draws, perm)
  {
    hide LinkRun, RunWords, ChunkStream, After;
    var n := |ops| - 1;
    var before := Claims(first, ops[..n], perm);
    assert Claims(first, ops, perm)[..|Claims(first, ops, perm)| - 1] == before;
  }

  /** Without imitations the links follow the channel: same digest, same draws. */
  lemma {:induction false} LinksFollowChannel(first: nat, ops: seq<ChannelOp>, draws: seq<Block>, perm: Permutation)
    requires Imitations(ops) == 0 && Draws(ops, perm) <= draws
    ensures LinkRuns(Claims(first, ops, perm), draws, perm)
            == Ok(Linked(After(ops, perm).digest, |Draws(ops, perm)|))
    decreases |ops|
  {
    hide HashWords, ReplayState, ChunkStream, RunWords, LooksDrawn, Imitates;
    if ops == [] {
      NoLinks(draws, perm);
    } else {
      var n := |ops| - 1;
      var front, c := ops[..n], After(ops[..n], perm);
      LastRun(first, ops, draws, perm);
      assert Draws(front, perm) <= Draws(ops, perm);
      LinksFollowChannel(first, front, draws, perm);
      LooksDrawnIff(c, ops[n]);
      RunHashes(RunWords(c, ops[n]), perm);
      HashOfRun(c, ops[n], perm);
      hide LinkRuns, Claims;
      assert LinkRun(Linked(c.digest, |Draws(front, perm)|), ChannelClaim(first + n, ChunkStream(RunWords(c, ops[n]))), draws, perm)
          == Ok(Linked(After(ops, perm).digest, |Draws(ops, perm)|));
    }
  }

  lemma HashOfRun(c: ChannelState, op: ChannelOp, perm: Permutation)
    ensures op.Mix? ==> Mixed(c, op.data, perm) == ChannelState(HashWords(RunWords(c, op), 0, perm), 0)
    ensures op.Draw? ==> Drawn(c, perm) == HashWords(RunWords(c, op), 0, perm)
  {
    hide HashWords;
  }

  /** check_links accepts a replayed session exactly when no mix imitates a draw, and then returns
      the channel's digest. */
  lemma SessionLinksIff(first: nat, ops: seq<ChannelOp>, perm: Permutation)
    ensures var r := LinkResult(ChannelSession(Claims(first, ops, perm), Draws(ops, perm)), perm);
            && (r.Ok? <==> forall i :: 0 <= i < |ops| ==> !Imitates(ops[i]))
            && (r.Ok? ==> r.value == After(ops, perm).digest)
  {
    hide LinkRuns, Claims, After, Draws, Imitations, Imitates;
    NoImitations(ops);
    var draws := Draws(ops, perm);
    if Imitations(ops) == 0 {
      LinksFollowChannel(first, ops, draws, perm);
    } else if LinkRuns(Claims(first, ops, perm), draws, perm).Ok? {
      LinksCountDraws(first, ops, draws, perm);
    }
  }

  /** Sixteen-bit words, as encode_u32s produces, never imitate a draw. */
  lemma EncodedMixesLink(first: nat, ops: seq<ChannelOp>, perm: Permutation)
    requires forall i :: 0 <= i < |ops| ==> NarrowMix(ops[i])
    ensures LinkResult(ChannelSession(Claims(first, ops, perm), Draws(ops, perm)), perm) == Ok(After(ops, perm).digest)
  {
    hide LinkResult, Claims, After, Draws;
    SessionLinksIff(first, ops, perm);
  }

  predicate NarrowMix(op: ChannelOp) {
    op.Mix? ==> forall k :: 0 <= k < |op.data| ==> op.data[k] < 0x1_0000
  }

  /** A mix of field elements can carry the tag: such a session does not link. */
  lemma TaggedMixRejected(perm: Permutation)
    ensures LinkResult(ChannelSession(Claims(0, [Mix([0, DRAW_TAG])], perm), Draws([Mix([0, DRAW_TAG])], perm)), perm).Err?
  {
    hide LinkResult, Claims, Draws;
    var ops := [Mix([0, DRAW_TAG])];
    SessionLinksIff(0, ops, perm);
    assert Imitates(ops[0]);
  }

  // -- The replay rows balance -----------------------------------------------------------------

  datatype StepClaim = StepClaim(channelId: Felt, step: Felt, state: State)
  datatype DataClaim = DataClaim(channelId: Felt, step: Felt, chunk: Block)

  function One(hit: bool): int {
    if hit then 1 else 0
  }

  /** sponge_step: each row consumes its previous state and emits the next. */
  function StepNet(rows: seq<ReplayRow>, c: StepClaim): int {
    if rows == [] then 0
    else
      var r := rows[|rows| - 1];
      StepNet(rows[..|rows| - 1], c)
      - One(StepClaim(r.channelId, r.step, r.prev) == c) + One(StepClaim(r.channelId, Reduce(r.step + 1), r.out) == c)
  }

  /** sponge_data: each row consumes its chunk. */
  function DataNet(rows: seq<ReplayRow>, d: DataClaim): int {
    if rows == [] then 0
    else
      var r := rows[|rows| - 1];
      DataNet(rows[..|rows| - 1], d) - One(DataClaim(r.channelId, r.step, r.chunk) == d)
  }

  /** public_channel_terms on sponge_step: the zero state in, the final state out. */
  function StepTerms(claims: seq<ChannelClaim>, perm: Permutation, c: StepClaim): int {
    if claims == [] then 0
    else
      var l := claims[|claims| - 1];
      StepTerms(claims[..|claims| - 1], perm, c)
      + One(StepClaim(Reduce(l.channelId), 0, Zeros(T)) == c)
      - One(StepClaim(Reduce(l.channelId), Reduce(|l.chunks|), ReplayState(l.chunks, perm)) == c)
  }

  function ChunkTerms(id: nat, chunks: seq<Block>, d: DataClaim): int {
    if chunks == [] then 0
    else
      var n := |chunks| - 1;
      ChunkTerms(id, chunks[..n], d) + One(DataClaim(Reduce(id), Reduce(n), chunks[n]) == d)
  }

  /** public_channel_terms on sponge_data: every chunk in. */
  function DataTerms(claims: seq<ChannelClaim>, d: DataClaim): int {
    if claims == [] then 0
    else
      var l := claims[|claims| - 1];
      DataTerms(claims[..|claims| - 1], d) + ChunkTerms(l.channelId, l.chunks, d)
  }

  lemma {:induction false} StepNetJoins(a: seq<ReplayRow>, b: seq<ReplayRow>, c: StepClaim)
    ensures StepNet(a + b, c) == StepNet(a, c) + StepNet(b, c)
    decreases |b|
  {
    if b == [] {
      assert a + b == a;
    } else {
      assert (a + b)[..|a + b| - 1] == a + b[..|b| - 1];
      StepNetJoins(a, b[..|b| - 1], c);
    }
  }

  lemma {:induction false} DataNetJoins(a: seq<ReplayRow>, b: seq<ReplayRow>, d: DataClaim)
    ensures DataNet(a + b, d) == DataNet(a, d) + DataNet(b, d)
    decreases |b|
  {
    if b == [] {
      assert a + b == a;
    } else {
      assert (a + b)[..|a + b| - 1] == a + b[..|b| - 1];
      DataNetJoins(a, b[..|b| - 1], d);
    }
  }

  /** A run's rows telescope from the zero state to its final state. */
  lemma {:induction false} RunTelescopes(id: nat, chunks: seq<Block>, perm: Permutation, c: StepClaim)
    ensures StepNet(RunRows(id, chunks, perm), c)
            == One(StepClaim(Reduce(id), Reduce(|chunks|), ReplayState(chunks, perm)) == c)
               - One(StepClaim(Reduce(id), 0, Zeros(T)) == c)
    decreases |chunks|
  {
    hide AbsorbBlocks;
    if chunks == [] {
      NoBlocks(Zeros(T), perm);
    } else {
      var front := chunks[..|chunks| - 1];
      RunTelescopes(id, front, perm, c);
      hide ReplayState;
      NextStep(|front|);
      var before := RunRows(id, front, perm);
      assert RunRows(id, chunks, perm)[..|before|] == before;
    }
  }

  lemma NextStep(n: nat)
    ensures Reduce(Reduce(n) + 1) == Reduce(n + 1)
  {
  }

  lemma {:induction false} RunData(id: nat, chunks: seq<Block>, perm: Permutation, d: DataClaim)
    ensures DataNet(RunRows(id, chunks, perm), d) + ChunkTerms(id, chunks, d) == 0
    decreases |chunks|
  {
    hide ReplayState;
    if chunks != [] {
      var front := chunks[..|chunks| - 1];
      RunData(id, front, perm, d);
      var before := RunRows(id, front, perm);
      assert RunRows(id, chunks, perm)[..|before|] == before;
    }
  }

  /** The rows of any claims cancel against the public terms of those claims, on both relations. */
  lemma {:induction false} ReplayRowsBalance(claims: seq<ChannelClaim>, perm: Permutation, c: StepClaim, d: DataClaim)
    ensures StepNet(Rows(claims, perm), c) + StepTerms(claims, perm, c) == 0
    ensures DataNet(Rows(claims, perm), d) + DataTerms(claims, d) == 0
    decreases |claims|
  {
    if claims != [] {
      var n := |claims| - 1;
      ReplayRowsBalance(claims[..n], perm, c, d);
      hide RunRows, ReplayState;
      RunTelescopes(claims[n].channelId, claims[n].chunks, perm, c);
      RunData(claims[n].channelId, claims[n].chunks, perm, d);
      StepNetJoins(Rows(claims[..n], perm), RunRows(claims[n].channelId, claims[n].chunks, perm), c);
      DataNetJoins(Rows(claims[..n], perm), RunRows(claims[n].channelId, claims[n].chunks, perm), d);
    }
  }
}
