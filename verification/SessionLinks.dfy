// What check_links accepts, for any session and not only for replayed ones: runs
// that start from the digest of the last run not taken for a draw, and the
// outputs of the others, in order, as draws. A draw's counter is not looked at.
module SessionLinks {
  import opened Wrappers
  import opened M31
  import opened Sponge
  import opened Channel
  import opened ChannelReplay
  import opened ReplayTheorems

  function RunOutput(claim: ChannelClaim, perm: Permutation): Block {
    Rate(ReplayState(claim.chunks, perm))
  }

  /** The output of the last of the first i runs that is not taken for a draw. */
  function DigestAt(claims: seq<ChannelClaim>, i: nat, perm: Permutation): Block
    requires i <= |claims|
  {
    if i == 0 then Zeros(RATE)
    else if LooksDrawn(claims[i - 1].chunks) then DigestAt(claims, i - 1, perm)
    else RunOutput(claims[i - 1], perm)
  }

  /** The outputs of the runs taken for draws, in order. */
  function DrawOutputs(claims: seq<ChannelClaim>, perm: Permutation): seq<Block> {
    if claims == [] then []
    else
      var n := |claims| - 1;
      DrawOutputs(claims[..n], perm) + (if LooksDrawn(claims[n].chunks) then [RunOutput(claims[n], perm)] else [])
  }

  /** Run i starts from the digest before it. */
  ghost predicate StartsRight(claims: seq<ChannelClaim>, i: nat, perm: Permutation)
    requires i < |claims|
  {
    claims[i].chunks != [] && claims[i].chunks[0] == DigestAt(claims, i, perm)
  }

  ghost predicate AllStartRight(claims: seq<ChannelClaim>, perm: Permutation) {
    forall i :: 0 <= i < |claims| ==> StartsRight(claims, i, perm)
  }

  lemma {:induction false} DigestOfPrefix(claims: seq<ChannelClaim>, n: nat, i: nat, perm: Permutation)
    requires i <= n <= |claims|
    ensures DigestAt(claims[..n], i, perm) == DigestAt(claims, i, perm)
    decreases i
  {
    hide LooksDrawn, RunOutput;
    if i > 0 { DigestOfPrefix(claims, n, i - 1, perm); }
  }

  lemma PrefixStarts(claims: seq<ChannelClaim>, perm: Permutation)
    requires claims != []
    ensures var n := |claims| - 1;
            AllStartRight(claims, perm) <==> AllStartRight(claims[..n], perm) && StartsRight(claims, n, perm)
  {
    hide DigestAt;
    var n := |claims| - 1;
    forall i | 0 <= i < n
      ensures StartsRight(claims[..n], i, perm) <==> StartsRight(claims, i, perm)
    {
      DigestOfPrefix(claims, n, i, perm);
    }
  }

  /** The links hold for exactly the runs that start right and whose draw outputs come first in `draws`. */
  lemma {:induction false} LinksExactly(claims: seq<ChannelClaim>, draws: seq<Block>, perm: Permutation)
    ensures LinkRuns(claims, draws, perm).Ok? <==> AllStartRight(claims, perm) && DrawOutputs(claims, perm) <= draws
    ensures LinkRuns(claims, draws, perm).Ok? ==>
              LinkRuns(claims, draws, perm).value == Linked(DigestAt(claims, |claims|, perm), |DrawOutputs(claims, perm)|)
    decreases |claims|
  {
    hide ReplayState, LooksDrawn, AllStartRight, StartsRight;
    if claims == [] {
      NothingLinked(draws, perm);
    } else {
      var n := |claims| - 1;
      LinksExactly(claims[..n], draws, perm);
      PrefixStarts(claims, perm);
      DigestOfPrefix(claims, n, n, perm);
      LastLink(claims, draws, perm);
    }
  }

  lemma NothingLinked(draws: seq<Block>, perm: Permutation)
    ensures AllStartRight([], perm) && DrawOutputs([], perm) == [] && LinkRuns([], draws, perm) == Ok(Linked(Zeros(RATE), 0))
  {
  }

  /** One more run, after runs that link. */
  lemma LastLink(claims: seq<ChannelClaim>, draws: seq<Block>, perm: Permutation)
    requires claims != []
    requires var n := |claims| - 1;
             LinkRuns(claims[..n], draws, perm).Ok? ==>
               && DrawOutputs(claims[..n], perm) <= draws
               && LinkRuns(claims[..n], draws, perm).value
                  == Linked(DigestAt(claims, n, perm), |DrawOutputs(claims[..n], perm)|)
    ensures LinkRuns(claims, draws, perm).Ok? <==>
              && LinkRuns(claims[..|claims| - 1], draws, perm).Ok? && StartsRight(claims, |claims| - 1, perm)
              && DrawOutputs(claims, perm) <= draws
    ensures LinkRuns(claims, draws, perm).Ok? ==>
              LinkRuns(claims, draws, perm).value == Linked(DigestAt(claims, |claims|, perm), |DrawOutputs(claims, perm)|)
  {
    hide ReplayState, LooksDrawn;
    var n := |claims| - 1;
    var before, last := DrawOutputs(claims[..n], perm), RunOutput(claims[n], perm);
    OneMore(before, last, draws);
  }

  lemma OneMore(before: seq<Block>, last: Block, draws: seq<Block>)
    ensures before <= draws ==> (before + [last] <= draws <==> |before| < |draws| && draws[|before|] == last)
    ensures before + [last] <= draws ==> before <= draws
  {
    if before <= draws && |before| < |draws| && draws[|before|] == last {
      assert before + [last] == draws[..|before| + 1];
    }
    if before + [last] <= draws { assert (before + [last])[|before|] == draws[|before|]; }
  }

  /** check_links accepts a session if and only if every run starts from the digest of the last run not
      taken for a draw and the draws are the outputs of the others; it returns the last such digest. */
  lemma AcceptedExactly(session: ChannelSession, perm: Permutation)
    ensures var r := LinkResult(session, perm);
            && (r.Ok? <==> AllStartRight(session.claims, perm) && session.draws == DrawOutputs(session.claims, perm))
            && (r.Ok? ==> r.value == DigestAt(session.claims, |session.claims|, perm))
  {
    hide LinkRuns, AllStartRight, DrawOutputs, DigestAt;
    LinksExactly(session.claims, session.draws, perm);
  }

  // -- Sessions that were recorded ---------------------------------------------------------------

  /** The block ends in the end marker and zeros. */
  predicate Marked(b: Block) {
    exists n: nat :: n < RATE && MarkedAt(b, n)
  }

  predicate MarkedAt(b: Block, n: nat)
    requires n < RATE
  {
    b == b[..n] + [1] + Zeros(RATE - 1 - n)
  }

  lemma {:induction false} StreamMarked(words: Words)
    ensures var chunks := ChunkStream(words); chunks != [] && Marked(chunks[|chunks| - 1])
    decreases |words|
  {
    if |words| < RATE {
      StreamLength(words);
      assert MarkedAt(ChunkStream(words)[0], |words|);
    } else {
      assert words == words[..RATE] + words[RATE..];
      hide ChunkStream;
      StreamAfterDigest(words[..RATE], words[RATE..]);
      StreamMarked(words[RATE..]);
    }
  }

  lemma {:induction false} MarkedStream(chunks: seq<Block>) returns (words: Words)
    requires chunks != [] && Marked(chunks[|chunks| - 1])
    ensures chunks == ChunkStream(words)
    decreases |chunks|
  {
    hide ChunkStream;
    if |chunks| == 1 {
      var n: nat :| n < RATE && MarkedAt(chunks[0], n);
      words := chunks[0][..n];
      StreamLength(words);
      assert chunks[0] == words + [1] + Zeros(7 - |words|);
      assert chunks == ChunkStream(words);
    } else {
      words := MarkedStream(chunks[1..]);
      StreamAfterDigest(chunks[0], words);
      words := chunks[0] + words;
      assert chunks == [chunks[0]] + chunks[1..];
    }
  }

  /** A run is the stream of a digest and some data if and only if it starts with the digest, has a
      chunk behind it, and ends in the marker. */
  lemma StreamIffMarked(digest: Block, chunks: seq<Block>)
    ensures (exists data: Words :: chunks == ChunkStream(digest + data))
            <==> |chunks| >= 2 && chunks[0] == digest && Marked(chunks[|chunks| - 1])
  {
    hide ChunkStream, Marked;
    if data: Words :| chunks == ChunkStream(digest + data) {
      StreamAfterDigest(digest, data);
      StreamMarked(data);
    }
    if |chunks| >= 2 && chunks[0] == digest && Marked(chunks[|chunks| - 1]) {
      var data := MarkedStream(chunks[1..]);
      StreamAfterDigest(digest, data);
      assert chunks == [digest] + chunks[1..];
    }
  }

  /** The draws since the last mix among the first i runs. */
  function DrawsBefore(claims: seq<ChannelClaim>, i: nat): nat
    requires i <= |claims|
  {
    if i == 0 then 0
    else if LooksDrawn(claims[i - 1].chunks) then DrawsBefore(claims, i - 1) + 1
    else 0
  }

  function DrawChunk(nDraws: nat): Block {
    [Reduce(nDraws), DRAW_TAG, 1, 0, 0, 0, 0, 0]
  }

  /** A draw carries its count; anything else is padded as a stream. */
  predicate WellFormed(claims: seq<ChannelClaim>, i: nat)
    requires i < |claims|
  {
    var chunks := claims[i].chunks;
    if LooksDrawn(chunks) then chunks[1] == DrawChunk(DrawsBefore(claims, i))
    else |chunks| >= 2 && Marked(chunks[|chunks| - 1])
  }

  predicate AllWellFormed(claims: seq<ChannelClaim>, first: nat) {
    forall i :: 0 <= i < |claims| ==> claims[i].channelId == first + i && WellFormed(claims, i)
  }

  lemma {:induction false} DrawsOfPrefix(claims: seq<ChannelClaim>, n: nat, i: nat)
    requires i <= n <= |claims|
    ensures DrawsBefore(claims[..n], i) == DrawsBefore(claims, i)
    decreases i
  {
    hide LooksDrawn;
    if i > 0 { DrawsOfPrefix(claims, n, i - 1); }
  }

  lemma PrefixWellFormed(claims: seq<ChannelClaim>, first: nat)
    requires claims != []
    ensures var n := |claims| - 1;
            AllWellFormed(claims, first)
            <==> AllWellFormed(claims[..n], first) && claims[n].channelId == first + n && WellFormed(claims, n)
  {
    hide DrawsBefore, DrawChunk, Marked, LooksDrawn;
    var n := |claims| - 1;
    forall i | 0 <= i < n
      ensures WellFormed(claims[..n], i) <==> WellFormed(claims, i)
    {
      DrawsOfPrefix(claims, n, i);
    }
  }

  /** The run of a draw, chunk by chunk. */
  lemma DrawStream(digest: Block, nDraws: nat)
    ensures ChunkStream(digest + [Reduce(nDraws), DRAW_TAG]) == [digest, DrawChunk(nDraws)]
  {
    hide ChunkStream;
    StreamAfterDigest(digest, [Reduce(nDraws), DRAW_TAG]);
    StreamLength([Reduce(nDraws), DRAW_TAG]);
    assert ChunkStream([Reduce(nDraws), DRAW_TAG])[0] == DrawChunk(nDraws);
  }

  /** The run of an operation that imitates no draw is well formed. */
  lemma RunWellFormed(c: ChannelState, op: ChannelOp, claims: seq<ChannelClaim>, i: nat)
    requires i < |claims| && claims[i].chunks == ChunkStream(RunWords(c, op)) && !Imitates(op)
    requires c.nDraws == DrawsBefore(claims, i)
    ensures WellFormed(claims, i) && (LooksDrawn(claims[i].chunks) <==> op.Draw?)
  {
    hide ChunkStream, Imitates, DrawsBefore, LooksDrawn, Marked, DrawChunk;
    LooksDrawnIff(c, op);
    match op
    case Draw => DrawStream(c.digest, c.nDraws);
    case Mix(data) => StreamIffMarked(c.digest, claims[i].chunks);
  }

  /** A recorded session without imitations is well formed, and the channel's state can be read off it. */
  lemma {:induction false} RecordedWellFormed(first: nat, ops: seq<ChannelOp>, perm: Permutation)
    requires forall i :: 0 <= i < |ops| ==> !Imitates(ops[i])
    ensures var claims := Claims(first, ops, perm);
            && |claims| == |ops| && AllWellFormed(claims, first)
            && After(ops, perm) == ChannelState(DigestAt(claims, |claims|, perm), DrawsBefore(claims, |claims|))
            && Draws(ops, perm) == DrawOutputs(claims, perm)
    decreases |ops|
  {
    hide Imitates, ChunkStream, RunWords, ReplayState, LooksDrawn, WellFormed, HashWords;
    if ops != [] {
      var n := |ops| - 1;
      var front := ops[..n];
      RecordedWellFormed(first, front, perm);
      var claims := Claims(first, ops, perm);
      assert claims[..n] == Claims(first, front, perm);
      RecordedPush(first, ops, perm);
    }
  }

  lemma RecordedPush(first: nat, ops: seq<ChannelOp>, perm: Permutation)
    requires ops != [] && !Imitates(ops[|ops| - 1])
    requires var front := Claims(first, ops[..|ops| - 1], perm);
             && |front| == |ops| - 1 && AllWellFormed(front, first)
             && After(ops[..|ops| - 1], perm) == ChannelState(DigestAt(front, |front|, perm), DrawsBefore(front, |front|))
             && Draws(ops[..|ops| - 1], perm) == DrawOutputs(front, perm)
    ensures var claims := Claims(first, ops, perm);
            && |claims| == |ops| && AllWellFormed(claims, first)
            && After(ops, perm) == ChannelState(DigestAt(claims, |claims|, perm), DrawsBefore(claims, |claims|))
            && Draws(ops, perm) == DrawOutputs(claims, perm)
  {
    hide Imitates, ChunkStream, RunWords, ReplayState, LooksDrawn, WellFormed, HashWords, AllWellFormed;
    var n := |ops| - 1;
    var claims, c := Claims(first, ops, perm), After(ops[..n], perm);
    assert claims[..n] == Claims(first, ops[..n], perm);
    DigestOfPrefix(claims, n, n, perm);
    DrawsOfPrefix(claims, n, n);
    RunWellFormed(c, ops[n], claims, n);
    PrefixWellFormed(claims, first);
    RunHashes(RunWords(c, ops[n]), perm);
    HashOfRun(c, ops[n], perm);
  }

  /** The operation a well-formed run records. */
  lemma OpOf(claims: seq<ChannelClaim>, i: nat, c: ChannelState) returns (op: ChannelOp)
    requires i < |claims| && WellFormed(claims, i) && claims[i].chunks != [] && claims[i].chunks[0] == c.digest
    requires c.nDraws == DrawsBefore(claims, i)
    ensures claims[i].chunks == ChunkStream(RunWords(c, op)) && !Imitates(op)
  {
    hide ChunkStream, DrawsBefore, Marked, DrawChunk, Imitates;
    var chunks := claims[i].chunks;
    if LooksDrawn(chunks) {
      op := Draw;
      DrawStream(c.digest, c.nDraws);
      DrawIsNoImitation(op);
      assert chunks == [c.digest, DrawChunk(c.nDraws)];
    } else {
      StreamIffMarked(c.digest, chunks);
      var data: Words :| chunks == ChunkStream(c.digest + data);
      op := Mix(data);
    }
    hide LooksDrawn;
    LooksDrawnIff(c, op);
  }

  /** Well-formed runs that start right are a channel's. */
  lemma {:induction false} RecordingOf(claims: seq<ChannelClaim>, first: nat, perm: Permutation) returns (ops: seq<ChannelOp>)
    requires AllStartRight(claims, perm) && AllWellFormed(claims, first)
    ensures Claims(first, ops, perm) == claims && forall i :: 0 <= i < |ops| ==> !Imitates(ops[i])
    decreases |claims|
  {
    hide Imitates, ChunkStream, RunWords, WellFormed, After, DigestAt, DrawsBefore, AllStartRight, AllWellFormed;
    if claims == [] {
      ops := [];
    } else {
      var n := |claims| - 1;
      PrefixStarts(claims, perm);
      PrefixWellFormed(claims, first);
      var front := RecordingOf(claims[..n], first, perm);
      RecordedWellFormed(first, front, perm);
      DigestOfPrefix(claims, n, n, perm);
      DrawsOfPrefix(claims, n, n);
      var op := OpOf(claims, n, After(front, perm));
      ops := front + [op];
      assert ops[..n] == front;
      assert claims == claims[..n] + [claims[n]];
      assert claims[n] == ChannelClaim(first + n, RunChunks(ops, n, perm));
    }
  }

  ghost predicate Recorded(session: ChannelSession, perm: Permutation) {
    exists first, ops :: RecordedBy(session, first, ops, perm)
  }

  predicate RecordedBy(session: ChannelSession, first: nat, ops: seq<ChannelOp>, perm: Permutation) {
    session == ChannelSession(Claims(first, ops, perm), Draws(ops, perm))
  }

  /** An accepted session is the recording of some operations if and only if its ids count up, every
      run taken for a draw carries the number of draws since the last mix, and all others are padded. */
  lemma RecordedIff(session: ChannelSession, perm: Permutation)
    requires LinkResult(session, perm).Ok?
    ensures Recorded(session, perm)
            <==> session.claims == [] || AllWellFormed(session.claims, session.claims[0].channelId)
  {
    hide LinkResult, AllStartRight, DrawOutputs, DigestAt, Claims, Draws, After, WellFormed, Imitates, DrawsBefore;
    AcceptedExactly(session, perm);
    if first, ops :| RecordedBy(session, first, ops, perm) {
      SessionLinksIff(first, ops, perm);
      RecordedWellFormed(first, ops, perm);
    }
    if session.claims == [] || AllWellFormed(session.claims, session.claims[0].channelId) {
      var first := if session.claims == [] then 0 else session.claims[0].channelId;
      var ops := RecordingOf(session.claims, first, perm);
      RecordedWellFormed(first, ops, perm);
      assert RecordedBy(session, first, ops, perm);
    }
  }

  // -- A draw no channel makes -------------------------------------------------------------------

  /** A first draw with counter 5. */
  function EarlyDraw(): ChannelClaim {
    ChannelClaim(0, [Zeros(RATE), [5, DRAW_TAG, 1, 0, 0, 0, 0, 0]])
  }

  /** Linked sessions need not be any channel's: one whose first draw claims counter 5 is accepted, for
      every permutation, and no list of operations records it. */
  lemma UncountedDraw(perm: Permutation)
    ensures var session := ChannelSession([EarlyDraw()], [RunOutput(EarlyDraw(), perm)]);
            LinkResult(session, perm).Ok? && !Recorded(session, perm)
  {
    var claims := [EarlyDraw()];
    hide ReplayState;
    assert claims[..0] == [];
    assert StartsRight(claims, 0, perm);
    assert DrawOutputs(claims, perm) == [] + [RunOutput(EarlyDraw(), perm)] == [RunOutput(EarlyDraw(), perm)];
    assert EarlyDraw().chunks[1][0] == 5 && DrawChunk(DrawsBefore(claims, 0))[0] == 0;
    assert !WellFormed(claims, 0);
    hide LinkResult, Recorded;
    AcceptedExactly(ChannelSession(claims, [RunOutput(EarlyDraw(), perm)]), perm);
    RecordedIff(ChannelSession(claims, [RunOutput(EarlyDraw(), perm)]), perm);
  }
}
