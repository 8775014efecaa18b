// Replaying a channel as chained sponge runs: witness rows, public claims, and
// the links that make the runs one transcript.
module ChannelReplay {
  import opened Wrappers
  import opened M31
  import opened Sponge
  import opened Channel
  import HashBag

  datatype ChannelClaim = ChannelClaim(channelId: nat, chunks: seq<Block>)

  /** One enabled row of the channel_replay table. */
  datatype ReplayRow = ReplayRow(channelId: Felt, step: Felt, prev: State, chunk: Block, out: State)

  datatype ChannelSession = ChannelSession(claims: seq<ChannelClaim>, draws: seq<Block>)

  // -- One run ---------------------------------------------------------------------------------

  /** What an operation hashes. */
  function RunWords(c: ChannelState, op: ChannelOp): Words {
    match op
    case Mix(data) => c.digest + data
    case Draw => c.digest + [Reduce(c.nDraws), DRAW_TAG]
  }

  /** The state after replaying the chunks from the all-zero state. */
  function ReplayState(chunks: seq<Block>, perm: Permutation): State {
    AbsorbBlocks(Zeros(T), chunks, perm)
  }

  function RunRows(id: nat, chunks: seq<Block>, perm: Permutation): seq<ReplayRow> {
    if chunks == [] then []
    else
      var front := chunks[..|chunks| - 1];
      RunRows(id, front, perm)
      + [ReplayRow(Reduce(id), Reduce(|front|), ReplayState(front, perm), chunks[|front|], ReplayState(chunks, perm))]
  }

  /** The io permutation row recorded with a replay row. */
  function IoPermRow(r: ReplayRow): HashBag.PermRow {
    HashBag.PermRow(AddBlock(r.prev, r.chunk), r.out, HashBag.Io)
  }

  function IoPermRows(rows: seq<ReplayRow>): seq<HashBag.PermRow> {
    HashBag.Map(IoPermRow, rows)
  }

  class ReplayTable {
    var rows: seq<ReplayRow>

    constructor ()
      ensures rows == []
    {
      rows := [];
    }

    /** Replay one absorption step and record its row, with its permutation's row in the shared table. */
    method PushSpongeStep(
        poseidon2: HashBag.HashTable, id: nat, step: nat, prev: State, chunk: Block, perm: Permutation)
      returns (out: State)
      modifies this, poseidon2
      ensures out == perm(AddBlock(prev, chunk))
      ensures rows == old(rows) + [ReplayRow(Reduce(id), Reduce(step), prev, chunk, out)]
      ensures poseidon2.rows == old(poseidon2.rows) + [IoPermRow(rows[|rows| - 1])]
    {
      hide Plus;
      var input: State := prev;
      var i := 0;
      while i < RATE
        invariant i <= RATE && |input| == T
        invariant forall k :: 0 <= k < i ==> input[k] == Plus(prev[k], chunk[k])
        invariant forall k :: i <= k < T ==> input[k] == prev[k]
        invariant rows == old(rows) && poseidon2.rows == old(poseidon2.rows)
      {
        input := input[i := Plus(input[i], chunk[i])];
        i := i + 1;
      }
      assert input == AddBlock(prev, chunk);
      out := poseidon2.TracedState(input, HashBag.Io, perm);
      rows := rows + [ReplayRow(Reduce(id), Reduce(step), prev, chunk, out)];
    }
  }

  /** Replay a transcript from the all-zero state. */
  method ReplayDigest(chunks: seq<Block>, perm: Permutation) returns (state: State)
    ensures state == ReplayState(chunks, perm)
  {
    hide AbsorbBlocks, AddBlock;
    state := Zeros(T);
    var i := 0;
    NoBlocks(Zeros(T), perm);
    assert chunks[..0] == [];
    while i < |chunks|
      invariant i <= |chunks| && state == ReplayState(chunks[..i], perm)
    {
      BlocksPush(Zeros(T), chunks[..i], chunks[i], perm);
      assert chunks[..i] + [chunks[i]] == chunks[..i + 1];
      state := perm(AddBlock(state, chunks[i]));
      i := i + 1;
    }
    assert chunks[..i] == chunks;
  }

  lemma NoBlocks(s: State, perm: Permutation)
    ensures AbsorbBlocks(s, [], perm) == s
  {
  }

  lemma RowsPush(id: nat, chunks: seq<Block>, i: nat, perm: Permutation)
    requires i < |chunks|
    ensures ReplayState(chunks[..i + 1], perm) == perm(AddBlock(ReplayState(chunks[..i], perm), chunks[i]))
    ensures RunRows(id, chunks[..i + 1], perm)
            == RunRows(id, chunks[..i], perm)
               + [ReplayRow(Reduce(id), Reduce(i), ReplayState(chunks[..i], perm), chunks[i],
                            ReplayState(chunks[..i + 1], perm))]
  {
    hide AbsorbBlocks, AddBlock;
    BlocksPush(Zeros(T), chunks[..i], chunks[i], perm);
    assert chunks[..i] + [chunks[i]] == chunks[..i + 1];
    assert chunks[..i + 1][..i] == chunks[..i];
  }

  // -- The session -----------------------------------------------------------------------------

  function RunChunks(ops: seq<ChannelOp>, i: nat, perm: Permutation): seq<Block>
    requires i < |ops|
  {
    ChunkStream(RunWords(After(ops[..i], perm), ops[i]))
  }

  function Claims(first: nat, ops: seq<ChannelOp>, perm: Permutation): seq<ChannelClaim> {
    if ops == [] then []
    else
      var n := |ops| - 1;
      Claims(first, ops[..n], perm) + [ChannelClaim(first + n, RunChunks(ops, n, perm))]
  }

  function Rows(claims: seq<ChannelClaim>, perm: Permutation): seq<ReplayRow> {
    if claims == [] then []
    else
      var n := |claims| - 1;
      Rows(claims[..n], perm) + RunRows(claims[n].channelId, claims[n].chunks, perm)
  }

  /** The run of an operation ends in the channel's own hash. */
  lemma RunHashes(words: Words, perm: Permutation)
    ensures Rate(ReplayState(ChunkStream(words), perm)) == HashWords(words, 0, perm)
  {
    hide HashWords, AbsorbBlocks, ChunkStream;
    HashIsReplay(words, 0, perm);
    assert Tagged(0) == Zeros(T);
  }

  lemma SessionPush(first: nat, ops: seq<ChannelOp>, i: nat, perm: Permutation)
    requires i < |ops|
    ensures Claims(first, ops[..i + 1], perm)
            == Claims(first, ops[..i], perm) + [ChannelClaim(first + i, RunChunks(ops, i, perm))]
    ensures var c := After(ops[..i], perm);
            var out := Rate(ReplayState(RunChunks(ops, i, perm), perm));
            && After(ops[..i + 1], perm)
               == (if ops[i].Mix? then ChannelState(out, 0) else c.(nDraws := c.nDraws + 1))
            && Draws(ops[..i + 1], perm) == Draws(ops[..i], perm) + (if ops[i].Mix? then [] else [out])
  {
    var c := After(ops[..i], perm);
    RunHashes(RunWords(c, ops[i]), perm);
    hide HashWords, ReplayState, ChunkStream;
    assert ops[..i + 1][..i] == ops[..i];
    assert RunChunks(ops[..i + 1], i, perm) == RunChunks(ops, i, perm);
  }

  lemma ClaimRows(claims: seq<ChannelClaim>, claim: ChannelClaim, perm: Permutation)
    ensures Rows(claims + [claim], perm) == Rows(claims, perm) + RunRows(claim.channelId, claim.chunks, perm)
  {
    assert (claims + [claim])[..|claims|] == claims;
  }

  /** Replay a channel session into witness rows and public claims. */
  method ReplaySession(
      table: ReplayTable, poseidon2: HashBag.HashTable, first: nat, ops: seq<ChannelOp>, perm: Permutation)
    returns (session: ChannelSession)
    modifies table, poseidon2
    ensures session == ChannelSession(Claims(first, ops, perm), Draws(ops, perm))
    ensures table.rows == old(table.rows) + Rows(session.claims, perm)
    ensures poseidon2.rows == old(poseidon2.rows) + IoPermRows(Rows(session.claims, perm))
  {
    hide IoPermRow, IoPermRows, Claims, After, Draws, Rows, RunRows, HashWords, ReplayState, ChunkStream, AddBlock;
    var digest: Block, nDraws: nat, claims, draws := Zeros(RATE), 0, [], [];
    var run := 0;
    NothingReplayed(first, perm);
    assert ops[..0] == [];
    while run < |ops|
      invariant run <= |ops| && claims == Claims(first, ops[..run], perm) && draws == Draws(ops[..run], perm)
      invariant ChannelState(digest, nDraws) == After(ops[..run], perm)
      invariant table.rows == old(table.rows) + Rows(claims, perm)
      invariant poseidon2.rows == old(poseidon2.rows) + IoPermRows(Rows(claims, perm))
    {
      var id := first + run;
      var words := match ops[run] case Mix(data) => digest + data case Draw => digest + [Reduce(nDraws), DRAW_TAG];
      assert words == RunWords(After(ops[..run], perm), ops[run]);
      var chunks := ChunkWords(words);
      ghost var before, permsBefore := table.rows, poseidon2.rows;
      var state: State, step := Zeros(T), 0;
      NoRowsYet(id, chunks, perm);
      while step < |chunks|
        invariant step <= |chunks| && state == ReplayState(chunks[..step], perm)
        invariant table.rows == before + RunRows(id, chunks[..step], perm)
        invariant poseidon2.rows == permsBefore + IoPermRows(RunRows(id, chunks[..step], perm))
      {
        RowsPush(id, chunks, step, perm);
        state := table.PushSpongeStep(poseidon2, id, step, state, chunks[step], perm);
        IoPush(RunRows(id, chunks[..step], perm), table.rows[|table.rows| - 1]);
        step := step + 1;
      }
      assert chunks[..step] == chunks;
      IoJoin(Rows(claims, perm), RunRows(id, chunks, perm));
      SessionPush(first, ops, run, perm);
      ClaimRows(claims, ChannelClaim(id, chunks), perm);
      match ops[run] {
        case Mix(_) => digest, nDraws := state[..RATE], 0;
        case Draw => draws, nDraws := draws + [state[..RATE]], nDraws + 1;
      }
      claims := claims + [ChannelClaim(id, chunks)];
      run := run + 1;
    }
    assert ops[..run] == ops;
    session := ChannelSession(claims, draws);
  }

  lemma IoPush(rows: seq<ReplayRow>, r: ReplayRow)
    ensures IoPermRows(rows + [r]) == IoPermRows(rows) + [IoPermRow(r)]
  {
    hide IoPermRow;
  }

  lemma IoJoin(a: seq<ReplayRow>, b: seq<ReplayRow>)
    ensures IoPermRows(a + b) == IoPermRows(a) + IoPermRows(b)
  {
    hide IoPermRow;
  }

  lemma NothingReplayed(first: nat, perm: Permutation)
    ensures Claims(first, [], perm) == [] && Draws([], perm) == [] && After([], perm) == FRESH_CHANNEL
    ensures Rows([], perm) == [] && IoPermRows([]) == []
  {
  }

  lemma NoRowsYet(id: nat, chunks: seq<Block>, perm: Permutation)
    ensures ReplayState(chunks[..0], perm) == Zeros(T) && RunRows(id, chunks[..0], perm) == []
    ensures IoPermRows([]) == []
  {
  }

  // -- Checking the links ----------------------------------------------------------------------

  const EMPTY_RUN := "empty run"
  const BROKEN_CHAIN := "run does not chain from the previous digest"
  const DRAW_MISMATCH := "draw output mismatch"
  const UNCLAIMED_DRAWS := "unclaimed draws"

  /** A two-chunk run whose second chunk carries the draw tag in its second word. */
  predicate LooksDrawn(chunks: seq<Block>) {
    |chunks| == 2 && chunks[1][1] == DRAW_TAG
  }

  /** The digest and the draws accounted for so far. */
  datatype Linked = Linked(digest: Block, drawIndex: nat)

  function LinkRun(l: Linked, claim: ChannelClaim, draws: seq<Block>, perm: Permutation): Result<Linked> {
    if claim.chunks == [] then Err(EMPTY_RUN)
    else if claim.chunks[0] != l.digest then Err(BROKEN_CHAIN)
    else
      var out := Rate(ReplayState(claim.chunks, perm));
      if LooksDrawn(claim.chunks) then
        if l.drawIndex < |draws| && draws[l.drawIndex] == out then Ok(l.(drawIndex := l.drawIndex + 1))
        else Err(DRAW_MISMATCH)
      else Ok(l.(digest := out))
  }

  function LinkRuns(claims: seq<ChannelClaim>, draws: seq<Block>, perm: Permutation): Result<Linked> {
    if claims == [] then Ok(Linked(Zeros(RATE), 0))
    else
      match LinkRuns(claims[..|claims| - 1], draws, perm)
      case Err(e) => Err(e)
      case Ok(l) => LinkRun(l, claims[|claims| - 1], draws, perm)
  }

  function LinkResult(session: ChannelSession, perm: Permutation): Result<Block> {
    match LinkRuns(session.claims, session.draws, perm)
    case Err(e) => Err(e)
    case Ok(l) => if l.drawIndex != |session.draws| then Err(UNCLAIMED_DRAWS) else Ok(l.digest)
  }

  lemma {:induction false} BrokenStays(claims: seq<ChannelClaim>, i: nat, draws: seq<Block>, perm: Permutation)
    requires i <= |claims| && LinkRuns(claims[..i], draws, perm).Err?
    ensures LinkRuns(claims, draws, perm) == LinkRuns(claims[..i], draws, perm)
    decreases |claims|
  {
    hide LinkRun;
    if i == |claims| {
      assert claims[..i] == claims;
    } else {
      assert claims[..|claims| - 1][..i] == claims[..i];
      BrokenStays(claims[..|claims| - 1], i, draws, perm);
    }
  }

  lemma LinkPush(claims: seq<ChannelClaim>, i: nat, draws: seq<Block>, perm: Permutation)
    requires i < |claims| && LinkRuns(claims[..i], draws, perm).Ok?
    ensures LinkRuns(claims[..i + 1], draws, perm) == LinkRun(LinkRuns(claims[..i], draws, perm).value, claims[i], draws, perm)
  {
    hide LinkRun;
    assert claims[..i + 1][..i] == claims[..i];
  }

  /** check_links: every run chains from the previous digest and every draw is claimed. */
  method CheckLinks(session: ChannelSession, perm: Permutation) returns (r: Result<Block>)
    ensures r == LinkResult(session, perm)
  {
    hide LinkRuns, ReplayState;
    var digest: Block, drawIndex := Zeros(RATE), 0;
    var i := 0;
    assert LinkRuns(session.claims[..0], session.draws, perm) == Ok(Linked(digest, drawIndex)) by {
      NoLinks(session.draws, perm);
      assert session.claims[..0] == [];
    }
    while i < |session.claims|
      invariant i <= |session.claims|
      invariant LinkRuns(session.claims[..i], session.draws, perm) == Ok(Linked(digest, drawIndex))
    {
      var claim := session.claims[i];
      LinkPush(session.claims, i, session.draws, perm);
      ghost var linked := LinkRun(Linked(digest, drawIndex), claim, session.draws, perm);
      if linked.Err? { BrokenStays(session.claims, i + 1, session.draws, perm); }
      if claim.chunks == [] { return Err(EMPTY_RUN); }
      if claim.chunks[0] != digest { return Err(BROKEN_CHAIN); }
      var out := ReplayDigest(claim.chunks, perm);
      var outRate: Block := out[..RATE];
      if |claim.chunks| == 2 && claim.chunks[1][1] == DRAW_TAG {
        if !(drawIndex < |session.draws| && session.draws[drawIndex] == outRate) { return Err(DRAW_MISMATCH); }
        drawIndex := drawIndex + 1;
      } else {
        digest := outRate;
      }
      i := i + 1;
    }
    assert session.claims[..i] == session.claims;
    return if drawIndex != |session.draws| then Err(UNCLAIMED_DRAWS) else Ok(digest);
  }

  lemma NoLinks(draws: seq<Block>, perm: Permutation)
    ensures LinkRuns([], draws, perm) == Ok(Linked(Zeros(RATE), 0))
  {
  }
}
