// The replay's bags leave a prover no choice: rows that balance against the
// public claims are exactly the rows of the claimed runs.
module ReplaySoundness {
  import opened M31
  import opened Sponge
  import opened ChannelReplay
  import opened ReplayTheorems
  import HashBag

  // -- The atomic permutation relation -----------------------------------------------------------

  function IoPair(r: ReplayRow): (State, State) {
    (AddBlock(r.prev, r.chunk), r.out)
  }

  function PermIo(q: HashBag.PermRow): (State, State) {
    (q.input, q.output)
  }

  /** The permutation rows in io mode. */
  function IoRows(perms: seq<HashBag.PermRow>): seq<HashBag.PermRow> {
    if perms == [] then []
    else IoRows(perms[..|perms| - 1]) + (if perms[|perms| - 1].mode.Io? then [perms[|perms| - 1]] else [])
  }

  /** poseidon2_io: each replay row consumes one (input, output) pair of a permutation row. */
  ghost predicate IoBalanced(rows: seq<ReplayRow>, perms: seq<HashBag.PermRow>) {
    multiset(HashBag.Map(IoPair, rows)) == multiset(HashBag.Map(PermIo, IoRows(perms)))
  }

  lemma {:induction false} IoRowsMembers(perms: seq<HashBag.PermRow>, q: HashBag.PermRow)
    requires q in IoRows(perms)
    ensures q in perms
  {
    if perms != [] {
      var front := perms[..|perms| - 1];
      assert perms == front + [perms[|perms| - 1]];
      if q in IoRows(front) { IoRowsMembers(front, q); }
    }
  }

  /** Every replay row ends in the permutation of its state plus its chunk. */
  lemma RowPermutes(rows: seq<ReplayRow>, perms: seq<HashBag.PermRow>, perm: Permutation, r: ReplayRow)
    requires HashBag.Permutes(perms, perm) && IoBalanced(rows, perms) && r in rows
    ensures r.out == perm(AddBlock(r.prev, r.chunk))
  {
    hide AddBlock;
    var i :| 0 <= i < |rows| && rows[i] == r;
    assert HashBag.Map(IoPair, rows)[i] == IoPair(r);
    assert IoPair(r) in multiset(HashBag.Map(PermIo, IoRows(perms)));
    var j := HashBag.Position(HashBag.Map(PermIo, IoRows(perms)), IoPair(r));
    IoRowsMembers(perms, IoRows(perms)[j]);
  }

  // -- Counting ----------------------------------------------------------------------------------

  predicate TakesStep(r: ReplayRow, c: StepClaim) {
    StepClaim(r.channelId, r.step, r.prev) == c
  }

  predicate GivesStep(r: ReplayRow, c: StepClaim) {
    StepClaim(r.channelId, Reduce(r.step + 1), r.out) == c
  }

  predicate TakesData(r: ReplayRow, d: DataClaim) {
    DataClaim(r.channelId, r.step, r.chunk) == d
  }

  lemma {:induction false} NoTaker(rows: seq<ReplayRow>, c: StepClaim)
    requires forall r :: r in rows ==> !TakesStep(r, c)
    ensures StepNet(rows, c) >= 0 && ((exists r :: r in rows && GivesStep(r, c)) ==> StepNet(rows, c) > 0)
  {
    if rows != [] {
      var front, last := rows[..|rows| - 1], rows[|rows| - 1];
      assert rows == front + [last];
      NoTaker(front, c);
      assert !TakesStep(last, c);
    }
  }

  lemma {:induction false} DataTaken(rows: seq<ReplayRow>, d: DataClaim)
    ensures DataNet(rows, d) <= 0
    ensures (exists r :: r in rows && TakesData(r, d)) ==> DataNet(rows, d) < 0
    ensures (exists r, r' :: r in rows && r' in rows && r != r' && TakesData(r, d) && TakesData(r', d)) ==> DataNet(rows, d) < -1
  {
    if rows != [] {
      var front, last := rows[..|rows| - 1], rows[|rows| - 1];
      assert rows == front + [last];
      DataTaken(front, d);
      if r, r' :| r in rows && r' in rows && r != r' && TakesData(r, d) && TakesData(r', d) {
        if r == last {
          assert r' in front;
        } else if r' == last {
          assert r in front;
        }
      }
    }
  }

  // -- What is published -------------------------------------------------------------------------

  /** Channel ids differ in the field and runs are shorter than it. */
  ghost predicate Separate(claims: seq<ChannelClaim>) {
    && (forall i, j :: 0 <= i < j < |claims| ==> Reduce(claims[i].channelId) != Reduce(claims[j].channelId))
    && (forall i :: 0 <= i < |claims| ==> |claims[i].chunks| < P)
  }

  lemma {:induction false} StepsElsewhere(claims: seq<ChannelClaim>, perm: Permutation, c: StepClaim)
    requires forall i :: 0 <= i < |claims| ==> Reduce(claims[i].channelId) != c.channelId
    ensures StepTerms(claims, perm, c) == 0
  {
    hide ReplayState;
    if claims != [] {
      var front := claims[..|claims| - 1];
      assert forall i :: 0 <= i < |front| ==> front[i] == claims[i];
      StepsElsewhere(front, perm, c);
    }
  }

  /** Before a run's last step only its start is published. */
  lemma {:induction false} StepTermsAt(claims: seq<ChannelClaim>, perm: Permutation, i: nat, c: StepClaim)
    requires Separate(claims) && i < |claims| && c.channelId == Reduce(claims[i].channelId) && c.step < |claims[i].chunks|
    ensures StepTerms(claims, perm, c) == One(c.step == 0 && c.state == Zeros(T))
  {
    hide ReplayState;
    var n := |claims| - 1;
    var front := claims[..n];
    assert forall j :: 0 <= j < n ==> front[j] == claims[j];
    if i < n {
      StepTermsAt(front, perm, i, c);
    } else {
      StepsElsewhere(front, perm, c);
    }
  }

  /** A chunk the claims publish. */
  ghost predicate Published(claims: seq<ChannelClaim>, i: int, d: DataClaim) {
    && 0 <= i < |claims| && d.channelId == Reduce(claims[i].channelId)
    && d.step < |claims[i].chunks| && claims[i].chunks[d.step] == d.chunk
  }

  lemma {:induction false} ChunkTermsAre(id: nat, chunks: seq<Block>, d: DataClaim)
    requires |chunks| < P
    ensures ChunkTerms(id, chunks, d)
         == One(d.channelId == Reduce(id) && d.step < |chunks| && chunks[d.step] == d.chunk)
  {
    if chunks != [] {
      var n := |chunks| - 1;
      ChunkTermsAre(id, chunks[..n], d);
      assert d.step < n ==> chunks[..n][d.step] == chunks[d.step];
    }
  }

  lemma {:induction false} DataTermsAre(claims: seq<ChannelClaim>, d: DataClaim)
    requires Separate(claims)
    ensures DataTerms(claims, d) == One(exists i :: Published(claims, i, d))
  {
    hide ChunkTerms;
    if claims != [] {
      var n := |claims| - 1;
      var front := claims[..n];
      assert forall i :: 0 <= i < n ==> front[i] == claims[i];
      DataTermsAre(front, d);
      ChunkTermsAre(claims[n].channelId, claims[n].chunks, d);
      PublishedLast(claims, d);
      assert ChunkTerms(claims[n].channelId, claims[n].chunks, d) == One(Published(claims, n, d));
    }
  }

  /** A chunk is published by one claim at most. */
  lemma PublishedLast(claims: seq<ChannelClaim>, d: DataClaim)
    requires claims != [] && Separate(claims)
    ensures var n := |claims| - 1;
            One(exists i :: Published(claims, i, d)) == One(exists i :: Published(claims[..n], i, d)) + One(Published(claims, n, d))
  {
    var n := |claims| - 1;
    var front := claims[..n];
    forall i
      ensures Published(claims, i, d) <==> Published(front, i, d) || (i == n && Published(claims, n, d))
      ensures Published(front, i, d) ==> !Published(claims, n, d)
    {
      if Published(front, i, d) { assert Reduce(claims[i].channelId) != Reduce(claims[n].channelId); }
    }
    hide Published;
    if i :| Published(front, i, d) { assert Published(claims, i, d); }
    if i :| Published(claims, i, d) {
      if i != n { assert Published(front, i, d); }
    }
  }

  // -- The rows are forced -----------------------------------------------------------------------

  /** What the verifier checks of the replay rows: the three relations balance. */
  ghost predicate Accepted(
      rows: seq<ReplayRow>, perms: seq<HashBag.PermRow>, claims: seq<ChannelClaim>, perm: Permutation) {
    && HashBag.Permutes(perms, perm) && IoBalanced(rows, perms)
    && (forall c: StepClaim :: StepNet(rows, c) + StepTerms(claims, perm, c) == 0)
    && (forall d: DataClaim :: DataNet(rows, d) + DataTerms(claims, d) == 0)
  }

  /** The k-th row of a run. */
  function RunRow(l: ChannelClaim, k: nat, perm: Permutation): ReplayRow
    requires k < |l.chunks|
  {
    ReplayRow(Reduce(l.channelId), Reduce(k), ReplayState(l.chunks[..k], perm), l.chunks[k],
              ReplayState(l.chunks[..k + 1], perm))
  }

  lemma RunStep(l: ChannelClaim, k: nat, perm: Permutation)
    requires k < |l.chunks|
    ensures ReplayState(l.chunks[..k + 1], perm) == perm(AddBlock(ReplayState(l.chunks[..k], perm), l.chunks[k]))
    ensures k == 0 ==> ReplayState(l.chunks[..k], perm) == Zeros(T)
  {
    BlocksPush(Zeros(T), l.chunks[..k], l.chunks[k], perm);
    assert l.chunks[..k] + [l.chunks[k]] == l.chunks[..k + 1];
    if k == 0 { NoBlocks(Zeros(T), perm); }
    hide AddBlock, AbsorbBlocks;
  }

  /** A published state before the end of its run is taken up by some row. */
  lemma StateTaken(
      rows: seq<ReplayRow>, perms: seq<HashBag.PermRow>, claims: seq<ChannelClaim>, perm: Permutation, i: nat, c: StepClaim)
    returns (r: ReplayRow)
    requires Accepted(rows, perms, claims, perm) && Separate(claims)
    requires i < |claims| && c.channelId == Reduce(claims[i].channelId) && c.step < |claims[i].chunks|
    requires (c.step == 0 && c.state == Zeros(T)) || exists q :: q in rows && GivesStep(q, c)
    ensures r in rows && TakesStep(r, c)
  {
    hide GivesStep, TakesStep, HashBag.Permutes, IoBalanced, StepNet, StepTerms;
    StepTermsAt(claims, perm, i, c);
    assert StepNet(rows, c) + StepTerms(claims, perm, c) == 0;
    if forall q :: q in rows ==> !TakesStep(q, c) {
      NoTaker(rows, c);
      assert false;
    }
    r :| r in rows && TakesStep(r, c);
  }

  /** The chunk of a row on a claimed channel is the published one. */
  lemma ChunkForced(
      rows: seq<ReplayRow>, perms: seq<HashBag.PermRow>, claims: seq<ChannelClaim>, perm: Permutation, r: ReplayRow)
    returns (i: nat)
    requires Accepted(rows, perms, claims, perm) && Separate(claims) && r in rows
    ensures Published(claims, i, DataClaim(r.channelId, r.step, r.chunk))
  {
    hide HashBag.Permutes, IoBalanced, DataNet, DataTerms, Separate;
    var d := DataClaim(r.channelId, r.step, r.chunk);
    assert TakesData(r, d);
    DataTaken(rows, d);
    DataTermsAre(claims, d);
    assert DataNet(rows, d) + DataTerms(claims, d) == 0;
    var j :| Published(claims, j, d);
    i := j;
  }

  /** Step by step, every row of a claimed run is there. */
  lemma {:induction false} RunPresent(
      rows: seq<ReplayRow>, perms: seq<HashBag.PermRow>, claims: seq<ChannelClaim>, perm: Permutation, i: nat, k: nat)
    requires Accepted(rows, perms, claims, perm) && Separate(claims) && i < |claims| && k < |claims[i].chunks|
    ensures RunRow(claims[i], k, perm) in rows
    decreases k
  {
    hide Accepted, AddBlock, ReplayState;
    var l := claims[i];
    var c := StepClaim(Reduce(l.channelId), Reduce(k), ReplayState(l.chunks[..k], perm));
    RunStep(l, k, perm);
    if k > 0 {
      RunPresent(rows, perms, claims, perm, i, k - 1);
      assert GivesStep(RunRow(l, k - 1, perm), c);
    }
    var r := StateTaken(rows, perms, claims, perm, i, c);
    var j := ChunkForced(rows, perms, claims, perm, r);
    assert j == i;
    RowOut(rows, perms, claims, perm, r);
    assert r == RunRow(l, k, perm);
  }

  lemma RowOut(
      rows: seq<ReplayRow>, perms: seq<HashBag.PermRow>, claims: seq<ChannelClaim>, perm: Permutation, r: ReplayRow)
    requires Accepted(rows, perms, claims, perm) && r in rows
    ensures r.out == perm(AddBlock(r.prev, r.chunk))
  {
    hide HashBag.Permutes, IoBalanced, AddBlock, StepNet, StepTerms, DataNet, DataTerms;
    RowPermutes(rows, perms, perm, r);
  }

  /** Soundness: the rows are those of the claimed runs, each of them and no other. */
  lemma RowsForced(
      rows: seq<ReplayRow>, perms: seq<HashBag.PermRow>, claims: seq<ChannelClaim>, perm: Permutation, r: ReplayRow)
    requires Accepted(rows, perms, claims, perm) && Separate(claims)
    ensures r in rows <==> exists i, k: nat :: IsRunRow(claims, perm, i, k, r)
  {
    hide Accepted, ReplayState, Separate;
    if r in rows {
      var i := ChunkForced(rows, perms, claims, perm, r);
      var k: nat := r.step;
      RunPresent(rows, perms, claims, perm, i, k);
      OneTaker(rows, perms, claims, perm, r, RunRow(claims[i], k, perm));
      assert IsRunRow(claims, perm, i, k, r);
    }
    if i, k: nat :| IsRunRow(claims, perm, i, k, r) {
      RunPresent(rows, perms, claims, perm, i, k);
    }
  }

  ghost predicate IsRunRow(claims: seq<ChannelClaim>, perm: Permutation, i: int, k: nat, r: ReplayRow) {
    0 <= i < |claims| && k < |claims[i].chunks| && r == RunRow(claims[i], k, perm)
  }

  /** A published chunk is absorbed by one row only. */
  lemma OneTaker(
      rows: seq<ReplayRow>, perms: seq<HashBag.PermRow>, claims: seq<ChannelClaim>, perm: Permutation,
      r: ReplayRow, q: ReplayRow)
    requires Accepted(rows, perms, claims, perm) && Separate(claims) && r in rows && q in rows
    requires q.channelId == r.channelId && q.step == r.step && q.chunk == r.chunk
    ensures q == r
  {
    hide HashBag.Permutes, IoBalanced, DataNet, DataTerms, Published, Separate;
    var d := DataClaim(r.channelId, r.step, r.chunk);
    assert TakesData(r, d) && TakesData(q, d);
    DataTaken(rows, d);
    DataTermsAre(claims, d);
    assert DataNet(rows, d) + DataTerms(claims, d) == 0;
  }

  // -- The session's own rows --------------------------------------------------------------------

  lemma {:induction false} RunRowsPermute(id: nat, chunks: seq<Block>, perm: Permutation)
    ensures forall r :: r in RunRows(id, chunks, perm) ==> r.out == perm(AddBlock(r.prev, r.chunk))
    decreases |chunks|
  {
    hide AddBlock, ReplayState;
    if chunks != [] {
      var n := |chunks| - 1;
      RunRowsPermute(id, chunks[..n], perm);
      RunStep(ChannelClaim(id, chunks), n, perm);
      assert chunks[..n + 1] == chunks;
    }
  }

  lemma {:induction false} RowsPermute(claims: seq<ChannelClaim>, perm: Permutation)
    ensures forall r :: r in Rows(claims, perm) ==> r.out == perm(AddBlock(r.prev, r.chunk))
  {
    hide AddBlock, RunRows;
    if claims != [] {
      var n := |claims| - 1;
      RowsPermute(claims[..n], perm);
      RunRowsPermute(claims[n].channelId, claims[n].chunks, perm);
    }
  }

  lemma {:induction false} AllIo(perms: seq<HashBag.PermRow>)
    requires forall q :: q in perms ==> q.mode.Io?
    ensures IoRows(perms) == perms
  {
    if perms != [] {
      var front := perms[..|perms| - 1];
      assert perms == front + [perms[|perms| - 1]];
      AllIo(front);
    }
  }

  /** Completeness: the rows a session records, with their permutation rows, are accepted. */
  lemma RecordedAccepted(claims: seq<ChannelClaim>, perm: Permutation)
    ensures Accepted(Rows(claims, perm), IoPermRows(Rows(claims, perm)), claims, perm)
  {
    hide AddBlock, Rows, StepNet, StepTerms, DataNet, DataTerms;
    var rows, perms := Rows(claims, perm), IoPermRows(Rows(claims, perm));
    RowsPermute(claims, perm);
    AllIo(perms);
    assert HashBag.Map(IoPair, rows) == HashBag.Map(PermIo, perms);
    forall i | 0 <= i < |rows|
      ensures perms[i].output == perm(perms[i].input)
    {
      assert rows[i] in rows;
    }
    forall c: StepClaim
      ensures StepNet(rows, c) + StepTerms(claims, perm, c) == 0
    {
      ReplayRowsBalance(claims, perm, c, DataClaim(0, 0, Zeros(RATE)));
    }
    forall d: DataClaim
      ensures DataNet(rows, d) + DataTerms(claims, d) == 0
    {
      ReplayRowsBalance(claims, perm, StepClaim(0, 0, Zeros(T)), d);
    }
  }
}
