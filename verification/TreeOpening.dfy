// Opening one tree: publish its claims, replay the decommitment and push one
// chain of hash rows per opened position.
module TreeOpening {
  import opened Wrappers
  import opened M31
  import opened Openings
  import opened OpeningWalk
  import opened PathRows
  import opened HashBag
  import Sponge
  import SparseTree

  const ROOT_MISMATCH := "decommitment root mismatch"
  const MISSING_SIBLING := "missing sibling digest"
  const NOT_AT_ROOT := "path does not terminate at the root"

  /** The public anchors collected so far. */
  class OpeningClaims {
    var roots: seq<RootClaim>
    var leaves: seq<LeafClaim>

    constructor ()
      ensures roots == [] && leaves == []
    {
      roots, leaves := [], [];
    }
  }

  /** The merkle_path witness table. */
  class PathTable {
    var rows: seq<PathRow>

    constructor ()
      ensures rows == []
    {
      rows := [];
    }

    /** Record one hash step and return its parent digest. */
    method PushPathStep(
        poseidon2: HashTable, treeId: nat, depth: nat, index: nat, child: Digest, direction: nat, sibling: Digest,
        perm: Sponge.Permutation)
      returns (parent: Digest)
      requires direction < 2
      modifies this, poseidon2
      ensures rows == old(rows) + [Row(treeId, depth, index, direction, child, sibling, HashOf(perm))]
      ensures Pushed(old(rows), old(poseidon2.rows), rows, poseidon2.rows, perm)
      ensures parent == if direction == 0 then HashOf(perm)(child, sibling) else HashOf(perm)(sibling, child)
    {
      RowMeetsConstraints(treeId, depth, index, direction, child, sibling, HashOf(perm));
      OnePushed(rows, poseidon2.rows, Row(treeId, depth, index, direction, child, sibling, HashOf(perm)), perm);
      var (left, right) := if direction == 0 then (child, sibling) else (sibling, child);
      var lower: Sponge.Words, upper: Sponge.Words := left, right;
      var state: Sponge.State := lower + upper;
      var out := poseidon2.TracedState(state, Wide, perm);
      parent := out[..8];
      rows := rows + [PathRow(Reduce(treeId), Reduce(depth), Reduce(index), direction, 0, left, right, parent, child)];
    }
  }

  // -- What a successful walk gives the paths ------------------------------------------------

  lemma WalkOnPath(height: nat, leaves: Level, hashes: seq<Digest>, h: Hash, k: nat)
    requires Climb(height, leaves, hashes, h).Some? && k in leaves
    ensures OnPath(Climb(height, leaves, hashes, h).value.levels, height, k, h)
  {
    hide Climb, Linked;
    forall d: nat | d < height
      ensures Linked(Climb(height, leaves, hashes, h).value.levels[d], Climb(height, leaves, hashes, h).value.levels[d + 1],
                     h, Shift(k, height - 1 - d))
    {
      WalkHashes(height, leaves, hashes, h, k, d);
    }
  }

  lemma WalkAnchored(height: nat, leaves: Level, hashes: seq<Digest>, h: Hash, k: nat)
    requires Climb(height, leaves, hashes, h).Some? && k in leaves && k < SparseTree.Pow2(height)
    ensures var levels := Climb(height, leaves, hashes, h).value.levels;
            && Shift(k, height) == 0 && 0 in levels[0]
            && NodeOn(levels, height, k, height) == leaves[k] && NodeOn(levels, height, k, 0) == levels[0][0]
  {
    hide Climb, SparseTree.Pow2;
    ShiftOut(k, height);
    RootRecorded(height, leaves, hashes, h, k);
    BottomKept(height, leaves, hashes, h, k);
  }

  lemma WalkPaths(height: nat, leaves: Level, hashes: seq<Digest>, h: Hash, ks: seq<nat>, root: Digest)
    requires Climb(height, leaves, hashes, h).Some? && forall k :: k in ks ==> k in leaves
    requires forall k :: k in leaves ==> k < SparseTree.Pow2(height)
    requires RootOf(Climb(height, leaves, hashes, h)) == Some(root)
    ensures var levels := Climb(height, leaves, hashes, h).value.levels;
            AllOnPath(levels, height, ks, h) && Anchored(levels, height, leaves, ks, root)
  {
    hide Climb, OnPath, NodeOn, SparseTree.Pow2;
    var levels := Climb(height, leaves, hashes, h).value.levels;
    forall k | k in ks
      ensures OnPath(levels, height, k, h)
      ensures Shift(k, height) == 0 && NodeOn(levels, height, k, height) == leaves[k] && NodeOn(levels, height, k, 0) == root
    {
      WalkOnPath(height, leaves, hashes, h, k);
      WalkAnchored(height, leaves, hashes, h, k);
    }
  }

  /** Whether a decommitment is accepted against `root`. */
  ghost predicate Accepted(height: nat, leaves: Level, hashes: seq<Digest>, h: Hash, root: Digest) {
    WalkResult(height, leaves, hashes, h).Ok? && RootOf(Climb(height, leaves, hashes, h)) == Some(root)
  }

  lemma AcceptedPaths(height: nat, leaves: Level, hashes: seq<Digest>, h: Hash, root: Digest)
    requires Accepted(height, leaves, hashes, h, root) && forall k :: k in leaves ==> k < SparseTree.Pow2(height)
    ensures WalkResult(height, leaves, hashes, h).Ok?
    ensures var levels := WalkResult(height, leaves, hashes, h).value;
            && AllOnPath(levels, height, Ordered(leaves.Keys), h)
            && Anchored(levels, height, leaves, Ordered(leaves.Keys), root)
  {
    hide Climb, AllOnPath, Anchored, SparseTree.Pow2;
    WalkPaths(height, leaves, hashes, h, Ordered(leaves.Keys), root);
  }

  /** The rows an accepted opening pushes: every path, in position order. */
  ghost function OpeningRows(treeId: nat, height: nat, leaves: Level, hashes: seq<Digest>, h: Hash, root: Digest): seq<PathRow>
    requires Accepted(height, leaves, hashes, h, root) && forall k :: k in leaves ==> k < SparseTree.Pow2(height)
  {
    AcceptedPaths(height, leaves, hashes, h, root);
    PathsTo(WalkResult(height, leaves, hashes, h).value, treeId, height, Ordered(leaves.Keys), h)
  }

  lemma OpeningRowsAre(treeId: nat, height: nat, leaves: Level, hashes: seq<Digest>, h: Hash, root: Digest)
    requires Accepted(height, leaves, hashes, h, root) && forall k :: k in leaves ==> k < SparseTree.Pow2(height)
    ensures WalkResult(height, leaves, hashes, h).Ok?
    ensures var levels, ks := WalkResult(height, leaves, hashes, h).value, Ordered(leaves.Keys);
            && AllOnPath(levels, height, ks, h) && Anchored(levels, height, leaves, ks, root)
            && OpeningRows(treeId, height, leaves, hashes, h, root) == PathsTo(levels, treeId, height, ks, h)
  {
    hide Climb, AllOnPath, Anchored, PathsTo, SparseTree.Pow2;
    AcceptedPaths(height, leaves, hashes, h, root);
  }

  /** Opening a tree keeps the node bag balanced: its rows, root term and leaf terms cancel. */
  lemma OpeningBalances(
      rows: seq<PathRow>, roots: seq<RootClaim>, claims: seq<LeafClaim>,
      treeId: nat, height: nat, leaves: Level, hashes: seq<Digest>, h: Hash, root: Digest)
    requires Balanced(rows, roots, claims)
    requires Accepted(height, leaves, hashes, h, root) && forall k :: k in leaves ==> k < SparseTree.Pow2(height)
    ensures forall k :: k in Ordered(leaves.Keys) ==> k in leaves
    ensures Balanced(rows + OpeningRows(treeId, height, leaves, hashes, h, root),
                     roots + [RootClaim(treeId, root, |leaves|)],
                     claims + LeafClaims(treeId, height, leaves, Ordered(leaves.Keys)))
  {
    hide Accepted, Climb, WalkResult, AllOnPath, Anchored, SparseTree.Pow2, PathsTo, LeafClaims, Net, RootTerms, LeafTerms;
    AcceptedPaths(height, leaves, hashes, h, root);
    var levels, ks := WalkResult(height, leaves, hashes, h).value, Ordered(leaves.Keys);
    OrderedLength(leaves.Keys);
    assert |leaves| == |leaves.Keys|;
    forall c: NodeClaim
      ensures Net(rows + OpeningRows(treeId, height, leaves, hashes, h, root), c)
              + RootTerms(roots + [RootClaim(treeId, root, |leaves|)], c)
              + LeafTerms(claims + LeafClaims(treeId, height, leaves, ks), c) == 0
    {
      PathsTelescope(levels, treeId, height, leaves, ks, root, h, c);
      NetJoins(rows, PathsTo(levels, treeId, height, ks, h), c);
      RootTermsPush(roots, RootClaim(treeId, root, |leaves|), c);
      LeafTermsJoin(claims, LeafClaims(treeId, height, leaves, ks), c);
    }
  }

  lemma OrderedLength(keys: set<nat>)
    ensures |Ordered(keys)| == |keys|
  {
    IncreasingLength(Ordered(keys), keys);
  }

  lemma {:induction false} IncreasingLength(ks: seq<nat>, keys: set<nat>)
    requires SparseTree.Increasing(ks) && forall k :: k in ks <==> k in keys
    ensures |ks| == |keys|
    decreases |ks|
  {
    if ks == [] {
      assert keys == {};
    } else {
      Tail(ks, 1);
      FirstIsMember(ks);
      assert ks == [ks[0]] + ks[1..];
      forall k: nat
        ensures k in ks[1..] <==> k in keys - {ks[0]}
      {
        assert k in ks <==> k == ks[0] || k in ks[1..];
      }
      IncreasingLength(ks[1..], keys - {ks[0]});
    }
  }

  // -- The opening itself ----------------------------------------------------------------------

  /** Push the rows of one path, bottom-up; fails on a missing sibling or a wrong end. */
  method PushPath(
      levels: seq<Level>, treeId: nat, height: nat, pos: nat, digest: Digest, root: Digest, perm: Sponge.Permutation,
      table: PathTable, poseidon2: HashTable)
    returns (r: Result<()>)
    requires |levels| == height + 1
    modifies table, poseidon2
    ensures OnPath(levels, height, pos, HashOf(perm)) && NodeOn(levels, height, pos, height) == digest
            && NodeOn(levels, height, pos, 0) == root
            ==> r == Ok(()) && table.rows == old(table.rows) + PathTo(levels, treeId, height, pos, HashOf(perm), 0)
    ensures Pushed(old(table.rows), old(poseidon2.rows), table.rows, poseidon2.rows, perm)
    ensures r.Err? ==> r.message == MISSING_SIBLING || r.message == NOT_AT_ROOT
  {
    hide OnPath, NodeOn, PathTo, Pushed, HashOf;
    var child, depth: nat := digest, height;
    ghost var sound := OnPath(levels, height, pos, HashOf(perm)) && NodeOn(levels, height, pos, height) == digest;
    if sound { NoRowsYet(levels, treeId, height, pos, HashOf(perm)); }
    NothingPushed(table.rows, poseidon2.rows, perm);
    while depth > 0
      invariant depth <= height
      invariant sound ==> table.rows == old(table.rows) + PathTo(levels, treeId, height, pos, HashOf(perm), depth)
      invariant sound ==> child == NodeOn(levels, height, pos, depth)
      invariant Pushed(old(table.rows), old(poseidon2.rows), table.rows, poseidon2.rows, perm)
    {
      depth := depth - 1;
      var childIndex := Shift(pos, height - 1 - depth);
      if sound { NextRow(levels, treeId, height, pos, HashOf(perm), depth); }
      if Sibling(childIndex) !in levels[depth + 1] { return Err(MISSING_SIBLING); }
      var sibling := levels[depth + 1][Sibling(childIndex)];
      ghost var before, permsBefore := table.rows, poseidon2.rows;
      child := table.PushPathStep(
        poseidon2, treeId, depth, Shift(pos, height - depth), child, childIndex % 2, sibling, perm);
      PushedThen(old(table.rows), old(poseidon2.rows), before, permsBefore, table.rows, poseidon2.rows, perm);
    }
    if child != root { return Err(NOT_AT_ROOT); }
    r := Ok(());
  }

  lemma NoRowsYet(levels: seq<Level>, treeId: nat, height: nat, pos: nat, h: Hash)
    requires OnPath(levels, height, pos, h)
    ensures PathTo(levels, treeId, height, pos, h, height) == []
  {
  }

  lemma NextRow(levels: seq<Level>, treeId: nat, height: nat, pos: nat, h: Hash, d: nat)
    requires OnPath(levels, height, pos, h) && d < height
    ensures |levels| == height + 1
    ensures var c := Shift(pos, height - 1 - d);
            && Sibling(c) in levels[d + 1]
            && var sibling, child := levels[d + 1][Sibling(c)], NodeOn(levels, height, pos, d + 1);
            && PathTo(levels, treeId, height, pos, h, d)
               == PathTo(levels, treeId, height, pos, h, d + 1)
                  + [Row(treeId, d, Shift(pos, height - d), c % 2, child, sibling, h)]
            && NodeOn(levels, height, pos, d) == (if c % 2 == 0 then h(child, sibling) else h(sibling, child))
  {
    StepParent(levels, treeId, height, pos, d, h);
    hide OnPath, NodeOn;
  }

  lemma NoClaimsYet(treeId: nat, height: nat, leaves: Level)
    ensures LeafClaims(treeId, height, leaves, []) == []
  {
  }

  lemma ClaimPush(treeId: nat, height: nat, leaves: Level, ks: seq<nat>, i: nat)
    requires i < |ks| && ks[i] in leaves && forall k :: k in ks[..i] ==> k in leaves
    ensures forall k :: k in ks[..i + 1] ==> k in leaves
    ensures LeafClaims(treeId, height, leaves, ks[..i + 1])
            == LeafClaims(treeId, height, leaves, ks[..i]) + [LeafClaim(treeId, height, ks[i], leaves[ks[i]])]
  {
    assert ks[..i + 1] == ks[..i] + [ks[i]];
    assert ks[..i + 1][..i] == ks[..i];
  }

  lemma NoPathsYet(levels: seq<Level>, treeId: nat, height: nat, ks: seq<nat>, h: Hash)
    ensures AllOnPath(levels, height, ks[..0], h) && PathsTo(levels, treeId, height, ks[..0], h) == []
  {
  }

  lemma PathPush(levels: seq<Level>, treeId: nat, height: nat, ks: seq<nat>, i: nat, h: Hash)
    requires AllOnPath(levels, height, ks, h) && i < |ks| && AllOnPath(levels, height, ks[..i], h)
    ensures OnPath(levels, height, ks[i], h) && AllOnPath(levels, height, ks[..i + 1], h)
    ensures PathsTo(levels, treeId, height, ks[..i + 1], h)
            == PathsTo(levels, treeId, height, ks[..i], h) + PathTo(levels, treeId, height, ks[i], h, 0)
  {
    hide OnPath, PathTo;
    assert ks[i] in ks;
    assert ks[..i + 1][..i] == ks[..i];
    forall k | k in ks[..i + 1]
      ensures k in ks
    {
    }
  }

  lemma NotAccepted(height: nat, leaves: Level, hashes: seq<Digest>, h: Hash, root: Digest)
    requires WalkResult(height, leaves, hashes, h).Err?
    ensures !Accepted(height, leaves, hashes, h, root)
  {
    hide WalkResult, Climb;
  }

  lemma AcceptedIs(height: nat, leaves: Level, hashes: seq<Digest>, h: Hash, root: Digest)
    requires WalkResult(height, leaves, hashes, h).Ok?
    ensures var levels := WalkResult(height, leaves, hashes, h).value;
            && |levels| == height + 1
            && (Accepted(height, leaves, hashes, h, root) <==> 0 in levels[0] && levels[0][0] == root)
  {
    hide Climb;
  }

  /** The loop over the opened positions: one path each, in order. */
  method PushPaths(
      levels: seq<Level>, treeId: nat, height: nat, leaves: Level, ks: seq<nat>, root: Digest, perm: Sponge.Permutation,
      table: PathTable, poseidon2: HashTable)
    returns (r: Result<()>)
    requires |levels| == height + 1 && AllOnPath(levels, height, ks, HashOf(perm)) && Anchored(levels, height, leaves, ks, root)
    modifies table, poseidon2
    ensures r == Ok(()) && table.rows == old(table.rows) + PathsTo(levels, treeId, height, ks, HashOf(perm))
    ensures Pushed(old(table.rows), old(poseidon2.rows), table.rows, poseidon2.rows, perm)
  {
    hide Pushed, HashOf, OnPath, NodeOn, PathTo, AllOnPath, Anchored, PathsTo;
    NoPathsYet(levels, treeId, height, ks, HashOf(perm));
    NothingPushed(table.rows, poseidon2.rows, perm);
    var i := 0;
    while i < |ks|
      invariant i <= |ks| && AllOnPath(levels, height, ks[..i], HashOf(perm))
      invariant table.rows == old(table.rows) + PathsTo(levels, treeId, height, ks[..i], HashOf(perm))
      invariant Pushed(old(table.rows), old(poseidon2.rows), table.rows, poseidon2.rows, perm)
    {
      assert ks[i] in ks;
      AnchoredAt(levels, height, leaves, ks, root, ks[i]);
      PathPush(levels, treeId, height, ks, i, HashOf(perm));
      ghost var before, permsBefore := table.rows, poseidon2.rows;
      var pushed := PushPath(levels, treeId, height, ks[i], leaves[ks[i]], root, perm, table, poseidon2);
      PushedThen(old(table.rows), old(poseidon2.rows), before, permsBefore, table.rows, poseidon2.rows, perm);
      if pushed.Err? { return pushed; }
      i := i + 1;
    }
    assert ks[..i] == ks;
    r := Ok(());
  }

  /** Publish one tree's anchors and, given a decommitment, replay it into the path table. */
  method FinishTreeOpening(
      treeId: nat, root: Digest, height: nat, leaves: Level, decommit: Option<seq<Digest>>,
      perm: Sponge.Permutation, claims: OpeningClaims, table: PathTable, poseidon2: HashTable)
    returns (r: Result<()>)
    requires forall k :: k in leaves ==> k < SparseTree.Pow2(height)
    modifies claims, table, poseidon2
    ensures forall k :: k in Ordered(leaves.Keys) ==> k in leaves
    ensures claims.roots == old(claims.roots) + [RootClaim(treeId, root, |leaves|)]
    ensures claims.leaves == old(claims.leaves) + LeafClaims(treeId, height, leaves, Ordered(leaves.Keys))
    ensures decommit.None? ==> r == Ok(()) && table.rows == old(table.rows)
    ensures decommit.Some? && !Accepted(height, leaves, decommit.value, HashOf(perm), root) ==>
              && table.rows == old(table.rows)
              && r == Err(if WalkResult(height, leaves, decommit.value, HashOf(perm)).Err?
                          then WalkResult(height, leaves, decommit.value, HashOf(perm)).message else ROOT_MISMATCH)
    ensures decommit.Some? && Accepted(height, leaves, decommit.value, HashOf(perm), root) ==>
              && r == Ok(())
              && table.rows == old(table.rows) + OpeningRows(treeId, height, leaves, decommit.value, HashOf(perm), root)
              && (old(Balanced(table.rows, claims.roots, claims.leaves)) ==>
                    Balanced(table.rows, claims.roots, claims.leaves))
    ensures Pushed(old(table.rows), old(poseidon2.rows), table.rows, poseidon2.rows, perm)
  {
    hide Accepted, OpeningRows, Pushed, HashOf, Climb, OnPath, NodeOn, PathTo, AllOnPath, Anchored, LeafClaims, PathsTo,
      Balanced, SparseTree.Pow2, SparseTree.Increasing, WalkResult;
    var ks := SparseTree.SortedKeys(leaves.Keys);
    OneOrder(ks, Ordered(leaves.Keys));
    NoClaimsYet(treeId, height, leaves);
    NothingPushed(table.rows, poseidon2.rows, perm);
    var i := 0;
    while i < |ks|
      invariant poseidon2.rows == old(poseidon2.rows)
      invariant i <= |ks| && (forall k :: k in ks[..i] ==> k in leaves) && claims.roots == old(claims.roots)
      invariant claims.leaves == old(claims.leaves) + LeafClaims(treeId, height, leaves, ks[..i])
      invariant table.rows == old(table.rows)
    {
      assert ks[i] in ks;
      ClaimPush(treeId, height, leaves, ks, i);
      claims.leaves := claims.leaves + [LeafClaim(treeId, height, ks[i], leaves[ks[i]])];
      i := i + 1;
    }
    assert ks[..i] == ks;
    claims.roots := claims.roots + [RootClaim(treeId, root, |leaves|)];
    if decommit.None? { return Ok(()); }
    var walked := WalkTree(height, leaves, decommit.value, HashOf(perm));
    if walked.Err? {
      NotAccepted(height, leaves, decommit.value, HashOf(perm), root);
      return Err(walked.message);
    }
    var levels := walked.value;
    AcceptedIs(height, leaves, decommit.value, HashOf(perm), root);
    if 0 !in levels[0] || levels[0][0] != root { return Err(ROOT_MISMATCH); }
    OpeningRowsAre(treeId, height, leaves, decommit.value, HashOf(perm), root);
    r := PushPaths(levels, treeId, height, leaves, ks, root, perm, table, poseidon2);
    if old(Balanced(table.rows, claims.roots, claims.leaves)) {
      OpeningBalances(old(table.rows), old(claims.roots), old(claims.leaves), treeId, height, leaves, decommit.value, HashOf(perm), root);
    }
  }
}
