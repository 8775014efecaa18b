// The hash rows of opened paths: one full root-to-leaf chain per position,
// anchored by public root and leaf claims.
module PathRows {
  import opened M31
  import opened Openings
  import opened OpeningWalk

  datatype RootClaim = RootClaim(treeId: nat, root: Digest, nPaths: nat)
  datatype LeafClaim = LeafClaim(treeId: nat, depth: nat, index: nat, digest: Digest)

  /** One enabled row of the merkle_path table. */
  datatype PathRow = PathRow(
    treeId: Felt, depth: Felt, index: Felt, direction: Felt, isLeaf: Felt,
    left: Digest, right: Digest, parent: Digest, child: Digest)

  /** A tuple of the merkle_node relation. */
  datatype NodeClaim = NodeClaim(treeId: Felt, depth: Felt, index: Felt, digest: Digest)

  function RootTuple(c: RootClaim): NodeClaim {
    NodeClaim(Reduce(c.treeId), 0, 0, c.root)
  }

  function LeafTuple(c: LeafClaim): NodeClaim {
    NodeClaim(Reduce(c.treeId), Reduce(c.depth), Reduce(c.index), c.digest)
  }

  /** The node claim a row consumes. */
  function Own(r: PathRow): NodeClaim {
    NodeClaim(r.treeId, r.depth, r.index, r.parent)
  }

  /** The claim of its on-path child. */
  function Next(r: PathRow): NodeClaim {
    NodeClaim(r.treeId, Reduce(r.depth + 1), Reduce(r.index * 2 + r.direction), r.child)
  }

  function Is(a: NodeClaim, b: NodeClaim): int {
    if a == b then 1 else 0
  }

  // -- The bag of node claims ------------------------------------------------------------------

  /** Emitted minus consumed by the rows. */
  function Net(rows: seq<PathRow>, c: NodeClaim): int {
    if rows == [] then 0
    else
      var r := rows[|rows| - 1];
      Net(rows[..|rows| - 1], c) + (1 - r.isLeaf) * Is(Next(r), c) - Is(Own(r), c)
  }

  /** public_root_terms: each root is emitted once per path. */
  function RootTerms(roots: seq<RootClaim>, c: NodeClaim): int {
    if roots == [] then 0
    else
      var r := roots[|roots| - 1];
      RootTerms(roots[..|roots| - 1], c) + r.nPaths * Is(RootTuple(r), c)
  }

  /** public_leaf_terms: each leaf is consumed. */
  function LeafTerms(leaves: seq<LeafClaim>, c: NodeClaim): int {
    if leaves == [] then 0
    else LeafTerms(leaves[..|leaves| - 1], c) - Is(LeafTuple(leaves[|leaves| - 1]), c)
  }

  ghost predicate Balanced(rows: seq<PathRow>, roots: seq<RootClaim>, leaves: seq<LeafClaim>) {
    forall c: NodeClaim :: Net(rows, c) + RootTerms(roots, c) + LeafTerms(leaves, c) == 0
  }

  lemma {:induction false} NetJoins(a: seq<PathRow>, b: seq<PathRow>, c: NodeClaim)
    ensures Net(a + b, c) == Net(a, c) + Net(b, c)
    decreases |b|
  {
    if b == [] {
      assert a + b == a;
    } else {
      assert (a + b)[..|a + b| - 1] == a + b[..|b| - 1];
      NetJoins(a, b[..|b| - 1], c);
    }
  }

  lemma {:induction false} LeafTermsJoin(a: seq<LeafClaim>, b: seq<LeafClaim>, c: NodeClaim)
    ensures LeafTerms(a + b, c) == LeafTerms(a, c) + LeafTerms(b, c)
    decreases |b|
  {
    if b == [] {
      assert a + b == a;
    } else {
      assert (a + b)[..|a + b| - 1] == a + b[..|b| - 1];
      LeafTermsJoin(a, b[..|b| - 1], c);
    }
  }

  lemma RootTermsPush(roots: seq<RootClaim>, r: RootClaim, c: NodeClaim)
    ensures RootTerms(roots + [r], c) == RootTerms(roots, c) + r.nPaths * Is(RootTuple(r), c)
  {
    assert (roots + [r])[..|roots|] == roots;
  }

  // -- The rows of one path --------------------------------------------------------------------

  /** The row at depth d of the path to `pos`, read off the recorded levels. */
  function StepRow(levels: seq<Level>, treeId: nat, height: nat, pos: nat, d: nat, h: Hash): PathRow
    requires |levels| == height + 1 && d < height
    requires var c := Shift(pos, height - 1 - d); c in levels[d + 1] && Sibling(c) in levels[d + 1]
  {
    var c := Shift(pos, height - 1 - d);
    var child, sibling := levels[d + 1][c], levels[d + 1][Sibling(c)];
    Row(treeId, d, Shift(pos, height - d), c % 2, child, sibling, h)
  }

  /** push_path_step with is_leaf unset. */
  function Row(treeId: nat, d: nat, index: nat, direction: nat, child: Digest, sibling: Digest, h: Hash): PathRow
    requires direction < 2
  {
    var (left, right) := if direction == 0 then (child, sibling) else (sibling, child);
    PathRow(Reduce(treeId), Reduce(d), Reduce(index), direction, 0, left, right, h(left, right), child)
  }

  ghost predicate OnPath(levels: seq<Level>, height: nat, pos: nat, h: Hash) {
    |levels| == height + 1 && forall d: nat :: d < height ==> Linked(levels[d], levels[d + 1], h, Shift(pos, height - 1 - d))
  }

  /** The rows pushed for `pos`, from the leaf side down to depth d. */
  ghost function PathTo(levels: seq<Level>, treeId: nat, height: nat, pos: nat, h: Hash, d: nat): seq<PathRow>
    requires OnPath(levels, height, pos, h) && d <= height
    decreases height - d
  {
    if d == height then []
    else
      assert Linked(levels[d], levels[d + 1], h, Shift(pos, height - 1 - d));
      PathTo(levels, treeId, height, pos, h, d + 1) + [StepRow(levels, treeId, height, pos, d, h)]
  }

  /** The digest of a path's node at depth d. */
  ghost function NodeOn(levels: seq<Level>, height: nat, pos: nat, d: nat): Digest {
    if d <= height < |levels| && Shift(pos, height - d) in levels[d] then levels[d][Shift(pos, height - d)] else NO_DIGEST
  }

  function At(treeId: nat, d: nat, index: nat, digest: Digest): NodeClaim {
    NodeClaim(Reduce(treeId), Reduce(d), Reduce(index), digest)
  }

  lemma StepParent(levels: seq<Level>, treeId: nat, height: nat, pos: nat, d: nat, h: Hash)
    requires OnPath(levels, height, pos, h) && d < height
    ensures var c := Shift(pos, height - 1 - d);
            && c in levels[d + 1] && Sibling(c) in levels[d + 1] && c / 2 == Shift(pos, height - d)
            && StepRow(levels, treeId, height, pos, d, h).child == NodeOn(levels, height, pos, d + 1)
            && StepRow(levels, treeId, height, pos, d, h).parent == NodeOn(levels, height, pos, d)
  {
    assert Linked(levels[d], levels[d + 1], h, Shift(pos, height - 1 - d));
    ShiftMore(pos, height - 1 - d);
  }

  lemma ChildIndex(index: nat, direction: nat)
    requires direction < 2
    ensures Reduce(Reduce(index) * 2 + direction) == Reduce(index * 2 + direction)
  {
    var q := index / P;
    assert index == P * q + Reduce(index);
    assert index * 2 + direction == Reduce(index) * 2 + direction + P * (2 * q);
    Periodic(Reduce(index) * 2 + direction, 2 * q);
  }

  lemma NextDepth(d: nat)
    ensures Reduce(Reduce(d) + 1) == Reduce(d + 1)
  {
    var q := d / P;
    assert d + 1 == Reduce(d) + 1 + P * q;
    Periodic(Reduce(d) + 1, q);
  }

  lemma Periodic(x: int, q: int)
    ensures Reduce(x + P * q) == Reduce(x)
  {
    assert (x + P * q) % P == x % P;
  }

  lemma StepClaims(levels: seq<Level>, treeId: nat, height: nat, pos: nat, d: nat, h: Hash)
    requires OnPath(levels, height, pos, h) && d < height
    ensures |levels| == height + 1
    ensures var c := Shift(pos, height - 1 - d); c in levels[d + 1] && Sibling(c) in levels[d + 1]
    ensures var r := StepRow(levels, treeId, height, pos, d, h);
            && Own(r) == At(treeId, d, Shift(pos, height - d), NodeOn(levels, height, pos, d))
            && Next(r) == At(treeId, d + 1, Shift(pos, height - (d + 1)), NodeOn(levels, height, pos, d + 1))
            && r.isLeaf == 0
  {
    StepParent(levels, treeId, height, pos, d, h);
    var c := Shift(pos, height - 1 - d);
    assert c == c / 2 * 2 + c % 2;
    ChildIndex(c / 2, c % 2);
    NextDepth(d);
  }

  /** A path's rows telescope to its leaf claim minus the claim at their top. */
  lemma {:induction false} PathTelescopes(
      levels: seq<Level>, treeId: nat, height: nat, pos: nat, h: Hash, d: nat, c: NodeClaim)
    requires OnPath(levels, height, pos, h) && d <= height
    ensures Net(PathTo(levels, treeId, height, pos, h, d), c)
            == Is(At(treeId, height, pos, NodeOn(levels, height, pos, height)), c)
               - Is(At(treeId, d, Shift(pos, height - d), NodeOn(levels, height, pos, d)), c)
    decreases height - d
  {
    hide OnPath, NodeOn, At, Own, Next;
    if d < height {
      PathTelescopes(levels, treeId, height, pos, h, d + 1, c);
      StepClaims(levels, treeId, height, pos, d, h);
      var before, r := PathTo(levels, treeId, height, pos, h, d + 1), StepRow(levels, treeId, height, pos, d, h);
      assert (before + [r])[..|before|] == before;
    }
  }

  // -- The rows of one tree --------------------------------------------------------------------

  ghost predicate AllOnPath(levels: seq<Level>, height: nat, ks: seq<nat>, h: Hash) {
    forall k :: k in ks ==> OnPath(levels, height, k, h)
  }

  ghost function PathsTo(levels: seq<Level>, treeId: nat, height: nat, ks: seq<nat>, h: Hash): seq<PathRow>
    requires AllOnPath(levels, height, ks, h)
    decreases |ks|
  {
    if ks == [] then []
    else
      assert ks[|ks| - 1] in ks;
      PathsTo(levels, treeId, height, ks[..|ks| - 1], h) + PathTo(levels, treeId, height, ks[|ks| - 1], h, 0)
  }

  function LeafClaims(treeId: nat, height: nat, leaves: Level, ks: seq<nat>): seq<LeafClaim>
    requires forall k :: k in ks ==> k in leaves
    decreases |ks|
  {
    if ks == [] then []
    else
      assert ks[|ks| - 1] in ks;
      LeafClaims(treeId, height, leaves, ks[..|ks| - 1]) + [LeafClaim(treeId, height, ks[|ks| - 1], leaves[ks[|ks| - 1]])]
  }

  /** All paths end at the root, and start at the opened digests. */
  ghost predicate Anchored(levels: seq<Level>, height: nat, leaves: Level, ks: seq<nat>, root: Digest) {
    forall k :: k in ks ==>
      k in leaves && Shift(k, height) == 0
      && NodeOn(levels, height, k, height) == leaves[k] && NodeOn(levels, height, k, 0) == root
  }

  /** The rows of a tree's paths cancel its leaf claims against one root emission per path. */
  lemma {:induction false} PathsTelescope(
      levels: seq<Level>, treeId: nat, height: nat, leaves: Level, ks: seq<nat>, root: Digest, h: Hash, c: NodeClaim)
    requires AllOnPath(levels, height, ks, h) && Anchored(levels, height, leaves, ks, root)
    ensures forall k :: k in ks ==> k in leaves
    ensures Net(PathsTo(levels, treeId, height, ks, h), c)
            + |ks| * Is(At(treeId, 0, 0, root), c) + LeafTerms(LeafClaims(treeId, height, leaves, ks), c) == 0
    decreases |ks|
  {
    if ks != [] {
      var front, k := ks[..|ks| - 1], ks[|ks| - 1];
      assert k in ks;
      FrontAnchored(levels, height, leaves, ks, root, h);
      PathsTelescope(levels, treeId, height, leaves, front, root, h, c);
      hide OnPath, Anchored, NodeOn, AllOnPath;
      PathTelescopes(levels, treeId, height, k, h, 0, c);
      NetJoins(PathsTo(levels, treeId, height, front, h), PathTo(levels, treeId, height, k, h, 0), c);
      LeafPush(treeId, height, leaves, ks, c);
      AnchoredAt(levels, height, leaves, ks, root, k);
      var e := Is(At(treeId, 0, 0, root), c);
      assert |ks| * e == |front| * e + e;
    }
  }

  lemma FrontAnchored(levels: seq<Level>, height: nat, leaves: Level, ks: seq<nat>, root: Digest, h: Hash)
    requires ks != [] && AllOnPath(levels, height, ks, h) && Anchored(levels, height, leaves, ks, root)
    ensures AllOnPath(levels, height, ks[..|ks| - 1], h) && Anchored(levels, height, leaves, ks[..|ks| - 1], root)
    ensures forall k :: k in ks ==> k in leaves
  {
    hide OnPath, NodeOn;
  }

  lemma AnchoredAt(levels: seq<Level>, height: nat, leaves: Level, ks: seq<nat>, root: Digest, k: nat)
    requires Anchored(levels, height, leaves, ks, root) && k in ks
    ensures k in leaves && Shift(k, height) == 0
    ensures NodeOn(levels, height, k, height) == leaves[k] && NodeOn(levels, height, k, 0) == root
  {
    hide NodeOn;
  }

  lemma LeafPush(treeId: nat, height: nat, leaves: Level, ks: seq<nat>, c: NodeClaim)
    requires ks != [] && forall k :: k in ks ==> k in leaves
    ensures forall k :: k in ks[..|ks| - 1] ==> k in leaves
    ensures ks[|ks| - 1] in leaves
    ensures var k := ks[|ks| - 1];
            LeafTerms(LeafClaims(treeId, height, leaves, ks), c)
            == LeafTerms(LeafClaims(treeId, height, leaves, ks[..|ks| - 1]), c) - Is(At(treeId, height, k, leaves[k]), c)
  {
    var k := ks[|ks| - 1];
    assert k in ks;
    var before := LeafClaims(treeId, height, leaves, ks[..|ks| - 1]);
    assert (before + [LeafClaim(treeId, height, k, leaves[k])])[..|before|] == before;
  }
}
