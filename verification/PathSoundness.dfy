// The other direction of the path rows: what accepted rows prove about the leaf
// claims, for a hash relation that binds inputs to digests and for one that
// does not.
module PathSoundness {
  import opened HashBag
  import opened M31
  import opened Openings
  import opened PathRows
  import RowFacts
  import SparseTree
  import Sponge

  /** A constrained row whose parent is the hash of its inputs. */
  ghost predicate RowHolds(r: PathRow, h: Hash) {
    Constrained(r) && r.parent == h(r.left, r.right)
  }

  ghost predicate RowsHold(rows: seq<PathRow>, h: Hash) {
    forall i :: 0 <= i < |rows| ==> RowHolds(rows[i], h)
  }

  /** The hash chain from a digest upwards: per step a direction bit and the sibling. */
  function Fold(h: Hash, digest: Digest, path: seq<(nat, Digest)>): Digest
    decreases |path|
  {
    if path == [] then digest
    else Fold(h, if path[0].0 == 0 then h(digest, path[0].1) else h(path[0].1, digest), path[1..])
  }

  /** The leaf index its direction bits spell, leaf bit first. */
  function IndexOf(path: seq<(nat, Digest)>): nat {
    if path == [] then 0 else path[0].0 + 2 * IndexOf(path[1..])
  }

  ghost predicate Bits(path: seq<(nat, Digest)>) {
    forall i :: 0 <= i < |path| ==> path[i].0 <= 1
  }

  /** The node is on a chain of `n` hashes to a published root of its tree. */
  ghost predicate Reaches(roots: seq<RootClaim>, h: Hash, c: NodeClaim, root: int, path: seq<(nat, Digest)>) {
    && 0 <= root < |roots| && Reduce(roots[root].treeId) == c.treeId && Bits(path)
    && Fold(h, c.digest, path) == roots[root].root
    && c.depth == Reduce(|path|) && c.index == Reduce(IndexOf(path))
  }

  // -- One row -----------------------------------------------------------------------------------

  /** A valid row hashes its child with the other input, in the order its direction bit says. */
  lemma RowHashesChild(r: PathRow, h: Hash)
    requires RowHolds(r, h)
    ensures r.direction <= 1 && r.isLeaf <= 1
    ensures var sibling := if r.direction == 0 then r.right else r.left;
            r.parent == if r.direction == 0 then h(r.child, sibling) else h(sibling, r.child)
  {
    hide Constrained;
    ChildPicked(r);
  }

  /** The chain of a row's own claim extends to its child claim. */
  lemma StepDown(roots: seq<RootClaim>, h: Hash, r: PathRow, root: int, path: seq<(nat, Digest)>) returns (longer: seq<(nat, Digest)>)
    requires RowHolds(r, h) && Reaches(roots, h, Own(r), root, path)
    ensures Reaches(roots, h, Next(r), root, longer) && |longer| == |path| + 1
  {
    RowHashesChild(r, h);
    var sibling := if r.direction == 0 then r.right else r.left;
    longer := [(r.direction, sibling)] + path;
    assert longer[1..] == path;
    NextDepth(|path|);
    ChildIndex(IndexOf(path), r.direction);
    assert Reduce(r.index * 2 + r.direction) == Reduce(IndexOf(longer));
    forall i | 0 <= i < |longer|
      ensures longer[i].0 <= 1
    {
      if i > 0 { assert longer[i] == path[i - 1]; }
    }
  }

  lemma RootReaches(roots: seq<RootClaim>, h: Hash, c: NodeClaim, root: int)
    requires 0 <= root < |roots| && RootTuple(roots[root]) == c
    ensures Reaches(roots, h, c, root, [])
  {
  }

  // -- Counting ----------------------------------------------------------------------------------

  ghost predicate Consumes(rows: seq<PathRow>, c: NodeClaim) {
    exists i :: 0 <= i < |rows| && Own(rows[i]) == c
  }

  ghost predicate Emits(rows: seq<PathRow>, c: NodeClaim, i: int) {
    0 <= i < |rows| && rows[i].isLeaf == 0 && Next(rows[i]) == c
  }

  /** Without an emitting row the rows' net is at most zero, and negative when one consumes. */
  lemma {:induction false} NoEmission(rows: seq<PathRow>, c: NodeClaim)
    requires forall i :: 0 <= i < |rows| ==> rows[i].isLeaf <= 1 && !Emits(rows, c, i)
    ensures Net(rows, c) <= 0 && (Consumes(rows, c) ==> Net(rows, c) < 0)
    decreases |rows|
  {
    if rows != [] {
      var front, r := rows[..|rows| - 1], rows[|rows| - 1];
      forall i | 0 <= i < |front|
        ensures front[i].isLeaf <= 1 && !Emits(front, c, i)
      {
        assert front[i] == rows[i] && !Emits(rows, c, i);
      }
      NoEmission(front, c);
      assert !Emits(rows, c, |rows| - 1);
      assert (1 - r.isLeaf) * Is(Next(r), c) == 0;
      if Consumes(rows, c) && Own(r) != c {
        var i :| 0 <= i < |rows| && Own(rows[i]) == c;
        assert Own(front[i]) == c;
      }
    }
  }

  lemma {:induction false} NoRoot(roots: seq<RootClaim>, c: NodeClaim)
    requires forall i :: 0 <= i < |roots| ==> RootTuple(roots[i]) != c
    ensures RootTerms(roots, c) == 0
  {
    if roots != [] {
      var front := roots[..|roots| - 1];
      forall i | 0 <= i < |front|
        ensures RootTuple(front[i]) != c
      {
        assert front[i] == roots[i];
      }
      NoRoot(front, c);
    }
  }

  lemma {:induction false} LeafConsumed(leaves: seq<LeafClaim>, c: NodeClaim)
    ensures LeafTerms(leaves, c) <= 0
    ensures (exists i :: 0 <= i < |leaves| && LeafTuple(leaves[i]) == c) ==> LeafTerms(leaves, c) < 0
  {
    if leaves != [] {
      var front := leaves[..|leaves| - 1];
      LeafConsumed(front, c);
      if (exists i :: 0 <= i < |leaves| && LeafTuple(leaves[i]) == c) && LeafTuple(leaves[|leaves| - 1]) != c {
        var i :| 0 <= i < |leaves| && LeafTuple(leaves[i]) == c;
        assert LeafTuple(front[i]) == c;
      }
    }
  }

  ghost predicate Claimed(rows: seq<PathRow>, leaves: seq<LeafClaim>, c: NodeClaim) {
    Consumes(rows, c) || exists i :: 0 <= i < |leaves| && LeafTuple(leaves[i]) == c
  }

  /** In a balanced bag every consumed claim is a root's, or emitted by a row. */
  lemma Supplied(rows: seq<PathRow>, roots: seq<RootClaim>, leaves: seq<LeafClaim>, h: Hash, c: NodeClaim)
    requires RowsHold(rows, h) && Balanced(rows, roots, leaves) && Claimed(rows, leaves, c)
    ensures (exists i :: 0 <= i < |roots| && RootTuple(roots[i]) == c) || exists i :: Emits(rows, c, i)
  {
    hide RowHolds;
    if (forall i :: 0 <= i < |roots| ==> RootTuple(roots[i]) != c) && forall i :: !Emits(rows, c, i) {
      forall i | 0 <= i < |rows|
        ensures rows[i].isLeaf <= 1 && !Emits(rows, c, i)
      {
        RowHashesChild(rows[i], h);
      }
      NoEmission(rows, c);
      NoRoot(roots, c);
      LeafConsumed(leaves, c);
      assert false;
    }
  }

  // -- Climbing ----------------------------------------------------------------------------------

  /** The rows visited so far have the depths just below the current claim's. */
  ghost predicate Visited(rows: seq<PathRow>, used: set<int>, depth: Felt) {
    forall i :: i in used ==> 0 <= i < |rows| && DepthBelow(rows[i].depth, depth, |used|)
  }

  /** d lies among the n depths that start at `top`, counted in the field. */
  predicate DepthBelow(d: Felt, top: Felt, n: nat) {
    Reduce(d - top) < n
  }

  /** A new row one level up is not among the visited ones, as long as fewer than P are. */
  lemma Fresh(rows: seq<PathRow>, used: set<int>, c: NodeClaim, i: int)
    requires Visited(rows, used, c.depth) && Emits(rows, c, i) && |used| < P - 1
    ensures i !in used && Visited(rows, used + {i}, rows[i].depth)
  {
    hide Reduce, Next, DepthBelow;
    var d: int := rows[i].depth;
    assert c.depth == Reduce(d + 1) by { assert Next(rows[i]) == c; NextIs(rows[i]); }
    OneAbove(d, c.depth, |used|);
    assert |used + {i}| == |used| + 1;
    forall k | k in used + {i}
      ensures DepthBelow(rows[k].depth, d, |used| + 1)
    {
      if k in used {
        FurtherBelow(rows[k].depth, c.depth, d, |used|);
      } else {
        SameDepth(d, |used| + 1);
      }
    }
  }

  lemma NextIs(r: PathRow)
    ensures Next(r).depth == Reduce(r.depth + 1)
  {
  }

  lemma OneAbove(d: Felt, top: Felt, n: nat)
    requires top == Reduce(d + 1) && n < P - 1
    ensures !DepthBelow(d, top, n)
  {
  }

  lemma FurtherBelow(k: Felt, top: Felt, d: Felt, n: nat)
    requires top == Reduce(d + 1) && DepthBelow(k, top, n) && n < P - 1
    ensures DepthBelow(k, d, n + 1)
  {
  }

  lemma SameDepth(d: Felt, n: nat)
    requires n > 0
    ensures DepthBelow(d, d, n)
  {
  }

  lemma {:induction false} UsedBound(used: set<int>, n: nat)
    requires forall i :: i in used ==> 0 <= i < n
    ensures |used| <= n
    decreases n
  {
    if n == 0 {
      if used != {} { var i := SparseTree.Pick(used); }
    } else {
      UsedBound(used - {n - 1}, n - 1);
    }
  }

  /** Every consumed claim sits on a hash chain to a published root. */
  lemma {:induction false} ClimbToRoot(
      rows: seq<PathRow>, roots: seq<RootClaim>, leaves: seq<LeafClaim>, h: Hash, c: NodeClaim, used: set<int>)
    returns (root: int, path: seq<(nat, Digest)>)
    requires RowsHold(rows, h) && Balanced(rows, roots, leaves) && Claimed(rows, leaves, c)
    requires |rows| < P - 1 && Visited(rows, used, c.depth)
    ensures Reaches(roots, h, c, root, path) && |path| <= |rows| - |used|
    decreases |rows| - |used|
  {
    hide RowHolds, Balanced, Reaches, Visited, DepthBelow;
    Supplied(rows, roots, leaves, h, c);
    VisitedBound(rows, used, c.depth);
    if i :| 0 <= i < |roots| && RootTuple(roots[i]) == c {
      RootReaches(roots, h, c, i);
      root, path := i, [];
    } else {
      var i :| Emits(rows, c, i);
      Fresh(rows, used, c, i);
      VisitedBound(rows, used + {i}, rows[i].depth);
      var shorter;
      root, shorter := ClimbToRoot(rows, roots, leaves, h, Own(rows[i]), used + {i});
      path := StepDown(roots, h, rows[i], root, shorter);
    }
  }

  lemma VisitedBound(rows: seq<PathRow>, used: set<int>, depth: Felt)
    requires Visited(rows, used, depth)
    ensures |used| <= |rows|
  {
    UsedBound(used, |rows|);
  }

  /** The leaf hashes up to the root along bits that spell its index, one per level of its depth. */
  ghost predicate CommittedBy(roots: seq<RootClaim>, h: Hash, l: LeafClaim, root: int, path: seq<(nat, Digest)>) {
    && 0 <= root < |roots| && Reduce(roots[root].treeId) == Reduce(l.treeId)
    && Bits(path) && Fold(h, l.digest, path) == roots[root].root
    && Reduce(|path|) == Reduce(l.depth) && Reduce(IndexOf(path)) == Reduce(l.index)
  }

  lemma RowsHoldWhenHashed(rows: seq<PathRow>, h: Hash)
    requires AllConstrained(rows) && AllHash(rows, h)
    ensures RowsHold(rows, h)
  {
    hide Constrained;
    assert forall i :: 0 <= i < |rows| ==> rows[i] in rows;
  }

  /** Path soundness: when the rows' hashes are bound in pairs, a claimed leaf is the leaf at its
      index of a tree with a published root, at its claimed depth. */
  lemma LeafIsCommitted(
      rows: seq<PathRow>, perms: seq<PermRow>, roots: seq<RootClaim>, leaves: seq<LeafClaim>, perm: Sponge.Permutation, l: LeafClaim)
    requires AllConstrained(rows) && Permutes(perms, perm) && PairBalanced(rows, perms)
    requires Balanced(rows, roots, leaves) && |rows| < P - 1 && l in leaves
    ensures exists root, path :: CommittedBy(roots, HashOf(perm), l, root, path) && (l.depth < P ==> |path| == l.depth)
  {
    hide Balanced, PairBalanced, Permutes, AllConstrained, AllHash, RowsHold, HashOf;
    PairedRowsHash(rows, perms, perm);
    RowsHoldWhenHashed(rows, HashOf(perm));
    var root, path := ClimbToRoot(rows, roots, leaves, HashOf(perm), LeafTuple(l), {});
    assert CommittedBy(roots, HashOf(perm), l, root, path);
  }

  // -- Unbound hashes ----------------------------------------------------------------------------

  /** What the verifier checks of the path rows: inputs and parents are separate tuples. */
  ghost predicate Accepted(
      rows: seq<PathRow>, perms: seq<PermRow>, roots: seq<RootClaim>, leaves: seq<LeafClaim>, perm: Sponge.Permutation) {
    AllConstrained(rows) && Permutes(perms, perm) && HashBalanced(rows, perms) && Balanced(rows, roots, leaves)
  }

  /** Accepted rows prove their leaf claims once every input is distinguishable from a digest and the
      same rows balance in pairs, which is exactly when each of them hashes its own inputs. */
  lemma AcceptedLeafIsCommitted(
      rows: seq<PathRow>, perms: seq<PermRow>, roots: seq<RootClaim>, leaves: seq<LeafClaim>, perm: Sponge.Permutation, l: LeafClaim)
    requires Accepted(rows, perms, roots, leaves, perm) && Separated(rows, perms) && |rows| < P - 1 && l in leaves
    ensures AllHash(rows, HashOf(perm)) <==> PairBalanced(rows, perms)
    ensures PairBalanced(rows, perms) ==>
              exists root, path :: CommittedBy(roots, HashOf(perm), l, root, path) && (l.depth < P ==> |path| == l.depth)
  {
    hide Balanced, PairBalanced, Permutes, AllConstrained, AllHash, HashBalanced, Separated, HashOf, CommittedBy;
    HashedIffPaired(rows, perms, perm);
    if PairBalanced(rows, perms) { LeafIsCommitted(rows, perms, roots, leaves, perm, l); }
  }

  /** A row that repeats a root as its left input and its child. */
  function SelfRow(treeId: nat, root: Digest): PathRow {
    PathRow(Reduce(treeId), 0, 0, 0, 0, root, Sponge.Zeros(8), root, root)
  }

  /** Its input pads to its parent: it is accepted for every root and every permutation, without a
      single permutation row. */
  lemma SelfCancellingRow(treeId: nat, root: Digest, perm: Sponge.Permutation)
    ensures Accepted([SelfRow(treeId, root)], [], [RootClaim(treeId, root, 1)], [LeafClaim(treeId, 1, 0, root)], perm)
  {
    var r, claim, leaf := SelfRow(treeId, root), RootClaim(treeId, root, 1), LeafClaim(treeId, 1, 0, root);
    assert Inputs([r]) == [Input(r)] && Parents([r]) == [ParentTuple(r)] && Input(r) == ParentTuple(r);
    assert Constrained(r);
    forall c: NodeClaim
      ensures Net([r], c) + RootTerms([claim], c) + LeafTerms([leaf], c) == 0
    {
      OneOfEach(r, claim, leaf, c);
    }
  }

  lemma OneOfEach(r: PathRow, claim: RootClaim, leaf: LeafClaim, c: NodeClaim)
    ensures Net([r], c) == (1 - r.isLeaf) * Is(Next(r), c) - Is(Own(r), c)
    ensures RootTerms([claim], c) == claim.nPaths * Is(RootTuple(claim), c)
    ensures LeafTerms([leaf], c) == -Is(LeafTuple(leaf), c)
  {
    assert [r][..0] == [] && [claim][..0] == [] && [leaf][..0] == [];
  }

  /** So a leaf can be claimed that no chain of hashes connects to a published root. */
  lemma ForgedLeaf(treeId: nat)
    ensures var perm: Sponge.Permutation := s => Sponge.Zeros(16)[0 := 1];
            var root, leaf := RootClaim(treeId, Sponge.Zeros(8), 1), LeafClaim(treeId, 1, 0, Sponge.Zeros(8));
            && Accepted([SelfRow(treeId, Sponge.Zeros(8))], [], [root], [leaf], perm)
            && !exists k, path :: CommittedBy([root], HashOf(perm), leaf, k, path)
  {
    assert Mark(1)[0] == 1;
    var perm: Sponge.Permutation := s => Sponge.Zeros(16)[0 := 1];
    var root, leaf := RootClaim(treeId, Sponge.Zeros(8), 1), LeafClaim(treeId, 1, 0, Sponge.Zeros(8));
    SelfCancellingRow(treeId, Sponge.Zeros(8), perm);
    hide Accepted, HashBalanced, Balanced;
    forall k, path | CommittedBy([root], HashOf(perm), leaf, k, path)
      ensures false
    {
      assert path != [];
      assert Sponge.Rate(Sponge.Zeros(16)[0 := 1]) == Mark(1);
      Absorbed(HashOf(perm), Mark(1), (d: Digest) => true, leaf.digest, path);
    }
  }

  function Mark(k: Felt): Digest {
    Sponge.Zeros(8)[0 := k]
  }

  /** A hash that sends whatever touches a sink to one value in it keeps every chain there. */
  lemma {:induction false} Absorbed(h: Hash, value: Digest, sink: Digest -> bool, digest: Digest, path: seq<(nat, Digest)>)
    requires sink(value) && sink(digest) && path != []
    requires forall l, r :: sink(l) || sink(r) ==> h(l, r) == value
    ensures Fold(h, digest, path) == value
    decreases |path|
  {
    if |path| > 1 {
      Absorbed(h, value, sink, if path[0].0 == 0 then h(digest, path[0].1) else h(path[0].1, digest), path[1..]);
    }
  }

  // -- Exchanged parents -------------------------------------------------------------------------

  /** Sends inputs with a half marked 1 or 3 to 3, all others to 4. */
  function Marking(s: Sponge.State): Sponge.State {
    Pad(if Sunk(s[..8]) || Sunk(s[8..]) then Mark(3) else Mark(4))
  }

  predicate Sunk(d: Digest) {
    d == Mark(1) || d == Mark(3)
  }

  function OneStep(treeId: nat, child: Digest, parent: Digest): PathRow {
    PathRow(Reduce(treeId), 0, 0, 0, 0, child, Mark(5), parent, child)
  }

  /** Two rows of two trees with each other's parents. */
  function Exchanged(): seq<PathRow> {
    [OneStep(0, Mark(1), Mark(4)), OneStep(1, Mark(2), Mark(3))]
  }

  lemma Marks()
    ensures Mark(1)[0] == 1 && Mark(2)[0] == 2 && Mark(3)[0] == 3 && Mark(4)[0] == 4 && Mark(5)[0] == 5
    ensures Long(Mark(1) + Mark(5)) && Long(Mark(2) + Mark(5))
  {
    assert Sponge.Zeros(8)[0] == 0;
    assert (Mark(1) + Mark(5))[8..][0] == 5 && (Mark(2) + Mark(5))[8..][0] == 5;
  }

  lemma MarkedHash(l: Digest, r: Digest)
    ensures HashOf(Marking)(l, r) == if Sunk(l) || Sunk(r) then Mark(3) else Mark(4)
  {
    hide Mark, Pad, Sunk;
    var s: Sponge.State := l + r;
    assert s[..8] == l && s[8..] == r;
    assert HashOf(Marking)(l, r) == Sponge.Rate(Marking(s));
    Unpad(Mark(3));
    Unpad(Mark(4));
  }

  lemma ExchangedHashes()
    ensures Hashes(Exchanged(), HashOf(Marking)) == [Mark(3), Mark(4)]
    ensures Digests(Exchanged()) == [Mark(4), Mark(3)]
  {
    Marks();
    hide HashOf;
    MarkedHash(Mark(1), Mark(5));
    MarkedHash(Mark(2), Mark(5));
    assert Sunk(Mark(1)) && !Sunk(Mark(2)) && !Sunk(Mark(5));
  }

  lemma ExchangedClose()
    ensures Permutes(HashRows(Exchanged(), Marking), Marking)
    ensures Separated(Exchanged(), HashRows(Exchanged(), Marking)) && HashBalanced(Exchanged(), HashRows(Exchanged(), Marking))
  {
    var rows := Exchanged();
    ExchangedHashes();
    Marks();
    hide Mark, HashOf, Long;
    assert multiset([Mark(3), Mark(4)]) == multiset([Mark(4), Mark(3)]);
    RearrangedCloses(rows, Marking);
    HashRowsSeparated(rows, Marking);
  }

  lemma ExchangedBalance()
    ensures Balanced(Exchanged(), [RootClaim(0, Mark(4), 1), RootClaim(1, Mark(3), 1)],
                     [LeafClaim(0, 1, 0, Mark(1)), LeafClaim(1, 1, 0, Mark(2))])
  {
    var a, b := OneStep(0, Mark(1), Mark(4)), OneStep(1, Mark(2), Mark(3));
    var ra, rb, la, lb := RootClaim(0, Mark(4), 1), RootClaim(1, Mark(3), 1), LeafClaim(0, 1, 0, Mark(1)), LeafClaim(1, 1, 0, Mark(2));
    hide Mark;
    forall c: NodeClaim
      ensures Net([a, b], c) + RootTerms([ra, rb], c) + LeafTerms([la, lb], c) == 0
    {
      OneOfEach(a, ra, la, c);
      OneOfEach(b, rb, lb, c);
      assert [a] + [b] == [a, b] && [ra] + [rb] == [ra, rb] && [la] + [lb] == [la, lb];
      NetJoins([a], [b], c);
      RootTermsPush([ra], rb, c);
      LeafTermsJoin([la], [lb], c);
    }
  }

  /** Two trees can exchange their parents, with no input that looks like a digest: the rows are
      accepted and a claimed leaf is not under its root. */
  lemma ExchangedParents()
    ensures var roots := [RootClaim(0, Mark(4), 1), RootClaim(1, Mark(3), 1)];
            var leaves := [LeafClaim(0, 1, 0, Mark(1)), LeafClaim(1, 1, 0, Mark(2))];
            && Accepted(Exchanged(), HashRows(Exchanged(), Marking), roots, leaves, Marking)
            && Separated(Exchanged(), HashRows(Exchanged(), Marking))
            && !exists k, path :: CommittedBy(roots, HashOf(Marking), leaves[0], k, path)
  {
    var roots := [RootClaim(0, Mark(4), 1), RootClaim(1, Mark(3), 1)];
    var leaf := LeafClaim(0, 1, 0, Mark(1));
    ExchangedClose();
    ExchangedBalance();
    ExchangedConstrained();
    hide AllConstrained, Permutes, HashBalanced, Balanced, Separated, CommittedBy, Mark, HashOf, HashRows;
    forall k, path | CommittedBy(roots, HashOf(Marking), leaf, k, path)
      ensures false
    {
      OnlyThree(roots, leaf, k, path);
    }
  }

  lemma ExchangedConstrained()
    ensures AllConstrained(Exchanged())
  {
    hide Mark;
    forall r | r in Exchanged()
      ensures Constrained(r)
    {
      assert forall i :: 0 <= i < 8 ==> Select(r.left[i], r.right[i], 0) == r.child[i];
    }
  }

  lemma OnlyThree(roots: seq<RootClaim>, leaf: LeafClaim, k: int, path: seq<(nat, Digest)>)
    requires roots == [RootClaim(0, Mark(4), 1), RootClaim(1, Mark(3), 1)] && leaf == LeafClaim(0, 1, 0, Mark(1))
    ensures !CommittedBy(roots, HashOf(Marking), leaf, k, path)
  {
    Marks();
    if path != [] {
      forall l, r | Sunk(l) || Sunk(r)
        ensures HashOf(Marking)(l, r) == Mark(3)
      {
        MarkedHash(l, r);
      }
      Absorbed(HashOf(Marking), Mark(3), Sunk, leaf.digest, path);
    }
  }
}
