// The witness of a full tree: exactly the siblings a set of opened positions
// does not determine. With it the walk succeeds and reproduces the tree; with
// fewer or more hashes it fails.
module CanonicalWitness {
  import opened Wrappers
  import opened Openings
  import opened OpeningWalk
  import SparseTree

  /** The digest at each depth and index. */
  type Tree = (nat, nat) -> Digest

  ghost predicate IsTree(t: Tree, height: nat, h: Hash) {
    forall d: nat, i: nat :: d < height ==> HashesChildren(t, h, d, i)
  }

  predicate HashesChildren(t: Tree, h: Hash, d: nat, i: nat) {
    t(d, i) == h(t(d + 1, 2 * i), t(d + 1, 2 * i + 1))
  }

  function Opened(t: Tree, d: nat, keys: set<nat>): Level {
    map k | k in keys :: t(d, k)
  }

  ghost function Parents(keys: set<nat>): set<nat> {
    set k | k in keys :: k / 2
  }

  /** The siblings absent from a level, in index order. */
  function Missing(ks: seq<nat>, keys: set<nat>, t: Tree, d: nat): seq<Digest> {
    if ks == [] then []
    else (if Sibling(ks[0]) in keys then [] else [t(d, Sibling(ks[0]))]) + Missing(ks[1..], keys, t, d)
  }

  /** The absent siblings of every level, leaves first. */
  ghost function WitnessFor(height: nat, keys: set<nat>, t: Tree): seq<Digest> {
    if height == 0 then []
    else Missing(Ordered(keys), keys, t, height) + WitnessFor(height - 1, Parents(keys), t)
  }

  ghost predicate Agrees(level: Level, t: Tree, d: nat) {
    forall k: nat :: k in level ==> level[k] == t(d, k)
  }

  /** Among the keys left to fold, a sibling is present exactly when it is left to fold too. */
  ghost predicate PairsTogether(ks: seq<nat>, keys: set<nat>) {
    forall k :: k in ks ==> (Sibling(k) in keys <==> Sibling(k) in ks)
  }

  lemma PairDropped(ks: seq<nat>, keys: set<nat>, n: nat)
    requires SparseTree.Increasing(ks) && PairsTogether(ks, keys) && 1 <= n <= 2 && n <= |ks|
    requires n == 1 ==> Sibling(ks[0]) !in ks
    requires n == 2 ==> ks[1] == Sibling(ks[0])
    ensures PairsTogether(ks[n..], keys)
  {
    Tail(ks, n);
    assert ks == ks[..n] + ks[n..];
    forall k | k in ks[n..]
      ensures Sibling(k) in keys <==> Sibling(k) in ks[n..]
    {
      assert k in ks;
      assert Sibling(Sibling(k)) == k && k > ks[n - 1];
      assert Sibling(k) !in ks[..n];
    }
  }

  lemma FirstSibling(ks: seq<nat>)
    requires SparseTree.Increasing(ks) && |ks| >= 1 && !(|ks| >= 2 && ks[0] % 2 == 0 && ks[1] == ks[0] + 1)
    ensures Sibling(ks[0]) !in ks
  {
    SiblingAbsent(ks);
    assert ks == [ks[0]] + ks[1..];
  }

  lemma FirstPair(ks: seq<nat>, keys: set<nat>)
    requires SparseTree.Increasing(ks) && PairsTogether(ks, keys) && |ks| >= 1
    ensures var paired := |ks| >= 2 && ks[0] % 2 == 0 && ks[1] == ks[0] + 1;
            && (paired ==> Sibling(ks[0]) in keys && Sibling(ks[1]) in keys && PairsTogether(ks[2..], keys))
            && (!paired ==> Sibling(ks[0]) !in keys && PairsTogether(ks[1..], keys))
  {
    FirstIsMember(ks);
    if |ks| >= 2 && ks[0] % 2 == 0 && ks[1] == ks[0] + 1 {
      assert ks[1] in ks;
      PairDropped(ks, keys, 2);
    } else {
      FirstSibling(ks);
      PairDropped(ks, keys, 1);
    }
  }

  /** A level folds exactly when the witness holds its missing siblings, and takes just those. */
  lemma {:induction false} FoldCount(ks: seq<nat>, prev: Level, hashes: seq<Digest>, h: Hash, keys: set<nat>, t: Tree, d: nat)
    requires KeysOf(ks, prev) && PairsTogether(ks, keys)
    ensures var n := |Missing(ks, keys, t, d)|;
            && (Fold(ks, prev, hashes, h).Some? <==> n <= |hashes|)
            && (n <= |hashes| ==> Fold(ks, prev, hashes, h).value.rest == hashes[n..])
    decreases |ks|
  {
    hide PairsTogether;
    if ks != [] {
      FirstPair(ks, keys);
      TailKeys(ks, 0, prev);
      assert ks[0..] == ks;
      if |ks| >= 2 && ks[0] % 2 == 0 && ks[1] == ks[0] + 1 {
        FoldCount(ks[2..], prev, hashes, h, keys, t, d);
        PairUnfold(ks, prev, hashes, h);
        MissingPair(ks, keys, t, d);
      } else {
        LoneUnfold(ks, prev, hashes, h);
        MissingLone(ks, keys, t, d);
        if hashes != [] { FoldCount(ks[1..], prev, hashes[1..], h, keys, t, d); }
      }
    }
  }

  lemma MissingPair(ks: seq<nat>, keys: set<nat>, t: Tree, d: nat)
    requires |ks| >= 2 && Sibling(ks[0]) in keys && Sibling(ks[1]) in keys
    ensures Missing(ks, keys, t, d) == Missing(ks[2..], keys, t, d)
  {
    assert ks[1..][1..] == ks[2..];
  }

  lemma MissingLone(ks: seq<nat>, keys: set<nat>, t: Tree, d: nat)
    requires |ks| >= 1 && Sibling(ks[0]) !in keys
    ensures Missing(ks, keys, t, d) == [t(d, Sibling(ks[0]))] + Missing(ks[1..], keys, t, d)
  {
  }

  /** On the tree's own digests, folding yields the tree's digests one level up. */
  lemma {:induction false} FoldAgrees(
      ks: seq<nat>, prev: Level, extra: seq<Digest>, h: Hash, keys: set<nat>, t: Tree, d: nat)
    requires KeysOf(ks, prev) && PairsTogether(ks, keys) && Agrees(prev, t, d + 1)
    requires forall i: nat :: HashesChildren(t, h, d, i)
    requires Fold(ks, prev, Missing(ks, keys, t, d + 1) + extra, h).Some?
    ensures var f := Fold(ks, prev, Missing(ks, keys, t, d + 1) + extra, h).value;
            Agrees(f.current, t, d) && Agrees(f.siblings, t, d + 1)
    decreases |ks|
  {
    hide PairsTogether, Fold, Agrees, HashesChildren, Missing;
    if ks == [] {
      EmptyAgrees(prev, Missing(ks, keys, t, d + 1) + extra, h, t, d);
    } else {
      FirstPair(ks, keys);
      TailKeys(ks, 0, prev);
      assert ks[0..] == ks && HashesChildren(t, h, d, ks[0] / 2);
      var hashes := Missing(ks, keys, t, d + 1) + extra;
      if |ks| >= 2 && ks[0] % 2 == 0 && ks[1] == ks[0] + 1 {
        MissingPair(ks, keys, t, d + 1);
        PairUnfold(ks, prev, hashes, h);
        FoldAgrees(ks[2..], prev, extra, h, keys, t, d);
        PairAgrees(ks[0], prev, Fold(ks[2..], prev, hashes, h).value, h, t, d);
      } else {
        MissingLone(ks, keys, t, d + 1);
        LoneUnfold(ks, prev, hashes, h);
        assert hashes[1..] == Missing(ks[1..], keys, t, d + 1) + extra;
        FoldAgrees(ks[1..], prev, extra, h, keys, t, d);
        LoneAgrees(ks[0], prev, Fold(ks[1..], prev, hashes[1..], h).value, h, t, d);
      }
    }
  }

  lemma EmptyAgrees(prev: Level, hashes: seq<Digest>, h: Hash, t: Tree, d: nat)
    requires KeysOf([], prev)
    ensures var f := Fold([], prev, hashes, h).value;
            Agrees(f.current, t, d) && Agrees(f.siblings, t, d + 1)
  {
  }

  lemma PairAgrees(k: nat, prev: Level, f: Folded, h: Hash, t: Tree, d: nat)
    requires k % 2 == 0 && k in prev && k + 1 in prev && Agrees(prev, t, d + 1) && HashesChildren(t, h, d, k / 2)
    requires Agrees(f.current, t, d)
    ensures Agrees(f.current[k / 2 := h(prev[k], prev[k + 1])], t, d)
  {
  }

  lemma LoneAgrees(k: nat, prev: Level, f: Folded, h: Hash, t: Tree, d: nat)
    requires k in prev && Agrees(prev, t, d + 1) && HashesChildren(t, h, d, k / 2)
    requires Agrees(f.current, t, d) && Agrees(f.siblings, t, d + 1)
    ensures var w := t(d + 1, Sibling(k));
            && Agrees(f.current[k / 2 := Parent(h, k, prev[k], w)], t, d)
            && Agrees(f.siblings[Sibling(k) := w], t, d + 1)
  {
  }

  lemma AllTogether(keys: set<nat>)
    ensures PairsTogether(Ordered(keys), keys)
  {
  }

  lemma FoldParents(prev: Level, hashes: seq<Digest>, h: Hash)
    requires FoldLevel(prev, hashes, h).Some?
    ensures FoldLevel(prev, hashes, h).value.current.Keys == Parents(prev.Keys)
  {
    hide Fold;
    var f := FoldLevel(prev, hashes, h).value;
    FoldHashes(Ordered(prev.Keys), prev, hashes, h);
    forall p: nat
      ensures p in f.current <==> p in Parents(prev.Keys)
    {
      if 2 * p in prev { assert 2 * p / 2 == p; }
      if 2 * p + 1 in prev { assert (2 * p + 1) / 2 == p; }
    }
  }

  lemma FoldLevelCount(prev: Level, hashes: seq<Digest>, h: Hash, t: Tree, d: nat)
    ensures var n := |Missing(Ordered(prev.Keys), prev.Keys, t, d)|;
            && (FoldLevel(prev, hashes, h).Some? <==> n <= |hashes|)
            && (n <= |hashes| ==> FoldLevel(prev, hashes, h).value.rest == hashes[n..])
  {
    AllTogether(prev.Keys);
    FoldCount(Ordered(prev.Keys), prev, hashes, h, prev.Keys, t, d);
  }

  /** The walk consumes exactly as many hashes as the canonical witness holds. */
  lemma {:induction false} ClimbCount(height: nat, leaves: Level, hashes: seq<Digest>, h: Hash, t: Tree)
    ensures var n := |WitnessFor(height, leaves.Keys, t)|;
            && (Climb(height, leaves, hashes, h).Some? <==> n <= |hashes|)
            && (n <= |hashes| ==> Climb(height, leaves, hashes, h).value.rest == hashes[n..])
    decreases height
  {
    hide FoldLevel, Parents;
    if height > 0 {
      FoldLevelCount(leaves, hashes, h, t, height);
      if FoldLevel(leaves, hashes, h).Some? {
        var f := FoldLevel(leaves, hashes, h).value;
        FoldParents(leaves, hashes, h);
        ClimbCount(height - 1, f.current, f.rest, h, t);
      }
    }
  }

  /** Whether a walk succeeds depends only on the number of witness hashes. */
  lemma WalkSucceedsOnExactWitness(height: nat, leaves: Level, hashes: seq<Digest>, h: Hash, t: Tree)
    ensures var n := |WitnessFor(height, leaves.Keys, t)|;
            && (WalkResult(height, leaves, hashes, h).Ok? <==> |hashes| == n)
            && (WalkResult(height, leaves, hashes, h) == Err(WITNESS_TOO_SHORT) <==> |hashes| < n)
            && (WalkResult(height, leaves, hashes, h) == Err(WITNESS_TOO_LONG) <==> |hashes| > n)
  {
    hide Climb, WitnessFor;
    ClimbCount(height, leaves, hashes, h, t);
    assert WITNESS_TOO_SHORT[12] == 's' && WITNESS_TOO_LONG[12] == 'l';
  }

  /** On the canonical witness the walk records the tree's own digests. */
  lemma {:induction false} ClimbAgrees(
      height: nat, leaves: Level, extra: seq<Digest>, h: Hash, t: Tree, d: nat)
    requires IsTree(t, height, h) && Agrees(leaves, t, height) && d <= height
    requires Climb(height, leaves, WitnessFor(height, leaves.Keys, t) + extra, h).Some?
    ensures Agrees(Climb(height, leaves, WitnessFor(height, leaves.Keys, t) + extra, h).value.levels[d], t, d)
    decreases height
  {
    hide Agrees, FoldLevel, Parents, IsTree, HashesChildren;
    if height > 0 {
      var missing := Missing(Ordered(leaves.Keys), leaves.Keys, t, height);
      var above := WitnessFor(height - 1, Parents(leaves.Keys), t);
      var hashes := WitnessFor(height, leaves.Keys, t) + extra;
      assert hashes == missing + (above + extra);
      var f := FoldLevel(leaves, hashes, h).value;
      LevelAgrees(height, leaves, above + extra, h, t);
      FoldLevelCount(leaves, hashes, h, t, height);
      assert hashes[|missing|..] == above + extra;
      FoldParents(leaves, hashes, h);
      if d == height {
        AgreesTogether(leaves, f.siblings, t, height);
      } else {
        ShorterTree(t, height, h);
        ClimbAgrees(height - 1, f.current, extra, h, t, d);
      }
    }
  }

  lemma ShorterTree(t: Tree, height: nat, h: Hash)
    requires IsTree(t, height, h) && height > 0
    ensures IsTree(t, height - 1, h)
  {
  }

  lemma AgreesTogether(a: Level, b: Level, t: Tree, d: nat)
    requires Agrees(a, t, d) && Agrees(b, t, d)
    ensures Agrees(a + b, t, d)
  {
  }

  lemma LevelAgrees(height: nat, leaves: Level, extra: seq<Digest>, h: Hash, t: Tree)
    requires height > 0 && IsTree(t, height, h) && Agrees(leaves, t, height)
    requires FoldLevel(leaves, Missing(Ordered(leaves.Keys), leaves.Keys, t, height) + extra, h).Some?
    ensures var f := FoldLevel(leaves, Missing(Ordered(leaves.Keys), leaves.Keys, t, height) + extra, h).value;
            Agrees(f.current, t, height - 1) && Agrees(f.siblings, t, height)
  {
    hide Agrees, HashesChildren, Fold, Missing;
    AllTogether(leaves.Keys);
    var d := height - 1;
    assert forall i: nat :: HashesChildren(t, h, d, i);
    FoldAgrees(Ordered(leaves.Keys), leaves, extra, h, leaves.Keys, t, d);
  }

  /** Opening a full tree at any positions: the walk accepts its witness and reaches its root. */
  lemma OpeningFullTree(height: nat, keys: set<nat>, h: Hash, t: Tree)
    requires IsTree(t, height, h) && keys != {} && forall k :: k in keys ==> k < SparseTree.Pow2(height)
    ensures var r := WalkResult(height, Opened(t, height, keys), WitnessFor(height, keys, t), h);
            && r.Ok? && |r.value| == height + 1 && 0 in r.value[0] && r.value[0][0] == t(0, 0)
            && forall d: nat, i: nat :: d <= height && i in r.value[d] ==> r.value[d][i] == t(d, i)
  {
    hide Climb, WitnessFor, IsTree, SparseTree.Pow2;
    var leaves := Opened(t, height, keys);
    assert leaves.Keys == keys;
    var w := WitnessFor(height, keys, t);
    WalkSucceedsOnExactWitness(height, leaves, w, h, t);
    assert w + [] == w;
    forall d: nat | d <= height
      ensures Agrees(Climb(height, leaves, w, h).value.levels[d], t, d)
    {
      ClimbAgrees(height, leaves, [], h, t, d);
    }
    var k :| k in keys;
    RootRecorded(height, leaves, w, h, k);
    assert Agrees(Climb(height, leaves, w, h).value.levels[0], t, 0);
  }

  /** Below depth k on the path from `pos`, the walk records another pair of siblings than the tree has,
      with the same hash. */
  predicate CollidesWithTree(levels: seq<Level>, t: Tree, h: Hash, pos: nat, height: nat, k: nat)
    requires k < height && |levels| == height + 1
  {
    var c := Shift(pos, height - 1 - k);
    && c in levels[k + 1] && Sibling(c) in levels[k + 1]
    && Collide(h, Siblings(levels[k + 1], c), (t(k + 1, c / 2 * 2), t(k + 1, c / 2 * 2 + 1)))
  }

  /** An accepted opening against a tree's root opens the tree's own leaf at each position, or recorded a
      pair of siblings on its path that collides with the tree's. */
  lemma OpeningReadsTree(height: nat, leaves: Level, hashes: seq<Digest>, h: Hash, t: Tree, pos: nat)
    requires IsTree(t, height, h) && pos in leaves && pos < SparseTree.Pow2(height)
    requires WalkResult(height, leaves, hashes, h).Ok?
    requires RootOf(Climb(height, leaves, hashes, h)) == Some(t(0, 0))
    ensures var levels := WalkResult(height, leaves, hashes, h).value;
            || leaves[pos] == t(height, pos)
            || exists k: nat :: k < height && CollidesWithTree(levels, t, h, pos, height, k)
  {
    hide Climb, WitnessFor, IsTree, SparseTree.Pow2;
    var mine := WalkResult(height, leaves, hashes, h).value;
    OpeningFullTree(height, {pos}, h, t);
    OpeningsBind(height, leaves, hashes, Opened(t, height, {pos}), WitnessFor(height, {pos}, t), h, pos);
    var own := WalkResult(height, Opened(t, height, {pos}), WitnessFor(height, {pos}, t), h).value;
    if leaves[pos] != t(height, pos) {
      var k: nat :| k < height && CollisionBelow(mine, own, h, pos, height, k);
      PairOfTree(own[k + 1], t, k + 1, Shift(pos, height - 1 - k));
      assert CollidesWithTree(mine, t, h, pos, height, k);
    }
  }

  lemma PairOfTree(level: Level, t: Tree, d: nat, c: nat)
    requires c in level && Sibling(c) in level && forall i: nat :: i in level ==> level[i] == t(d, i)
    ensures Siblings(level, c) == (t(d, c / 2 * 2), t(d, c / 2 * 2 + 1))
  {
  }
}
