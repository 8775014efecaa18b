// The walk from opened leaves to the root, level by level, and what a
// successful walk proves about the opened tree.
module OpeningWalk {
  import opened Wrappers
  import opened Openings
  import SparseTree

  const WITNESS_TOO_SHORT := "witness too short"
  const WITNESS_TOO_LONG := "witness too long"

  /** The levels, root first, and the witness left over. */
  datatype Walked = Walked(levels: seq<Level>, rest: seq<Digest>)

  /** Every level from the leaves up, each with the witness siblings it used. */
  ghost function Climb(height: nat, leaves: Level, hashes: seq<Digest>, h: Hash): (r: Option<Walked>)
    ensures r.Some? ==> |r.value.levels| == height + 1
  {
    if height == 0 then Some(Walked([leaves], hashes))
    else match FoldLevel(leaves, hashes, h)
      case None => None
      case Some(f) => Onto(Climb(height - 1, f.current, f.rest, h), [leaves + f.siblings])
  }

  function Onto(upper: Option<Walked>, lower: seq<Level>): Option<Walked> {
    match upper
    case None => None
    case Some(w) => Some(Walked(w.levels + lower, w.rest))
  }

  ghost function WalkResult(height: nat, leaves: Level, hashes: seq<Digest>, h: Hash): Result<seq<Level>> {
    match Climb(height, leaves, hashes, h)
    case None => Err(WITNESS_TOO_SHORT)
    case Some(w) => if w.rest == [] then Ok(w.levels) else Err(WITNESS_TOO_LONG)
  }

  /** Walk a decommitment bottom-up. */
  method WalkTree(height: nat, leaves: Level, hashWitness: seq<Digest>, h: Hash)
    returns (r: Result<seq<Level>>)
    ensures r == WalkResult(height, leaves, hashWitness, h)
  {
    hide Climb, FoldLevel;
    var levels: seq<Level> := seq(height + 1, _ => map[])[height := leaves];
    var rest, depth := hashWitness, height;
    OntoNothing(Climb(height, leaves, hashWitness, h));
    assert levels[height + 1..] == [];
    while depth > 0
      invariant depth <= height && |levels| == height + 1
      invariant Climb(height, leaves, hashWitness, h)
                == Onto(Climb(depth, levels[depth], rest, h), levels[depth + 1..])
    {
      ClimbStep(depth, levels[depth], rest, h, levels[depth + 1..]);
      var folded := HashPairs(levels[depth], rest, h);
      if folded.None? { return Err(WITNESS_TOO_SHORT); }
      var withSiblings := levels[depth] + folded.value.siblings;
      assert [withSiblings] + levels[depth + 1..]
        == levels[depth := withSiblings][depth - 1 := folded.value.current][depth..];
      levels := levels[depth := withSiblings][depth - 1 := folded.value.current];
      rest := folded.value.rest;
      depth := depth - 1;
    }
    assert levels == [levels[0]] + levels[1..];
    ClimbNothing(levels[0], rest, h);
    return if rest != [] then Err(WITNESS_TOO_LONG) else Ok(levels);
  }

  lemma ClimbNothing(leaves: Level, hashes: seq<Digest>, h: Hash)
    ensures Climb(0, leaves, hashes, h) == Some(Walked([leaves], hashes))
  {
  }

  lemma OntoNothing(w: Option<Walked>)
    ensures Onto(w, []) == w
  {
    if w.Some? { assert w.value.levels + [] == w.value.levels; }
  }

  lemma ClimbStep(depth: nat, leaves: Level, hashes: seq<Digest>, h: Hash, lower: seq<Level>)
    requires depth > 0
    ensures FoldLevel(leaves, hashes, h).None? ==> Onto(Climb(depth, leaves, hashes, h), lower) == None
    ensures FoldLevel(leaves, hashes, h).Some? ==>
              var f := FoldLevel(leaves, hashes, h).value;
              Onto(Climb(depth, leaves, hashes, h), lower)
              == Onto(Climb(depth - 1, f.current, f.rest, h), [leaves + f.siblings] + lower)
  {
    hide FoldLevel;
    if FoldLevel(leaves, hashes, h).Some? {
      var f := FoldLevel(leaves, hashes, h).value;
      var upper := Climb(depth - 1, f.current, f.rest, h);
      if upper.Some? {
        assert upper.value.levels + [leaves + f.siblings] + lower
            == upper.value.levels + ([leaves + f.siblings] + lower);
      }
    }
  }

  // -- Every node on a path is the hash of its two recorded children -------------------------

  /** The recorded parent of child `c`, one level up, hashes `c` with its recorded sibling. */
  ghost predicate Linked(upper: Level, lower: Level, h: Hash, c: nat) {
    && c in lower && Sibling(c) in lower && c / 2 in upper
    && upper[c / 2] == Parent(h, c, lower[c], lower[Sibling(c)])
  }

  lemma FoldLinks(leaves: Level, hashes: seq<Digest>, h: Hash, k: nat)
    requires FoldLevel(leaves, hashes, h).Some? && k in leaves
    ensures var f := FoldLevel(leaves, hashes, h).value;
            && Linked(f.current, leaves + f.siblings, h, k)
            && (forall s: nat :: s in f.siblings ==> s !in leaves)
  {
    hide Fold, Hashed;
    var f := FoldLevel(leaves, hashes, h).value;
    FoldHashes(Ordered(leaves.Keys), leaves, hashes, h);
    assert Keys(Ordered(leaves.Keys)) == leaves.Keys;
    HashedLinks(leaves, f, h, k);
  }

  lemma HashedLinks(leaves: Level, f: Folded, h: Hash, k: nat)
    requires Hashed(leaves.Keys, leaves, f, h) && k in leaves
    ensures Linked(f.current, leaves + f.siblings, h, k) && forall s: nat :: s in f.siblings ==> s !in leaves
  {
    NodeLinks(leaves, f, h, k);
    hide HashedNode, Linked;
  }

  lemma NodeLinks(leaves: Level, f: Folded, h: Hash, k: nat)
    requires HashedNode(leaves.Keys, leaves, f, h, k / 2) && k in leaves
    requires forall s: nat :: s in f.siblings ==> s !in leaves
    ensures Linked(f.current, leaves + f.siblings, h, k)
  {
  }

  /** The given nodes stay as they were given. */
  lemma BottomKept(height: nat, leaves: Level, hashes: seq<Digest>, h: Hash, k: nat)
    requires Climb(height, leaves, hashes, h).Some? && k in leaves
    ensures var bottom := Climb(height, leaves, hashes, h).value.levels[height];
            k in bottom && bottom[k] == leaves[k]
  {
    hide FoldLevel;
    if height > 0 { FoldLinks(leaves, hashes, h, k); }
  }

  /** pos >> n. */
  function Shift(pos: nat, n: nat): nat {
    if n == 0 then pos else Shift(pos / 2, n - 1)
  }

  lemma {:induction false} ShiftMore(pos: nat, n: nat)
    ensures Shift(pos, n) / 2 == Shift(pos, n + 1)
  {
    if n > 0 { ShiftMore(pos / 2, n - 1); }
  }

  lemma {:induction false} ShiftOut(pos: nat, n: nat)
    requires pos < SparseTree.Pow2(n)
    ensures Shift(pos, n) == 0
  {
    if n > 0 { ShiftOut(pos / 2, n - 1); }
  }

  /** A successful walk records, at every depth, a parent that hashes the path node and its sibling. */
  lemma {:induction false} WalkHashes(height: nat, leaves: Level, hashes: seq<Digest>, h: Hash, pos: nat, d: nat)
    requires Climb(height, leaves, hashes, h).Some? && pos in leaves && d < height
    ensures var levels := Climb(height, leaves, hashes, h).value.levels;
            Linked(levels[d], levels[d + 1], h, Shift(pos, height - 1 - d))
    decreases height
  {
    hide FoldLevel, Linked;
    var f := FoldLevel(leaves, hashes, h).value;
    FoldLinks(leaves, hashes, h, pos);
    if d == height - 1 {
      LinkKept(height - 1, f.current, f.rest, h, leaves + f.siblings, pos);
    } else {
      ParentPresent(f.current, leaves + f.siblings, h, pos);
      WalkHashes(height - 1, f.current, f.rest, h, pos / 2, d);
    }
  }

  lemma LinkKept(height: nat, current: Level, hashes: seq<Digest>, h: Hash, lower: Level, c: nat)
    requires Climb(height, current, hashes, h).Some? && Linked(current, lower, h, c)
    ensures Linked(Climb(height, current, hashes, h).value.levels[height], lower, h, c)
  {
    BottomKept(height, current, hashes, h, c / 2);
  }

  lemma ParentPresent(upper: Level, lower: Level, h: Hash, c: nat)
    requires Linked(upper, lower, h, c)
    ensures c / 2 in upper
  {
  }

  // -- Openings bind -------------------------------------------------------------------------

  /** Two different pairs of digests with one hash. */
  predicate Collide(h: Hash, p: (Digest, Digest), q: (Digest, Digest)) {
    p != q && h(p.0, p.1) == h(q.0, q.1)
  }

  /** A node and its sibling, left one first. */
  function Siblings(level: Level, c: nat): (Digest, Digest)
    requires c in level && Sibling(c) in level
  {
    if c % 2 == 0 then (level[c], level[Sibling(c)]) else (level[Sibling(c)], level[c])
  }

  /** The two levels record different pairs around c, and the pairs collide. */
  ghost predicate CollisionAt(lower1: Level, lower2: Level, h: Hash, c: nat) {
    && c in lower1 && Sibling(c) in lower1 && c in lower2 && Sibling(c) in lower2
    && Collide(h, Siblings(lower1, c), Siblings(lower2, c))
  }

  /** The walks collide below depth k, on the path from `pos`. */
  ghost predicate CollisionBelow(levels1: seq<Level>, levels2: seq<Level>, h: Hash, pos: nat, height: nat, k: nat)
    requires k < height && |levels1| == |levels2| == height + 1
  {
    CollisionAt(levels1[k + 1], levels2[k + 1], h, Shift(pos, height - 1 - k))
  }

  /** A collision on the part of the path above `depth`. */
  ghost predicate CollisionOnPath(levels1: seq<Level>, levels2: seq<Level>, h: Hash, pos: nat, height: nat, depth: nat)
    requires depth <= height && |levels1| == |levels2| == height + 1
  {
    exists k: nat :: k < depth && CollisionBelow(levels1, levels2, h, pos, height, k)
  }

  lemma LinkedBinds(upper1: Level, lower1: Level, upper2: Level, lower2: Level, h: Hash, c: nat)
    requires Linked(upper1, lower1, h, c) && Linked(upper2, lower2, h, c) && upper1[c / 2] == upper2[c / 2]
    ensures lower1[c] == lower2[c] || CollisionAt(lower1, lower2, h, c)
  {
  }

  /** Two walks that reach the same root agree at every node of a shared path below which nothing they
      recorded collides. */
  lemma {:induction false} SamePath(
      height: nat, leaves1: Level, hashes1: seq<Digest>, leaves2: Level, hashes2: seq<Digest>, h: Hash, pos: nat, d: nat)
    requires pos in leaves1 && pos in leaves2 && pos < SparseTree.Pow2(height) && d <= height
    requires Climb(height, leaves1, hashes1, h).Some? && Climb(height, leaves2, hashes2, h).Some?
    requires RootOf(Climb(height, leaves1, hashes1, h)) == RootOf(Climb(height, leaves2, hashes2, h))
    ensures var c := Shift(pos, height - d);
            var levels1 := Climb(height, leaves1, hashes1, h).value.levels;
            var levels2 := Climb(height, leaves2, hashes2, h).value.levels;
            || (c in levels1[d] && c in levels2[d] && levels1[d][c] == levels2[d][c])
            || CollisionOnPath(levels1, levels2, h, pos, height, d)
    decreases d
  {
    hide Climb, FoldLevel, CollisionAt;
    if d == 0 {
      ShiftOut(pos, height);
      RootRecorded(height, leaves1, hashes1, h, pos);
      RootRecorded(height, leaves2, hashes2, h, pos);
    } else {
      SamePath(height, leaves1, hashes1, leaves2, hashes2, h, pos, d - 1);
      var levels1 := Climb(height, leaves1, hashes1, h).value.levels;
      var levels2 := Climb(height, leaves2, hashes2, h).value.levels;
      if !CollisionOnPath(levels1, levels2, h, pos, height, d - 1) {
        WalkHashes(height, leaves1, hashes1, h, pos, d - 1);
        WalkHashes(height, leaves2, hashes2, h, pos, d - 1);
        ShiftMore(pos, height - d);
        LinkedBinds(levels1[d - 1], levels1[d], levels2[d - 1], levels2[d], h, Shift(pos, height - d));
        assert CollisionAt(levels1[d], levels2[d], h, Shift(pos, height - d))
            ==> CollisionBelow(levels1, levels2, h, pos, height, d - 1);
      }
    }
  }

  function RootOf(w: Option<Walked>): Option<Digest> {
    if w.Some? && |w.value.levels| > 0 && 0 in w.value.levels[0] then Some(w.value.levels[0][0]) else None
  }

  lemma RootRecorded(height: nat, leaves: Level, hashes: seq<Digest>, h: Hash, pos: nat)
    requires Climb(height, leaves, hashes, h).Some? && pos in leaves && pos < SparseTree.Pow2(height)
    ensures 0 in Climb(height, leaves, hashes, h).value.levels[0]
  {
    hide Climb, FoldLevel;
    if height == 0 {
      assert pos == 0;
      BottomKept(0, leaves, hashes, h, 0);
    } else {
      WalkHashes(height, leaves, hashes, h, pos, 0);
      ShiftMore(pos, height - 1);
      ShiftOut(pos, height);
    }
  }

  /** A root fixes the digest opened at each position: two accepted walks to one root open the same
      digest there, or they recorded two different pairs of siblings on its path with the same hash. */
  lemma OpeningsBind(
      height: nat, leaves1: Level, hashes1: seq<Digest>, leaves2: Level, hashes2: seq<Digest>, h: Hash, pos: nat)
    requires pos in leaves1 && pos in leaves2 && pos < SparseTree.Pow2(height)
    requires WalkResult(height, leaves1, hashes1, h).Ok? && WalkResult(height, leaves2, hashes2, h).Ok?
    requires RootOf(Climb(height, leaves1, hashes1, h)) == RootOf(Climb(height, leaves2, hashes2, h))
    ensures || leaves1[pos] == leaves2[pos]
            || CollisionOnPath(WalkResult(height, leaves1, hashes1, h).value, WalkResult(height, leaves2, hashes2, h).value,
                               h, pos, height, height)
  {
    hide Climb, FoldLevel, CollisionOnPath;
    SamePath(height, leaves1, hashes1, leaves2, hashes2, h, pos, height);
    BottomKept(height, leaves1, hashes1, h, pos);
    BottomKept(height, leaves2, hashes2, h, pos);
  }
}
