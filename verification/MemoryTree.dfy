// The merkle table of the memory commitment: what its rows, with multiplicities
// of their own for both children and the parent, prove about a leaf claim.
module MemoryTree {
  import opened M31
  import PathSoundness
  import RowFacts

  type Hash = (Felt, Felt) -> Felt

  /** One row of the merkle table: a node's two children, and the root of its tree. */
  datatype Row = Row(
    index: Felt, depth: Felt, lhs: Felt, rhs: Felt, cur: Felt,
    lhsMult: Felt, rhsMult: Felt, curMult: Felt, root: Felt, enabler: Felt)

  /** A tuple of the merkle relation. */
  datatype Claim = Claim(index: Felt, depth: Felt, value: Felt, root: Felt)

  /** inv(2): twice this is 2^31 = P + 1. */
  const HALF := 0x4000_0000

  function Left(r: Row): Claim {
    Claim(r.index, r.depth, r.lhs, r.root)
  }

  function Right(r: Row): Claim {
    Claim(Reduce(r.index + 1), r.depth, r.rhs, r.root)
  }

  function Own(r: Row): Claim {
    Claim(Reduce(r.index * HALF), Reduce(r.depth - 1), r.cur, r.root)
  }

  predicate UpToTwo(m: Felt) {
    RowFacts.Vanishes(m * (m - 1) * (m - 2))
  }

  ghost predicate Constrained(r: Row) {
    UpToTwo(r.lhsMult) && UpToTwo(r.rhsMult) && UpToTwo(r.curMult) && RowFacts.Vanishes(r.enabler * (1 - r.enabler))
  }

  // -- The bags ----------------------------------------------------------------------------------

  function Is(a: Claim, b: Claim): int {
    if a == b then 1 else 0
  }

  /** Emitted minus consumed. The multiplicities are columns of their own: the enabler gates the hash
      claims only. */
  function Net(rows: seq<Row>, c: Claim): int {
    if rows == [] then 0
    else
      var r := rows[|rows| - 1];
      Net(rows[..|rows| - 1], c) + r.lhsMult * Is(Left(r), c) + r.rhsMult * Is(Right(r), c) - r.curMult * Is(Own(r), c)
  }

  function Top(root: Felt): Claim {
    Claim(0, 0, root, root)
  }

  /** Each published root is emitted once. */
  function RootTerms(roots: seq<Felt>, c: Claim): nat {
    if roots == [] then 0 else RootTerms(roots[..|roots| - 1], c) + Is(Top(roots[|roots| - 1]), c)
  }

  /** The leaves other tables consume. */
  function LeafTerms(leaves: seq<Claim>, c: Claim): nat {
    if leaves == [] then 0 else LeafTerms(leaves[..|leaves| - 1], c) + Is(leaves[|leaves| - 1], c)
  }

  /** The multiplicities are field elements: the bag closes mod P. */
  ghost predicate Balanced(rows: seq<Row>, roots: seq<Felt>, leaves: seq<Claim>) {
    forall c: Claim :: RowFacts.Vanishes(Net(rows, c) + RootTerms(roots, c) - LeafTerms(leaves, c))
  }

  ghost predicate AllConstrained(rows: seq<Row>) {
    forall r :: r in rows ==> Constrained(r)
  }

  /** Fewer consumed claims than field elements. */
  predicate Small(rows: seq<Row>, leaves: seq<Claim>) {
    2 * |rows| + |leaves| < P
  }

  /** What the table's own constraints and its relation with the other tables say. */
  ghost predicate Closed(rows: seq<Row>, roots: seq<Felt>, leaves: seq<Claim>) {
    AllConstrained(rows) && Balanced(rows, roots, leaves)
  }

  // -- Hash chains -------------------------------------------------------------------------------

  /** The hash chain from a value upwards: per step a direction bit and the sibling. */
  function Fold(h: Hash, value: Felt, path: seq<(nat, Felt)>): Felt
    decreases |path|
  {
    if path == [] then value
    else Fold(h, if path[0].0 == 0 then h(value, path[0].1) else h(path[0].1, value), path[1..])
  }

  function IndexOf(path: seq<(nat, Felt)>): nat {
    if path == [] then 0 else path[0].0 + 2 * IndexOf(path[1..])
  }

  /** The claim sits on a hash chain to a published root, at its index and depth. */
  ghost predicate Reaches(roots: seq<Felt>, h: Hash, c: Claim, path: seq<(nat, Felt)>) {
    && c.root in roots && (forall i :: 0 <= i < |path| ==> path[i].0 <= 1)
    && Fold(h, c.value, path) == c.root && c.depth == Reduce(|path|) && c.index == Reduce(IndexOf(path))
  }

  ghost predicate Committed(roots: seq<Felt>, h: Hash, c: Claim) {
    exists path :: Reaches(roots, h, c, path)
  }

  // -- Rows that emit without standing on anything -----------------------------------------------

  predicate Emits(r: Row, c: Claim) {
    (r.lhsMult > 0 && Left(r) == c) || (r.rhsMult > 0 && Right(r) == c)
  }

  /** The row consumes the parent of its children. */
  predicate Grounded(r: Row, h: Hash) {
    r.curMult > 0 && r.cur == h(r.lhs, r.rhs)
  }

  /** What rows that stand on nothing emit is committed all the same. */
  ghost predicate OrphansCommitted(rows: seq<Row>, roots: seq<Felt>, h: Hash) {
    forall r, c :: r in rows && !Grounded(r, h) && Emits(r, c) ==> Committed(roots, h, c)
  }

  ghost predicate AllCommitted(rows: seq<Row>, roots: seq<Felt>, leaves: seq<Claim>, h: Hash) {
    && (forall c :: c in leaves ==> Committed(roots, h, c))
    && (forall r, c :: r in rows && Emits(r, c) ==> Committed(roots, h, c))
  }

  // -- One step ----------------------------------------------------------------------------------

  /** Halving an index in the field is undone by doubling. */
  lemma DoubleHalf(x: Felt, n: nat, bit: nat)
    requires Reduce(x * HALF) == Reduce(n)
    ensures Reduce(x + bit) == Reduce(bit + 2 * n)
  {
    Congruent(P, x * HALF, n);
    ScaledDivisible(P, x * HALF - n, 2);
    MultipleIsDivisible(P, x);
    assert 2 * (x * HALF - n) == x * P + (x - 2 * n);
    SumDivisible(P, 2 * (x * HALF - n), x * P);
    assert (x + bit) - (bit + 2 * n) == x - 2 * n;
    Congruent(P, x + bit, bit + 2 * n);
  }

  lemma OneDeeper(depth: Felt, n: nat)
    requires Reduce(depth - 1) == Reduce(n)
    ensures depth == Reduce(n + 1)
  {
  }

  /** The chain of a grounded row's own claim extends to what it emits. */
  lemma StepDown(roots: seq<Felt>, h: Hash, r: Row, c: Claim, path: seq<(nat, Felt)>) returns (longer: seq<(nat, Felt)>)
    requires Reaches(roots, h, Own(r), path) && r.cur == h(r.lhs, r.rhs) && Emits(r, c)
    ensures Reaches(roots, h, c, longer) && |longer| == |path| + 1
  {
    var bit: nat := if r.lhsMult > 0 && Left(r) == c then 0 else 1;
    longer := [(bit, if bit == 0 then r.rhs else r.lhs)] + path;
    assert longer[1..] == path;
    DoubleHalf(r.index, IndexOf(path), bit);
    OneDeeper(r.depth, |path|);
    assert Reduce(r.index) == r.index;
    forall i | 0 <= i < |longer|
      ensures longer[i].0 <= 1
    {
      if i > 0 { assert longer[i] == path[i - 1]; }
    }
  }

  // -- Counting ----------------------------------------------------------------------------------

  predicate Consumes(r: Row, c: Claim) {
    r.curMult > 0 && Own(r) == c
  }

  /** A constrained multiplicity is at most two. */
  lemma AtMostTwo(m: Felt)
    requires UpToTwo(m)
    ensures m <= 2
  {
    RowFacts.ProductVanishes(m * (m - 1), m - 2);
    if RowFacts.Vanishes(m * (m - 1)) { RowFacts.ProductVanishes(m, m - 1); }
  }

  lemma {:induction false} NoEmission(rows: seq<Row>, c: Claim)
    requires AllConstrained(rows) && forall r :: r in rows ==> !Emits(r, c)
    ensures -2 * |rows| <= Net(rows, c) <= 0 && ((exists r :: r in rows && Consumes(r, c)) ==> Net(rows, c) < 0)
  {
    if rows != [] {
      var front, r := rows[..|rows| - 1], rows[|rows| - 1];
      assert rows == front + [r];
      NoEmission(front, c);
      assert !Emits(r, c) && Constrained(r);
      AtMostTwo(r.curMult);
      assert r.lhsMult * Is(Left(r), c) == 0 && r.rhsMult * Is(Right(r), c) == 0;
      assert 2 >= r.curMult * Is(Own(r), c) >= (if Consumes(r, c) then 1 else 0);
    }
  }

  lemma {:induction false} NoRoot(roots: seq<Felt>, c: Claim)
    requires forall root :: root in roots ==> Top(root) != c
    ensures RootTerms(roots, c) == 0
  {
    if roots != [] {
      assert roots == roots[..|roots| - 1] + [roots[|roots| - 1]];
      NoRoot(roots[..|roots| - 1], c);
    }
  }

  lemma {:induction false} LeafCounted(leaves: seq<Claim>, c: Claim)
    ensures LeafTerms(leaves, c) <= |leaves| && (c in leaves ==> LeafTerms(leaves, c) > 0)
  {
    if leaves != [] {
      var front := leaves[..|leaves| - 1];
      assert leaves == front + [leaves[|leaves| - 1]];
      LeafCounted(front, c);
    }
  }

  ghost predicate Claimed(rows: seq<Row>, leaves: seq<Claim>, c: Claim) {
    c in leaves || exists r :: r in rows && Consumes(r, c)
  }

  lemma Unsupplied(rows: seq<Row>, roots: seq<Felt>, leaves: seq<Claim>, c: Claim)
    requires AllConstrained(rows) && Small(rows, leaves) && Claimed(rows, leaves, c)
    requires forall root :: root in roots ==> Top(root) != c
    requires forall r :: r in rows ==> !Emits(r, c)
    ensures !Balanced(rows, roots, leaves)
  {
    hide Net, LeafTerms, RootTerms, Emits, Constrained, Top;
    NoEmission(rows, c);
    NoRoot(roots, c);
    LeafCounted(leaves, c);
    assert !RowFacts.Vanishes(Net(rows, c) + RootTerms(roots, c) - LeafTerms(leaves, c));
  }

  /** Every consumed claim is a root's, or some row emits it. */
  lemma Supplied(rows: seq<Row>, roots: seq<Felt>, leaves: seq<Claim>, c: Claim)
    requires Closed(rows, roots, leaves) && Small(rows, leaves) && Claimed(rows, leaves, c)
    ensures (exists root :: root in roots && Top(root) == c) || exists i :: 0 <= i < |rows| && Emits(rows[i], c)
  {
    hide Emits, Balanced, Constrained, Top;
    if (forall root :: root in roots ==> Top(root) != c) && (forall i :: 0 <= i < |rows| ==> !Emits(rows[i], c)) {
      assert forall r :: r in rows ==> !Emits(r, c);
      Unsupplied(rows, roots, leaves, c);
    }
  }

  // -- Climbing ----------------------------------------------------------------------------------

  function Above(r: Row): Felt {
    Reduce(r.depth - 1)
  }

  ghost predicate Visited(rows: seq<Row>, used: set<int>, depth: Felt) {
    forall i :: i in used ==> 0 <= i < |rows| && PathSoundness.DepthBelow(Above(rows[i]), depth, |used|)
  }

  lemma Fresh(rows: seq<Row>, used: set<int>, c: Claim, i: int)
    requires Visited(rows, used, c.depth) && 0 <= i < |rows| && Emits(rows[i], c) && |used| < P - 1
    ensures i !in used && Visited(rows, used + {i}, Above(rows[i]))
  {
    var d: int := Above(rows[i]);
    assert c.depth == rows[i].depth;
    assert c.depth == Reduce(d + 1);
    hide Reduce, Emits, Above, PathSoundness.DepthBelow;
    PathSoundness.OneAbove(d, c.depth, |used|);
    assert |used + {i}| == |used| + 1;
    forall k | k in used + {i}
      ensures PathSoundness.DepthBelow(Above(rows[k]), d, |used| + 1)
    {
      if k in used {
        PathSoundness.FurtherBelow(Above(rows[k]), c.depth, d, |used|);
      } else {
        PathSoundness.SameDepth(d, |used| + 1);
      }
    }
  }

  lemma TopReaches(roots: seq<Felt>, h: Hash, root: Felt)
    requires root in roots
    ensures Reaches(roots, h, Top(root), [])
  {
  }

  lemma VisitedBound(rows: seq<Row>, used: set<int>, depth: Felt)
    requires Visited(rows, used, depth)
    ensures |used| <= |rows|
  {
    hide PathSoundness.DepthBelow;
    PathSoundness.UsedBound(used, |rows|);
  }

  /** A consumed claim is committed, unless the climb ends at a row that stands on nothing. */
  lemma {:induction false} Climb(
      rows: seq<Row>, roots: seq<Felt>, leaves: seq<Claim>, h: Hash, c: Claim, used: set<int>)
    requires Closed(rows, roots, leaves) && Small(rows, leaves) && Claimed(rows, leaves, c) && OrphansCommitted(rows, roots, h)
    requires Visited(rows, used, c.depth)
    ensures Committed(roots, h, c)
    decreases |rows| - |used|
  {
    hide Balanced, Visited, Reaches, Emits, Own, OrphansCommitted, Constrained;
    Supplied(rows, roots, leaves, c);
    VisitedBound(rows, used, c.depth);
    if root :| root in roots && Top(root) == c {
      TopReaches(roots, h, root);
    } else {
      var i :| 0 <= i < |rows| && Emits(rows[i], c);
      Fresh(rows, used, c, i);
      VisitedBound(rows, used + {i}, Above(rows[i]));
      if Grounded(rows[i], h) {
        OwnDepth(rows[i]);
        assert Consumes(rows[i], Own(rows[i]));
        Climb(rows, roots, leaves, h, Own(rows[i]), used + {i});
        var path :| Reaches(roots, h, Own(rows[i]), path);
        var longer := StepDown(roots, h, rows[i], c, path);
      } else {
        OrphanCommitted(rows, roots, h, rows[i], c);
      }
    }
  }

  lemma OwnDepth(r: Row)
    ensures Own(r).depth == Above(r)
  {
  }

  lemma OrphanCommitted(rows: seq<Row>, roots: seq<Felt>, h: Hash, r: Row, c: Claim)
    requires OrphansCommitted(rows, roots, h) && r in rows && !Grounded(r, h) && Emits(r, c)
    ensures Committed(roots, h, c)
  {
  }

  lemma EmittedCommitted(rows: seq<Row>, roots: seq<Felt>, leaves: seq<Claim>, h: Hash, r: Row, c: Claim)
    requires Closed(rows, roots, leaves) && Small(rows, leaves) && OrphansCommitted(rows, roots, h) && r in rows && Emits(r, c)
    ensures Committed(roots, h, c)
  {
    hide Closed, Reaches, Emits, Own, OrphansCommitted;
    if Grounded(r, h) {
      var i :| 0 <= i < |rows| && rows[i] == r;
      assert Consumes(r, Own(r));
      Climb(rows, roots, leaves, h, Own(r), {});
      var path :| Reaches(roots, h, Own(r), path);
      var longer := StepDown(roots, h, r, c, path);
    } else {
      OrphanCommitted(rows, roots, h, r, c);
    }
  }

  /** For one set of rows: every leaf and every emitted claim is committed to a published root if and
      only if those are that some row emits without consuming the parent of its children. */
  lemma CommittedIffOrphans(rows: seq<Row>, roots: seq<Felt>, leaves: seq<Claim>, h: Hash)
    requires Closed(rows, roots, leaves) && Small(rows, leaves)
    ensures AllCommitted(rows, roots, leaves, h) <==> OrphansCommitted(rows, roots, h)
  {
    hide Closed, Committed, Emits;
    if OrphansCommitted(rows, roots, h) {
      forall c | c in leaves
        ensures Committed(roots, h, c)
      {
        Climb(rows, roots, leaves, h, c, {});
      }
      forall r, c | r in rows && Emits(r, c)
        ensures Committed(roots, h, c)
      {
        EmittedCommitted(rows, roots, leaves, h, r, c);
      }
    }
  }

  // -- For the table as a whole ------------------------------------------------------------------

  predicate Emitting(r: Row) {
    r.lhsMult > 0 || r.rhsMult > 0
  }

  /** Whatever allowed rows close the relation, its leaves are in the trees of the published roots. */
  ghost predicate Sound(allowed: Row -> bool, h: Hash) {
    forall rows, roots, leaves ::
      (forall r :: r in rows ==> allowed(r)) && Closed(rows, roots, leaves) && Small(rows, leaves)
      ==> LeavesCommitted(roots, leaves, h)
  }

  ghost predicate LeavesCommitted(roots: seq<Felt>, leaves: seq<Claim>, h: Hash) {
    forall c :: c in leaves ==> Committed(roots, h, c)
  }

  /** Granted that rows which consume a parent consume their children's hash, the table is sound if and
      only if every row that emits a child consumes a parent. */
  lemma SoundIffTied(allowed: Row -> bool, h: Hash)
    requires forall r :: allowed(r) && Constrained(r) && r.curMult > 0 ==> r.cur == h(r.lhs, r.rhs)
    ensures Sound(allowed, h) <==> forall r :: allowed(r) && Constrained(r) && Emitting(r) ==> r.curMult > 0
  {
    hide Constrained, Closed, Committed;
    if forall r :: allowed(r) && Constrained(r) && Emitting(r) ==> r.curMult > 0 {
      forall rows, roots, leaves
        | (forall r :: r in rows ==> allowed(r)) && Closed(rows, roots, leaves) && Small(rows, leaves)
        ensures LeavesCommitted(roots, leaves, h)
      {
        TiedCommitted(rows, roots, leaves, h, allowed);
      }
    } else {
      var r :| allowed(r) && Constrained(r) && Emitting(r) && r.curMult == 0;
      var leaves := OwnLeaves(r);
      UntiedCloses(r);
      NeverCommitted(r, h);
      assert forall r' :: r' in [r] ==> allowed(r');
      assert !LeavesCommitted([], leaves, h);
    }
  }

  lemma TiedCommitted(rows: seq<Row>, roots: seq<Felt>, leaves: seq<Claim>, h: Hash, allowed: Row -> bool)
    requires Closed(rows, roots, leaves) && Small(rows, leaves) && forall r :: r in rows ==> allowed(r)
    requires forall r :: allowed(r) && Constrained(r) && r.curMult > 0 ==> r.cur == h(r.lhs, r.rhs)
    requires forall r :: allowed(r) && Constrained(r) && Emitting(r) ==> r.curMult > 0
    ensures LeavesCommitted(roots, leaves, h)
  {
    hide Balanced, Constrained, Committed;
    assert forall r :: r in rows && Emitting(r) ==> Grounded(r, h);
    CommittedIffOrphans(rows, roots, leaves, h);
  }

  /** The claims a row emits, as often as it emits them. */
  function OwnLeaves(r: Row): seq<Claim> {
    seq(r.lhsMult, _ => Left(r)) + seq(r.rhsMult, _ => Right(r))
  }

  lemma {:induction false} CopiesCount(leaves: seq<Claim>, l: Claim, n: nat, c: Claim)
    ensures LeafTerms(leaves + seq(n, _ => l), c) == LeafTerms(leaves, c) + n * Is(l, c)
  {
    var all := leaves + seq(n, _ => l);
    if n == 0 {
      assert all == leaves;
    } else {
      CopiesCount(leaves, l, n - 1, c);
      assert all[..|all| - 1] == leaves + seq(n - 1, _ => l) && all[|all| - 1] == l;
      assert n * Is(l, c) == (n - 1) * Is(l, c) + Is(l, c);
    }
  }

  lemma UntiedCloses(r: Row)
    requires Constrained(r) && r.curMult == 0
    ensures Closed([r], [], OwnLeaves(r)) && Small([r], OwnLeaves(r))
  {
    AtMostTwo(r.lhsMult);
    AtMostTwo(r.rhsMult);
    forall c: Claim
      ensures Net([r], c) == LeafTerms(OwnLeaves(r), c)
    {
      assert [] + [r] == [r] && [] + seq(r.lhsMult, _ => Left(r)) == seq(r.lhsMult, _ => Left(r));
      NetPush([], r, c);
      CopiesCount([], Left(r), r.lhsMult, c);
      CopiesCount(seq(r.lhsMult, _ => Left(r)), Right(r), r.rhsMult, c);
    }
  }

  lemma NeverCommitted(r: Row, h: Hash)
    requires Emitting(r)
    ensures !LeavesCommitted([], OwnLeaves(r), h)
  {
    var leaves := OwnLeaves(r);
    assert leaves[0] in leaves;
    assert forall path :: !Reaches([], h, leaves[0], path);
    hide Reaches;
  }

  lemma NetPush(rows: seq<Row>, r: Row, c: Claim)
    ensures Net(rows + [r], c)
         == Net(rows, c) + r.lhsMult * Is(Left(r), c) + r.rhsMult * Is(Right(r), c) - r.curMult * Is(Own(r), c)
  {
    assert (rows + [r])[..|rows|] == rows;
  }

  lemma LeafPush(leaves: seq<Claim>, l: Claim, c: Claim)
    ensures LeafTerms(leaves + [l], c) == LeafTerms(leaves, c) + Is(l, c)
  {
    assert (leaves + [l])[..|leaves|] == leaves;
  }
}
