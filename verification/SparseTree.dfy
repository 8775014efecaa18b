// The sparse Merkle commitment: build_partial_merkle_tree hashes only the paths
// above its leaves, and refines the complete tree whose absent leaves are zero.
module SparseTree {

  /** The Poseidon2 two-to-one hash, uninterpreted. */
  type Hash = (int, int) -> int

  datatype MerkleValue = MerkleValue(value: int, multiplicity: nat)

  type Level = map<nat, MerkleValue>

  datatype NodeData = NodeData(index: nat, depth: nat, left: MerkleValue, right: MerkleValue, cur: MerkleValue)

  // -- The complete tree -----------------------------------------------------------------

  /** The value of a node of the complete tree of a given height; absent leaves are zero. */
  function FullNode(leaves: Level, h: Hash, height: nat, depth: nat, index: nat): int
    decreases height - depth
  {
    if depth >= height then (if index in leaves then leaves[index].value else 0)
    else h(FullNode(leaves, h, height, depth + 1, 2 * index), FullNode(leaves, h, height, depth + 1, 2 * index + 1))
  }

  function FullRoot(leaves: Level, h: Hash, height: nat): int {
    FullNode(leaves, h, height, 0, 0)
  }

  /** One default hash per depth, anchored at the zero leaf. */
  ghost predicate Defaults(defaults: seq<int>, h: Hash, height: nat) {
    && |defaults| == height + 1 && defaults[height] == 0
    && (forall d :: 0 <= d < height ==> defaults[d] == h(defaults[d + 1], defaults[d + 1]))
  }

  function LeafValue(leaves: Level, k: nat): int {
    if k in leaves then leaves[k].value else 0
  }

  /** Trees with the same leaf values have the same nodes: zero leaves are as good as none. */
  lemma {:induction false} SameLeavesSameNodes(a: Level, b: Level, h: Hash, height: nat, depth: nat, index: nat)
    requires forall k: nat :: LeafValue(a, k) == LeafValue(b, k)
    ensures FullNode(a, h, height, depth, index) == FullNode(b, h, height, depth, index)
    decreases height - depth
  {
    if depth < height {
      SameLeavesSameNodes(a, b, h, height, depth + 1, 2 * index);
      SameLeavesSameNodes(a, b, h, height, depth + 1, 2 * index + 1);
    } else {
      assert LeafValue(a, index) == LeafValue(b, index);
    }
  }

  // -- Levels ---------------------------------------------------------------------------------

  function Pow2(n: nat): nat {
    if n == 0 then 1 else 2 * Pow2(n - 1)
  }

  lemma {:induction false} Pow2Positive(n: nat)
    ensures Pow2(n) >= 1
  {
    if n > 0 { Pow2Positive(n - 1); }
  }

  function ValueOr(level: Level, i: nat, default: int): MerkleValue {
    if i in level then level[i] else MerkleValue(default, 0)
  }

  /** The node above children 2p and 2p + 1. */
  function NodeAbove(level: Level, depth: nat, default: int, h: Hash, p: nat): NodeData {
    var left, right := ValueOr(level, 2 * p, default), ValueOr(level, 2 * p + 1, default);
    NodeData(2 * p, depth, left, right, MerkleValue(h(left.value, right.value), 1))
  }

  /** next holds exactly the parents of current's entries. */
  ghost predicate IsNext(current: Level, next: Level, depth: nat, default: int, h: Hash) {
    && (forall p: nat :: p in next <==> 2 * p in current || 2 * p + 1 in current)
    && (forall p: nat :: p in next ==> next[p] == NodeAbove(current, depth, default, h, p).cur)
  }

  ghost predicate Increasing(ks: seq<nat>) {
    forall i, j :: 0 <= i < j < |ks| ==> ks[i] < ks[j]
  }

  lemma MinimumExists(s: set<nat>) returns (m: nat)
    requires s != {}
    ensures m in s && forall k :: k in s ==> m <= k
    decreases |s|
  {
    m := Pick(s);
    var first, rest := m, s - {m};
    if rest != {} {
      m := MinimumExists(rest);
      if first < m { m := first; }
    }
    forall k | k in s
      ensures m <= k
    {
      if k != first { assert k in rest; }
    }
  }

  ghost function Pick<T(!new)>(s: set<T>): (x: T)
    requires s != {}
    ensures x in s
  {
    var x :| x in s;
    x
  }

  /** Keys in increasing order. */
  method SortedKeys(keys: set<nat>) returns (ks: seq<nat>)
    ensures Increasing(ks) && forall k :: k in ks <==> k in keys
  {
    ks := [];
    var rest := keys;
    while rest != {}
      invariant rest <= keys && Increasing(ks)
      invariant forall k :: k in ks <==> k in keys && k !in rest
      invariant forall k, r :: k in ks && r in rest ==> k < r
      decreases |rest|
    {
      ghost var least := MinimumExists(rest);
      var m :| m in rest && forall k :: k in rest ==> m <= k;
      forall i, j | 0 <= i < j < |ks + [m]|
        ensures (ks + [m])[i] < (ks + [m])[j]
      {
        if j == |ks| { assert ks[i] in ks; }
      }
      ks := ks + [m];
      rest := rest - {m};
    }
  }

  // -- One level -------------------------------------------------------------------------------

  /** The nodes of a level, by increasing parent. */
  ghost predicate NodesOf(
      nodes: seq<NodeData>, parents: seq<nat>, current: Level, depth: nat, default: int, h: Hash)
  {
    && |nodes| == |parents| && Increasing(parents)
    && (forall i :: 0 <= i < |nodes| ==> nodes[i] == NodeAbove(current, depth, default, h, parents[i]))
  }

  /** What has been hashed so far. */
  ghost predicate Hashed(
      current: Level, next: Level, nodes: seq<NodeData>, parents: seq<nat>, processed: set<nat>,
      depth: nat, default: int, h: Hash)
  {
    && NodesOf(nodes, parents, current, depth, default, h)
    && (forall p :: p in parents <==> p in next)
    && (forall p: nat :: p in next ==> next[p] == NodeAbove(current, depth, default, h, p).cur)
    && (forall p: nat :: p in next ==> 2 * p in current || 2 * p + 1 in current)
    && (forall k: nat :: k in processed <==> k / 2 in next)
  }

  lemma HashPair(
      current: Level, next: Level, nodes: seq<NodeData>, parents: seq<nat>, processed: set<nat>,
      depth: nat, default: int, h: Hash, p: nat)
    requires Hashed(current, next, nodes, parents, processed, depth, default, h)
    requires p !in next && (2 * p in current || 2 * p + 1 in current) && forall q :: q in next ==> q <= p
    ensures var node := NodeAbove(current, depth, default, h, p);
            Hashed(current, next[p := node.cur], nodes + [node], parents + [p], processed + {2 * p, 2 * p + 1},
                   depth, default, h)
  {
    hide NodeAbove;
    IncreasingPush(parents, p);
    forall k: nat
      ensures k in processed + {2 * p, 2 * p + 1} <==> k / 2 in next || k / 2 == p
    {
    }
  }

  /** Hash every pair with an entry, in index order; a sibling already hashed is skipped. */
  method HashLevel(current: Level, depth: nat, default: int, h: Hash)
    returns (nodes: seq<NodeData>, next: Level, ghost parents: seq<nat>)
    ensures IsNext(current, next, depth, default, h)
    ensures NodesOf(nodes, parents, current, depth, default, h) && forall p :: p in parents <==> p in next
  {
    hide NodeAbove, Hashed, IsNext, NodesOf;
    nodes, next, parents := [], map[], [];
    var indices := SortedKeys(current.Keys);
    var processed: set<nat> := {};
    NothingHashed(current, depth, default, h);
    var n := 0;
    while n < |indices|
      invariant n <= |indices| && Hashed(current, next, nodes, parents, processed, depth, default, h)
      invariant forall i :: 0 <= i < n ==> indices[i] / 2 in next
      invariant forall p, i :: p in next && n <= i < |indices| ==> p <= indices[i] / 2
    {
      var index := indices[n];
      assert index in current;
      ProcessedPairs(current, next, nodes, parents, processed, depth, default, h, index);
      if index !in processed {
        var (left, right) := if index % 2 == 0 then (index, index + 1) else (index - 1, index);
        ghost var p := index / 2;
        assert left == 2 * p && right == 2 * p + 1;
        HashPair(current, next, nodes, parents, processed, depth, default, h, p);
        var node := HashNode(current, left, right, depth, default, h);
        nodes := nodes + [node];
        parents := parents + [p];
        next := next[left / 2 := node.cur];
        processed := processed + {left, right};
      }
      n := n + 1;
    }
    AllHashed(current, next, nodes, parents, processed, indices, depth, default, h);
  }

  lemma NothingHashed(current: Level, depth: nat, default: int, h: Hash)
    ensures Hashed(current, map[], [], [], {}, depth, default, h)
  {
  }

  lemma ProcessedPairs(
      current: Level, next: Level, nodes: seq<NodeData>, parents: seq<nat>, processed: set<nat>,
      depth: nat, default: int, h: Hash, k: nat)
    requires Hashed(current, next, nodes, parents, processed, depth, default, h)
    ensures k in processed <==> k / 2 in next
  {
  }

  lemma AllHashed(
      current: Level, next: Level, nodes: seq<NodeData>, parents: seq<nat>, processed: set<nat>, indices: seq<nat>,
      depth: nat, default: int, h: Hash)
    requires Hashed(current, next, nodes, parents, processed, depth, default, h)
    requires (forall k :: k in indices <==> k in current) && forall i :: 0 <= i < |indices| ==> indices[i] / 2 in next
    ensures IsNext(current, next, depth, default, h)
    ensures NodesOf(nodes, parents, current, depth, default, h) && forall p :: p in parents <==> p in next
  {
    hide NodeAbove;
    forall p: nat | 2 * p in current || 2 * p + 1 in current
      ensures p in next
    {
      var k := if 2 * p in current then 2 * p else 2 * p + 1;
      assert k in indices && k / 2 == p;
    }
  }

  /** One two-to-one hash; an absent child is the default of its depth, with multiplicity zero. */
  method HashNode(current: Level, left: nat, right: nat, depth: nat, default: int, h: Hash) returns (node: NodeData)
    requires right == left + 1 && left % 2 == 0
    ensures node == NodeAbove(current, depth, default, h, left / 2)
  {
    var l, r := ValueOr(current, left, default), ValueOr(current, right, default);
    node := NodeData(left, depth, l, r, MerkleValue(h(l.value, r.value), 1));
  }

  lemma IncreasingPush(ks: seq<nat>, p: nat)
    requires Increasing(ks) && p !in ks && forall k :: k in ks ==> k <= p
    ensures Increasing(ks + [p])
  {
    forall i, j | 0 <= i < j < |ks + [p]|
      ensures (ks + [p])[i] < (ks + [p])[j]
    {
      if j == |ks| { assert ks[i] in ks; }
    }
  }

  // -- Values: every level agrees with the complete tree ----------------------------------------

  ghost predicate NodeCorrect(
      leaves: Level, current: Level, h: Hash, default: int, height: nat, depth: nat, i: nat)
  {
    ValueOr(current, i, default).value == FullNode(leaves, h, height, depth, i)
  }

  ghost predicate LevelCorrect(leaves: Level, current: Level, h: Hash, default: int, height: nat, depth: nat) {
    && depth <= height
    && (forall i: nat :: NodeCorrect(leaves, current, h, default, height, depth, i))
    && (forall i: nat :: i in current <==> Occupied(leaves, Pow2(height - depth), i))
  }

  /** Some leaf lies below node i, where each node spans width leaves. */
  ghost predicate Occupied(leaves: Level, width: int, i: nat) {
    exists k: nat :: k in leaves && i * width <= k < (i + 1) * width
  }

  lemma OccupiedHalves(leaves: Level, width: nat, p: nat)
    requires width >= 1
    ensures Occupied(leaves, 2 * width, p) <==> Occupied(leaves, width, 2 * p) || Occupied(leaves, width, 2 * p + 1)
  {
    assert p * (2 * width) == (2 * p) * width && (p + 1) * (2 * width) == (2 * p + 2) * width;
    assert (2 * p + 1) * width == (2 * p) * width + width && (2 * p + 2) * width == (2 * p + 1) * width + width;
    if k: nat :| k in leaves && p * (2 * width) <= k < (p + 1) * (2 * width) {
      if k < (2 * p + 1) * width {
        assert Occupied(leaves, width, 2 * p);
      } else {
        assert (2 * p + 1 + 1) * width == (2 * p + 2) * width;
        assert Occupied(leaves, width, 2 * p + 1);
      }
    }
    if Occupied(leaves, width, 2 * p) {
      var k: nat :| k in leaves && (2 * p) * width <= k < (2 * p + 1) * width;
    }
    if Occupied(leaves, width, 2 * p + 1) {
      var k: nat :| k in leaves && (2 * p + 1) * width <= k < (2 * p + 1 + 1) * width;
      assert (2 * p + 1 + 1) * width == (2 * p + 2) * width;
    }
  }

  lemma LeavesCorrect(leaves: Level, h: Hash, height: nat)
    ensures LevelCorrect(leaves, leaves, h, 0, height, height)
  {
    assert Pow2(height - height) == 1;
    forall i: nat
      ensures i in leaves <==> Occupied(leaves, 1, i)
    {
      if i in leaves { assert i * 1 <= i < (i + 1) * 1; }
    }
  }

  /** Hashing a level correctly gives a correct level. */
  lemma NextCorrect(
      leaves: Level, current: Level, next: Level, h: Hash, default: int, default': int, height: nat, depth: nat)
    requires 1 <= depth <= height && default' == h(default, default)
    requires LevelCorrect(leaves, current, h, default, height, depth)
    requires IsNext(current, next, depth, default, h)
    ensures LevelCorrect(leaves, next, h, default', height, depth - 1)
  {
    var up := depth - 1;
    forall p: nat
      ensures NodeCorrect(leaves, next, h, default', height, up, p)
    {
      NextNodeCorrect(leaves, current, next, h, default, default', height, depth, p);
    }
    hide NodeCorrect, Occupied;
    forall p: nat
      ensures p in next <==> Occupied(leaves, Pow2(height - (depth - 1)), p)
    {
      NextOccupied(leaves, current, next, h, default, height, depth, p);
    }
  }

  lemma NextNodeCorrect(
      leaves: Level, current: Level, next: Level, h: Hash, default: int, default': int, height: nat, depth: nat, p: nat)
    requires 1 <= depth <= height && default' == h(default, default)
    requires LevelCorrect(leaves, current, h, default, height, depth)
    requires IsNext(current, next, depth, default, h)
    ensures NodeCorrect(leaves, next, h, default', height, depth - 1, p)
  {
    hide Occupied, Pow2;
    assert NodeCorrect(leaves, current, h, default, height, depth, 2 * p);
    assert NodeCorrect(leaves, current, h, default, height, depth, 2 * p + 1);
    hide LevelCorrect;
  }

  lemma NextOccupied(
      leaves: Level, current: Level, next: Level, h: Hash, default: int, height: nat, depth: nat, p: nat)
    requires 1 <= depth <= height && LevelCorrect(leaves, current, h, default, height, depth)
    requires IsNext(current, next, depth, default, h)
    ensures p in next <==> Occupied(leaves, Pow2(height - (depth - 1)), p)
  {
    var width := Pow2(height - depth);
    Pow2Positive(height - depth);
    assert Pow2(height - (depth - 1)) == 2 * width;
    hide Occupied, Pow2, NodeCorrect;
    OccupiedHalves(leaves, width, p);
    assert 2 * p in current <==> Occupied(leaves, width, 2 * p);
    assert 2 * p + 1 in current <==> Occupied(leaves, width, 2 * p + 1);
  }

  // -- The Merkle bag ----------------------------------------------------------------------------

  /** A node claim of one tree. */
  datatype Claim = Claim(index: nat, depth: nat, value: int)

  function Times(v: MerkleValue, claim: Claim, t: Claim): nat {
    if claim == t then v.multiplicity else 0
  }

  /** A row emits its two children and consumes its parent, each with its multiplicity. */
  function EmittedBy(node: NodeData, t: Claim): nat {
    Times(node.left, Claim(node.index, node.depth, node.left.value), t)
    + Times(node.right, Claim(node.index + 1, node.depth, node.right.value), t)
  }

  function ConsumedBy(node: NodeData, t: Claim): nat
    requires node.depth >= 1
  {
    Times(node.cur, Claim(node.index / 2, node.depth - 1, node.cur.value), t)
  }

  ghost predicate BelowRoot(nodes: seq<NodeData>) {
    forall i :: 0 <= i < |nodes| ==> nodes[i].depth >= 1
  }

  function Emitted(nodes: seq<NodeData>, t: Claim): nat {
    if nodes == [] then 0 else Emitted(nodes[..|nodes| - 1], t) + EmittedBy(nodes[|nodes| - 1], t)
  }

  function Consumed(nodes: seq<NodeData>, t: Claim): nat
    requires BelowRoot(nodes)
  {
    if nodes == [] then 0 else Consumed(nodes[..|nodes| - 1], t) + ConsumedBy(nodes[|nodes| - 1], t)
  }

  /** The claim of a level's entry, as often as its multiplicity. */
  function LevelClaim(level: Level, depth: nat, t: Claim): nat {
    if t.depth == depth && t.index in level && level[t.index].value == t.value then level[t.index].multiplicity else 0
  }

  lemma {:induction false} LevelEmits(
      nodes: seq<NodeData>, parents: seq<nat>, current: Level, depth: nat, default: int, h: Hash, t: Claim)
    requires NodesOf(nodes, parents, current, depth, default, h)
    ensures Emitted(nodes, t) == if t.index / 2 in parents then LevelClaim(current, depth, t) else 0
    decreases |nodes|
  {
    if nodes != [] {
      var n := |nodes| - 1;
      LevelEmits(nodes[..n], parents[..n], current, depth, default, h, t);
      assert nodes[n] == NodeAbove(current, depth, default, h, parents[n]);
      PrefixMembers(parents, t.index / 2);
    }
  }

  lemma PrefixMembers(ks: seq<nat>, k: nat)
    requires Increasing(ks) && |ks| > 0
    ensures k in ks <==> k in ks[..|ks| - 1] || k == ks[|ks| - 1]
    ensures ks[|ks| - 1] !in ks[..|ks| - 1]
  {
    assert ks == ks[..|ks| - 1] + [ks[|ks| - 1]];
  }

  lemma {:induction false} LevelConsumes(
      nodes: seq<NodeData>, parents: seq<nat>, current: Level, next: Level, depth: nat, default: int, h: Hash, t: Claim)
    requires depth >= 1 && NodesOf(nodes, parents, current, depth, default, h)
    requires forall p :: p in parents ==> p in next && next[p] == NodeAbove(current, depth, default, h, p).cur
    ensures BelowRoot(nodes)
    ensures Consumed(nodes, t) == if t.index in parents then LevelClaim(next, depth - 1, t) else 0
    decreases |nodes|
  {
    if nodes != [] {
      var n := |nodes| - 1;
      LevelConsumes(nodes[..n], parents[..n], current, next, depth, default, h, t);
      assert nodes[n] == NodeAbove(current, depth, default, h, parents[n]);
      PrefixMembers(parents, t.index);
    }
  }

  lemma {:induction false} BagsConcat(a: seq<NodeData>, b: seq<NodeData>, t: Claim)
    requires BelowRoot(a) && BelowRoot(b)
    ensures BelowRoot(a + b)
    ensures Emitted(a + b, t) == Emitted(a, t) + Emitted(b, t) && Consumed(a + b, t) == Consumed(a, t) + Consumed(b, t)
    decreases |b|
  {
    if b == [] {
      assert a + b == a;
    } else {
      var n := |b| - 1;
      BagsConcat(a, b[..n], t);
      assert (a + b)[..|a| + n] == a + b[..n] && (a + b)[|a| + n] == b[n];
    }
  }

  /** A level's rows turn the claims of its entries into the claims of the next level's. */
  lemma LevelBalances(
      nodes: seq<NodeData>, parents: seq<nat>, current: Level, next: Level, depth: nat, default: int, h: Hash, t: Claim)
    requires depth >= 1 && NodesOf(nodes, parents, current, depth, default, h)
    requires IsNext(current, next, depth, default, h) && forall p :: p in parents <==> p in next
    ensures BelowRoot(nodes)
    ensures Emitted(nodes, t) == LevelClaim(current, depth, t)
    ensures Consumed(nodes, t) == LevelClaim(next, depth - 1, t)
  {
    LevelEmits(nodes, parents, current, depth, default, h, t);
    LevelConsumes(nodes, parents, current, next, depth, default, h, t);
    if t.index in current {
      var p := t.index / 2;
      assert t.index == 2 * p || t.index == 2 * p + 1;
      assert p in next;
    }
  }

  // -- The whole tree -----------------------------------------------------------------------------

  /** Rows from the leaves up to a level: leaf claims in, level claims out. */
  ghost predicate Balances(nodes: seq<NodeData>, leaves: Level, height: nat, level: Level, depth: nat) {
    && BelowRoot(nodes)
    && (forall t :: Emitted(nodes, t) + LevelClaim(level, depth, t)
                    == LevelClaim(leaves, height, t) + Consumed(nodes, t))
  }

  lemma LeavesBalance(leaves: Level, height: nat)
    ensures Balances([], leaves, height, leaves, height)
  {
  }

  lemma NextBalances(
      rows: seq<NodeData>, nodes: seq<NodeData>, parents: seq<nat>, leaves: Level, height: nat,
      current: Level, next: Level, depth: nat, default: int, h: Hash)
    requires depth >= 1 && Balances(rows, leaves, height, current, depth)
    requires NodesOf(nodes, parents, current, depth, default, h)
    requires IsNext(current, next, depth, default, h) && forall p :: p in parents <==> p in next
    ensures Balances(rows + nodes, leaves, height, next, depth - 1)
  {
    hide Emitted, Consumed, LevelClaim, NodesOf, IsNext;
    var any := Claim(0, 0, 0);
    LevelBalances(nodes, parents, current, next, depth, default, h, any);
    BagsConcat(rows, nodes, any);
    forall t
      ensures Emitted(rows + nodes, t) + LevelClaim(next, depth - 1, t)
           == LevelClaim(leaves, height, t) + Consumed(rows + nodes, t)
    {
      LevelBalances(nodes, parents, current, next, depth, default, h, t);
      BagsConcat(rows, nodes, t);
    }
  }

  /** Every entry is claimed once. */
  ghost predicate Single(level: Level) {
    forall i :: i in level ==> level[i].multiplicity == 1
  }

  /** What the tree of given leaves must return, for any height. */
  ghost predicate TreeOf(leaves: Level, h: Hash, defaults: seq<int>, height: nat, nodes: seq<NodeData>, root: int)
    requires |defaults| == height + 1
  {
    if leaves == map[] then nodes == [] && root == defaults[0]
    else
      exists top: Level ::
        && LevelCorrect(leaves, top, h, defaults[0], height, 0) && Balances(nodes, leaves, height, top, 0)
        && (height > 0 ==> Single(top))
        && root == if 0 in top then top[0].value else 0
  }

  /** build_partial_merkle_tree: level by level from the leaves, hashing only occupied pairs. */
  method BuildPartialMerkleTree(leaves: Level, h: Hash, defaults: seq<int>, height: nat)
    returns (nodes: seq<NodeData>, root: int)
    requires Defaults(defaults, h, height)
    ensures TreeOf(leaves, h, defaults, height, nodes, root)
  {
    hide LevelCorrect, Balances, IsNext, NodesOf;
    if leaves == map[] { return [], defaults[0]; }
    nodes := [];
    var current := leaves;
    var depth: nat := height;
    LeavesCorrect(leaves, h, height);
    LeavesBalance(leaves, height);
    while depth > 0
      invariant depth <= height && LevelCorrect(leaves, current, h, defaults[depth], height, depth)
      invariant Balances(nodes, leaves, height, current, depth)
      invariant depth < height ==> Single(current)
    {
      var rows, next, parents := HashLevel(current, depth, defaults[depth], h);
      NextCorrect(leaves, current, next, h, defaults[depth], defaults[depth - 1], height, depth);
      NextBalances(nodes, rows, parents, leaves, height, current, next, depth, defaults[depth], h);
      NextSingle(current, next, depth, defaults[depth], h);
      nodes := nodes + rows;
      current := next;
      depth := depth - 1;
    }
    root := if 0 in current then current[0].value else 0;
  }

  lemma NextSingle(current: Level, next: Level, depth: nat, default: int, h: Hash)
    requires IsNext(current, next, depth, default, h)
    ensures Single(next)
  {
  }

  // -- What callers may rely on ------------------------------------------------------------------------

  lemma {:induction false} EmptyTree(h: Hash, defaults: seq<int>, height: nat, depth: nat, index: nat)
    requires Defaults(defaults, h, height) && depth <= height
    ensures FullNode(map[], h, height, depth, index) == defaults[depth]
    decreases height - depth
  {
    if depth < height {
      EmptyTree(h, defaults, height, depth + 1, 2 * index);
      EmptyTree(h, defaults, height, depth + 1, 2 * index + 1);
    }
  }

  /** A leaf the complete tree can see. */
  ghost predicate Visible(leaves: Level, height: nat) {
    exists k: nat :: k in leaves && k < Pow2(height)
  }

  /**
   * The sparse tree refines the complete tree exactly when it has no leaves or a
   * visible one; if every leaf lies beyond the tree, the returned root is zero.
   */
  lemma RootIsFull(leaves: Level, h: Hash, defaults: seq<int>, height: nat, nodes: seq<NodeData>, root: int)
    requires Defaults(defaults, h, height) && TreeOf(leaves, h, defaults, height, nodes, root)
    ensures root == if leaves == map[] || Visible(leaves, height) then FullRoot(leaves, h, height) else 0
  {
    hide Balances, Pow2;
    if leaves == map[] {
      EmptyTree(h, defaults, height, 0, 0);
    } else {
      var top: Level :| LevelCorrect(leaves, top, h, defaults[0], height, 0) && Balances(nodes, leaves, height, top, 0)
                        && root == if 0 in top then top[0].value else 0;
      assert NodeCorrect(leaves, top, h, defaults[0], height, 0, 0);
      assert 0 in top <==> Occupied(leaves, Pow2(height - 0), 0);
    }
  }

  /** Adding or dropping zero leaves keeps the root, as long as both trees see what they hold. */
  lemma ZeroLeavesKeepRoot(
      a: Level, b: Level, h: Hash, defaults: seq<int>, height: nat,
      nodes: seq<NodeData>, nodes': seq<NodeData>, root: int, root': int)
    requires Defaults(defaults, h, height)
    requires TreeOf(a, h, defaults, height, nodes, root) && TreeOf(b, h, defaults, height, nodes', root')
    requires a == map[] || Visible(a, height)
    requires b == map[] || Visible(b, height)
    requires forall k: nat :: LeafValue(a, k) == LeafValue(b, k)
    ensures root == root'
  {
    hide TreeOf, Visible;
    RootIsFull(a, h, defaults, height, nodes, root);
    RootIsFull(b, h, defaults, height, nodes', root');
    SameLeavesSameNodes(a, b, h, height, 0, 0);
  }

  ghost predicate InRange(leaves: Level, height: nat) {
    forall k :: k in leaves ==> k < Pow2(height)
  }

  /** The rows and one public root emission cancel the leaf consumptions. */
  ghost predicate BagCloses(leaves: Level, height: nat, nodes: seq<NodeData>, root: int) {
    && BelowRoot(nodes)
    && forall t :: Emitted(nodes, t) + (if t == Claim(0, 0, root) then 1 else 0)
                == LevelClaim(leaves, height, t) + Consumed(nodes, t)
  }

  /** The Merkle bag of a non-empty tree closes exactly when every leaf is in range. */
  lemma MerkleBagCloses(leaves: Level, h: Hash, defaults: seq<int>, height: nat, nodes: seq<NodeData>, root: int)
    requires Defaults(defaults, h, height) && height > 0 && leaves != map[]
    requires TreeOf(leaves, h, defaults, height, nodes, root)
    ensures BagCloses(leaves, height, nodes, root) <==> InRange(leaves, height)
  {
    hide Emitted, Consumed, Pow2;
    var top: Level :| LevelCorrect(leaves, top, h, defaults[0], height, 0) && Balances(nodes, leaves, height, top, 0)
                      && Single(top) && root == if 0 in top then top[0].value else 0;
    TopInRange(leaves, top, h, defaults[0], height);
    hide LevelCorrect;
    if InRange(leaves, height) {
      forall t
        ensures LevelClaim(top, 0, t) == if t == Claim(0, 0, root) then 1 else 0
      {
      }
    } else {
      var i :| i in top && i > 0;
      var t := Claim(i, 0, top[i].value);
      assert LevelClaim(top, 0, t) == 1;
      assert Emitted(nodes, t) + LevelClaim(top, 0, t) == LevelClaim(leaves, height, t) + Consumed(nodes, t);
      assert !BagCloses(leaves, height, nodes, root);
    }
  }

  /** The top level holds node 0 alone exactly when every leaf is in range. */
  lemma TopInRange(leaves: Level, top: Level, h: Hash, default: int, height: nat)
    requires LevelCorrect(leaves, top, h, default, height, 0) && leaves != map[]
    ensures InRange(leaves, height) ==> 0 in top && forall i :: i in top ==> i == 0
    ensures !InRange(leaves, height) ==> exists i :: i in top && i > 0
  {
    var width := Pow2(height - 0);
    Pow2Positive(height - 0);
    hide Pow2, NodeCorrect, Occupied;
    forall i: nat
      ensures i in top <==> Occupied(leaves, width, i)
    {
    }
    hide LevelCorrect;
    if InRange(leaves, height) {
      OnlyFirst(leaves, width);
    } else {
      var k :| k in leaves && k >= width;
      BeyondFirst(leaves, width, k);
      assert k / width in top;
    }
  }

  /** Leaves within one node's width occupy node 0 only. */
  lemma OnlyFirst(leaves: Level, width: nat)
    requires leaves != map[] && forall k :: k in leaves ==> k < width
    ensures Occupied(leaves, width, 0) && forall i: nat :: Occupied(leaves, width, i) ==> i == 0
  {
    var k := Pick(leaves.Keys);
    assert 0 * width <= k < (0 + 1) * width;
    forall i: nat | Occupied(leaves, width, i)
      ensures i == 0
    {
      var l: nat :| l in leaves && i * width <= l < (i + 1) * width;
      NotBelow(i, width, l);
    }
  }

  lemma NotBelow(i: nat, width: nat, l: nat)
    requires i * width <= l < width
    ensures i == 0
  {
    Scaled(i, width);
  }

  lemma Scaled(i: nat, width: nat)
    ensures i >= 1 ==> i * width >= width
  {
    if i >= 1 { assert i * width == width + (i - 1) * width; }
  }

  lemma BeyondFirst(leaves: Level, width: nat, k: nat)
    requires k in leaves && k >= width >= 1
    ensures k / width >= 1 && Occupied(leaves, width, k / width)
  {
    Quotient(k, width);
  }

  lemma Quotient(k: nat, width: nat)
    requires k >= width >= 1
    ensures (k / width) * width <= k < (k / width + 1) * width && k / width >= 1
  {
    var q := k / width;
    assert q * width + k % width == k;
    assert (q + 1) * width == q * width + width;
    assert 0 * width == 0;
  }

  // -- Roots decide leaves ---------------------------------------------------------------------------

  /** The hashed children of a node of the complete tree. */
  function Children(leaves: Level, h: Hash, height: nat, depth: nat, index: nat): (int, int) {
    (FullNode(leaves, h, height, depth + 1, 2 * index), FullNode(leaves, h, height, depth + 1, 2 * index + 1))
  }

  /** At this node the two trees hash different pairs to one value. */
  predicate Collision(a: Level, b: Level, h: Hash, height: nat, depth: nat, index: nat) {
    var p, q := Children(a, h, height, depth, index), Children(b, h, height, depth, index);
    p != q && h(p.0, p.1) == h(q.0, q.1)
  }

  /** Leaf k lies under the node. */
  predicate Under(height: nat, depth: nat, index: nat, k: nat) {
    depth <= height && index * Pow2(height - depth) <= k < (index + 1) * Pow2(height - depth)
  }

  /** A collision at a node above leaf k, no higher than `top`. */
  ghost predicate CollisionAbove(a: Level, b: Level, h: Hash, height: nat, top: nat, k: nat) {
    exists depth: nat, index: nat ::
      top <= depth < height && Under(height, depth, index, k) && Collision(a, b, h, height, depth, index)
  }

  ghost predicate Matched(a: Level, b: Level, h: Hash, height: nat, top: nat, k: nat) {
    LeafValue(a, k) == LeafValue(b, k) || CollisionAbove(a, b, h, height, top, k)
  }

  ghost predicate AllMatched(a: Level, b: Level, h: Hash, height: nat) {
    forall k: nat :: Matched(a, b, h, height, 0, k)
  }

  lemma UnderChild(height: nat, depth: nat, index: nat, k: nat)
    requires depth < height
    ensures Under(height, depth, index, k)
            <==> Under(height, depth + 1, 2 * index, k) || Under(height, depth + 1, 2 * index + 1, k)
  {
    var half := Pow2(height - depth - 1);
    assert Pow2(height - depth) == 2 * half && height - (depth + 1) == height - depth - 1;
    Halves(index, half);
    hide Pow2;
  }

  lemma Halves(index: nat, half: nat)
    ensures index * (2 * half) == (2 * index) * half
    ensures (index + 1) * (2 * half) == (2 * index + 1 + 1) * half
    ensures (2 * index + 1) * half == (2 * index) * half + half
  {
  }

  lemma UnderOne(height: nat, depth: nat, i: nat, j: nat, k: nat)
    requires Under(height, depth, i, k) && Under(height, depth, j, k)
    ensures i == j
  {
    if i < j { LaterStarts(i, j, Pow2(height - depth)); }
    if j < i { LaterStarts(j, i, Pow2(height - depth)); }
  }

  lemma LaterStarts(i: nat, j: nat, width: nat)
    requires i < j
    ensures (i + 1) * width <= j * width
  {
    assert j * width == (i + 1) * width + (j - i - 1) * width;
  }

  lemma LeafUnder(height: nat, index: nat, k: nat)
    ensures Under(height, height, index, k) <==> k == index
  {
  }

  /** Under equal nodes every leaf is matched. */
  lemma {:induction false} EqualNodesMatch(
      a: Level, b: Level, h: Hash, height: nat, depth: nat, index: nat, k: nat)
    requires FullNode(a, h, height, depth, index) == FullNode(b, h, height, depth, index)
    requires Under(height, depth, index, k)
    ensures Matched(a, b, h, height, depth, k)
    decreases height - depth
  {
    if depth == height {
      LeafUnder(height, index, k);
    } else {
      hide Under;
      UnderChild(height, depth, index, k);
      if !Collision(a, b, h, height, depth, index) {
        assert Children(a, h, height, depth, index) == Children(b, h, height, depth, index);
        hide FullNode, Collision;
        var child := if Under(height, depth + 1, 2 * index, k) then 2 * index else 2 * index + 1;
        EqualNodesMatch(a, b, h, height, depth + 1, child, k);
      }
    }
  }

  /** Without a collision at the node, leaves under it are matched further below. */
  lemma MatchedBelow(a: Level, b: Level, h: Hash, height: nat, depth: nat, index: nat, k: nat)
    requires Matched(a, b, h, height, depth, k) && Under(height, depth, index, k)
    requires !Collision(a, b, h, height, depth, index)
    ensures Matched(a, b, h, height, depth + 1, k)
  {
    hide Under, Collision;
    if LeafValue(a, k) != LeafValue(b, k) {
      var d: nat, i: nat :| depth <= d < height && Under(height, d, i, k) && Collision(a, b, h, height, d, i);
      if d == depth { UnderOne(height, depth, index, i, k); }
    }
  }

  /** Every leaf under the node is matched there or below. */
  ghost predicate UnderMatched(a: Level, b: Level, h: Hash, height: nat, depth: nat, index: nat) {
    forall k: nat :: Under(height, depth, index, k) ==> Matched(a, b, h, height, depth, k)
  }

  /** Nodes over matched leaves are equal. */
  lemma {:induction false} MatchedLeavesEqualNodes(a: Level, b: Level, h: Hash, height: nat, depth: nat, index: nat)
    requires depth <= height && UnderMatched(a, b, h, height, depth, index)
    ensures FullNode(a, h, height, depth, index) == FullNode(b, h, height, depth, index)
    decreases height - depth
  {
    hide Under, Matched;
    if depth == height {
      LeafUnder(height, index, index);
      LeafMatched(a, b, h, height, index);
    } else if !Collision(a, b, h, height, depth, index) {
      ChildMatched(a, b, h, height, depth, index, 2 * index);
      ChildMatched(a, b, h, height, depth, index, 2 * index + 1);
      MatchedLeavesEqualNodes(a, b, h, height, depth + 1, 2 * index);
      MatchedLeavesEqualNodes(a, b, h, height, depth + 1, 2 * index + 1);
    }
  }

  lemma ChildMatched(a: Level, b: Level, h: Hash, height: nat, depth: nat, index: nat, child: nat)
    requires depth < height && 2 * index <= child <= 2 * index + 1 && !Collision(a, b, h, height, depth, index)
    requires UnderMatched(a, b, h, height, depth, index)
    ensures UnderMatched(a, b, h, height, depth + 1, child)
  {
    hide Under, Matched, Collision;
    var below := depth + 1;
    forall k: nat | Under(height, below, child, k)
      ensures Matched(a, b, h, height, below, k)
    {
      UnderChild(height, depth, index, k);
      MatchedBelow(a, b, h, height, depth, index, k);
    }
  }

  lemma LeafMatched(a: Level, b: Level, h: Hash, height: nat, k: nat)
    requires Matched(a, b, h, height, height, k)
    ensures LeafValue(a, k) == LeafValue(b, k)
  {
  }

  ghost predicate SameValues(a: Level, b: Level) {
    forall k: nat :: LeafValue(a, k) == LeafValue(b, k)
  }

  /** Outside the tree both leaves are missing. */
  lemma RootMatches(a: Level, b: Level, h: Hash, height: nat, k: nat)
    requires FullRoot(a, h, height) == FullRoot(b, h, height) && InRange(a, height) && InRange(b, height)
    ensures Matched(a, b, h, height, 0, k)
  {
    hide Pow2;
    if k < Pow2(height) {
      assert Under(height, 0, 0, k);
      hide Under, Matched;
      EqualNodesMatch(a, b, h, height, 0, 0, k);
    }
  }

  /** Equal leaf values give equal roots. Exactly: the roots are equal if and only if every leaf whose
      value differs lies under a node at which the two trees hash different pairs to one value. */
  lemma RootsDecideLeaves(
      a: Level, b: Level, h: Hash, defaults: seq<int>, height: nat,
      nodes: seq<NodeData>, nodes': seq<NodeData>, root: int, root': int)
    requires Defaults(defaults, h, height)
    requires TreeOf(a, h, defaults, height, nodes, root) && TreeOf(b, h, defaults, height, nodes', root')
    requires a == map[] || Visible(a, height)
    requires b == map[] || Visible(b, height)
    requires InRange(a, height) && InRange(b, height)
    ensures SameValues(a, b) ==> root == root'
    ensures root == root' <==> AllMatched(a, b, h, height)
  {
    hide TreeOf, Visible, InRange, LeafValue, Matched;
    RootIsFull(a, h, defaults, height, nodes, root);
    RootIsFull(b, h, defaults, height, nodes', root');
    if SameValues(a, b) { SameLeavesSameNodes(a, b, h, height, 0, 0); }
    if root == root' {
      forall k: nat
        ensures Matched(a, b, h, height, 0, k)
      {
        RootMatches(a, b, h, height, k);
      }
    } else if AllMatched(a, b, h, height) {
      MatchedLeavesEqualNodes(a, b, h, height, 0, 0);
    }
  }
}
