// The poseidon2 relation between the path rows and the permutation rows. A path
// row emits its 16-word input and consumes its 8-word parent as two tuples that
// nothing ties together; this module says exactly what the bag then forces.
module HashBag {
  import opened M31
  import opened Openings
  import opened PathRows
  import RowFacts
  import Sponge

  /** A tuple of the relation; shorter ones are padded with zeros. */
  type Tuple = Sponge.State

  /** hash_children: the first eight words of the permuted concatenation. */
  function HashOf(perm: Sponge.Permutation): Hash {
    (l: Digest, r: Digest) => Sponge.Rate(perm(l + r))
  }

  /** What an enabled merkle_path row's own constraints say. */
  ghost predicate Constrained(r: PathRow) {
    && RowFacts.Vanishes(r.direction * (1 - r.direction))
    && RowFacts.Vanishes(r.isLeaf * (1 - r.isLeaf))
    && forall i :: 0 <= i < 8 ==> RowFacts.Vanishes(Select(r.left[i], r.right[i], r.direction) - r.child[i])
  }

  function Select(left: int, right: int, direction: int): int {
    left + direction * (right - left)
  }

  ghost predicate AllConstrained(rows: seq<PathRow>) {
    forall r :: r in rows ==> Constrained(r)
  }

  /** A constrained row's child is one of its two inputs, as its direction bit says. */
  lemma ChildPicked(r: PathRow)
    requires Constrained(r)
    ensures r.direction <= 1 && r.isLeaf <= 1
    ensures r.child == if r.direction == 0 then r.left else r.right
  {
    RowFacts.BitColumn(r.direction);
    RowFacts.BitColumn(r.isLeaf);
    var picked := if r.direction == 0 then r.left else r.right;
    forall i | 0 <= i < 8
      ensures r.child[i] == picked[i]
    {
      assert Select(r.left[i], r.right[i], r.direction) == picked[i];
      Same(picked[i], r.child[i]);
    }
    assert r.child == picked;
  }

  lemma Same(a: Felt, b: Felt)
    requires RowFacts.Vanishes(a - b)
    ensures a == b
  {
  }

  // -- Permutation rows --------------------------------------------------------------------------

  /** The digest shapes of a permutation row: one word, eight words, or the io pair. */
  datatype Mode = Narrow | Wide | Io

  /** An enabled row of the poseidon2 table. */
  datatype PermRow = PermRow(input: Tuple, output: Tuple, mode: Mode)

  function Flags(m: Mode): (Felt, Felt) {
    match m
    case Narrow => (0, 0)
    case Wide => (1, 0)
    case Io => (0, 1)
  }

  /** The component's three flag constraints leave exactly these modes. */
  lemma FlagsAreModes(wide: Felt, io: Felt)
    ensures RowFacts.Vanishes(wide * (1 - wide)) && RowFacts.Vanishes(io * (1 - io)) && RowFacts.Vanishes(wide * io)
            <==> exists m :: Flags(m) == (wide, io)
  {
    if RowFacts.Vanishes(wide * (1 - wide)) && RowFacts.Vanishes(io * (1 - io)) && RowFacts.Vanishes(wide * io) {
      RowFacts.BitColumn(wide);
      RowFacts.BitColumn(io);
      assert Flags(if wide == 1 then Wide else if io == 1 then Io else Narrow) == (wide, io);
    }
  }

  /** The poseidon2 witness table. */
  class HashTable {
    var rows: seq<PermRow>

    constructor ()
      ensures rows == []
    {
      rows := [];
    }

    /** poseidon2_traced_state: permute a state and record the row. */
    method TracedState(input: Sponge.State, mode: Mode, perm: Sponge.Permutation) returns (output: Sponge.State)
      modifies this
      ensures output == perm(input) && rows == old(rows) + [PermRow(input, output, mode)]
    {
      output := perm(input);
      rows := rows + [PermRow(input, output, mode)];
    }
  }

  ghost predicate Permutes(perms: seq<PermRow>, perm: Sponge.Permutation) {
    forall q :: q in perms ==> q.output == perm(q.input)
  }

  function Pad(words: Sponge.Words): Tuple
    requires |words| <= 16
  {
    words + Sponge.Zeros(16 - |words|)
  }

  function Input(r: PathRow): Tuple {
    r.left + r.right
  }

  function ParentTuple(r: PathRow): Tuple {
    Pad(r.parent)
  }

  /** Permutation rows outside io mode take part in this relation. */
  function Hashing(perms: seq<PermRow>): seq<PermRow> {
    if perms == [] then []
    else Hashing(perms[..|perms| - 1]) + (if perms[|perms| - 1].mode == Io then [] else [perms[|perms| - 1]])
  }

  function Consumes(q: PermRow): Tuple {
    q.input
  }

  function Produced(q: PermRow): Tuple {
    if q.mode == Narrow then Pad(q.output[..1]) else Pad(q.output[..8])
  }

  function Map<A, B>(f: A -> B, s: seq<A>): (r: seq<B>)
    ensures |r| == |s| && forall i :: 0 <= i < |s| ==> r[i] == f(s[i])
  {
    seq(|s|, i requires 0 <= i < |s| => f(s[i]))
  }

  lemma MapJoins<A, B>(f: A -> B, a: seq<A>, b: seq<A>)
    ensures Map(f, a + b) == Map(f, a) + Map(f, b)
  {
  }

  function Inputs(rows: seq<PathRow>): seq<Tuple> {
    Map(Input, rows)
  }

  function Parents(rows: seq<PathRow>): seq<Tuple> {
    Map(ParentTuple, rows)
  }

  function Consumed(perms: seq<PermRow>): seq<Tuple> {
    Map(Consumes, Hashing(perms))
  }

  function Outputs(perms: seq<PermRow>): seq<Tuple> {
    Map(Produced, Hashing(perms))
  }

  /** Every tuple is emitted as often as it is consumed. */
  ghost predicate Closes(inputs: seq<Tuple>, perms: seq<PermRow>, parents: seq<Tuple>) {
    multiset(inputs) + multiset(Outputs(perms)) == multiset(parents) + multiset(Consumed(perms))
  }

  ghost predicate HashBalanced(rows: seq<PathRow>, perms: seq<PermRow>) {
    Closes(Inputs(rows), perms, Parents(rows))
  }

  // -- The atomic relation -----------------------------------------------------------------------

  function Pair(r: PathRow): (Tuple, Digest) {
    (Input(r), r.parent)
  }

  function PermPair(q: PermRow): (Tuple, Digest) {
    (q.input, Sponge.Rate(q.output))
  }

  /** A relation of (input, digest) pairs, in the manner of poseidon2_io. */
  function Pairs(rows: seq<PathRow>): seq<(Tuple, Digest)> {
    Map(Pair, rows)
  }

  function PermPairs(perms: seq<PermRow>): seq<(Tuple, Digest)> {
    Map(PermPair, Hashing(perms))
  }

  ghost predicate PairBalanced(rows: seq<PathRow>, perms: seq<PermRow>) {
    multiset(Pairs(rows)) == multiset(PermPairs(perms))
  }

  ghost predicate AllHash(rows: seq<PathRow>, h: Hash) {
    forall r :: r in rows ==> r.parent == h(r.left, r.right)
  }

  /** One wide permutation row per path row. */
  function HashRows(rows: seq<PathRow>, perm: Sponge.Permutation): seq<PermRow> {
    Map((r: PathRow) => PermRow(Input(r), perm(Input(r)), Wide), rows)
  }

  lemma {:induction false} HashingMembers(perms: seq<PermRow>, q: PermRow)
    ensures q in Hashing(perms) <==> q in perms && q.mode != Io
  {
    if perms != [] {
      HashingMembers(perms[..|perms| - 1], q);
      assert perms == perms[..|perms| - 1] + [perms[|perms| - 1]];
    }
  }

  lemma {:induction false} HashingJoins(a: seq<PermRow>, b: seq<PermRow>)
    ensures Hashing(a + b) == Hashing(a) + Hashing(b)
    decreases |b|
  {
    if b == [] {
      assert a + b == a;
    } else {
      assert (a + b)[..|a + b| - 1] == a + b[..|b| - 1];
      HashingJoins(a, b[..|b| - 1]);
    }
  }

  lemma {:induction false} AllHashing(perms: seq<PermRow>)
    requires forall q :: q in perms ==> q.mode != Io
    ensures Hashing(perms) == perms
  {
    if perms != [] {
      var front := perms[..|perms| - 1];
      assert perms == front + [perms[|perms| - 1]];
      AllHashing(front);
    }
  }

  lemma PairMember(rows: seq<PathRow>, perms: seq<PermRow>, r: PathRow) returns (q: PermRow)
    requires PairBalanced(rows, perms) && r in rows
    ensures q in perms && q.input == Input(r) && Sponge.Rate(q.output) == r.parent
  {
    var i :| 0 <= i < |rows| && rows[i] == r;
    assert Pairs(rows)[i] in multiset(PermPairs(perms));
    var j :| 0 <= j < |PermPairs(perms)| && PermPairs(perms)[j] == (Input(r), r.parent);
    q := Hashing(perms)[j];
    HashingMembers(perms, q);
  }

  /** Pairs bind a permutation's two ends: closing that bag means that every row hashes its inputs,
      and every set of rows that do can be closed. */
  lemma PairsMeanHashed(rows: seq<PathRow>, perm: Sponge.Permutation)
    ensures (exists perms :: Permutes(perms, perm) && PairBalanced(rows, perms)) <==> AllHash(rows, HashOf(perm))
  {
    if perms :| Permutes(perms, perm) && PairBalanced(rows, perms) {
      PairedRowsHash(rows, perms, perm);
    }
    if AllHash(rows, HashOf(perm)) {
      HashedRowsClose(rows, perm);
      assert Permutes(HashRows(rows, perm), perm);
    }
  }

  lemma PairedRowsHash(rows: seq<PathRow>, perms: seq<PermRow>, perm: Sponge.Permutation)
    requires Permutes(perms, perm) && PairBalanced(rows, perms)
    ensures AllHash(rows, HashOf(perm))
  {
    hide PairBalanced;
    forall r | r in rows
      ensures r.parent == HashOf(perm)(r.left, r.right)
    {
      var q := PairMember(rows, perms, r);
    }
  }

  /** Rows that hash their inputs close both bags with one permutation row each. */
  lemma HashedRowsClose(rows: seq<PathRow>, perm: Sponge.Permutation)
    requires AllHash(rows, HashOf(perm))
    ensures Permutes(HashRows(rows, perm), perm)
    ensures HashBalanced(rows, HashRows(rows, perm)) && PairBalanced(rows, HashRows(rows, perm))
  {
    hide Pad;
    var perms := HashRows(rows, perm);
    AllHashing(perms);
    forall i | 0 <= i < |rows|
      ensures perms[i].input == Input(rows[i]) && Sponge.Rate(perms[i].output) == rows[i].parent
    {
      assert rows[i] in rows;
    }
    assert Inputs(rows) == Consumed(perms);
    assert Parents(rows) == Outputs(perms);
    assert Pairs(rows) == PermPairs(perms);
  }

  // -- What the split relation says --------------------------------------------------------------

  /** Not the padding of a digest. */
  predicate Long(t: Tuple) {
    t[8..] != Sponge.Zeros(8)
  }

  /** No input could be taken for a digest, and all digests have eight words. */
  ghost predicate Separated(rows: seq<PathRow>, perms: seq<PermRow>) {
    && (forall r :: r in rows ==> Long(Input(r)))
    && (forall q :: q in perms && q.mode != Io ==> q.mode == Wide && Long(q.input))
  }

  lemma PadIsShort(words: Sponge.Words)
    requires |words| <= 8
    ensures !Long(Pad(words))
  {
    assert Pad(words)[8..] == Sponge.Zeros(8);
  }

  lemma Parts(
      long: Tuple -> bool, a: multiset<Tuple>, b: multiset<Tuple>, c: multiset<Tuple>, d: multiset<Tuple>)
    requires a + b == c + d
    requires forall t :: t in a || t in d ==> long(t)
    requires forall t :: t in b || t in c ==> !long(t)
    ensures a == d && b == c
  {
    forall t: Tuple
      ensures a[t] == d[t] && b[t] == c[t]
    {
      assert (a + b)[t] == (c + d)[t];
      if long(t) { assert t !in b && t !in c; } else { assert t !in a && t !in d; }
    }
  }

  lemma InputsLong(rows: seq<PathRow>, perms: seq<PermRow>)
    requires Separated(rows, perms)
    ensures forall t :: t in multiset(Inputs(rows)) || t in multiset(Consumed(perms)) ==> Long(t)
  {
    hide Long;
    forall t | t in multiset(Inputs(rows))
      ensures Long(t)
    {
      var i := Position(Inputs(rows), t);
      assert rows[i] in rows;
    }
    forall t | t in multiset(Consumed(perms))
      ensures Long(t)
    {
      var i := Position(Consumed(perms), t);
      HashingMembers(perms, Hashing(perms)[i]);
    }
  }

  lemma DigestsShort(rows: seq<PathRow>, perms: seq<PermRow>)
    ensures forall t :: t in multiset(Outputs(perms)) || t in multiset(Parents(rows)) ==> !Long(t)
  {
    hide Long;
    forall t | t in multiset(Outputs(perms))
      ensures !Long(t)
    {
      var i := Position(Outputs(perms), t);
      PadIsShort(Hashing(perms)[i].output[..1]);
      PadIsShort(Hashing(perms)[i].output[..8]);
    }
    forall t | t in multiset(Parents(rows))
      ensures !Long(t)
    {
      var i := Position(Parents(rows), t);
      PadIsShort(rows[i].parent);
    }
  }

  /** Separated inputs and digests balance on their own. */
  lemma SplitParts(rows: seq<PathRow>, perms: seq<PermRow>)
    requires HashBalanced(rows, perms) && Separated(rows, perms)
    ensures multiset(Inputs(rows)) == multiset(Consumed(perms))
    ensures multiset(Parents(rows)) == multiset(Outputs(perms))
  {
    hide Long, Inputs, Consumed, Outputs, Parents;
    InputsLong(rows, perms);
    DigestsShort(rows, perms);
    Parts(Long, multiset(Inputs(rows)), multiset(Outputs(perms)), multiset(Parents(rows)), multiset(Consumed(perms)));
  }

  lemma WithoutOne<A>(a: seq<A>, j: nat)
    requires j < |a|
    ensures multiset(Without(a, j)) == multiset(a) - multiset{a[j]}
    ensures a[j] in multiset(a) && |Without(a, j)| < |a|
  {
    assert a == a[..j] + [a[j]] + a[j + 1..];
  }

  lemma Position<A>(a: seq<A>, x: A) returns (j: nat)
    requires x in multiset(a)
    ensures j < |a| && a[j] == x
  {
    j :| 0 <= j < |a| && a[j] == x;
  }

  function Without<A>(a: seq<A>, j: nat): seq<A>
    requires j < |a|
  {
    a[..j] + a[j + 1..]
  }

  lemma MapWithout<A, B>(f: A -> B, a: seq<A>, j: nat)
    requires j < |a|
    ensures multiset(Map(f, a)) == multiset(Map(f, Without(a, j))) + multiset{f(a[j])}
  {
    WithoutOne(Map(f, a), j);
    assert Without(Map(f, a), j) == Map(f, Without(a, j));
  }

  lemma SameLength<A>(a: seq<A>, b: seq<A>)
    requires multiset(a) == multiset(b)
    ensures |a| == |b|
  {
    assert |a| == |multiset(a)| && |b| == |multiset(b)|;
  }

  /** Rearranged sequences have rearranged images. */
  lemma {:induction false} ImagesAgree<A, B>(f: A -> B, a: seq<A>, b: seq<A>)
    requires multiset(a) == multiset(b)
    ensures multiset(Map(f, a)) == multiset(Map(f, b))
    decreases |a|
  {
    hide Map, Without;
    SameLength(a, b);
    if a == [] {
      assert a == b;
    } else {
      WithoutOne(a, 0);
      var j := Position(b, a[0]);
      WithoutOne(b, j);
      ImagesAgree(f, Without(a, 0), Without(b, j));
      MapWithout(f, a, 0);
      MapWithout(f, b, j);
    }
  }

  /** The digests the rows should carry. */
  function Hashes(rows: seq<PathRow>, h: Hash): seq<Digest> {
    Map((r: PathRow) => h(r.left, r.right), rows)
  }

  function Digests(rows: seq<PathRow>): seq<Digest> {
    Map((r: PathRow) => r.parent, rows)
  }

  /** With inputs and digests kept apart, the split relation says that the parents are the rows'
      hashes in some order, and nothing more. */
  lemma SplitMeansRearranged(rows: seq<PathRow>, perm: Sponge.Permutation)
    requires forall r :: r in rows ==> Long(Input(r))
    ensures (exists perms :: Permutes(perms, perm) && Separated(rows, perms) && HashBalanced(rows, perms))
            <==> multiset(Digests(rows)) == multiset(Hashes(rows, HashOf(perm)))
  {
    if perms :| Permutes(perms, perm) && Separated(rows, perms) && HashBalanced(rows, perms) {
      RearrangedParents(rows, perms, perm);
    }
    if multiset(Digests(rows)) == multiset(Hashes(rows, HashOf(perm))) {
      RearrangedCloses(rows, perm);
      HashRowsSeparated(rows, perm);
    }
  }

  lemma RearrangedParents(rows: seq<PathRow>, perms: seq<PermRow>, perm: Sponge.Permutation)
    requires Permutes(perms, perm) && Separated(rows, perms) && HashBalanced(rows, perms)
    ensures multiset(Digests(rows)) == multiset(Hashes(rows, HashOf(perm)))
  {
    SplitParts(rows, perms);
    var hashed := (t: Tuple) => Pad(Sponge.Rate(perm(t)));
    var first8 := (t: Tuple) => Sponge.Rate(t);
    ImagesAgree(hashed, Inputs(rows), Consumed(perms));
    forall i | 0 <= i < |Hashing(perms)|
      ensures Outputs(perms)[i] == hashed(Consumed(perms)[i])
    {
      HashingMembers(perms, Hashing(perms)[i]);
    }
    assert Outputs(perms) == Map(hashed, Consumed(perms));
    ImagesAgree(first8, Parents(rows), Map(hashed, Inputs(rows)));
    forall i | 0 <= i < |rows|
      ensures first8(Parents(rows)[i]) == Digests(rows)[i]
      ensures first8(Map(hashed, Inputs(rows))[i]) == Hashes(rows, HashOf(perm))[i]
    {
      Unpad(rows[i].parent);
      Unpad(Sponge.Rate(perm(Input(rows[i]))));
    }
    assert Map(first8, Parents(rows)) == Digests(rows);
    assert Map(first8, Map(hashed, Inputs(rows))) == Hashes(rows, HashOf(perm));
  }

  lemma Unpad(d: Digest)
    ensures Sponge.Rate(Pad(d)) == d
  {
    assert Pad(d)[..8] == d;
  }

  lemma HashRowsSeparated(rows: seq<PathRow>, perm: Sponge.Permutation)
    requires forall r :: r in rows ==> Long(Input(r))
    ensures Permutes(HashRows(rows, perm), perm) && Separated(rows, HashRows(rows, perm))
  {
    hide Long;
    var perms := HashRows(rows, perm);
    forall q | q in perms
      ensures q.mode == Wide && Long(q.input) && q.output == perm(q.input)
    {
      var i :| 0 <= i < |perms| && perms[i] == q;
      assert rows[i] in rows;
    }
  }

  lemma HashRowsTuples(rows: seq<PathRow>, perm: Sponge.Permutation)
    ensures Consumed(HashRows(rows, perm)) == Inputs(rows)
    ensures Outputs(HashRows(rows, perm)) == Map(PadDigest, Hashes(rows, HashOf(perm)))
  {
    AllHashing(HashRows(rows, perm));
  }

  function PadDigest(d: Digest): Tuple {
    Pad(d)
  }

  lemma RearrangedCloses(rows: seq<PathRow>, perm: Sponge.Permutation)
    requires multiset(Digests(rows)) == multiset(Hashes(rows, HashOf(perm)))
    ensures HashBalanced(rows, HashRows(rows, perm))
  {
    hide Hashes, Outputs, Consumed, Inputs;
    HashRowsTuples(rows, perm);
    ImagesAgree(PadDigest, Digests(rows), Hashes(rows, HashOf(perm)));
    assert Map(PadDigest, Digests(rows)) == Parents(rows);
  }

  /** The exact condition: in a closed split bag, every row hashes its own inputs if and only if the
      same rows also balance pair by pair. */
  lemma HashedIffPaired(rows: seq<PathRow>, perms: seq<PermRow>, perm: Sponge.Permutation)
    requires Permutes(perms, perm) && Separated(rows, perms) && HashBalanced(rows, perms)
    ensures AllHash(rows, HashOf(perm)) <==> PairBalanced(rows, perms)
  {
    if PairBalanced(rows, perms) { PairedRowsHash(rows, perms, perm); }
    if AllHash(rows, HashOf(perm)) {
      SplitParts(rows, perms);
      var pair := (t: Tuple) => (t, Sponge.Rate(perm(t)));
      ImagesAgree(pair, Inputs(rows), Consumed(perms));
      forall i | 0 <= i < |rows|
        ensures pair(Inputs(rows)[i]) == Pairs(rows)[i]
      {
        assert rows[i] in rows;
      }
      assert Map(pair, Inputs(rows)) == Pairs(rows);
      forall i | 0 <= i < |Hashing(perms)|
        ensures pair(Consumed(perms)[i]) == PermPairs(perms)[i]
      {
        HashingMembers(perms, Hashing(perms)[i]);
      }
      assert Map(pair, Consumed(perms)) == PermPairs(perms);
    }
  }

  // -- Chains of permutations --------------------------------------------------------------------

  /** What one permutation row makes of a tuple. */
  function Hashed(t: Tuple, mode: Mode, perm: Sponge.Permutation): Tuple {
    Produced(PermRow(t, perm(t), mode))
  }

  /** Where a chain of permutation rows leads, each fed the padded digest of the one before. */
  function ChainEnd(t: Tuple, chain: seq<Mode>, perm: Sponge.Permutation): Tuple
    decreases |chain|
  {
    if chain == [] then t else ChainEnd(Hashed(t, chain[0], perm), chain[1..], perm)
  }

  function Ends(inputs: seq<Tuple>, chains: seq<seq<Mode>>, perm: Sponge.Permutation): seq<Tuple>
    requires |chains| == |inputs|
  {
    if inputs == [] then [] else [ChainEnd(inputs[0], chains[0], perm)] + Ends(inputs[1..], chains[1..], perm)
  }

  /** A chain for each input, outside io mode. */
  ghost predicate ChainsFor(inputs: seq<Tuple>, chains: seq<seq<Mode>>) {
    |chains| == |inputs| && forall chain :: chain in chains ==> Io !in chain
  }

  /** In some order the parents are the ends of chains from the inputs. */
  ghost predicate Chained(inputs: seq<Tuple>, parents: seq<Tuple>, perm: Sponge.Permutation) {
    exists chains :: ChainsFor(inputs, chains) && multiset(Ends(inputs, chains, perm)) == multiset(parents)
  }

  lemma LongerChain(
      t: Tuple, mode: Mode, rest: seq<Tuple>, chains: seq<seq<Mode>>, perm: Sponge.Permutation)
    requires ChainsFor([Hashed(t, mode, perm)] + rest, chains) && mode != Io
    ensures var longer := [[mode] + chains[0]] + chains[1..];
            && ChainsFor([t] + rest, longer)
            && Ends([t] + rest, longer, perm) == Ends([Hashed(t, mode, perm)] + rest, chains, perm)
  {
    hide Hashed;
    var longer := [[mode] + chains[0]] + chains[1..];
    assert ([mode] + chains[0])[1..] == chains[0];
    assert ([t] + rest)[1..] == rest && ([Hashed(t, mode, perm)] + rest)[1..] == rest && longer[1..] == chains[1..];
    assert ChainEnd(t, longer[0], perm) == ChainEnd(Hashed(t, mode, perm), chains[0], perm);
    assert chains == [chains[0]] + chains[1..];
  }

  lemma EmptyChain(t: Tuple, rest: seq<Tuple>, chains: seq<seq<Mode>>, perm: Sponge.Permutation)
    requires ChainsFor(rest, chains)
    ensures ChainsFor([t] + rest, [[]] + chains) && Ends([t] + rest, [[]] + chains, perm) == [t] + Ends(rest, chains, perm)
  {
    assert ([t] + rest)[1..] == rest && ([[]] + chains)[1..] == chains;
  }

  /** Following each input through permutation rows that take it, until it meets a parent. */
  lemma {:induction false} FollowChains(
      inputs: seq<Tuple>, perms: seq<PermRow>, parents: seq<Tuple>, perm: Sponge.Permutation) returns (chains: seq<seq<Mode>>)
    requires Permutes(perms, perm) && forall q :: q in perms ==> q.mode != Io
    requires multiset(inputs) + multiset(Map(Produced, perms)) == multiset(parents) + multiset(Map(Consumes, perms))
    ensures ChainsFor(inputs, chains) && multiset(Ends(inputs, chains, perm)) == multiset(parents)
    decreases |inputs| + |perms|
  {
    hide Map, Produced, Consumes, Without, Ends, Hashed;
    if inputs == [] {
      NothingLeft(perms, parents);
      chains := [];
      assert Ends([], [], perm) == [] by { NoEnds(perm); }
    } else {
      var t, rest := inputs[0], inputs[1..];
      assert inputs == [t] + rest;
      if t in multiset(parents) {
        var j := Position(parents, t);
        WithoutOne(parents, j);
        Cancelled(multiset{t}, multiset(rest), multiset(Map(Produced, perms)), multiset(Without(parents, j)), multiset(Map(Consumes, perms)));
        var more := FollowChains(rest, perms, Without(parents, j), perm);
        chains := [[]] + more;
        EmptyChain(t, rest, more, perm);
      } else {
        var j := Taken(t, rest, perms, parents);
        var q := perms[j];
        HashedBy(q, perm, perms);
        Followed(t, rest, perms, parents, j);
        var more := FollowChains([Hashed(t, q.mode, perm)] + rest, Without(perms, j), parents, perm);
        LongerChain(t, q.mode, rest, more, perm);
        chains := [[q.mode] + more[0]] + more[1..];
      }
    }
  }

  lemma NoEnds(perm: Sponge.Permutation)
    ensures Ends([], [], perm) == []
  {
  }

  lemma NothingLeft(perms: seq<PermRow>, parents: seq<Tuple>)
    requires multiset(Map(Produced, perms)) == multiset(parents) + multiset(Map(Consumes, perms))
    ensures parents == []
  {
    hide Produced, Consumes;
    assert |multiset(Map(Produced, perms))| == |perms| && |multiset(Map(Consumes, perms))| == |perms|;
    assert |multiset(parents) + multiset(Map(Consumes, perms))| == |multiset(parents)| + |perms|;
    assert |multiset(parents)| == |parents|;
  }

  lemma Cancelled(t: multiset<Tuple>, a: multiset<Tuple>, b: multiset<Tuple>, c: multiset<Tuple>, d: multiset<Tuple>)
    ensures (t + a) + b == (t + c) + d <==> a + b == c + d
  {
    var l, r := (t + a) + b, (t + c) + d;
    if l == r {
      forall x: Tuple
        ensures (a + b)[x] == (c + d)[x]
      {
        assert l[x] == r[x];
      }
    }
    if a + b == c + d {
      forall x: Tuple
        ensures l[x] == r[x]
      {
        assert (a + b)[x] == (c + d)[x];
      }
    }
  }

  /** An input that is no parent is taken by a permutation row. */
  lemma Taken(t: Tuple, rest: seq<Tuple>, perms: seq<PermRow>, parents: seq<Tuple>) returns (j: nat)
    requires multiset([t] + rest) + multiset(Map(Produced, perms)) == multiset(parents) + multiset(Map(Consumes, perms))
    requires t !in multiset(parents)
    ensures j < |perms| && perms[j].input == t
  {
    hide Produced;
    assert t in multiset([t] + rest) + multiset(Map(Produced, perms));
    j := Position(Map(Consumes, perms), t);
  }

  lemma HashedBy(q: PermRow, perm: Sponge.Permutation, perms: seq<PermRow>)
    requires Permutes(perms, perm) && q in perms
    ensures Hashed(q.input, q.mode, perm) == Produced(q)
  {
  }

  lemma Followed(t: Tuple, rest: seq<Tuple>, perms: seq<PermRow>, parents: seq<Tuple>, j: nat)
    requires multiset([t] + rest) + multiset(Map(Produced, perms)) == multiset(parents) + multiset(Map(Consumes, perms))
    requires j < |perms| && perms[j].input == t
    ensures multiset([Produced(perms[j])] + rest) + multiset(Map(Produced, Without(perms, j)))
         == multiset(parents) + multiset(Map(Consumes, Without(perms, j)))
    ensures |Without(perms, j)| == |perms| - 1 && forall q :: q in Without(perms, j) ==> q in perms
  {
    MapWithout(Produced, perms, j);
    MapWithout(Consumes, perms, j);
    assert forall q :: q in Without(perms, j) ==> q in perms;
    hide Map, Produced, Without;
    Moved(t, Produced(perms[j]), multiset(rest), multiset(Map(Produced, Without(perms, j))), multiset(parents),
          multiset(Map(Consumes, Without(perms, j))));
  }

  lemma Moved(t: Tuple, u: Tuple, a: multiset<Tuple>, b: multiset<Tuple>, c: multiset<Tuple>, d: multiset<Tuple>)
    ensures multiset{t} + a + (b + multiset{u}) == c + (d + multiset{t}) <==> multiset{u} + a + b == c + d
  {
    var l, r := multiset{t} + a + (b + multiset{u}), c + (d + multiset{t});
    var l', r' := multiset{u} + a + b, c + d;
    assert forall x: Tuple :: l[x] == multiset{t}[x] + l'[x] && r[x] == multiset{t}[x] + r'[x];
    if l == r {
      forall x: Tuple
        ensures l'[x] == r'[x]
      {
        assert l[x] == r[x];
      }
    }
    if l' == r' {
      forall x: Tuple
        ensures l[x] == r[x]
      {
        assert l'[x] == r'[x];
      }
    }
  }

  lemma OneMoreRow(perms: seq<PermRow>, q: PermRow)
    ensures multiset(Map(Produced, perms + [q])) == multiset(Map(Produced, perms)) + multiset{Produced(q)}
    ensures multiset(Map(Consumes, perms + [q])) == multiset(Map(Consumes, perms)) + multiset{q.input}
  {
    hide Produced;
    MapJoins(Produced, perms, [q]);
    MapJoins(Consumes, perms, [q]);
    assert Map(Produced, [q]) == [Produced(q)] && Map(Consumes, [q]) == [q.input];
  }

  lemma StepCloses(
      t: Tuple, rest: seq<Tuple>, mode: Mode, perms: seq<PermRow>, ends: multiset<Tuple>, perm: Sponge.Permutation)
    requires multiset([Hashed(t, mode, perm)] + rest) + multiset(Map(Produced, perms)) == ends + multiset(Map(Consumes, perms))
    ensures var more := perms + [PermRow(t, perm(t), mode)];
            multiset([t] + rest) + multiset(Map(Produced, more)) == ends + multiset(Map(Consumes, more))
  {
    OneMoreRow(perms, PermRow(t, perm(t), mode));
    var t' := Hashed(t, mode, perm);
    assert multiset([t] + rest) == multiset{t} + multiset(rest) && multiset([t'] + rest) == multiset{t'} + multiset(rest);
    assert Produced(PermRow(t, perm(t), mode)) == t';
    hide Map, Produced, Hashed;
    Moved(t, t', multiset(rest), multiset(Map(Produced, perms)), ends, multiset(Map(Consumes, perms)));
  }

  /** The permutation rows of the chains close the bag between their inputs and their ends. */
  lemma {:induction false} ChainRows(inputs: seq<Tuple>, chains: seq<seq<Mode>>, perm: Sponge.Permutation) returns (perms: seq<PermRow>)
    requires ChainsFor(inputs, chains)
    ensures Permutes(perms, perm) && (forall q :: q in perms ==> q.mode != Io)
    ensures multiset(inputs) + multiset(Map(Produced, perms))
         == multiset(Ends(inputs, chains, perm)) + multiset(Map(Consumes, perms))
    decreases |inputs|, if chains == [] then 0 else |chains[0]|
  {
    hide Produced, Hashed, Map, Ends, ChainsFor;
    if inputs == [] {
      perms := [];
      NoEnds(perm);
      assert chains == [] by { NoChains(chains); }
      NoRows();
    } else {
      var t, rest := inputs[0], inputs[1..];
      assert inputs == [t] + rest;
      ChainsSplit(t, rest, chains);
      if chains[0] == [] {
        perms := ChainRows(rest, chains[1..], perm);
        EmptyChain(t, rest, chains[1..], perm);
        AddedBoth(t, rest, Ends(rest, chains[1..], perm), multiset(Map(Produced, perms)), multiset(Map(Consumes, perms)));
      } else {
        var mode, shorter := chains[0][0], [chains[0][1..]] + chains[1..];
        ShorterChain(t, rest, chains, perm);
        perms := ChainRows([Hashed(t, mode, perm)] + rest, shorter, perm);
        LongerChain(t, mode, rest, shorter, perm);
        assert [[mode] + shorter[0]] + shorter[1..] == chains by { assert [mode] + chains[0][1..] == chains[0]; }
        StepCloses(t, rest, mode, perms, multiset(Ends(inputs, chains, perm)), perm);
        perms := perms + [PermRow(t, perm(t), mode)];
      }
    }
  }

  lemma AddedBoth(t: Tuple, a: seq<Tuple>, c: seq<Tuple>, b: multiset<Tuple>, d: multiset<Tuple>)
    requires multiset(a) + b == multiset(c) + d
    ensures multiset([t] + a) + b == multiset([t] + c) + d
  {
    assert multiset([t] + a) == multiset{t} + multiset(a) && multiset([t] + c) == multiset{t} + multiset(c);
    Cancelled(multiset{t}, multiset(a), b, multiset(c), d);
  }

  lemma NoRows()
    ensures Map(Produced, []) == [] && Map(Consumes, []) == []
  {
  }

  lemma NoChains(chains: seq<seq<Mode>>)
    requires ChainsFor([], chains)
    ensures chains == []
  {
  }

  lemma ChainsSplit(t: Tuple, rest: seq<Tuple>, chains: seq<seq<Mode>>)
    requires ChainsFor([t] + rest, chains)
    ensures chains != [] && ChainsFor(rest, chains[1..]) && chains == [chains[0]] + chains[1..]
  {
  }

  lemma ShorterChain(t: Tuple, rest: seq<Tuple>, chains: seq<seq<Mode>>, perm: Sponge.Permutation)
    requires ChainsFor([t] + rest, chains) && chains[0] != []
    ensures chains[0][0] != Io && ChainsFor([Hashed(t, chains[0][0], perm)] + rest, [chains[0][1..]] + chains[1..])
  {
    hide Hashed;
    assert chains[0] in chains;
  }

  /** What the relation of separate tuples says of any rows: it closes if and only if, in some order,
      the parents end chains of permutations from the inputs. A chain may be empty or longer than one. */
  lemma ClosesIffChained(inputs: seq<Tuple>, parents: seq<Tuple>, perm: Sponge.Permutation)
    ensures (exists perms :: Permutes(perms, perm) && Closes(inputs, perms, parents)) <==> Chained(inputs, parents, perm)
  {
    if perms :| Permutes(perms, perm) && Closes(inputs, perms, parents) {
      HashingKept(perms, perm);
      var chains := FollowChains(inputs, Hashing(perms), parents, perm);
    }
    if Chained(inputs, parents, perm) {
      var chains :| ChainsFor(inputs, chains) && multiset(Ends(inputs, chains, perm)) == multiset(parents);
      var perms := ChainRows(inputs, chains, perm);
      AllHashing(perms);
      assert Closes(inputs, perms, parents);
    }
  }

  lemma HashingKept(perms: seq<PermRow>, perm: Sponge.Permutation)
    requires Permutes(perms, perm)
    ensures Permutes(Hashing(perms), perm) && forall q :: q in Hashing(perms) ==> q.mode != Io
  {
    forall q | q in Hashing(perms)
      ensures q in perms && q.mode != Io
    {
      HashingMembers(perms, q);
    }
  }

  // -- Pushing -----------------------------------------------------------------------------------

  lemma JoinedImage<A, B>(f: A -> B, a: seq<A>, b: seq<A>)
    ensures multiset(Map(f, a + b)) == multiset(Map(f, a)) + multiset(Map(f, b))
  {
    MapJoins(f, a, b);
    hide Map;
  }

  /** Bags of added rows add up. */
  lemma HashBagsJoin(rows: seq<PathRow>, perms: seq<PermRow>, more: seq<PathRow>, morePerms: seq<PermRow>)
    requires HashBalanced(rows, perms) && HashBalanced(more, morePerms)
    ensures HashBalanced(rows + more, perms + morePerms)
  {
    hide Map, Input, ParentTuple, Consumes, Produced, Hashing;
    HashingJoins(perms, morePerms);
    JoinedImage(Input, rows, more);
    JoinedImage(ParentTuple, rows, more);
    JoinedImage(Consumes, Hashing(perms), Hashing(morePerms));
    JoinedImage(Produced, Hashing(perms), Hashing(morePerms));
    Regroup(multiset(Inputs(rows)), multiset(Outputs(perms)), multiset(Inputs(more)), multiset(Outputs(morePerms)));
    Regroup(multiset(Parents(rows)), multiset(Consumed(perms)), multiset(Parents(more)), multiset(Consumed(morePerms)));
  }

  lemma Regroup(a: multiset<Tuple>, b: multiset<Tuple>, c: multiset<Tuple>, d: multiset<Tuple>)
    ensures (a + c) + (b + d) == (a + b) + (c + d)
  {
  }

  lemma PairBagsJoin(rows: seq<PathRow>, perms: seq<PermRow>, more: seq<PathRow>, morePerms: seq<PermRow>)
    requires PairBalanced(rows, perms) && PairBalanced(more, morePerms)
    ensures PairBalanced(rows + more, perms + morePerms)
  {
    hide Map, Pair, PermPair, Hashing;
    HashingJoins(perms, morePerms);
    JoinedImage(Pair, rows, more);
    JoinedImage(PermPair, Hashing(perms), Hashing(morePerms));
  }

  /** The rows grew by rows that meet their constraints, each with its own wide permutation row. */
  ghost predicate Pushed(
      before: seq<PathRow>, permsBefore: seq<PermRow>, rows: seq<PathRow>, perms: seq<PermRow>, perm: Sponge.Permutation) {
    && |before| <= |rows| && rows[..|before|] == before
    && AllConstrained(rows[|before|..]) && AllHash(rows[|before|..], HashOf(perm))
    && perms == permsBefore + HashRows(rows[|before|..], perm)
  }

  lemma RowMeetsConstraints(treeId: nat, d: nat, index: nat, direction: nat, child: Digest, sibling: Digest, h: Hash)
    requires direction < 2
    ensures var r := Row(treeId, d, index, direction, child, sibling, h);
            Constrained(r) && r.parent == h(r.left, r.right)
  {
    var r := Row(treeId, d, index, direction, child, sibling, h);
    assert forall i :: 0 <= i < 8 ==> Select(r.left[i], r.right[i], r.direction) == r.child[i];
  }

  lemma NothingPushed(rows: seq<PathRow>, perms: seq<PermRow>, perm: Sponge.Permutation)
    ensures Pushed(rows, perms, rows, perms, perm)
  {
    assert HashRows(rows[|rows|..], perm) == [];
  }

  lemma PushedThen(
      b: seq<PathRow>, pb: seq<PermRow>, m: seq<PathRow>, pm: seq<PermRow>, e: seq<PathRow>, pe: seq<PermRow>,
      perm: Sponge.Permutation)
    requires Pushed(b, pb, m, pm, perm) && Pushed(m, pm, e, pe, perm)
    ensures Pushed(b, pb, e, pe, perm)
  {
    hide Constrained, HashOf, HashRows;
    assert e[|b|..] == m[|b|..] + e[|m|..];
    assert e[..|b|] == m[..|b|];
    HashRowsJoin(m[|b|..], e[|m|..], perm);
  }

  lemma HashRowsJoin(a: seq<PathRow>, b: seq<PathRow>, perm: Sponge.Permutation)
    ensures HashRows(a + b, perm) == HashRows(a, perm) + HashRows(b, perm)
  {
    hide Input;
  }

  lemma OnePushed(b: seq<PathRow>, pb: seq<PermRow>, r: PathRow, perm: Sponge.Permutation)
    requires Constrained(r) && r.parent == HashOf(perm)(r.left, r.right)
    ensures Pushed(b, pb, b + [r], pb + [PermRow(Input(r), perm(Input(r)), Wide)], perm)
  {
    hide Constrained, HashOf;
    assert (b + [r])[|b|..] == [r];
    assert HashRows([r], perm) == [PermRow(Input(r), perm(Input(r)), Wide)];
  }

  /** Pushing keeps the constraints and both bags. */
  lemma PushingKeeps(
      before: seq<PathRow>, permsBefore: seq<PermRow>, rows: seq<PathRow>, perms: seq<PermRow>, perm: Sponge.Permutation)
    requires Pushed(before, permsBefore, rows, perms, perm)
    ensures AllConstrained(before) ==> AllConstrained(rows)
    ensures Permutes(permsBefore, perm) ==> Permutes(perms, perm)
    ensures HashBalanced(before, permsBefore) ==> HashBalanced(rows, perms)
    ensures PairBalanced(before, permsBefore) ==> PairBalanced(rows, perms)
  {
    hide Constrained, HashOf, HashBalanced, PairBalanced, HashRows;
    var more := rows[|before|..];
    assert rows == before + more;
    HashedRowsClose(more, perm);
    if HashBalanced(before, permsBefore) { HashBagsJoin(before, permsBefore, more, HashRows(more, perm)); }
    if PairBalanced(before, permsBefore) { PairBagsJoin(before, permsBefore, more, HashRows(more, perm)); }
  }
}
