// The poseidon2 relation of the merkle table. An enabled row emits its two
// children and consumes their parent as separate tuples; this module says what
// that forces, and what it leaves open.
module MemoryHashes {
  import opened M31
  import opened MemoryTree
  import HashBag
  import RowFacts
  import Sponge

  /** The first word of the two permuted children. */
  function HashOf(perm: Sponge.Permutation): Hash {
    (l: Felt, r: Felt) => perm(HashBag.Pad([l, r]))[0]
  }

  function Enabled(rows: seq<Row>): seq<Row> {
    if rows == [] then []
    else Enabled(rows[..|rows| - 1]) + (if rows[|rows| - 1].enabler == 1 then [rows[|rows| - 1]] else [])
  }

  function Input(r: Row): HashBag.Tuple {
    HashBag.Pad([r.lhs, r.rhs])
  }

  function ParentTuple(r: Row): HashBag.Tuple {
    PadWord(r.cur)
  }

  function PadWord(x: Felt): HashBag.Tuple {
    HashBag.Pad([x])
  }

  function Inputs(rows: seq<Row>): seq<HashBag.Tuple> {
    HashBag.Map(Input, Enabled(rows))
  }

  function Parents(rows: seq<Row>): seq<HashBag.Tuple> {
    HashBag.Map(ParentTuple, Enabled(rows))
  }

  /** Two-word inputs and one-word hashes are tuples of their own. */
  ghost predicate HashBalanced(rows: seq<Row>, perms: seq<HashBag.PermRow>) {
    HashBag.Closes(Inputs(rows), perms, Parents(rows))
  }

  ghost predicate AllHash(rows: seq<Row>, h: Hash) {
    forall r :: r in rows && r.enabler == 1 ==> r.cur == h(r.lhs, r.rhs)
  }

  lemma {:induction false} EnabledMembers(rows: seq<Row>, r: Row)
    ensures r in Enabled(rows) <==> r in rows && r.enabler == 1
  {
    if rows != [] {
      EnabledMembers(rows[..|rows| - 1], r);
      assert rows == rows[..|rows| - 1] + [rows[|rows| - 1]];
    }
  }

  // -- What the relation of separate tuples forces -----------------------------------------------

  function Values(rows: seq<Row>): seq<Felt> {
    HashBag.Map((r: Row) => r.cur, Enabled(rows))
  }

  /** The values the rows should carry. */
  function Hashes(rows: seq<Row>, h: Hash): seq<Felt> {
    HashBag.Map((r: Row) => h(r.lhs, r.rhs), Enabled(rows))
  }

  /** Not the padding of one word. */
  predicate TwoWords(t: HashBag.Tuple) {
    t[1] != 0
  }

  /** No pair of children could be taken for a hash, and all hashes have one word. */
  ghost predicate Separated(rows: seq<Row>, perms: seq<HashBag.PermRow>) {
    && (forall r :: r in rows && r.enabler == 1 ==> r.rhs != 0)
    && (forall q :: q in perms && q.mode != HashBag.Io ==> q.mode == HashBag.Narrow && TwoWords(q.input))
  }

  lemma InputsTwoWords(rows: seq<Row>, perms: seq<HashBag.PermRow>)
    requires Separated(rows, perms)
    ensures forall t :: t in multiset(Inputs(rows)) || t in multiset(HashBag.Consumed(perms)) ==> TwoWords(t)
  {
    forall t | t in multiset(Inputs(rows))
      ensures TwoWords(t)
    {
      var i := HashBag.Position(Inputs(rows), t);
      EnabledMembers(rows, Enabled(rows)[i]);
    }
    forall t | t in multiset(HashBag.Consumed(perms))
      ensures TwoWords(t)
    {
      var i := HashBag.Position(HashBag.Consumed(perms), t);
      HashBag.HashingMembers(perms, HashBag.Hashing(perms)[i]);
    }
  }

  lemma HashesOneWord(rows: seq<Row>, perms: seq<HashBag.PermRow>)
    requires Separated(rows, perms)
    ensures forall t :: t in multiset(HashBag.Outputs(perms)) || t in multiset(Parents(rows)) ==> !TwoWords(t)
  {
    forall t | t in multiset(HashBag.Outputs(perms))
      ensures !TwoWords(t)
    {
      var i := HashBag.Position(HashBag.Outputs(perms), t);
      HashBag.HashingMembers(perms, HashBag.Hashing(perms)[i]);
    }
    forall t | t in multiset(Parents(rows))
      ensures !TwoWords(t)
    {
      var i := HashBag.Position(Parents(rows), t);
    }
  }

  lemma SplitParts(rows: seq<Row>, perms: seq<HashBag.PermRow>)
    requires HashBalanced(rows, perms) && Separated(rows, perms)
    ensures multiset(Inputs(rows)) == multiset(HashBag.Consumed(perms))
    ensures multiset(Parents(rows)) == multiset(HashBag.Outputs(perms))
  {
    InputsTwoWords(rows, perms);
    HashesOneWord(rows, perms);
    hide TwoWords, Inputs, Parents, HashBag.Consumed, HashBag.Outputs;
    HashBag.Parts(TwoWords, multiset(Inputs(rows)), multiset(HashBag.Outputs(perms)), multiset(Parents(rows)),
                  multiset(HashBag.Consumed(perms)));
  }

  /** One narrow permutation row per enabled row. */
  function HashRows(rows: seq<Row>, perm: Sponge.Permutation): seq<HashBag.PermRow> {
    HashBag.Map((r: Row) => PermOf(r, perm), Enabled(rows))
  }

  function PermOf(r: Row, perm: Sponge.Permutation): HashBag.PermRow {
    HashBag.PermRow(Input(r), perm(Input(r)), HashBag.Narrow)
  }

  /** With no zero right child, the relation says that the parents are the rows' hashes in some order,
      and nothing more. */
  lemma SplitMeansRearranged(rows: seq<Row>, perm: Sponge.Permutation)
    requires forall r :: r in rows && r.enabler == 1 ==> r.rhs != 0
    ensures (exists perms :: HashBag.Permutes(perms, perm) && Separated(rows, perms) && HashBalanced(rows, perms))
            <==> multiset(Values(rows)) == multiset(Hashes(rows, HashOf(perm)))
  {
    if perms :| HashBag.Permutes(perms, perm) && Separated(rows, perms) && HashBalanced(rows, perms) {
      RearrangedParents(rows, perms, perm);
    }
    if multiset(Values(rows)) == multiset(Hashes(rows, HashOf(perm))) {
      RearrangedCloses(rows, perm);
      HashRowsSeparated(rows, perm);
    }
  }

  lemma RearrangedParents(rows: seq<Row>, perms: seq<HashBag.PermRow>, perm: Sponge.Permutation)
    requires HashBag.Permutes(perms, perm) && Separated(rows, perms) && HashBalanced(rows, perms)
    ensures multiset(Values(rows)) == multiset(Hashes(rows, HashOf(perm)))
  {
    SplitParts(rows, perms);
    var word := (t: HashBag.Tuple) => perm(t)[0];
    var first := (t: HashBag.Tuple) => t[0];
    OutputWords(rows, perms, perm, first, word);
    RowWords(rows, perm, first, word);
    hide *;
    HashBag.ImagesAgree(first, Parents(rows), HashBag.Outputs(perms));
    HashBag.ImagesAgree(word, Inputs(rows), HashBag.Consumed(perms));
  }

  /** The words a permutation row produces and consumes. */
  lemma OutputWords(
      rows: seq<Row>, perms: seq<HashBag.PermRow>, perm: Sponge.Permutation, first: HashBag.Tuple -> Felt,
      word: HashBag.Tuple -> Felt)
    requires HashBag.Permutes(perms, perm) && Separated(rows, perms)
    requires forall t :: first(t) == t[0] && word(t) == perm(t)[0]
    ensures HashBag.Map(first, HashBag.Outputs(perms)) == HashBag.Map(word, HashBag.Consumed(perms))
  {
    hide HashBag.Hashing, HashBag.Pad;
    forall i | 0 <= i < |HashBag.Hashing(perms)|
      ensures first(HashBag.Outputs(perms)[i]) == word(HashBag.Consumed(perms)[i])
    {
      var q := HashBag.Hashing(perms)[i];
      HashBag.HashingMembers(perms, q);
      FirstWord(q.output[0]);
      assert q.output[..1] == [q.output[0]];
    }
  }

  lemma FirstWord(x: Felt)
    ensures PadWord(x)[0] == x
  {
  }

  lemma RowWords(
      rows: seq<Row>, perm: Sponge.Permutation, first: HashBag.Tuple -> Felt, word: HashBag.Tuple -> Felt)
    requires forall t :: first(t) == t[0] && word(t) == perm(t)[0]
    ensures HashBag.Map(first, Parents(rows)) == Values(rows)
    ensures HashBag.Map(word, Inputs(rows)) == Hashes(rows, HashOf(perm))
  {
    hide HashBag.Pad, Enabled, PadWord;
    forall i | 0 <= i < |Enabled(rows)|
      ensures first(Parents(rows)[i]) == Enabled(rows)[i].cur
    {
      FirstWord(Enabled(rows)[i].cur);
    }
  }

  lemma RearrangedCloses(rows: seq<Row>, perm: Sponge.Permutation)
    requires multiset(Values(rows)) == multiset(Hashes(rows, HashOf(perm)))
    ensures HashBalanced(rows, HashRows(rows, perm))
  {
    HashRowsTuples(rows, perm);
    HashBag.ImagesAgree(PadWord, Values(rows), Hashes(rows, HashOf(perm)));
    assert HashBag.Map(PadWord, Values(rows)) == Parents(rows);
  }

  lemma HashRowsTuples(rows: seq<Row>, perm: Sponge.Permutation)
    ensures HashBag.Consumed(HashRows(rows, perm)) == Inputs(rows)
    ensures HashBag.Outputs(HashRows(rows, perm)) == HashBag.Map(PadWord, Hashes(rows, HashOf(perm)))
  {
    hide HashBag.Hashing, HashBag.Pad, Enabled;
    var perms := HashRows(rows, perm);
    HashBag.AllHashing(perms);
    forall i | 0 <= i < |perms|
      ensures HashBag.Produced(perms[i]) == PadWord(HashOf(perm)(Enabled(rows)[i].lhs, Enabled(rows)[i].rhs))
    {
      ProducedWord(perms[i]);
    }
  }

  lemma ProducedWord(q: HashBag.PermRow)
    requires q.mode == HashBag.Narrow
    ensures HashBag.Produced(q) == PadWord(q.output[0])
  {
    assert q.output[..1] == [q.output[0]];
  }

  lemma HashRowsSeparated(rows: seq<Row>, perm: Sponge.Permutation)
    requires forall r :: r in rows && r.enabler == 1 ==> r.rhs != 0
    ensures HashBag.Permutes(HashRows(rows, perm), perm) && Separated(rows, HashRows(rows, perm))
  {
    var perms := HashRows(rows, perm);
    forall q | q in perms
      ensures q.mode == HashBag.Narrow && TwoWords(q.input) && q.output == perm(q.input)
    {
      var i :| 0 <= i < |perms| && perms[i] == q;
      EnabledMembers(rows, Enabled(rows)[i]);
    }
  }

  // -- Binding the two ends ----------------------------------------------------------------------

  function Pair(r: Row): (HashBag.Tuple, Felt) {
    (Input(r), r.cur)
  }

  function PermPair(q: HashBag.PermRow): (HashBag.Tuple, Felt) {
    (q.input, q.output[0])
  }

  /** The same rows, balanced as pairs of an input and its hash. */
  ghost predicate PairBalanced(rows: seq<Row>, perms: seq<HashBag.PermRow>) {
    multiset(HashBag.Map(Pair, Enabled(rows))) == multiset(HashBag.Map(PermPair, HashBag.Hashing(perms)))
  }

  lemma PairedRowsHash(rows: seq<Row>, perms: seq<HashBag.PermRow>, perm: Sponge.Permutation)
    requires HashBag.Permutes(perms, perm) && PairBalanced(rows, perms)
    ensures AllHash(rows, HashOf(perm))
  {
    forall r | r in rows && r.enabler == 1
      ensures r.cur == HashOf(perm)(r.lhs, r.rhs)
    {
      EnabledMembers(rows, r);
      var i :| 0 <= i < |Enabled(rows)| && Enabled(rows)[i] == r;
      assert HashBag.Map(Pair, Enabled(rows))[i] == Pair(r);
      assert Pair(r) in multiset(HashBag.Map(PermPair, HashBag.Hashing(perms)));
      var j := HashBag.Position(HashBag.Map(PermPair, HashBag.Hashing(perms)), Pair(r));
      HashBag.HashingMembers(perms, HashBag.Hashing(perms)[j]);
    }
  }

  /** The exact condition: with no zero right child, the rows of a closed relation hash their own
      children if and only if they also balance pair by pair. */
  lemma HashedIffPaired(rows: seq<Row>, perms: seq<HashBag.PermRow>, perm: Sponge.Permutation)
    requires HashBag.Permutes(perms, perm) && Separated(rows, perms) && HashBalanced(rows, perms)
    ensures AllHash(rows, HashOf(perm)) <==> PairBalanced(rows, perms)
  {
    if PairBalanced(rows, perms) { PairedRowsHash(rows, perms, perm); }
    if AllHash(rows, HashOf(perm)) {
      SplitParts(rows, perms);
      var pair := (t: HashBag.Tuple) => (t, perm(t)[0]);
      HashBag.ImagesAgree(pair, Inputs(rows), HashBag.Consumed(perms));
      forall i | 0 <= i < |Enabled(rows)|
        ensures pair(Inputs(rows)[i]) == Pair(Enabled(rows)[i])
      {
        EnabledMembers(rows, Enabled(rows)[i]);
      }
      assert HashBag.Map(pair, Inputs(rows)) == HashBag.Map(Pair, Enabled(rows));
      forall i | 0 <= i < |HashBag.Hashing(perms)|
        ensures pair(HashBag.Consumed(perms)[i]) == PermPair(HashBag.Hashing(perms)[i])
      {
        HashBag.HashingMembers(perms, HashBag.Hashing(perms)[i]);
      }
      assert HashBag.Map(pair, HashBag.Consumed(perms)) == HashBag.Map(PermPair, HashBag.Hashing(perms));
    }
  }

  // -- Accepted leaves ---------------------------------------------------------------------------

  /** Everything the verifier checks of the rows. */
  ghost predicate Accepted(
      rows: seq<Row>, perms: seq<HashBag.PermRow>, roots: seq<Felt>, leaves: seq<Claim>, perm: Sponge.Permutation) {
    HashBag.Permutes(perms, perm) && HashBalanced(rows, perms) && Closed(rows, roots, leaves)
  }

  /** Every row that emits a child is enabled and consumes a parent. */
  predicate Tied(rows: seq<Row>) {
    forall r :: r in rows && Emitting(r) ==> r.enabler == 1 && r.curMult > 0
  }

  /** Accepted rows prove their leaves once their multiplicities are tied and the same rows balance in
      pairs. */
  lemma AcceptedLeavesAreCommitted(
      rows: seq<Row>, perms: seq<HashBag.PermRow>, roots: seq<Felt>, leaves: seq<Claim>, perm: Sponge.Permutation)
    requires Accepted(rows, perms, roots, leaves, perm) && Small(rows, leaves)
    ensures PairBalanced(rows, perms) && Tied(rows) ==> LeavesCommitted(roots, leaves, HashOf(perm))
  {
    if PairBalanced(rows, perms) && Tied(rows) {
      PairedRowsHash(rows, perms, perm);
      hide Closed, Committed, PairBalanced, HashOf, HashBalanced;
      assert forall r, c :: r in rows && Emits(r, c) ==> Emitting(r) && Grounded(r, HashOf(perm));
      CommittedIffOrphans(rows, roots, leaves, HashOf(perm));
    }
  }

  // -- A row that stands on nothing --------------------------------------------------------------

  /** Emits a claim as a left child and consumes no parent. */
  function Orphan(c: Claim, sibling: Felt, h: Hash): Row {
    Row(c.index, c.depth, c.value, sibling, h(c.value, sibling), 1, 0, 0, c.root, 1)
  }

  lemma PushOne(rows: seq<Row>, r: Row, perms: seq<HashBag.PermRow>, perm: Sponge.Permutation)
    requires HashBalanced(rows, perms) && HashBag.Permutes(perms, perm)
    requires r.enabler == 1 && r.cur == HashOf(perm)(r.lhs, r.rhs)
    ensures HashBalanced(rows + [r], perms + [PermOf(r, perm)]) && HashBag.Permutes(perms + [PermOf(r, perm)], perm)
  {
    hide Inputs, Parents, HashBag.Outputs, HashBag.Consumed, HashBag.Produced, HashBag.Pad, PadWord;
    var q := PermOf(r, perm);
    RowPushed(rows, r);
    PermPushed(perms, q);
    ProducedWord(q);
    Added(multiset(Inputs(rows)), multiset(HashBag.Outputs(perms)), multiset(Parents(rows)), multiset(HashBag.Consumed(perms)),
          Input(r), ParentTuple(r));
  }

  lemma RowPushed(rows: seq<Row>, r: Row)
    requires r.enabler == 1
    ensures multiset(Inputs(rows + [r])) == multiset(Inputs(rows)) + multiset{Input(r)}
    ensures multiset(Parents(rows + [r])) == multiset(Parents(rows)) + multiset{ParentTuple(r)}
  {
    hide HashBag.Map, Enabled, Input, ParentTuple;
    EnabledPush(rows, r);
    OneMore(Input, Enabled(rows), r);
    OneMore(ParentTuple, Enabled(rows), r);
  }

  lemma PermPushed(perms: seq<HashBag.PermRow>, q: HashBag.PermRow)
    requires q.mode != HashBag.Io
    ensures multiset(HashBag.Outputs(perms + [q])) == multiset(HashBag.Outputs(perms)) + multiset{HashBag.Produced(q)}
    ensures multiset(HashBag.Consumed(perms + [q])) == multiset(HashBag.Consumed(perms)) + multiset{q.input}
  {
    hide HashBag.Map, HashBag.Hashing, HashBag.Produced;
    HashingPush(perms, q);
    OneMore(HashBag.Produced, HashBag.Hashing(perms), q);
    OneMore(HashBag.Consumes, HashBag.Hashing(perms), q);
  }

  lemma Added(
      a: multiset<HashBag.Tuple>, b: multiset<HashBag.Tuple>, c: multiset<HashBag.Tuple>, d: multiset<HashBag.Tuple>,
      s: HashBag.Tuple, t: HashBag.Tuple)
    requires a + b == c + d
    ensures (a + multiset{s}) + (b + multiset{t}) == (c + multiset{t}) + (d + multiset{s})
  {
    forall x: HashBag.Tuple
      ensures ((a + multiset{s}) + (b + multiset{t}))[x] == ((c + multiset{t}) + (d + multiset{s}))[x]
    {
      assert (a + b)[x] == (c + d)[x];
    }
  }

  lemma HashingPush(perms: seq<HashBag.PermRow>, q: HashBag.PermRow)
    requires q.mode != HashBag.Io
    ensures HashBag.Hashing(perms + [q]) == HashBag.Hashing(perms) + [q]
  {
    assert (perms + [q])[..|perms|] == perms;
  }

  lemma EnabledPush(rows: seq<Row>, r: Row)
    requires r.enabler == 1
    ensures Enabled(rows + [r]) == Enabled(rows) + [r]
  {
    assert (rows + [r])[..|rows|] == rows;
  }

  lemma OneMore<A, B>(f: A -> B, s: seq<A>, x: A)
    ensures multiset(HashBag.Map(f, s + [x])) == multiset(HashBag.Map(f, s)) + multiset{f(x)}
  {
    HashBag.MapJoins(f, s, [x]);
    assert HashBag.Map(f, [x]) == [f(x)];
  }

  lemma OrphanConstrained(c: Claim, sibling: Felt, h: Hash)
    ensures Constrained(Orphan(c, sibling, h))
  {
  }

  /** With such a row any claim is accepted next to whatever was accepted before. */
  lemma OrphanAccepted(
      rows: seq<Row>, perms: seq<HashBag.PermRow>, roots: seq<Felt>, leaves: seq<Claim>, perm: Sponge.Permutation,
      c: Claim, sibling: Felt)
    requires Accepted(rows, perms, roots, leaves, perm)
    ensures var r := Orphan(c, sibling, HashOf(perm));
            Accepted(rows + [r], perms + [PermOf(r, perm)], roots, leaves + [c], perm)
  {
    hide HashBalanced, HashBag.Permutes, Constrained, HashOf;
    var r := Orphan(c, sibling, HashOf(perm));
    OrphanConstrained(c, sibling, HashOf(perm));
    PushOne(rows, r, perms, perm);
    forall t: Claim
      ensures RowFacts.Vanishes(Net(rows + [r], t) + RootTerms(roots, t) - LeafTerms(leaves + [c], t))
    {
      NetPush(rows, r, t);
      LeafPush(leaves, c, t);
      assert RowFacts.Vanishes(Net(rows, t) + RootTerms(roots, t) - LeafTerms(leaves, t));
      hide Net, RootTerms, LeafTerms;
    }
  }

  /** Sends inputs that start with a 7 or a 3 in either place to 3, all others to 4. */
  function Marking(s: Sponge.State): Sponge.State {
    HashBag.Pad([if Sunk(s[0]) || Sunk(s[1]) then 3 else 4])
  }

  predicate Sunk(x: Felt) {
    x == 7 || x == 3
  }

  lemma MarkedHash(l: Felt, r: Felt)
    ensures HashOf(Marking)(l, r) == if Sunk(l) || Sunk(r) then 3 else 4
  {
    var s := HashBag.Pad([l, r]);
    assert s[0] == l && s[1] == r;
    assert HashOf(Marking)(l, r) == Marking(s)[0];
  }

  lemma {:induction false} SunkStays(value: Felt, path: seq<(nat, Felt)>)
    requires Sunk(value) && path != []
    ensures Fold(HashOf(Marking), value, path) == 3
    decreases |path|
  {
    hide HashOf;
    MarkedHash(value, path[0].1);
    MarkedHash(path[0].1, value);
    if |path| > 1 { SunkStays(3, path[1..]); }
  }

  /** The root row of the tree whose two halves hash to 4. */
  const ROOT_ROW := Row(0, 1, 0, 0, 4, 0, 0, 1, 4, 1)

  const FORGED := Claim(5, 30, 7, 4)

  /** A leaf that no chain of hashes connects to the only published root is accepted. */
  lemma ForgedLeaf()
    ensures var orphan := Orphan(FORGED, 0, HashOf(Marking));
            && Accepted([ROOT_ROW, orphan], [PermOf(ROOT_ROW, Marking), PermOf(orphan, Marking)], [4], [FORGED], Marking)
            && !Committed([4], HashOf(Marking), FORGED)
  {
    var orphan := Orphan(FORGED, 0, HashOf(Marking));
    RootRowAccepted();
    OrphanAccepted([ROOT_ROW], [PermOf(ROOT_ROW, Marking)], [4], [], Marking, FORGED, 0);
    assert [ROOT_ROW] + [orphan] == [ROOT_ROW, orphan] && [] + [FORGED] == [FORGED];
    assert [PermOf(ROOT_ROW, Marking)] + [PermOf(orphan, Marking)] == [PermOf(ROOT_ROW, Marking), PermOf(orphan, Marking)];
    hide Accepted, HashOf;
    forall path
      ensures !Reaches([4], HashOf(Marking), FORGED, path)
    {
      if path != [] { SunkStays(7, path); }
    }
  }

  lemma RootRowAccepted()
    ensures Accepted([ROOT_ROW], [PermOf(ROOT_ROW, Marking)], [4], [], Marking)
  {
    RootRowHashed();
    RootRowBalanced();
    assert Constrained(ROOT_ROW);
    hide HashBalanced, HashBag.Permutes, Constrained, Balanced;
  }

  lemma RootRowHashed()
    ensures HashBalanced([ROOT_ROW], [PermOf(ROOT_ROW, Marking)])
    ensures HashBag.Permutes([PermOf(ROOT_ROW, Marking)], Marking)
  {
    MarkedHash(0, 0);
    NothingBalances();
    PushOne([], ROOT_ROW, [], Marking);
    assert [] + [ROOT_ROW] == [ROOT_ROW] && [] + [PermOf(ROOT_ROW, Marking)] == [PermOf(ROOT_ROW, Marking)];
    hide *;
  }

  lemma NothingBalances()
    ensures HashBalanced([], [])
  {
    assert Inputs([]) == [] && Parents([]) == [] && HashBag.Outputs([]) == [] && HashBag.Consumed([]) == [];
  }

  lemma RootRowBalanced()
    ensures Balanced([ROOT_ROW], [4], [])
  {
    forall c: Claim
      ensures Net([ROOT_ROW], c) + RootTerms([4], c) == LeafTerms([], c)
    {
      NetPush([], ROOT_ROW, c);
      assert [] + [ROOT_ROW] == [ROOT_ROW] && [4][..0] == [];
      assert Own(ROOT_ROW) == Top(4);
    }
  }

  // -- Inputs that pass for hashes ---------------------------------------------------------------

  function SelfRow(root: Felt): Row {
    Row(0, 1, root, 0, root, 1, 0, 1, root, 1)
  }

  lemma SelfRowCloses(root: Felt)
    ensures HashBalanced([SelfRow(root)], [])
  {
    var r := SelfRow(root);
    assert [] + [r] == [r];
    EnabledPush([], r);
    SamePadding(root);
    assert Inputs([r]) == [Input(r)] && Parents([r]) == [ParentTuple(r)];
    assert HashBag.Outputs([]) == [] && HashBag.Consumed([]) == [];
    hide *;
  }

  lemma SamePadding(x: Felt)
    ensures HashBag.Pad([x, 0]) == PadWord(x)
  {
  }

  lemma SelfRowBalanced(root: Felt)
    ensures Balanced([SelfRow(root)], [root], [Claim(0, 1, root, root)])
  {
    var r, l := SelfRow(root), Claim(0, 1, root, root);
    assert [] + [r] == [r] && [] + [l] == [l] && [root][..0] == [];
    assert Own(r) == Top(root) && Left(r) == l;
    forall c: Claim
      ensures Net([r], c) + RootTerms([root], c) == LeafTerms([l], c)
    {
      NetPush([], r, c);
      LeafPush([], l, c);
    }
  }

  /** A node with its own root as left child and zero as right child needs no permutation row: for
      every permutation and root, the root itself is accepted one level down by a tied row. */
  lemma SelfCancellingNode(root: Felt, perm: Sponge.Permutation)
    ensures Accepted([SelfRow(root)], [], [root], [Claim(0, 1, root, root)], perm) && Tied([SelfRow(root)])
  {
    hide Constrained, HashBalanced, Balanced;
    SelfRowConstrained(root);
    SelfRowCloses(root);
    SelfRowBalanced(root);
  }

  lemma SelfRowConstrained(root: Felt)
    ensures Constrained(SelfRow(root))
  {
  }
}
