// Replaying Merkle openings: a multi-proof walk from the opened leaves to the
// root, then one full path of hash rows per leaf.
module Openings {
  import opened Wrappers
  import Sponge
  import SparseTree

  /** The eight words of a digest. */
  type Digest = Sponge.Block

  const NO_DIGEST: Digest := Sponge.Zeros(Sponge.RATE)

  /** hash_children, uninterpreted. */
  type Hash = (Digest, Digest) -> Digest

  type Level = map<nat, Digest>

  /** index ^ 1. */
  function Sibling(i: nat): nat {
    if i % 2 == 0 then i + 1 else i - 1
  }

  function Parent(h: Hash, i: nat, own: Digest, sibling: Digest): Digest {
    if i % 2 == 0 then h(own, sibling) else h(sibling, own)
  }

  // -- One level of the walk -----------------------------------------------------------------

  /** Parents, witness siblings, and the witness left over. */
  datatype Folded = Folded(current: Level, siblings: Level, rest: seq<Digest>)

  ghost predicate KeysOf(ks: seq<nat>, level: Level) {
    SparseTree.Increasing(ks) && forall k :: k in ks ==> k in level
  }

  /** Pair up neighbours in index order; a missing sibling comes from the witness. */
  function Fold(ks: seq<nat>, prev: Level, hashes: seq<Digest>, h: Hash): Option<Folded>
    requires KeysOf(ks, prev)
    decreases |ks|
  {
    if ks == [] then Some(Folded(map[], map[], hashes))
    else if |ks| >= 2 && ks[0] % 2 == 0 && ks[1] == ks[0] + 1 then
      assert ks[0] in ks && ks[1] in ks;
      var f :- Fold(ks[2..], prev, hashes, h);
      Some(f.(current := f.current[ks[0] / 2 := h(prev[ks[0]], prev[ks[1]])]))
    else if hashes == [] then None
    else
      assert ks[0] in ks;
      var f :- Fold(ks[1..], prev, hashes[1..], h);
      Some(f.(current := f.current[ks[0] / 2 := Parent(h, ks[0], prev[ks[0]], hashes[0])],
              siblings := f.siblings[Sibling(ks[0]) := hashes[0]]))
  }

  ghost function Keys(ks: seq<nat>): set<nat> {
    set k | k in ks
  }

  function Child(keys: set<nat>, prev: Level, f: Folded, i: nat): Digest {
    if i in keys then (if i in prev then prev[i] else NO_DIGEST) else if i in f.siblings then f.siblings[i] else NO_DIGEST
  }

  /** The parent is the hash of its two recorded children. */
  ghost predicate HashedNode(keys: set<nat>, prev: Level, f: Folded, h: Hash, p: nat) {
    && p in f.current && (2 * p in keys || 2 * p in f.siblings) && (2 * p + 1 in keys || 2 * p + 1 in f.siblings)
    && f.current[p] == h(Child(keys, prev, f, 2 * p), Child(keys, prev, f, 2 * p + 1))
  }

  /** What a folded level guarantees: every parent is the hash of two recorded children. */
  ghost predicate Hashed(keys: set<nat>, prev: Level, f: Folded, h: Hash) {
    && (forall p: nat :: p in f.current <==> 2 * p in keys || 2 * p + 1 in keys)
    && (forall i: nat :: i in f.siblings ==> i !in keys && Sibling(i) in keys)
    && (forall p: nat :: p in f.current ==> HashedNode(keys, prev, f, h, p))
  }

  lemma Tail(ks: seq<nat>, n: nat)
    requires SparseTree.Increasing(ks) && 1 <= n <= |ks|
    ensures SparseTree.Increasing(ks[n..]) && forall k :: k in ks[n..] ==> k > ks[n - 1]
    ensures Keys(ks) == Keys(ks[..n]) + Keys(ks[n..])
  {
    forall k | k in ks[n..]
      ensures k > ks[n - 1]
    {
      var i :| 0 <= i < |ks[n..]| && ks[n..][i] == k;
      assert ks[n + i] == k;
    }
    assert ks == ks[..n] + ks[n..];
  }

  lemma {:induction false} FoldHashes(ks: seq<nat>, prev: Level, hashes: seq<Digest>, h: Hash)
    requires KeysOf(ks, prev) && Fold(ks, prev, hashes, h).Some?
    ensures Hashed(Keys(ks), prev, Fold(ks, prev, hashes, h).value, h)
    decreases |ks|
  {
    hide Hashed, Keys;
    if ks == [] {
      NothingFolded(prev, hashes, h);
    } else {
      assert ks[0] in ks;
      if |ks| >= 2 && ks[0] % 2 == 0 && ks[1] == ks[0] + 1 {
        assert ks[1] in ks;
        Tail(ks, 2);
        FoldHashes(ks[2..], prev, hashes, h);
        var q := ks[0] / 2;
        PairKeys(ks);
        PairHashed(q, Keys(ks[2..]), prev, Fold(ks[2..], prev, hashes, h).value, h);
      } else {
        Tail(ks, 1);
        FoldHashes(ks[1..], prev, hashes[1..], h);
        FirstKey(ks);
        SiblingAbsent(ks);
        LoneHashed(ks[0], Keys(ks[1..]), prev, hashes[0], Fold(ks[1..], prev, hashes[1..], h).value, h);
      }
    }
  }

  lemma NothingFolded(prev: Level, hashes: seq<Digest>, h: Hash)
    ensures Hashed(Keys([]), prev, Folded(map[], map[], hashes), h)
  {
  }

  lemma PairKeys(ks: seq<nat>)
    requires SparseTree.Increasing(ks) && |ks| >= 2 && ks[0] % 2 == 0 && ks[1] == ks[0] + 1
    ensures Keys(ks) == Keys(ks[2..]) + {2 * (ks[0] / 2), 2 * (ks[0] / 2) + 1}
    ensures forall k :: k in Keys(ks[2..]) ==> k > ks[1]
  {
    Tail(ks, 2);
    assert ks[..2] == [ks[0], ks[1]];
    assert Keys(ks[..2]) == {ks[0], ks[1]};
  }

  lemma FirstKey(ks: seq<nat>)
    requires SparseTree.Increasing(ks) && |ks| >= 1
    ensures Keys(ks) == Keys(ks[1..]) + {ks[0]}
  {
    Tail(ks, 1);
    assert ks[..1] == [ks[0]];
  }

  /** An index reached alone has no sibling among the later ones. */
  lemma SiblingAbsent(ks: seq<nat>)
    requires SparseTree.Increasing(ks) && |ks| >= 1 && !(|ks| >= 2 && ks[0] % 2 == 0 && ks[1] == ks[0] + 1)
    ensures Sibling(ks[0]) !in Keys(ks[1..]) && forall k :: k in Keys(ks[1..]) ==> k > ks[0]
  {
    Tail(ks, 1);
    if |ks| >= 2 { Tail(ks, 2); }
    forall k | k in ks[1..]
      ensures k != Sibling(ks[0])
    {
      var i :| 0 <= i < |ks[1..]| && ks[1..][i] == k;
      assert ks[1 + i] == k;
    }
  }

  lemma PairHashed(q: nat, keys: set<nat>, prev: Level, f: Folded, h: Hash)
    requires 2 * q in prev && 2 * q + 1 in prev && Hashed(keys, prev, f, h) && forall k :: k in keys ==> k > 2 * q + 1
    ensures Hashed(keys + {2 * q, 2 * q + 1}, prev,
                   f.(current := f.current[q := h(prev[2 * q], prev[2 * q + 1])]), h)
  {
    var all, g := keys + {2 * q, 2 * q + 1}, f.(current := f.current[q := h(prev[2 * q], prev[2 * q + 1])]);
    forall p: nat | p in g.current
      ensures HashedNode(all, prev, g, h, p)
    {
      if p != q {
        assert HashedNode(keys, prev, f, h, p);
        SameNode(keys, all, prev, f, g, h, p);
      }
    }
    forall i: nat | i in g.siblings
      ensures i !in all && Sibling(i) in all
    {
      assert Sibling(i) in keys && Sibling(i) > 2 * q + 1;
    }
  }

  /** A fold in which k was reached alone, w being its sibling. */
  function WithLone(k: nat, prev: Level, w: Digest, f: Folded, h: Hash): Folded
    requires k in prev
  {
    f.(current := f.current[k / 2 := Parent(h, k, prev[k], w)], siblings := f.siblings[Sibling(k) := w])
  }

  lemma LoneHashed(k: nat, keys: set<nat>, prev: Level, w: Digest, f: Folded, h: Hash)
    requires k in prev && Hashed(keys, prev, f, h) && Sibling(k) !in keys && forall j :: j in keys ==> j > k
    ensures Hashed(keys + {k}, prev, WithLone(k, prev, w, f, h), h)
  {
    var all, g := keys + {k}, WithLone(k, prev, w, f, h);
    hide HashedNode, Parent;
    forall p: nat | p in g.current
      ensures HashedNode(all, prev, g, h, p)
    {
      if p == k / 2 { LoneNode(k, keys, prev, w, f, h); } else { OtherNode(k, keys, prev, w, f, h, p); }
    }
    forall i: nat | i in g.siblings
      ensures i !in all && Sibling(i) in all
    {
      LoneSibling(k, keys, prev, f, h, i);
    }
  }

  lemma LoneNode(k: nat, keys: set<nat>, prev: Level, w: Digest, f: Folded, h: Hash)
    requires k in prev && Sibling(k) !in keys
    ensures HashedNode(keys + {k}, prev, WithLone(k, prev, w, f, h), h, k / 2)
  {
    if k % 2 == 0 {
      assert 2 * (k / 2) == k && Sibling(k) == k + 1;
    } else {
      assert 2 * (k / 2) + 1 == k && Sibling(k) == k - 1;
    }
  }

  lemma OtherNode(k: nat, keys: set<nat>, prev: Level, w: Digest, f: Folded, h: Hash, p: nat)
    requires k in prev && p != k / 2 && p in f.current && HashedNode(keys, prev, f, h, p)
    ensures HashedNode(keys + {k}, prev, WithLone(k, prev, w, f, h), h, p)
  {
    hide HashedNode, Parent;
    SameNode(keys, keys + {k}, prev, f, WithLone(k, prev, w, f, h), h, p);
  }

  lemma LoneSibling(k: nat, keys: set<nat>, prev: Level, f: Folded, h: Hash, i: nat)
    requires Hashed(keys, prev, f, h) && Sibling(k) !in keys && forall j :: j in keys ==> j > k
    requires i == Sibling(k) || i in f.siblings
    ensures i !in keys + {k} && Sibling(i) in keys + {k}
  {
    if i == Sibling(k) { assert Sibling(i) == k; } else { assert Sibling(i) in keys && Sibling(i) > k; }
  }

  /** A node whose children are recorded as before. */
  lemma SameNode(keys: set<nat>, all: set<nat>, prev: Level, f: Folded, g: Folded, h: Hash, p: nat)
    requires HashedNode(keys, prev, f, h, p) && p in g.current && g.current[p] == f.current[p] && keys <= all
    requires forall i :: 2 * p <= i <= 2 * p + 1 ==> (i in all <==> i in keys)
    requires forall i :: 2 * p <= i <= 2 * p + 1 && i !in keys ==>
               (i in g.siblings <==> i in f.siblings) && (i in g.siblings ==> g.siblings[i] == f.siblings[i])
    ensures HashedNode(all, prev, g, h, p)
  {
  }

  // -- The loop over one level ---------------------------------------------------------------

  /** Two increasing sequences with the same members are the same sequence. */
  lemma {:induction false} OneOrder(a: seq<nat>, b: seq<nat>)
    requires SparseTree.Increasing(a) && SparseTree.Increasing(b) && forall k :: k in a <==> k in b
    ensures a == b
    decreases |a|
  {
    FirstIsMember(a);
    FirstIsMember(b);
    if a == [] {
    } else {
      Tail(a, 1);
      Tail(b, 1);
      assert a == [a[0]] + a[1..] && b == [b[0]] + b[1..];
      forall k: nat
        ensures k in a[1..] <==> k in b[1..]
      {
        assert k in a <==> k in b;
        assert k in a <==> k == a[0] || k in a[1..];
        assert k in b <==> k == b[0] || k in b[1..];
      }
      OneOrder(a[1..], b[1..]);
    }
  }

  lemma FirstIsMember(s: seq<nat>)
    ensures s != [] ==> s[0] in s
  {
  }

  lemma OrderExists(keys: set<nat>) returns (ks: seq<nat>)
    ensures SparseTree.Increasing(ks) && forall k :: k in ks <==> k in keys
    decreases |keys|
  {
    if keys == {} {
      ks := [];
    } else {
      var m := SparseTree.MinimumExists(keys);
      var rest := OrderExists(keys - {m});
      ks := [m] + rest;
      forall i, j | 0 <= i < j < |ks|
        ensures ks[i] < ks[j]
      {
        assert ks[j] in rest;
      }
    }
  }

  /** The keys in increasing order. */
  ghost function Ordered(keys: set<nat>): (ks: seq<nat>)
    ensures SparseTree.Increasing(ks) && (forall k :: k in ks <==> k in keys) && Keys(ks) == keys
  {
    assert exists ks: seq<nat> :: SparseTree.Increasing(ks) && (forall k :: k in ks <==> k in keys) by {
      var ks := OrderExists(keys);
    }
    var ks :| SparseTree.Increasing(ks) && forall k :: k in ks <==> k in keys;
    ks
  }

  ghost function FoldLevel(prev: Level, hashes: seq<Digest>, h: Hash): Option<Folded> {
    Fold(Ordered(prev.Keys), prev, hashes, h)
  }

  /** What the loop has built, joined with what the remaining keys give. */
  function Joined(current: Level, used: Level, later: Option<Folded>): Option<Folded> {
    match later
    case None => None
    case Some(f) => Some(Folded(f.current + current, f.siblings + used, f.rest))
  }

  function Recorded(used: seq<(nat, Digest)>): Level {
    if used == [] then map[] else Recorded(used[..|used| - 1])[used[|used| - 1].0 := used[|used| - 1].1]
  }

  /** What the loop keeps about the nodes built so far: they precede every later one. */
  ghost predicate Before(ks: seq<nat>, n: nat, current: Level, used: Level)
    requires n <= |ks|
  {
    && (forall p, i :: p in current && n <= i < |ks| ==> p < ks[i] / 2)
    && (forall s, i :: s in used && n <= i < |ks| ==> s != Sibling(ks[i]))
  }

  /** Hash the nodes of one level pairwise, drawing absent siblings from the witness. */
  method HashPairs(prev: Level, hashes: seq<Digest>, h: Hash) returns (r: Option<Folded>)
    ensures r == FoldLevel(prev, hashes, h)
  {
    hide Fold, FoldLevel, Before, Joined, Recorded, KeysOf, Ordered, Keys, SparseTree.Increasing, Sibling;
    var ks := SparseTree.SortedKeys(prev.Keys);
    OneOrder(ks, Ordered(prev.Keys));
    SortedAreKeys(ks, prev);
    var current: Level, used: seq<(nat, Digest)>, rest, n := map[], [], hashes, 0;
    StartJoined(ks, prev, hashes, h);
    while n < |ks|
      invariant n <= |ks| && KeysOf(ks, prev) && KeysOf(ks[n..], prev)
      invariant Before(ks, n, current, Recorded(used))
      invariant Fold(ks, prev, hashes, h) == Joined(current, Recorded(used), Fold(ks[n..], prev, rest, h))
    {
      TailKeys(ks, n, prev);
      var index, digest := ks[n], prev[ks[n]];
      if n + 1 < |ks| && index % 2 == 0 && ks[n + 1] == Sibling(index) {
        PairStep(ks, n, prev, rest, h, current, Recorded(used));
        current := current[index / 2 := h(digest, prev[ks[n + 1]])];
        n := n + 2;
      } else {
        LoneStep(ks, n, prev, rest, h, current, Recorded(used));
        if rest == [] {
          r := None;
          FoldLevelIs(ks, prev, hashes, h);
          return;
        }
        var sibling := rest[0];
        rest := rest[1..];
        RecordedPush(used, Sibling(index), sibling);
        used := used + [(Sibling(index), sibling)];
        current := current[index / 2 := if index % 2 == 0 then h(digest, sibling) else h(sibling, digest)];
        n := n + 1;
      }
    }
    EndJoined(ks, prev, rest, h, current, Recorded(used));
    FoldLevelIs(ks, prev, hashes, h);
    var siblings := Collect(used);
    r := Some(Folded(current, siblings, rest));
  }

  method Collect(used: seq<(nat, Digest)>) returns (level: Level)
    ensures level == Recorded(used)
  {
    level := map[];
    var i := 0;
    while i < |used|
      invariant i <= |used| && level == Recorded(used[..i])
    {
      RecordedPush(used[..i], used[i].0, used[i].1);
      assert used[..i] + [(used[i].0, used[i].1)] == used[..i + 1];
      level := level[used[i].0 := used[i].1];
      i := i + 1;
    }
    assert used[..i] == used;
  }

  lemma RecordedPush(used: seq<(nat, Digest)>, i: nat, d: Digest)
    ensures Recorded(used + [(i, d)]) == Recorded(used)[i := d]
  {
    assert (used + [(i, d)])[..|used|] == used;
  }

  lemma SortedAreKeys(ks: seq<nat>, prev: Level)
    requires SparseTree.Increasing(ks) && forall k :: k in ks <==> k in prev
    ensures KeysOf(ks, prev)
  {
  }

  lemma FoldLevelIs(ks: seq<nat>, prev: Level, hashes: seq<Digest>, h: Hash)
    requires ks == Ordered(prev.Keys) && KeysOf(ks, prev)
    ensures FoldLevel(prev, hashes, h) == Fold(ks, prev, hashes, h)
  {
    hide Fold, KeysOf;
  }

  lemma TailKeys(ks: seq<nat>, n: nat, prev: Level)
    requires KeysOf(ks, prev) && n < |ks|
    ensures ks[n] in prev && KeysOf(ks[n..], prev) && KeysOf(ks[n + 1..], prev)
    ensures n + 1 < |ks| ==> ks[n + 1] in prev && KeysOf(ks[n + 2..], prev)
  {
    assert ks[n] in ks;
    if n + 1 < |ks| { assert ks[n + 1] in ks; }
    forall k | k in ks[n..]
      ensures k in prev
    {
      assert k in ks;
    }
  }

  lemma StartJoined(ks: seq<nat>, prev: Level, hashes: seq<Digest>, h: Hash)
    requires KeysOf(ks, prev)
    ensures KeysOf(ks[0..], prev) && Before(ks, 0, map[], Recorded([]))
    ensures Fold(ks, prev, hashes, h) == Joined(map[], Recorded([]), Fold(ks[0..], prev, hashes, h))
  {
    hide Fold;
    assert ks[0..] == ks;
    var later := Fold(ks, prev, hashes, h);
    if later.Some? {
      assert later.value.current + map[] == later.value.current;
      assert later.value.siblings + map[] == later.value.siblings;
    }
  }

  lemma EndJoined(ks: seq<nat>, prev: Level, rest: seq<Digest>, h: Hash, current: Level, used: Level)
    requires KeysOf(ks[|ks|..], prev)
    ensures Joined(current, used, Fold(ks[|ks|..], prev, rest, h)) == Some(Folded(current, used, rest))
  {
    assert ks[|ks|..] == [];
    assert map[] + current == current && map[] + used == used;
  }

  lemma PairStep(
      ks: seq<nat>, n: nat, prev: Level, rest: seq<Digest>, h: Hash, current: Level, used: Level)
    requires KeysOf(ks, prev) && n + 1 < |ks| && ks[n] in prev && ks[n + 1] in prev
    requires KeysOf(ks[n..], prev) && KeysOf(ks[n + 2..], prev)
    requires ks[n] % 2 == 0 && ks[n + 1] == Sibling(ks[n]) && Before(ks, n, current, used)
    ensures var grown := current[ks[n] / 2 := h(prev[ks[n]], prev[ks[n + 1]])];
            && Before(ks, n + 2, grown, used)
            && Joined(current, used, Fold(ks[n..], prev, rest, h)) == Joined(grown, used, Fold(ks[n + 2..], prev, rest, h))
  {
    var t := ks[n..];
    assert t[0] == ks[n] && t[1] == ks[n + 1] && t[2..] == ks[n + 2..];
    PairUnfold(t, prev, rest, h);
    hide Fold;
    var p, v := ks[n] / 2, h(prev[ks[n]], prev[ks[n + 1]]);
    assert p !in current;
    var later := Fold(ks[n + 2..], prev, rest, h);
    if later.Some? {
      assert later.value.current[p := v] + current == later.value.current + current[p := v];
    }
  }

  lemma PairUnfold(t: seq<nat>, prev: Level, rest: seq<Digest>, h: Hash)
    requires KeysOf(t, prev) && |t| >= 2 && t[0] in prev && t[1] in prev && t[0] % 2 == 0 && t[1] == t[0] + 1
    requires KeysOf(t[2..], prev)
    ensures var later := Fold(t[2..], prev, rest, h);
            Fold(t, prev, rest, h)
            == if later.None? then None
               else Some(later.value.(current := later.value.current[t[0] / 2 := h(prev[t[0]], prev[t[1]])]))
  {
  }

  lemma LoneStep(
      ks: seq<nat>, n: nat, prev: Level, rest: seq<Digest>, h: Hash, current: Level, used: Level)
    requires KeysOf(ks, prev) && n < |ks| && ks[n] in prev && KeysOf(ks[n..], prev) && KeysOf(ks[n + 1..], prev)
    requires !(n + 1 < |ks| && ks[n] % 2 == 0 && ks[n + 1] == Sibling(ks[n])) && Before(ks, n, current, used)
    ensures rest == [] ==> Joined(current, used, Fold(ks[n..], prev, rest, h)) == None
    ensures rest != [] ==>
              var grown := current[ks[n] / 2 := Parent(h, ks[n], prev[ks[n]], rest[0])];
              var more := used[Sibling(ks[n]) := rest[0]];
              && Before(ks, n + 1, grown, more)
              && Joined(current, used, Fold(ks[n..], prev, rest, h))
                 == Joined(grown, more, Fold(ks[n + 1..], prev, rest[1..], h))
  {
    var t := ks[n..];
    assert t[0] == ks[n] && t[1..] == ks[n + 1..];
    if n + 1 < |ks| { assert t[1] == ks[n + 1]; }
    LoneUnfold(t, prev, rest, h);
    hide Fold;
    if rest != [] {
      var p, s := ks[n] / 2, Sibling(ks[n]);
      var v := Parent(h, ks[n], prev[ks[n]], rest[0]);
      LoneBefore(ks, n, current, used, v, rest[0]);
      var later := Fold(ks[n + 1..], prev, rest[1..], h);
      if later.Some? {
        assert later.value.current[p := v] + current == later.value.current + current[p := v];
        assert later.value.siblings[s := rest[0]] + used == later.value.siblings + used[s := rest[0]];
      }
    }
  }

  lemma LoneBefore(ks: seq<nat>, n: nat, current: Level, used: Level, v: Digest, w: Digest)
    requires SparseTree.Increasing(ks) && n < |ks| && Before(ks, n, current, used)
    requires !(n + 1 < |ks| && ks[n] % 2 == 0 && ks[n + 1] == Sibling(ks[n]))
    ensures ks[n] / 2 !in current && Sibling(ks[n]) !in used
    ensures Before(ks, n + 1, current[ks[n] / 2 := v], used[Sibling(ks[n]) := w])
  {
    forall i | n + 1 <= i < |ks|
      ensures ks[n] / 2 < ks[i] / 2 && Sibling(ks[n]) != Sibling(ks[i])
    {
      assert ks[n] < ks[i];
      if i > n + 1 { assert ks[n + 1] < ks[i]; }
    }
  }

  lemma LoneUnfold(t: seq<nat>, prev: Level, rest: seq<Digest>, h: Hash)
    requires KeysOf(t, prev) && |t| >= 1 && t[0] in prev && KeysOf(t[1..], prev)
    requires !(|t| >= 2 && t[0] % 2 == 0 && t[1] == t[0] + 1)
    ensures rest == [] ==> Fold(t, prev, rest, h) == None
    ensures rest != [] ==>
              var later := Fold(t[1..], prev, rest[1..], h);
              Fold(t, prev, rest, h)
              == if later.None? then None
                 else Some(later.value.(current := later.value.current[t[0] / 2 := Parent(h, t[0], prev[t[0]], rest[0])],
                                        siblings := later.value.siblings[Sibling(t[0]) := rest[0]]))
  {
  }
}
