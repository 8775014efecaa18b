// The Poseidon2 permutation over sixteen field elements, as a function and in
// place on an array.  The constants are parameters.
module Poseidon2 {
  import opened M31
  import opened FeltSemantics
  import opened Sponge

  const FULL_ROUNDS := 8
  const PARTIAL_ROUNDS := 14

  /** Round constants (external ones flattened, sixteen to a round) and the internal diagonal. */
  datatype Constants = Constants(external: seq<nat>, internal: seq<nat>, matrix: seq<nat>) {
    predicate Valid() {
      |external| == FULL_ROUNDS * T && |internal| == PARTIAL_ROUNDS && |matrix| == T
    }
  }

  // -- The rounds --------------------------------------------------------------------------------

  /** The addition chain of the 4x4 block, lane i of its output. */
  function M4(x0: Felt, x1: Felt, x2: Felt, x3: Felt, i: nat): Felt {
    var t0, t1 := FAdd(x0, x1), FAdd(x2, x3);
    var t2, t3 := FAdd(FMul(2, x1), t1), FAdd(FMul(2, x3), t0);
    var t4, t5 := FAdd(FMul(4, t1), t3), FAdd(FMul(4, t0), t2);
    if i == 0 then FAdd(t3, t5) else if i == 1 then t5 else if i == 2 then FAdd(t2, t4) else t4
  }

  /** The chain is the matrix with rows (5 7 1 3), (4 6 1 1), (1 3 5 7), (1 1 4 6). */
  lemma M4IsMatrix(x0: Felt, x1: Felt, x2: Felt, x3: Felt)
    ensures M4(x0, x1, x2, x3, 0) == Reduce(5 * x0 + 7 * x1 + x2 + 3 * x3)
    ensures M4(x0, x1, x2, x3, 1) == Reduce(4 * x0 + 6 * x1 + x2 + x3)
    ensures M4(x0, x1, x2, x3, 2) == Reduce(x0 + 3 * x1 + 5 * x2 + 7 * x3)
    ensures M4(x0, x1, x2, x3, 3) == Reduce(x0 + x1 + 4 * x2 + 6 * x3)
  {
    hide Reduce, FAdd, FMul;
    Chain(x0, x1, x2, x3);
    Chain(x2, x3, x0, x1);
    SelfReduced(x0);
    SelfReduced(x1);
    SelfReduced(x2);
    SelfReduced(x3);
    var t0, t1 := FAdd(x0, x1), FAdd(x2, x3);
    var t2, t3 := FAdd(FMul(2, x1), t1), FAdd(FMul(2, x3), t0);
    var t4, t5 := FAdd(FMul(4, t1), t3), FAdd(FMul(4, t0), t2);
    AddReduced(t3, t5, x0 + x1 + 2 * x3, 4 * x0 + 6 * x1 + x2 + x3);
    AddReduced(t2, t4, 2 * x1 + x2 + x3, x0 + x1 + 4 * x2 + 6 * x3);
  }

  /** The steps of the chain, for one half of the lanes. */
  lemma Chain(x0: Felt, x1: Felt, x2: Felt, x3: Felt)
    ensures var t0, t1 := FAdd(x0, x1), FAdd(x2, x3);
            && FAdd(FMul(2, x1), t1) == Reduce(2 * x1 + x2 + x3)
            && FAdd(FMul(4, t0), FAdd(FMul(2, x1), t1)) == Reduce(4 * x0 + 6 * x1 + x2 + x3)
  {
    hide Reduce, FAdd, FMul;
    var t0, t1 := FAdd(x0, x1), FAdd(x2, x3);
    SelfReduced(x0);
    SelfReduced(x1);
    SelfReduced(x2);
    SelfReduced(x3);
    AddReduced(x0, x1, x0, x1);
    AddReduced(x2, x3, x2, x3);
    ScaleReduced(2, x1, x1);
    AddReduced(FMul(2, x1), t1, 2 * x1, x2 + x3);
    ScaleReduced(4, t0, x0 + x1);
    AddReduced(FMul(4, t0), FAdd(FMul(2, x1), t1), 4 * (x0 + x1), 2 * x1 + (x2 + x3));
  }

  lemma AddReduced(a: Felt, b: Felt, x: int, y: int)
    requires a == Reduce(x) && b == Reduce(y)
    ensures FAdd(a, b) == Reduce(x + y)
  {
    var q, r := x / P, y / P;
    assert x + y == a + b + P * (q + r);
    Shift(a + b, q + r);
  }

  lemma ScaleReduced(k: Felt, a: Felt, x: int)
    requires a == Reduce(x)
    ensures FMul(k, a) == Reduce(k * x)
  {
    var q := x / P;
    assert x == a + P * q;
    assert k * x == k * a + P * (k * q);
    Shift(k * a, k * q);
  }

  lemma Shift(x: int, q: int)
    ensures Reduce(x + P * q) == Reduce(x)
  {
    assert (x + P * q) % P == x % P;
  }

  /** M4 on each block of four lanes. */
  function Mixed(s: State): State {
    seq(T, k requires 0 <= k < T => var b := k - k % 4; M4(s[b], s[b + 1], s[b + 2], s[b + 3], k % 4))
  }

  function ColumnSum(m: State, j: nat): Felt
    requires j < 4
  {
    FAdd(FAdd(FAdd(m[j], m[j + 4]), m[j + 8]), m[j + 12])
  }

  /** The external round matrix: every lane adds its column's sum across the blocks. */
  function External(s: State): State {
    seq(T, k requires 0 <= k < T => FAdd(Mixed(s)[k], ColumnSum(Mixed(s), k % 4)))
  }

  /** The s-box layer of full round r. */
  function Boxed(s: State, c: Constants, r: nat): State
    requires c.Valid() && r < FULL_ROUNDS
  {
    seq(T, j requires 0 <= j < T => FPow(FAdd(s[j], Reduce(c.external[16 * r + j])), 5))
  }

  function FullRounds(s: State, c: Constants, from: nat, to: nat): State
    requires c.Valid() && to <= FULL_ROUNDS
    decreases if from < to then to - from else 0
  {
    if from >= to then s else FullRounds(External(Boxed(s, c, from)), c, from + 1, to)
  }

  function LaneSum(s: Words): Felt
    requires s != []
  {
    if |s| == 1 then s[0] else FAdd(LaneSum(s[..|s| - 1]), s[|s| - 1])
  }

  /** The internal round matrix: the diagonal, plus the sum of all lanes. */
  function Internal(s: State, c: Constants): State
    requires c.Valid()
  {
    seq(T, j requires 0 <= j < T => FAdd(FMul(s[j], Reduce(c.matrix[j])), LaneSum(s)))
  }

  function FirstBoxed(s: State, c: Constants, r: nat): State
    requires c.Valid() && r < PARTIAL_ROUNDS
  {
    s[0 := FPow(FAdd(s[0], Reduce(c.internal[r])), 5)]
  }

  function PartialRounds(s: State, c: Constants, from: nat): State
    requires c.Valid()
    decreases if from < PARTIAL_ROUNDS then PARTIAL_ROUNDS - from else 0
  {
    if from >= PARTIAL_ROUNDS then s else PartialRounds(Internal(FirstBoxed(s, c, from), c), c, from + 1)
  }

  function Permute(s: State, c: Constants): State
    requires c.Valid()
  {
    FullRounds(PartialRounds(FullRounds(External(s), c, 0, 4), c, 0), c, 4, 8)
  }

  // -- In place ----------------------------------------------------------------------------------

  /** apply_m4, by doublings. */
  method ApplyM4(x: seq<Felt>) returns (out: seq<Felt>)
    requires |x| == 4
    ensures |out| == 4 && forall i :: 0 <= i < 4 ==> out[i] == M4(x[0], x[1], x[2], x[3], i)
  {
    var t0 := FAdd(x[0], x[1]);
    var t02 := FAdd(t0, t0);
    var t1 := FAdd(x[2], x[3]);
    var t12 := FAdd(t1, t1);
    var t2 := FAdd(FAdd(x[1], x[1]), t1);
    var t3 := FAdd(FAdd(x[3], x[3]), t0);
    var t4 := FAdd(FAdd(t12, t12), t3);
    var t5 := FAdd(FAdd(t02, t02), t2);
    Doubled(x[1]);
    Doubled(x[3]);
    Doubled(t0);
    Doubled(t1);
    hide FAdd, FMul;
    out := [FAdd(t3, t5), t5, FAdd(t2, t4), t4];
  }

  lemma Doubled(x: Felt)
    ensures FAdd(x, x) == FMul(2, x) && FAdd(FAdd(x, x), FAdd(x, x)) == FMul(4, x)
  {
    hide Reduce;
    assert x + x == 2 * x;
    SelfReduced(x);
    AddReduced(x, x, x, x);
    AddReduced(FAdd(x, x), FAdd(x, x), x + x, x + x);
  }

  lemma SelfReduced(x: Felt)
    ensures Reduce(x) == x
  {
  }

  /** x^4 * x is x^5. */
  lemma FifthPower(x: Felt)
    ensures FMul(FMul(FMul(x, x), FMul(x, x)), x) == FPow(x, 5)
  {
    FiveTimes(x);
    hide FMul, FPow;
    var x2 := FMul(x, x);
    MulMoves(x, x, x2);
    MulSwaps(FMul(x2, x2), x);
  }

  lemma FiveTimes(x: Felt)
    ensures FPow(x, 5) == FMul(x, FMul(x, FMul(x, FMul(x, x))))
  {
    hide FMul;
    OneTimes(x);
    assert FPow(x, 1) == FMul(x, FPow(x, 0));
    assert FPow(x, 2) == FMul(x, x);
    assert FPow(x, 3) == FMul(x, FPow(x, 2));
    assert FPow(x, 4) == FMul(x, FPow(x, 3));
  }

  lemma OneTimes(x: Felt)
    ensures FMul(x, 1) == x
  {
  }

  lemma MulSwaps(a: Felt, b: Felt)
    ensures FMul(a, b) == FMul(b, a)
  {
    assert a * b == b * a;
  }

  lemma MulMoves(a: Felt, b: Felt, c: Felt)
    ensures FMul(a, FMul(b, c)) == FMul(FMul(a, b), c)
  {
    hide Reduce;
    SelfReduced(a);
    SelfReduced(c);
    assert a * (b * c) == c * (a * b);
    ScaleReduced(a, FMul(b, c), b * c);
    ScaleReduced(c, FMul(a, b), a * b);
    assert FMul(a, b) * c == c * FMul(a, b);
  }

  method ApplyExternalRoundMatrix(state: array<Felt>)
    requires state.Length == T
    modifies state
    ensures state[..] == External(old(state[..]))
  {
    hide *;
    ghost var s: State := state[..];
    MixBlocks(state);
    ghost var m := Mixed(s);
    NoColumns(m);
    var j := 0;
    while j < 4
      invariant j <= 4 && state[..] == Columns(m, j)
    {
      AddColumn(state, m, j);
      j := j + 1;
    }
    AllColumns(s);
  }

  /** M4 on each block of four lanes, in place. */
  method MixBlocks(state: array<Felt>)
    requires state.Length == T
    modifies state
    ensures state[..] == Mixed(old(state[..]))
  {
    hide M4, Mixed, FAdd;
    ghost var s: State := state[..];
    var i := 0;
    while i < 4
      invariant i <= 4
      invariant forall k :: 0 <= k < 4 * i ==> state[k] == Mixed(s)[k]
      invariant forall k :: 4 * i <= k < T ==> state[k] == s[k]
    {
      var base := 4 * i;
      var out := ApplyM4([state[base], state[base + 1], state[base + 2], state[base + 3]]);
      MixedAt(s, i);
      state[base], state[base + 1], state[base + 2], state[base + 3] := out[0], out[1], out[2], out[3];
      i := i + 1;
    }
    assert state[..] == Mixed(s);
  }

  /** The mixed lanes with the sums of the first n columns added. */
  function Columns(m: State, n: nat): State {
    seq(T, k requires 0 <= k < T => if k % 4 < n then FAdd(m[k], ColumnSum(m, k % 4)) else m[k])
  }

  lemma NoColumns(m: State)
    ensures Columns(m, 0) == m
  {
  }

  lemma AllColumns(s: State)
    ensures Columns(Mixed(s), 4) == External(s)
  {
    hide Mixed, ColumnSum, FAdd;
  }

  predicate InColumn(k: int, j: int) {
    k == j || k == j + 4 || k == j + 8 || k == j + 12
  }

  lemma NextColumn(m: State, j: nat, after: Words)
    requires j < 4 && |after| == T
    requires forall k :: 0 <= k < T ==>
               after[k] == if InColumn(k, j) then FAdd(Columns(m, j)[k], ColumnSum(m, j)) else Columns(m, j)[k]
    ensures after == Columns(m, j + 1)
  {
    hide FAdd, ColumnSum;
    forall k | 0 <= k < T
      ensures after[k] == Columns(m, j + 1)[k]
    {
      assert InColumn(k, j) <==> k % 4 == j;
    }
  }

  lemma ColumnUntouched(m: State, j: nat)
    requires j < 4
    ensures var c := Columns(m, j); c[j] == m[j] && c[j + 4] == m[j + 4] && c[j + 8] == m[j + 8] && c[j + 12] == m[j + 12]
  {
    hide FAdd, ColumnSum;
    assert j % 4 == j && (j + 4) % 4 == j && (j + 8) % 4 == j && (j + 12) % 4 == j;
  }

  lemma MixedAt(s: State, i: nat)
    requires i < 4
    ensures Mixed(s)[4 * i] == M4(s[4 * i], s[4 * i + 1], s[4 * i + 2], s[4 * i + 3], 0)
    ensures Mixed(s)[4 * i + 1] == M4(s[4 * i], s[4 * i + 1], s[4 * i + 2], s[4 * i + 3], 1)
    ensures Mixed(s)[4 * i + 2] == M4(s[4 * i], s[4 * i + 1], s[4 * i + 2], s[4 * i + 3], 2)
    ensures Mixed(s)[4 * i + 3] == M4(s[4 * i], s[4 * i + 1], s[4 * i + 2], s[4 * i + 3], 3)
  {
    hide M4;
    assert (4 * i) % 4 == 0 && (4 * i + 1) % 4 == 1 && (4 * i + 2) % 4 == 2 && (4 * i + 3) % 4 == 3;
  }

  lemma ColumnSumIs(m: State, j: nat)
    requires j < 4
    ensures ColumnSum(m, j) == FAdd(FAdd(FAdd(FAdd(0, m[j]), m[j + 4]), m[j + 8]), m[j + 12])
  {
    ZeroPlus(m[j]);
    hide FAdd;
  }

  /** Sum column j and add it to each of its four lanes. */
  method AddColumn(state: array<Felt>, ghost m: State, j: nat)
    requires state.Length == T && j < 4 && state[..] == Columns(m, j)
    modifies state
    ensures state[..] == Columns(m, j + 1)
  {
    hide Columns, FAdd, ColumnSum;
    ghost var before: State := state[..];
    ColumnUntouched(m, j);
    ColumnSumIs(m, j);
    assert state[j] == before[j] && state[j + 4] == before[j + 4] && state[j + 8] == before[j + 8] && state[j + 12] == before[j + 12];
    var sum: Felt := 0;
    sum := FAdd(sum, state[j]);
    sum := FAdd(sum, state[j + 4]);
    sum := FAdd(sum, state[j + 8]);
    sum := FAdd(sum, state[j + 12]);
    var i := 0;
    while i < 4
      invariant i <= 4
      invariant forall k :: 0 <= k < T ==>
                  state[k] == if InColumn(k, j) && k < 4 * i then FAdd(before[k], sum) else before[k]
    {
      var idx := 4 * i + j;
      state[idx] := FAdd(state[idx], sum);
      i := i + 1;
    }
    NextColumn(m, j, state[..]);
  }

  lemma ZeroPlus(x: Felt)
    ensures FAdd(0, x) == x
  {
  }

  method ApplyInternalRoundMatrix(state: array<Felt>, c: Constants)
    requires state.Length == T && c.Valid()
    modifies state
    ensures state[..] == Internal(old(state[..]), c)
  {
    hide FAdd, FMul, LaneSum, Reduce;
    ghost var s: State := state[..];
    var sum, i := 0, 0;
    while i < T
      invariant i <= T && state[..] == s
      invariant i == 0 ==> sum == 0
      invariant i > 0 ==> sum == LaneSum(s[..i])
    {
      LaneSumPush(s, i);
      sum := FAdd(sum, state[i]);
      i := i + 1;
    }
    assert s[..T] == s;
    i := 0;
    while i < T
      invariant i <= T
      invariant forall k :: 0 <= k < i ==> state[k] == FAdd(FMul(s[k], Reduce(c.matrix[k])), LaneSum(s))
      invariant forall k :: i <= k < T ==> state[k] == s[k]
    {
      state[i] := FAdd(FMul(state[i], Reduce(c.matrix[i])), sum);
      i := i + 1;
    }
    assert state[..] == Internal(s, c);
  }

  lemma LaneSumPush(s: Words, i: nat)
    requires i < |s|
    ensures LaneSum(s[..i + 1]) == if i == 0 then FAdd(0, s[0]) else FAdd(LaneSum(s[..i]), s[i])
  {
    ZeroPlus(s[0]);
    assert s[..i + 1][..i] == s[..i];
  }

  /** The s-box on every lane of a full round: square, square, multiply. */
  method BoxAll(state: array<Felt>, c: Constants, r: nat)
    requires state.Length == T && c.Valid() && r < FULL_ROUNDS
    modifies state
    ensures state[..] == Boxed(old(state[..]), c, r)
  {
    hide FAdd, FMul, FPow, Reduce;
    ghost var s: State := state[..];
    var i := 0;
    while i < T
      invariant i <= T
      invariant forall k :: 0 <= k < i ==> state[k] == FAdd(s[k], Reduce(c.external[16 * r + k]))
      invariant forall k :: i <= k < T ==> state[k] == s[k]
    {
      state[i] := FAdd(state[i], Reduce(c.external[16 * r + i]));
      i := i + 1;
    }
    var initial := state[..];
    i := 0;
    while i < T
      invariant i <= T
      invariant forall k :: 0 <= k < i ==> state[k] == FMul(FMul(initial[k], initial[k]), FMul(initial[k], initial[k]))
      invariant forall k :: i <= k < T ==> state[k] == initial[k]
    {
      state[i] := FMul(FMul(state[i], state[i]), FMul(state[i], state[i]));
      i := i + 1;
    }
    i := 0;
    while i < T
      invariant i <= T
      invariant forall k :: 0 <= k < i ==> state[k] == FPow(initial[k], 5)
      invariant forall k :: i <= k < T ==>
                  state[k] == FMul(FMul(initial[k], initial[k]), FMul(initial[k], initial[k]))
    {
      FifthPower(initial[i]);
      state[i] := FMul(state[i], initial[i]);
      i := i + 1;
    }
    assert state[..] == Boxed(s, c, r);
  }

  /** The plain permutation, in place. */
  method Permutation(state: array<Felt>, c: Constants)
    requires state.Length == T && c.Valid()
    modifies state
    ensures state[..] == Permute(old(state[..]), c)
  {
    hide External, Boxed, Internal, FAdd, FMul, FPow, Reduce;
    ApplyExternalRoundMatrix(state);
    ghost var s: State := state[..];
    var r := 0;
    while r < 4
      invariant r <= 4 && FullRounds(s, c, 0, 4) == FullRounds(state[..], c, r, 4)
    {
      BoxAll(state, c, r);
      ApplyExternalRoundMatrix(state);
      r := r + 1;
    }
    s := state[..];
    r := 0;
    while r < PARTIAL_ROUNDS
      invariant r <= PARTIAL_ROUNDS && PartialRounds(s, c, 0) == PartialRounds(state[..], c, r)
    {
      ghost var before: State := state[..];
      state[0] := FAdd(state[0], Reduce(c.internal[r]));
      var initial := state[0];
      FifthPower(initial);
      state[0] := FMul(FMul(FMul(state[0], state[0]), FMul(state[0], state[0])), initial);
      assert state[..] == FirstBoxed(before, c, r);
      ApplyInternalRoundMatrix(state, c);
      r := r + 1;
    }
    s := state[..];
    r := 4;
    while r < 8
      invariant 4 <= r <= 8 && FullRounds(s, c, 4, 8) == FullRounds(state[..], c, r, 8)
    {
      BoxAll(state, c, r);
      ApplyExternalRoundMatrix(state);
      r := r + 1;
    }
  }
}
