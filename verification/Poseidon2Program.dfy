// The felt program of the Poseidon2 table means the plain permutation, and so do
// the rows it is compiled to.
module Poseidon2Program {
  import opened M31
  import opened Wrappers
  import opened FeltAst
  import opened FeltSemantics
  import opened Sponge
  import opened Poseidon2
  import opened Lowering
  import CellNames

  // -- The program -------------------------------------------------------------------------------

  function Numbered(base: string, i: nat): string {
    base + Digits(i)
  }

  function Var(base: string, i: nat): Expr {
    Name(Numbered(base, i))
  }

  function Plus2(l: Expr, r: Expr): Expr { Binary(Add, l, r) }

  function Times2(l: Expr, r: Expr): Expr { Binary(Mul, l, r) }

  /** let t<k> = ... of the 4x4 block. */
  function ChainExpr(k: nat): Expr {
    if k == 0 then Plus2(Var("x", 0), Var("x", 1))
    else if k == 1 then Plus2(Var("x", 2), Var("x", 3))
    else if k == 2 then Plus2(Times2(Lit(2), Var("x", 1)), Var("t", 1))
    else if k == 3 then Plus2(Times2(Lit(2), Var("x", 3)), Var("t", 0))
    else if k == 4 then Plus2(Times2(Lit(4), Var("t", 1)), Var("t", 3))
    else if k == 5 then Plus2(Times2(Lit(4), Var("t", 0)), Var("t", 2))
    else if k == 6 then Plus2(Var("t", 3), Var("t", 5))
    else Plus2(Var("t", 2), Var("t", 4))
  }

  function ChainFrom(k: nat): seq<Stmt>
    decreases 8 - (if k <= 8 then k else 8)
  {
    if k >= 8 then [] else [Let([Numbered("t", k)], Scalar(ChainExpr(k)))] + ChainFrom(k + 1)
  }

  function ScalarParams(n: nat): seq<Param> {
    if n == 0 then [] else ScalarParams(n - 1) + [Param(Numbered("x", n - 1), None)]
  }

  function M4Fn(): AirFn {
    AirFn("m4", ScalarParams(4), ChainFrom(0), [Var("t", 6), Var("t", 5), Var("t", 7), Var("t", 4)])
  }

  function StateAt(i: Expr): Expr { Index(Name("state"), i) }

  function LaneNames(b: nat): seq<string> {
    [Numbered("b", 4 * b), Numbered("b", 4 * b + 1), Numbered("b", 4 * b + 2), Numbered("b", 4 * b + 3)]
  }

  function LaneArgs(b: nat): seq<Expr> {
    [StateAt(Lit(4 * b)), StateAt(Lit(4 * b + 1)), StateAt(Lit(4 * b + 2)), StateAt(Lit(4 * b + 3))]
  }

  function Lanes(i: nat): seq<Expr>
    decreases 16 - (if i <= 16 then i else 16)
  {
    if i >= 16 then [] else [Var("b", i)] + Lanes(i + 1)
  }

  function MixedAtExpr(offset: nat): Expr {
    Index(Name("mixed"), if offset == 0 then Name("j") else Plus2(Name("j"), Lit(offset)))
  }

  function SumsExpr(): Expr {
    Plus2(Plus2(Plus2(MixedAtExpr(0), MixedAtExpr(4)), MixedAtExpr(8)), MixedAtExpr(12))
  }

  function OutExpr(): Expr {
    Plus2(Index(Name("mixed"), Name("k")), Index(Name("sums"), Binary(Rem, Name("k"), Lit(4))))
  }

  function ExternalTail(): seq<Stmt> {
    [Let(["mixed"], ArrayLit(Lanes(0))),
     Let(["sums"], Map(Name("j"), Lit(0), Lit(4), SumsExpr())),
     Let(["out"], Map(Name("k"), Lit(0), Lit(16), OutExpr()))]
  }

  function ExternalFrom(b: nat): seq<Stmt>
    decreases 4 - (if b <= 4 then b else 4)
  {
    if b >= 4 then ExternalTail() else [Let(LaneNames(b), Splice(M4Fn(), LaneArgs(b)))] + ExternalFrom(b + 1)
  }

  function ExternalFn(): AirFn {
    AirFn("external_matrix", [Param("state", Some(16))], ExternalFrom(0), [Name("out")])
  }

  function ExternalStep(): Stmt {
    Let(["state"], Splice(ExternalFn(), [Name("state")]))
  }

  function BoxExpr(c: Constants): Expr {
    Power(Paren(Plus2(StateAt(Name("j")),
                      Constant(c.external, Plus2(Times2(Lit(16), Name("r")), Name("j"))))), Lit(5))
  }

  function FullBody(c: Constants): seq<Stmt> {
    [Let(["state"], Map(Name("j"), Lit(0), Lit(16), BoxExpr(c))), ExternalStep()]
  }

  function FirstBoxExpr(c: Constants): Expr {
    Power(Paren(Plus2(StateAt(Lit(0)), Constant(c.internal, Name("r")))), Lit(5))
  }

  function DiagonalExpr(c: Constants): Expr {
    Plus2(Times2(StateAt(Name("j")), Constant(c.matrix, Name("j"))), Name("total"))
  }

  function PartialBody(c: Constants): seq<Stmt> {
    [Let(["state"], Update(Name("state"), Lit(0), FirstBoxExpr(c))),
     Let(["total"], Scalar(Sum(Name("j"), Lit(0), Lit(16), StateAt(Name("j"))))),
     Let(["state"], Map(Name("j"), Lit(0), Lit(16), DiagonalExpr(c)))]
  }

  function Poseidon2Fn(c: Constants): AirFn {
    AirFn("poseidon2", [Param("state", Some(16))],
          [ExternalStep(), For("r", 0, 4, FullBody(c)), For("r", 0, 14, PartialBody(c)), For("r", 4, 8, FullBody(c))],
          [Name("state")])
  }

  // -- Names -------------------------------------------------------------------------------------

  lemma NumberedDiffer(base: string, i: nat, other: string, j: nat)
    requires |base| == 1 && |other| == 1
    ensures Numbered(base, i) == Numbered(other, j) <==> base == other && i == j
  {
    if Numbered(base, i) == Numbered(other, j) {
      assert base == Numbered(base, i)[..1] && other == Numbered(other, j)[..1];
      assert Digits(i) == Numbered(base, i)[1..] && Digits(j) == Numbered(other, j)[1..];
      CellNames.DigitsInjective(i, j);
    }
  }

  lemma NumberedStarts(base: string, i: nat)
    requires |base| == 1
    ensures |Numbered(base, i)| >= 1 && Numbered(base, i)[0] == base[0]
  {
  }

  // -- Evaluation --------------------------------------------------------------------------------

  lemma NameIs(x: string, v: Felt, env: Env, ints: Ints)
    requires x in env && env[x] == Single(v) && x !in ints
    ensures ExprValue(Name(x), env, ints) == Some(v)
  {
  }

  lemma PlusIs(l: Expr, r: Expr, a: Felt, b: Felt, env: Env, ints: Ints)
    requires ExprValue(l, env, ints) == Some(a) && ExprValue(r, env, ints) == Some(b)
    ensures ExprValue(Plus2(l, r), env, ints) == Some(FAdd(a, b))
  {
    hide FAdd;
  }

  lemma TimesIs(l: Expr, r: Expr, a: Felt, b: Felt, env: Env, ints: Ints)
    requires ExprValue(l, env, ints) == Some(a) && ExprValue(r, env, ints) == Some(b)
    ensures ExprValue(Times2(l, r), env, ints) == Some(FMul(a, b))
  {
    hide FMul;
  }

  lemma ScaledIs(n: Felt, r: Expr, b: Felt, env: Env, ints: Ints)
    requires ExprValue(r, env, ints) == Some(b)
    ensures ExprValue(Times2(Lit(n), r), env, ints) == Some(FMul(n, b))
  {
    SelfReduced(n);
    hide FMul, Reduce;
    TimesIs(Lit(n), r, n, b, env, ints);
  }

  lemma ElementIs(x: string, i: Expr, vs: seq<Felt>, k: nat, env: Env, ints: Ints)
    requires x in env && env[x] == Array(vs) && x !in ints && IndexValue(i, ints) == Some(k) && k < |vs|
    ensures ExprValue(Index(Name(x), i), env, ints) == Some(vs[k])
  {
  }

  /** A let whose right-hand side has the given values. */
  lemma LetStep(names: seq<string>, v: Rhs, rest: seq<Stmt>, vals: seq<Val>, env: Env, ints: Ints, orc: Oracle)
    requires names != [] && RhsValue(|names|, v, env, ints, orc) == Some((vals, true))
    ensures BlockValue([Let(names, v)] + rest, env, ints, orc) == BlockValue(rest, Bind(names, vals, env), ints, orc)
  {
    hide RhsValue, Bind;
    assert ([Let(names, v)] + rest)[1..] == rest;
    var later := BlockValue(rest, Bind(names, vals, env), ints, orc);
    if later.Some? {
      assert later.value == (later.value.0, later.value.1);
    }
  }

  lemma BindOne(x: string, v: Val, env: Env)
    ensures Bind([x], [v], env) == env[x := v]
  {
    assert [x][1..] == [] && [v][1..] == [];
  }

  lemma ScalarStep(x: string, e: Expr, rest: seq<Stmt>, a: Felt, env: Env, ints: Ints, orc: Oracle)
    requires ExprValue(e, env, ints) == Some(a)
    ensures BlockValue([Let([x], Scalar(e))] + rest, env, ints, orc) == BlockValue(rest, env[x := Single(a)], ints, orc)
  {
    assert RhsValue(1, Scalar(e), env, ints, orc) == Some(([Single(a)], true));
    hide RhsValue, Bind, BlockValue;
    LetStep([x], Scalar(e), rest, [Single(a)], env, ints, orc);
    BindOne(x, Single(a), env);
  }

  lemma ArrayStep(x: string, v: Rhs, rest: seq<Stmt>, vs: seq<Felt>, env: Env, ints: Ints, orc: Oracle)
    requires RhsValue(1, v, env, ints, orc) == Some(([Array(vs)], true))
    ensures BlockValue([Let([x], v)] + rest, env, ints, orc) == BlockValue(rest, env[x := Array(vs)], ints, orc)
  {
    hide RhsValue, Bind, BlockValue;
    LetStep([x], v, rest, [Array(vs)], env, ints, orc);
    BindOne(x, Array(vs), env);
  }

  /** The body of a map from lo has the k-th of the values. */
  ghost predicate BodyAt(x: string, lo: nat, body: Expr, vs: seq<Felt>, env: Env, ints: Ints, k: nat) {
    lo <= k < lo + |vs| && ExprValue(body, env, ints[x := k]) == Some(vs[k - lo])
  }

  /** A map whose body has the given value at each index. */
  lemma {:induction false} MapIs(x: string, lo: nat, hi: nat, body: Expr, vs: seq<Felt>, env: Env, ints: Ints)
    requires lo <= hi && |vs| == hi - lo
    requires forall k: nat :: lo <= k < hi ==> BodyAt(x, lo, body, vs, env, ints, k)
    ensures MapValues(x, lo, hi, body, env, ints) == Some(vs)
    decreases hi - lo
  {
    hide ExprValue;
    if lo < hi {
      assert BodyAt(x, lo, body, vs, env, ints, lo);
      var next, tail := lo + 1, vs[1..];
      forall k: nat | next <= k < hi
        ensures BodyAt(x, next, body, tail, env, ints, k)
      {
        assert BodyAt(x, lo, body, vs, env, ints, k);
        assert tail[k - next] == vs[k - lo];
      }
      MapIs(x, next, hi, body, tail, env, ints);
      assert [vs[0]] + vs[1..] == vs;
    }
  }

  lemma MapStep(x: string, j: string, hi: nat, body: Expr, rest: seq<Stmt>, vs: seq<Felt>, env: Env, ints: Ints, orc: Oracle)
    requires |vs| == hi && forall k: nat :: k < hi ==> BodyAt(j, 0, body, vs, env, ints, k)
    ensures BlockValue([Let([x], Map(Name(j), Lit(0), Lit(hi), body))] + rest, env, ints, orc)
            == BlockValue(rest, env[x := Array(vs)], ints, orc)
  {
    hide BodyAt;
    MapIs(j, 0, hi, body, vs, env, ints);
    hide ExprValue, BlockValue, MapValues;
    assert RhsValue(1, Map(Name(j), Lit(0), Lit(hi), body), env, ints, orc) == Some(([Array(vs)], true));
    ArrayStep(x, Map(Name(j), Lit(0), Lit(hi), body), rest, vs, env, ints, orc);
  }

  // -- The 4x4 block -----------------------------------------------------------------------------

  function ChainValue(x: seq<Felt>, k: nat): Felt
    requires |x| == 4
  {
    var t0, t1 := FAdd(x[0], x[1]), FAdd(x[2], x[3]);
    var t2, t3 := FAdd(FMul(2, x[1]), t1), FAdd(FMul(2, x[3]), t0);
    var t4, t5 := FAdd(FMul(4, t1), t3), FAdd(FMul(4, t0), t2);
    if k == 0 then t0 else if k == 1 then t1 else if k == 2 then t2 else if k == 3 then t3
    else if k == 4 then t4 else if k == 5 then t5 else if k == 6 then FAdd(t3, t5) else FAdd(t2, t4)
  }

  /** x0..x3 and the first k steps are bound. */
  ghost predicate ChainBound(env: Env, x: seq<Felt>, k: nat) {
    && |x| == 4 && (forall i: nat :: i < 4 ==> Numbered("x", i) in env && env[Numbered("x", i)] == Single(x[i]))
    && (forall i: nat :: i < k ==> Numbered("t", i) in env && env[Numbered("t", i)] == Single(ChainValue(x, i)))
  }

  lemma BoundX(env: Env, x: seq<Felt>, k: nat, i: nat)
    requires ChainBound(env, x, k) && i < 4
    ensures |x| == 4 && ExprValue(Var("x", i), env, map[]) == Some(x[i])
  {
    hide ChainValue;
    NameIs(Numbered("x", i), x[i], env, map[]);
  }

  lemma BoundT(env: Env, x: seq<Felt>, k: nat, i: nat)
    requires ChainBound(env, x, k) && i < k
    ensures |x| == 4 && ExprValue(Var("t", i), env, map[]) == Some(ChainValue(x, i))
  {
    hide ChainValue;
    NameIs(Numbered("t", i), ChainValue(x, i), env, map[]);
  }

  lemma ChainExprIs(env: Env, x: seq<Felt>, k: nat)
    requires ChainBound(env, x, k) && k < 8
    ensures |x| == 4 && ExprValue(ChainExpr(k), env, map[]) == Some(ChainValue(x, k))
  {
    hide ExprValue, FAdd, FMul, ChainBound, Numbered;
    BoundX(env, x, k, 0);
    BoundX(env, x, k, 1);
    BoundX(env, x, k, 2);
    BoundX(env, x, k, 3);
    if k == 0 {
      PlusIs(Var("x", 0), Var("x", 1), x[0], x[1], env, map[]);
    } else if k == 1 {
      PlusIs(Var("x", 2), Var("x", 3), x[2], x[3], env, map[]);
    } else if k == 2 {
      BoundT(env, x, k, 1);
      ScaledIs(2, Var("x", 1), x[1], env, map[]);
      PlusIs(Times2(Lit(2), Var("x", 1)), Var("t", 1), FMul(2, x[1]), ChainValue(x, 1), env, map[]);
    } else if k == 3 {
      BoundT(env, x, k, 0);
      ScaledIs(2, Var("x", 3), x[3], env, map[]);
      PlusIs(Times2(Lit(2), Var("x", 3)), Var("t", 0), FMul(2, x[3]), ChainValue(x, 0), env, map[]);
    } else if k == 4 {
      BoundT(env, x, k, 1);
      BoundT(env, x, k, 3);
      ScaledIs(4, Var("t", 1), ChainValue(x, 1), env, map[]);
      PlusIs(Times2(Lit(4), Var("t", 1)), Var("t", 3), FMul(4, ChainValue(x, 1)), ChainValue(x, 3), env, map[]);
    } else if k == 5 {
      BoundT(env, x, k, 0);
      BoundT(env, x, k, 2);
      ScaledIs(4, Var("t", 0), ChainValue(x, 0), env, map[]);
      PlusIs(Times2(Lit(4), Var("t", 0)), Var("t", 2), FMul(4, ChainValue(x, 0)), ChainValue(x, 2), env, map[]);
    } else if k == 6 {
      BoundT(env, x, k, 3);
      BoundT(env, x, k, 5);
      PlusIs(Var("t", 3), Var("t", 5), ChainValue(x, 3), ChainValue(x, 5), env, map[]);
    } else {
      BoundT(env, x, k, 2);
      BoundT(env, x, k, 4);
      PlusIs(Var("t", 2), Var("t", 4), ChainValue(x, 2), ChainValue(x, 4), env, map[]);
    }
  }

  lemma ChainBinds(env: Env, x: seq<Felt>, k: nat)
    requires ChainBound(env, x, k)
    ensures |x| == 4 && ChainBound(env[Numbered("t", k) := Single(ChainValue(x, k))], x, k + 1)
  {
    hide ChainValue, Numbered;
    forall i: nat
      ensures Numbered("x", i) != Numbered("t", k)
    {
      NumberedDiffer("x", i, "t", k);
    }
    forall i: nat
      ensures Numbered("t", i) == Numbered("t", k) <==> i == k
    {
      NumberedDiffer("t", i, "t", k);
    }
  }

  lemma {:induction false} ChainMeans(env: Env, x: seq<Felt>, k: nat, orc: Oracle) returns (final: Env)
    requires ChainBound(env, x, k) && k <= 8
    ensures BlockValue(ChainFrom(k), env, map[], orc) == Some((final, true)) && ChainBound(final, x, 8)
    decreases 8 - k
  {
    hide ChainBound, ChainValue, ExprValue, ChainExpr, Numbered;
    if k == 8 {
      final := env;
    } else {
      ChainExprIs(env, x, k);
      ChainBinds(env, x, k);
      var next := env[Numbered("t", k) := Single(ChainValue(x, k))];
      final := ChainMeans(next, x, k + 1, orc);
      hide BlockValue;
      ScalarStep(Numbered("t", k), ChainExpr(k), ChainFrom(k + 1), ChainValue(x, k), env, map[], orc);
    }
  }

  ghost predicate ArgsAre(es: seq<Expr>, x: seq<Felt>, env: Env, ints: Ints) {
    |es| == |x| && forall i: nat :: i < |es| ==> ExprValue(es[i], env, ints) == Some(x[i])
  }

  lemma ScalarIs(name: string, e: Expr, v: Felt, env: Env, ints: Ints)
    requires ExprValue(e, env, ints) == Some(v)
    ensures ParamValue(Param(name, None), e, env, ints) == Some(Single(v))
  {
    hide ExprValue;
  }

  lemma LastLocal(params: seq<Param>, p: Param, es: seq<Expr>, before: Env, v: Val, env: Env, ints: Ints)
    requires |es| == |params| + 1 && LocalEnv(params, es[..|params|], env, ints) == Some(before)
    requires ParamValue(p, es[|params|], env, ints) == Some(v)
    ensures LocalEnv(params + [p], es, env, ints) == Some(before[p.name := v])
  {
    hide ParamValue;
    assert (params + [p])[..|params|] == params;
  }

  /** Scalar parameters bound one by one. */
  lemma {:induction false} ScalarEnv(n: nat, es: seq<Expr>, x: seq<Felt>, env: Env, ints: Ints) returns (local: Env)
    requires |es| == n && ArgsAre(es, x, env, ints)
    ensures |ScalarParams(n)| == n
    ensures LocalEnv(ScalarParams(n), es, env, ints) == Some(local)
    ensures forall i: nat :: i < n ==> Numbered("x", i) in local && local[Numbered("x", i)] == Single(x[i])
    decreases n
  {
    hide ExprValue, Numbered, ParamValue;
    if n == 0 {
      local := map[];
    } else {
      var before := ScalarEnv(n - 1, es[..n - 1], x[..n - 1], env, ints);
      ScalarIs(Numbered("x", n - 1), es[n - 1], x[n - 1], env, ints);
      LastLocal(ScalarParams(n - 1), Param(Numbered("x", n - 1), None), es, before, Single(x[n - 1]), env, ints);
      hide LocalEnv;
      local := before[Numbered("x", n - 1) := Single(x[n - 1])];
      forall i: nat
        ensures Numbered("x", i) == Numbered("x", n - 1) <==> i == n - 1
      {
        NumberedDiffer("x", i, "x", n - 1);
      }
    }
  }

  function M4All(x: seq<Felt>): seq<Felt>
    requires |x| == 4
  {
    [M4(x[0], x[1], x[2], x[3], 0), M4(x[0], x[1], x[2], x[3], 1), M4(x[0], x[1], x[2], x[3], 2), M4(x[0], x[1], x[2], x[3], 3)]
  }

  lemma ChainReturns(final: Env, x: seq<Felt>)
    requires ChainBound(final, x, 8)
    ensures |x| == 4 && ArgValues(M4Fn().rets, final, map[]) == Some(Singles(M4All(x)))
  {
    hide ExprValue, ChainBound, Numbered, FAdd, FMul;
    BoundT(final, x, 8, 6);
    BoundT(final, x, 8, 5);
    BoundT(final, x, 8, 7);
    BoundT(final, x, 8, 4);
    ArgSingles([Var("t", 6), Var("t", 5), Var("t", 7), Var("t", 4)], M4All(x), final, map[]);
  }

  /** Scalar arguments: no argument names an array. */
  lemma {:induction false} ArgSingles(es: seq<Expr>, vs: seq<Felt>, env: Env, ints: Ints)
    requires ArgsAre(es, vs, env, ints)
    ensures ArgValues(es, env, ints) == Some(Singles(vs))
    decreases |es|
  {
    if es != [] {
      assert ExprValue(es[0], env, ints) == Some(vs[0]);
      ArgSingle(es[0], vs[0], env, ints);
      hide ExprValue, ArgValue;
      assert forall i: nat :: i < |es[1..]| ==> es[1..][i] == es[i + 1] && vs[1..][i] == vs[i + 1];
      ArgSingles(es[1..], vs[1..], env, ints);
      assert [Single(vs[0])] + Singles(vs[1..]) == Singles(vs);
    }
  }

  lemma ArgSingle(e: Expr, v: Felt, env: Env, ints: Ints)
    requires ExprValue(e, env, ints) == Some(v)
    ensures ArgValue(e, env, ints) == Some(Single(v))
  {
  }

  /** The inline block means M4 on its arguments. */
  lemma M4Means(es: seq<Expr>, x: seq<Felt>, env: Env, ints: Ints, orc: Oracle)
    requires |es| == 4 && ArgsAre(es, x, env, ints)
    ensures |x| == 4 && RhsValue(4, Splice(M4Fn(), es), env, ints, orc) == Some((Singles(M4All(x)), true))
  {
    hide ExprValue, Numbered, BlockValue, ArgValues, LocalEnv, M4, ScalarParams, ChainFrom, ChainValue;
    var local := ScalarEnv(4, es, x, env, ints);
    assert ChainBound(local, x, 0);
    var final := ChainMeans(local, x, 0, orc);
    ChainReturns(final, x);
    assert |Singles(M4All(x))| == 4;
    SpliceIs(4, M4Fn(), es, local, final, Singles(M4All(x)), env, ints, orc);
  }

  /** A splice is its parameters, its body and its returns. */
  lemma SpliceIs(n: nat, f: AirFn, es: seq<Expr>, local: Env, final: Env, vals: seq<Val>, env: Env, ints: Ints, orc: Oracle)
    requires |es| == |f.params| && LocalEnv(f.params, es, env, ints) == Some(local)
    requires BlockValue(f.body, local, map[], orc) == Some((final, true))
    requires ArgValues(f.rets, final, map[]) == Some(vals) && |vals| == n
    ensures RhsValue(n, Splice(f, es), env, ints, orc) == Some((vals, true))
  {
    hide BlockValue, ArgValues, LocalEnv;
    assert ForBinders(n, vals) == Some(vals);
  }

  // -- The external matrix -----------------------------------------------------------------------

  /** The state is in scope, and no loop variable hides it. */
  ghost predicate HasArray(env: Env, ints: Ints, x: string, vs: seq<Felt>) {
    x in env && env[x] == Array(vs) && x !in ints
  }

  /** The state, and the first n mixed lanes. */
  ghost predicate LanesBound(env: Env, s: State, n: nat) {
    && HasArray(env, map[], "state", s) && n <= T
    && forall i: nat :: i < n ==> LaneBound(env, s, i)
  }

  ghost predicate LaneBound(env: Env, s: State, i: nat) {
    i < T && Numbered("b", i) in env && env[Numbered("b", i)] == Single(Mixed(s)[i])
  }

  function Block(s: State, b: nat): seq<Felt>
    requires b < 4
  {
    [s[4 * b], s[4 * b + 1], s[4 * b + 2], s[4 * b + 3]]
  }

  lemma BlockArgs(env: Env, s: State, b: nat)
    requires HasArray(env, map[], "state", s) && b < 4
    ensures ArgsAre(LaneArgs(b), Block(s, b), env, map[])
  {
    hide ExprValue;
    ElementIs("state", Lit(4 * b), s, 4 * b, env, map[]);
    ElementIs("state", Lit(4 * b + 1), s, 4 * b + 1, env, map[]);
    ElementIs("state", Lit(4 * b + 2), s, 4 * b + 2, env, map[]);
    ElementIs("state", Lit(4 * b + 3), s, 4 * b + 3, env, map[]);
  }

  lemma BlockMixes(s: State, b: nat)
    requires b < 4
    ensures M4All(Block(s, b)) == [Mixed(s)[4 * b], Mixed(s)[4 * b + 1], Mixed(s)[4 * b + 2], Mixed(s)[4 * b + 3]]
  {
    hide M4;
    MixedAt(s, b);
  }

  lemma BindFour(n: seq<string>, v: seq<Val>, env: Env)
    requires |n| == 4 && |v| == 4
    ensures Bind(n, v, env) == env[n[0] := v[0]][n[1] := v[1]][n[2] := v[2]][n[3] := v[3]]
  {
    assert n[1..][1..] == n[2..] && n[2..][1..] == n[3..] && n[3..][1..] == [];
    assert v[1..][1..] == v[2..] && v[2..][1..] == v[3..] && v[3..][1..] == [];
    assert Bind(n[3..], v[3..], env[n[0] := v[0]][n[1] := v[1]][n[2] := v[2]])
      == env[n[0] := v[0]][n[1] := v[1]][n[2] := v[2]][n[3] := v[3]];
    assert Bind(n[2..], v[2..], env[n[0] := v[0]][n[1] := v[1]])
      == env[n[0] := v[0]][n[1] := v[1]][n[2] := v[2]][n[3] := v[3]];
    assert Bind(n[1..], v[1..], env[n[0] := v[0]])
      == env[n[0] := v[0]][n[1] := v[1]][n[2] := v[2]][n[3] := v[3]];
  }

  lemma LanePush(env: Env, s: State, n: nat)
    requires LanesBound(env, s, n) && n < T
    ensures LanesBound(env[Numbered("b", n) := Single(Mixed(s)[n])], s, n + 1)
  {
    hide Mixed, Numbered;
    var next := env[Numbered("b", n) := Single(Mixed(s)[n])];
    NumberedStarts("b", n);
    assert "state"[0] == 's' && "b"[0] == 'b';
    assert Numbered("b", n) != "state";
    forall i: nat | i < n + 1
      ensures LaneBound(next, s, i)
    {
      NumberedDiffer("b", i, "b", n);
      if i < n { assert LaneBound(env, s, i); }
    }
  }

  lemma BlockStep(env: Env, s: State, b: nat, orc: Oracle) returns (next: Env)
    requires LanesBound(env, s, 4 * b) && b < 4
    ensures BlockValue(ExternalFrom(b), env, map[], orc) == BlockValue(ExternalFrom(b + 1), next, map[], orc)
    ensures LanesBound(next, s, 4 * b + 4)
  {
    hide Mixed, Numbered, M4Fn, RhsValue, BlockValue, M4All, Block, ArgsAre, Bind, LaneArgs;
    BlockArgs(env, s, b);
    var m := Mixed(s);
    BlockMixes(s, b);
    assert |LaneArgs(b)| == 4 by { ArgCount(b); }
    M4Means(LaneArgs(b), Block(s, b), env, map[], orc);
    var vals := Singles(M4All(Block(s, b)));
    BindFour(LaneNames(b), vals, env);
    next := Bind(LaneNames(b), vals, env);
    LetStep(LaneNames(b), Splice(M4Fn(), LaneArgs(b)), ExternalFrom(b + 1), vals, env, map[], orc);
    SinglesFour(M4All(Block(s, b)));
    LanesPushed(env, s, b);
    hide LanesBound, Singles;
  }

  /** Four more lanes bound. */
  lemma LanesPushed(env: Env, s: State, b: nat)
    requires LanesBound(env, s, 4 * b) && b < 4
    ensures LanesBound(env[Numbered("b", 4 * b) := Single(Mixed(s)[4 * b])][Numbered("b", 4 * b + 1) := Single(Mixed(s)[4 * b + 1])]
                          [Numbered("b", 4 * b + 2) := Single(Mixed(s)[4 * b + 2])][Numbered("b", 4 * b + 3) := Single(Mixed(s)[4 * b + 3])],
                       s, 4 * b + 4)
  {
    hide Mixed, Numbered, LanesBound;
    var m := Mixed(s);
    LanePush(env, s, 4 * b);
    var e1 := env[Numbered("b", 4 * b) := Single(m[4 * b])];
    LanePush(e1, s, 4 * b + 1);
    var e2 := e1[Numbered("b", 4 * b + 1) := Single(m[4 * b + 1])];
    LanePush(e2, s, 4 * b + 2);
    var e3 := e2[Numbered("b", 4 * b + 2) := Single(m[4 * b + 2])];
    LanePush(e3, s, 4 * b + 3);
  }

  lemma ArgCount(b: nat)
    ensures |LaneArgs(b)| == 4
  {
  }

  lemma SinglesFour(vs: seq<Felt>)
    requires |vs| == 4
    ensures Singles(vs) == [Single(vs[0]), Single(vs[1]), Single(vs[2]), Single(vs[3])]
  {
  }

  lemma {:induction false} LanesAre(env: Env, s: State, i: nat)
    requires LanesBound(env, s, T) && i <= T
    ensures ExprValues(Lanes(i), env, map[]) == Some(Mixed(s)[i..])
    decreases T - i
  {
    hide Mixed, ExprValue, Numbered;
    if i < T {
      assert LaneBound(env, s, i);
      NameIs(Numbered("b", i), Mixed(s)[i], env, map[]);
      LanesAre(env, s, i + 1);
      FirstOf(Name(Numbered("b", i)), Lanes(i + 1), env, Mixed(s), i);
    } else {
      assert Mixed(s)[i..] == [];
    }
  }

  lemma FirstOf(e: Expr, es: seq<Expr>, env: Env, vs: seq<Felt>, i: nat)
    requires i < |vs| && ExprValue(e, env, map[]) == Some(vs[i]) && ExprValues(es, env, map[]) == Some(vs[i + 1..])
    ensures ExprValues([e] + es, env, map[]) == Some(vs[i..])
  {
    hide ExprValue;
    assert ([e] + es)[1..] == es;
    assert [vs[i]] + vs[i + 1..] == vs[i..];
  }

  function Sums(m: State): seq<Felt> {
    [ColumnSum(m, 0), ColumnSum(m, 1), ColumnSum(m, 2), ColumnSum(m, 3)]
  }

  lemma SumsBody(env: Env, m: State, j: nat)
    requires HasArray(env, map[], "mixed", m) && j < 4
    ensures BodyAt("j", 0, SumsExpr(), Sums(m), env, map[], j)
  {
    hide ExprValue, FAdd;
    var ints: Ints := map[]["j" := j];
    assert "mixed"[0] == 'm' && "j"[0] == 'j';
    ElementIs("mixed", Name("j"), m, j, env, ints);
    ElementIs("mixed", Plus2(Name("j"), Lit(4)), m, j + 4, env, ints);
    ElementIs("mixed", Plus2(Name("j"), Lit(8)), m, j + 8, env, ints);
    ElementIs("mixed", Plus2(Name("j"), Lit(12)), m, j + 12, env, ints);
    PlusIs(MixedAtExpr(0), MixedAtExpr(4), m[j], m[j + 4], env, ints);
    PlusIs(Plus2(MixedAtExpr(0), MixedAtExpr(4)), MixedAtExpr(8), FAdd(m[j], m[j + 4]), m[j + 8], env, ints);
    PlusIs(Plus2(Plus2(MixedAtExpr(0), MixedAtExpr(4)), MixedAtExpr(8)), MixedAtExpr(12),
           FAdd(FAdd(m[j], m[j + 4]), m[j + 8]), m[j + 12], env, ints);
  }

  lemma OutBody(env: Env, s: State, k: nat)
    requires HasArray(env, map[], "mixed", Mixed(s)) && HasArray(env, map[], "sums", Sums(Mixed(s))) && k < T
    ensures BodyAt("k", 0, OutExpr(), External(s), env, map[], k)
  {
    hide ExprValue, FAdd, Mixed, ColumnSum;
    var ints: Ints := map[]["k" := k];
    assert "mixed"[0] == 'm' && "sums"[0] == 's' && "k"[0] == 'k';
    var m := Mixed(s);
    ElementIs("mixed", Name("k"), m, k, env, ints);
    ElementIs("sums", Binary(Rem, Name("k"), Lit(4)), Sums(m), k % 4, env, ints);
    PlusIs(Index(Name("mixed"), Name("k")), Index(Name("sums"), Binary(Rem, Name("k"), Lit(4))),
           m[k], Sums(m)[k % 4], env, ints);
    assert Sums(m)[k % 4] == ColumnSum(m, k % 4);
  }

  lemma TailMeans(env: Env, s: State, orc: Oracle) returns (final: Env)
    requires LanesBound(env, s, T)
    ensures BlockValue(ExternalTail(), env, map[], orc) == Some((final, true))
    ensures HasArray(final, map[], "out", External(s))
  {
    hide ExprValue, Mixed, External, BlockValue, SumsExpr, OutExpr, BodyAt, Sums, Lanes, ExprValues;
    assert "mixed"[0] == 'm' && "sums"[0] == 's' && "out"[0] == 'o';
    var m: State := Mixed(s);
    LanesAre(env, s, 0);
    assert m[0..] == m;
    var rest1 := [Let(["sums"], Map(Name("j"), Lit(0), Lit(4), SumsExpr())),
                  Let(["out"], Map(Name("k"), Lit(0), Lit(16), OutExpr()))];
    var rest2 := [Let(["out"], Map(Name("k"), Lit(0), Lit(16), OutExpr()))];
    assert RhsValue(1, ArrayLit(Lanes(0)), env, map[], orc) == Some(([Array(m)], true));
    ArrayStep("mixed", ArrayLit(Lanes(0)), rest1, m, env, map[], orc);
    var e1 := env["mixed" := Array(m)];
    forall j: nat | j < 4
      ensures BodyAt("j", 0, SumsExpr(), Sums(m), e1, map[], j)
    {
      SumsBody(e1, m, j);
    }
    SumCount(m);
    MapStep("sums", "j", 4, SumsExpr(), rest2, Sums(m), e1, map[], orc);
    var e2 := e1["sums" := Array(Sums(m))];
    forall k: nat | k < 16
      ensures BodyAt("k", 0, OutExpr(), External(s), e2, map[], k)
    {
      OutBody(e2, s, k);
    }
    MapStep("out", "k", 16, OutExpr(), [], External(s), e2, map[], orc);
    final := e2["out" := Array(External(s))];
    TailShape(rest1, rest2);
    EmptyBlock(final, map[], orc);
  }

  lemma SumCount(m: State)
    ensures |Sums(m)| == 4
  {
  }

  lemma TailShape(rest1: seq<Stmt>, rest2: seq<Stmt>)
    requires rest2 == [Let(["out"], Map(Name("k"), Lit(0), Lit(16), OutExpr()))]
    requires rest1 == [Let(["sums"], Map(Name("j"), Lit(0), Lit(4), SumsExpr()))] + rest2
    ensures ExternalTail() == [Let(["mixed"], ArrayLit(Lanes(0)))] + rest1
    ensures rest2 == [Let(["out"], Map(Name("k"), Lit(0), Lit(16), OutExpr()))] + []
  {
    hide Lanes, SumsExpr, OutExpr;
  }

  lemma EmptyBlock(env: Env, ints: Ints, orc: Oracle)
    ensures BlockValue([], env, ints, orc) == Some((env, true))
  {
  }

  lemma {:induction false} ExternalBody(env: Env, s: State, b: nat, orc: Oracle) returns (final: Env)
    requires LanesBound(env, s, 4 * b) && b <= 4
    ensures BlockValue(ExternalFrom(b), env, map[], orc) == Some((final, true))
    ensures HasArray(final, map[], "out", External(s))
    decreases 4 - b
  {
    hide BlockValue, LanesBound, External, ExternalTail;
    if b == 4 {
      assert ExternalFrom(4) == ExternalTail();
      final := TailMeans(env, s, orc);
    } else {
      var next := BlockStep(env, s, b, orc);
      final := ExternalBody(next, s, b + 1, orc);
    }
  }

  /** The inline external matrix means External on the state in scope. */
  lemma ExternalMeans(env: Env, ints: Ints, s: State, orc: Oracle)
    requires HasArray(env, ints, "state", s)
    ensures RhsValue(1, Splice(ExternalFn(), [Name("state")]), env, ints, orc) == Some(([Array(External(s))], true))
  {
    hide BlockValue, External, ExternalFrom, ArgValues, LocalEnv;
    var local: Env := map["state" := Array(s)];
    LocalState(env, ints, s);
    assert LanesBound(local, s, 4 * 0);
    var final := ExternalBody(local, s, 0, orc);
    ArrayReturn("out", final, External(s));
    SpliceIs(1, ExternalFn(), [Name("state")], local, final, [Array(External(s))], env, ints, orc);
  }

  lemma LocalState(env: Env, ints: Ints, s: State)
    requires HasArray(env, ints, "state", s)
    ensures LocalEnv([Param("state", Some(16))], [Name("state")], env, ints) == Some(map["state" := Array(s)])
  {
    assert [Param("state", Some(16))][..0] == [] && [Name("state")][..0] == [];
    assert LocalEnv([], [], env, ints) == Some(map[]);
    assert map[]["state" := Array(s)] == map["state" := Array(s)];
  }

  lemma ArrayReturn(x: string, final: Env, vs: seq<Felt>)
    requires HasArray(final, map[], x, vs)
    ensures ArgValues([Name(x)], final, map[]) == Some([Array(vs)])
  {
    assert [Name(x)][1..] == [];
    assert ArgValues([], final, map[]) == Some([]);
    assert ArgValue(Name(x), final, map[]) == Some(Array(vs));
    assert [Array(vs)] + [] == [Array(vs)];
  }

  // -- The rounds --------------------------------------------------------------------------------

  /** The scope of the round loops: the state, and r as the only loop variable. */
  ghost predicate InRound(env: Env, ints: Ints, s: State, r: nat) {
    HasArray(env, ints, "state", s) && ints == map["r" := r]
  }

  lemma ExternalLet(env: Env, ints: Ints, s: State, rest: seq<Stmt>, orc: Oracle)
    requires HasArray(env, ints, "state", s)
    ensures BlockValue([ExternalStep()] + rest, env, ints, orc)
            == BlockValue(rest, env["state" := Array(External(s))], ints, orc)
  {
    hide BlockValue, External, RhsValue, ExternalFn;
    ExternalMeans(env, ints, s, orc);
    ArrayStep("state", Splice(ExternalFn(), [Name("state")]), rest, External(s), env, ints, orc);
  }

  lemma ConstantIs(table: seq<nat>, i: Expr, k: nat, env: Env, ints: Ints)
    requires IndexValue(i, ints) == Some(k) && k < |table|
    ensures ExprValue(Constant(table, i), env, ints) == Some(Reduce(table[k]))
  {
    hide Reduce;
  }

  lemma BoxIs(e: Expr, a: Felt, env: Env, ints: Ints)
    requires ExprValue(e, env, ints) == Some(a)
    ensures ExprValue(Power(Paren(e), Lit(5)), env, ints) == Some(FPow(a, 5))
  {
    assert ExprValue(Paren(e), env, ints) == Some(a);
    hide FPow;
  }

  lemma RoundInts(r: nat, j: nat)
    ensures var ints: Ints := map["r" := r]["j" := j];
            && IndexValue(Name("r"), ints) == Some(r) && IndexValue(Name("j"), ints) == Some(j)
            && IndexValue(Plus2(Times2(Lit(16), Name("r")), Name("j")), ints) == Some(16 * r + j)
            && "state" !in ints && "total" !in ints
  {
    assert "r"[0] == 'r' && "j"[0] == 'j' && "state"[0] == 's' && "total"[0] == 't';
    var ints: Ints := map["r" := r]["j" := j];
    assert IndexValue(Times2(Lit(16), Name("r")), ints) == Some(16 * r);
  }

  lemma BoxBody(env: Env, s: State, c: Constants, r: nat, j: nat)
    requires c.Valid() && r < FULL_ROUNDS && j < T && InRound(env, map["r" := r], s, r)
    ensures BodyAt("j", 0, BoxExpr(c), Boxed(s, c, r), env, map["r" := r], j)
  {
    hide ExprValue, FAdd, FPow, Reduce;
    RoundInts(r, j);
    var ints: Ints := map["r" := r]["j" := j];
    var at := Plus2(Times2(Lit(16), Name("r")), Name("j"));
    ElementIs("state", Name("j"), s, j, env, ints);
    ConstantIs(c.external, at, 16 * r + j, env, ints);
    PlusIs(StateAt(Name("j")), Constant(c.external, at), s[j], Reduce(c.external[16 * r + j]), env, ints);
    BoxIs(Plus2(StateAt(Name("j")), Constant(c.external, at)), FAdd(s[j], Reduce(c.external[16 * r + j])), env, ints);
  }

  lemma FullBodyMeans(env: Env, s: State, c: Constants, r: nat, orc: Oracle) returns (next: Env)
    requires c.Valid() && r < FULL_ROUNDS && InRound(env, map["r" := r], s, r)
    ensures BlockValue(FullBody(c), env, map["r" := r], orc) == Some((next, true))
    ensures HasArray(next, map[], "state", External(Boxed(s, c, r)))
  {
    hide BlockValue, External, Boxed, BoxExpr, BodyAt, ExternalStep;
    var ints: Ints := map["r" := r];
    forall j: nat | j < 16
      ensures BodyAt("j", 0, BoxExpr(c), Boxed(s, c, r), env, ints, j)
    {
      BoxBody(env, s, c, r, j);
    }
    var b := Boxed(s, c, r);
    MapStep("state", "j", 16, BoxExpr(c), [ExternalStep()], b, env, ints, orc);
    var e1 := env["state" := Array(b)];
    assert [ExternalStep()] == [ExternalStep()] + [];
    assert FullBody(c) == [Let(["state"], Map(Name("j"), Lit(0), Lit(16), BoxExpr(c)))] + [ExternalStep()];
    ExternalLet(e1, ints, b, [], orc);
    next := e1["state" := Array(External(b))];
    EmptyBlock(next, ints, orc);
  }

  lemma LoopStep(x: string, lo: nat, hi: nat, body: seq<Stmt>, env: Env, next: Env, ints: Ints, orc: Oracle)
    requires lo < hi && BlockValue(body, env, ints[x := lo], orc) == Some((next, true))
    ensures LoopValue(x, lo, hi, body, env, ints, orc) == LoopValue(x, lo + 1, hi, body, next, ints, orc)
  {
    hide BlockValue;
    var later := LoopValue(x, lo + 1, hi, body, next, ints, orc);
    if later.Some? { assert later.value == (later.value.0, later.value.1); }
  }

  lemma RoundScope(env: Env, s: State, r: nat)
    requires HasArray(env, map[], "state", s)
    ensures InRound(env, map["r" := r], s, r) && map[]["r" := r] == map["r" := r]
  {
    assert "state"[0] == 's' && "r"[0] == 'r';
  }

  lemma {:induction false} FullLoop(env: Env, s: State, c: Constants, lo: nat, hi: nat, orc: Oracle) returns (final: Env)
    requires c.Valid() && lo <= hi <= FULL_ROUNDS && HasArray(env, map[], "state", s)
    ensures LoopValue("r", lo, hi, FullBody(c), env, map[], orc) == Some((final, true))
    ensures HasArray(final, map[], "state", FullRounds(s, c, lo, hi))
    decreases hi - lo
  {
    hide BlockValue, External, Boxed, FullBody, HasArray;
    if lo == hi {
      final := env;
    } else {
      RoundScope(env, s, lo);
      var next := FullBodyMeans(env, s, c, lo, orc);
      LoopStep("r", lo, hi, FullBody(c), env, next, map[], orc);
      hide LoopValue;
      final := FullLoop(next, External(Boxed(s, c, lo)), c, lo + 1, hi, orc);
    }
  }

  // -- The partial rounds ------------------------------------------------------------------------

  lemma FirstBoxIs(env: Env, s: State, c: Constants, r: nat)
    requires c.Valid() && r < PARTIAL_ROUNDS && InRound(env, map["r" := r], s, r)
    ensures ExprValue(FirstBoxExpr(c), env, map["r" := r]) == Some(FPow(FAdd(s[0], Reduce(c.internal[r])), 5))
  {
    hide ExprValue, FAdd, FPow, Reduce;
    var ints: Ints := map["r" := r];
    ElementIs("state", Lit(0), s, 0, env, ints);
    ConstantIs(c.internal, Name("r"), r, env, ints);
    PlusIs(StateAt(Lit(0)), Constant(c.internal, Name("r")), s[0], Reduce(c.internal[r]), env, ints);
    BoxIs(Plus2(StateAt(Lit(0)), Constant(c.internal, Name("r"))), FAdd(s[0], Reduce(c.internal[r])), env, ints);
  }

  lemma {:induction false} SumIs(env: Env, s: State, r: nat, n: nat)
    requires InRound(env, map["r" := r], s, r) && 0 < n <= T
    ensures SumValue("j", 0, n, StateAt(Name("j")), env, map["r" := r]) == Some(LaneSum(s[..n]))
    decreases n
  {
    hide ExprValue, FAdd;
    RoundInts(r, n - 1);
    ElementIs("state", Name("j"), s, n - 1, env, map["r" := r]["j" := n - 1]);
    LaneSumPush(s, n - 1);
    if n > 1 {
      SumIs(env, s, r, n - 1);
    } else {
      ZeroSum(s[0]);
    }
  }

  lemma ZeroSum(x: Felt)
    ensures FAdd(0, x) == x
  {
  }

  lemma TotalIs(env: Env, s: State, r: nat)
    requires InRound(env, map["r" := r], s, r)
    ensures ExprValue(Sum(Name("j"), Lit(0), Lit(16), StateAt(Name("j"))), env, map["r" := r]) == Some(LaneSum(s))
  {
    hide SumValue, LaneSum;
    SumIs(env, s, r, 16);
    assert s[..16] == s;
  }

  lemma DiagonalBody(env: Env, s: State, c: Constants, r: nat, j: nat)
    requires c.Valid() && j < T && InRound(env, map["r" := r], s, r)
    requires "total" in env && env["total"] == Single(LaneSum(s))
    ensures BodyAt("j", 0, DiagonalExpr(c), Internal(s, c), env, map["r" := r], j)
  {
    hide ExprValue, FAdd, FMul, Reduce, LaneSum;
    RoundInts(r, j);
    var ints: Ints := map["r" := r]["j" := j];
    ElementIs("state", Name("j"), s, j, env, ints);
    ConstantIs(c.matrix, Name("j"), j, env, ints);
    TimesIs(StateAt(Name("j")), Constant(c.matrix, Name("j")), s[j], Reduce(c.matrix[j]), env, ints);
    NameIs("total", LaneSum(s), env, ints);
    PlusIs(Times2(StateAt(Name("j")), Constant(c.matrix, Name("j"))), Name("total"),
           FMul(s[j], Reduce(c.matrix[j])), LaneSum(s), env, ints);
  }

  lemma UpdateIs(env: Env, s: State, v: Felt, e: Expr, ints: Ints, orc: Oracle)
    requires HasArray(env, ints, "state", s) && ExprValue(e, env, ints) == Some(v)
    ensures RhsValue(1, Update(Name("state"), Lit(0), e), env, ints, orc) == Some(([Array(s[0 := v])], true))
  {
    hide ExprValue;
  }

  lemma PartialBodyMeans(env: Env, s: State, c: Constants, r: nat, orc: Oracle) returns (next: Env)
    requires c.Valid() && r < PARTIAL_ROUNDS && InRound(env, map["r" := r], s, r)
    ensures BlockValue(PartialBody(c), env, map["r" := r], orc) == Some((next, true))
    ensures HasArray(next, map[], "state", Internal(FirstBoxed(s, c, r), c))
  {
    hide BlockValue, Internal, FirstBoxExpr, DiagonalExpr, BodyAt, FPow, FAdd, Reduce, LaneSum, RhsValue, ExprValue;
    assert "state"[0] == 's' && "total"[0] == 't';
    var ints: Ints := map["r" := r];
    var total := Let(["total"], Scalar(Sum(Name("j"), Lit(0), Lit(16), StateAt(Name("j")))));
    var mix := Let(["state"], Map(Name("j"), Lit(0), Lit(16), DiagonalExpr(c)));
    var b: State := FirstBoxed(s, c, r);
    FirstBoxIs(env, s, c, r);
    UpdateIs(env, s, b[0], FirstBoxExpr(c), ints, orc);
    ArrayStep("state", Update(Name("state"), Lit(0), FirstBoxExpr(c)), [total, mix], b, env, ints, orc);
    assert PartialBody(c) == [Let(["state"], Update(Name("state"), Lit(0), FirstBoxExpr(c)))] + [total, mix];
    var e1 := env["state" := Array(b)];
    TotalIs(e1, b, r);
    ScalarStep("total", Sum(Name("j"), Lit(0), Lit(16), StateAt(Name("j"))), [mix], LaneSum(b), e1, ints, orc);
    assert [total, mix] == [total] + [mix] && [mix] == [mix] + [];
    var e2 := e1["total" := Single(LaneSum(b))];
    forall j: nat | j < 16
      ensures BodyAt("j", 0, DiagonalExpr(c), Internal(b, c), e2, ints, j)
    {
      DiagonalBody(e2, b, c, r, j);
    }
    MapStep("state", "j", 16, DiagonalExpr(c), [], Internal(b, c), e2, ints, orc);
    next := e2["state" := Array(Internal(b, c))];
    EmptyBlock(next, ints, orc);
  }

  lemma {:induction false} PartialLoop(env: Env, s: State, c: Constants, lo: nat, orc: Oracle) returns (final: Env)
    requires c.Valid() && lo <= PARTIAL_ROUNDS && HasArray(env, map[], "state", s)
    ensures LoopValue("r", lo, 14, PartialBody(c), env, map[], orc) == Some((final, true))
    ensures HasArray(final, map[], "state", PartialRounds(s, c, lo))
    decreases PARTIAL_ROUNDS as int - lo as int
  {
    hide BlockValue, Internal, FirstBoxed, PartialBody, HasArray;
    if lo == PARTIAL_ROUNDS {
      final := env;
    } else {
      RoundScope(env, s, lo);
      var next := PartialBodyMeans(env, s, c, lo, orc);
      LoopStep("r", lo, 14, PartialBody(c), env, next, map[], orc);
      hide LoopValue;
      final := PartialLoop(next, Internal(FirstBoxed(s, c, lo), c), c, lo + 1, orc);
    }
  }

  // -- The whole program -------------------------------------------------------------------------

  lemma ForStep(x: string, lo: nat, hi: nat, body: seq<Stmt>, rest: seq<Stmt>, env: Env, next: Env, ints: Ints, orc: Oracle)
    requires LoopValue(x, lo, hi, body, env, ints, orc) == Some((next, true))
    ensures BlockValue([For(x, lo, hi, body)] + rest, env, ints, orc) == BlockValue(rest, next, ints, orc)
  {
    hide LoopValue;
    assert ([For(x, lo, hi, body)] + rest)[1..] == rest;
    var later := BlockValue(rest, next, ints, orc);
    if later.Some? { assert later.value == (later.value.0, later.value.1); }
  }

  lemma ProgramBody(env: Env, s: State, c: Constants, orc: Oracle) returns (final: Env)
    requires c.Valid() && HasArray(env, map[], "state", s)
    ensures BlockValue(Poseidon2Fn(c).body, env, map[], orc) == Some((final, true))
    ensures HasArray(final, map[], "state", Permute(s, c))
  {
    hide BlockValue, LoopValue, External, FullRounds, PartialRounds, FullBody, PartialBody, ExternalStep;
    var f1, p, f2 := For("r", 0, 4, FullBody(c)), For("r", 0, 14, PartialBody(c)), For("r", 4, 8, FullBody(c));
    assert Poseidon2Fn(c).body == [ExternalStep()] + [f1, p, f2];
    ExternalLet(env, map[], s, [f1, p, f2], orc);
    var e0 := env["state" := Array(External(s))];
    var s1: State := External(s);
    var e1 := FullLoop(e0, s1, c, 0, 4, orc);
    assert [f1, p, f2] == [f1] + [p, f2] && [p, f2] == [p] + [f2] && [f2] == [f2] + [];
    ForStep("r", 0, 4, FullBody(c), [p, f2], e0, e1, map[], orc);
    var s2 := FullRounds(s1, c, 0, 4);
    var e2 := PartialLoop(e1, s2, c, 0, orc);
    ForStep("r", 0, 14, PartialBody(c), [f2], e1, e2, map[], orc);
    var s3 := PartialRounds(s2, c, 0);
    final := FullLoop(e2, s3, c, 4, 8, orc);
    ForStep("r", 4, 8, FullBody(c), [], e2, final, map[], orc);
    EmptyBlock(final, map[], orc);
  }

  lemma StateParam(s: State)
    ensures ParamEnv([Param("state", Some(16))], s) == Some(map["state" := Array(s)])
  {
    assert [Param("state", Some(16))][..0] == [] && s[..0] == [] && s[0..] == s;
    assert ParamEnv([], s[..0]) == Some(map[]);
    assert map[]["state" := Array(s)] == map["state" := Array(s)];
  }

  /** The felt program is the plain permutation. */
  lemma ProgramIsPermutation(s: State, c: Constants, orc: Oracle)
    requires c.Valid()
    ensures FnValue(Poseidon2Fn(c), s, orc) == Some((Permute(s, c), true))
  {
    hide BlockValue, Permute, ArgValues;
    StateParam(s);
    var env: Env := map["state" := Array(s)];
    var final := ProgramBody(env, s, c, orc);
    ArrayReturn("state", final, Permute(s, c));
    FlattenOne(Permute(s, c));
    hide ParamEnv;
    assert FnValue(Poseidon2Fn(c), s, orc) == Some((FeltSemantics.Flatten([Array(Permute(s, c))]), true));
  }

  lemma FlattenOne(vs: seq<Felt>)
    ensures FeltSemantics.Flatten([Array(vs)]) == vs
  {
    assert [Array(vs)][1..] == [];
    assert vs + [] == vs;
  }
}
