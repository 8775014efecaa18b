// Unrolling: a block with a loop variable replaced by a literal means what the
// block means with the variable bound, when loops do not rebind each other's
// variables.
module SubstitutedBlocks {
  import opened M31
  import opened Wrappers
  import opened FeltAst
  import opened FeltSemantics
  import opened Lowering
  import opened LoweringExprs

  lemma {:induction false} SubstituteExprs(es: seq<Expr>, x: string, k: nat, env: Env, ints: Ints)
    requires ExprValues(SubstituteAll(es, x, k), env, ints).Some?
    ensures ExprValues(es, env, ints[x := k]) == ExprValues(SubstituteAll(es, x, k), env, ints)
    decreases |es|
  {
    hide ExprValue, Substitute;
    if es != [] {
      SubstituteMeaning(es[0], x, k, env, ints);
      SubstituteExprs(es[1..], x, k, env, ints);
    }
  }

  lemma {:induction false} SubstituteMap(
      y: string, lo: nat, hi: nat, body: Expr, x: string, k: nat, env: Env, ints: Ints)
    requires y != x && MapValues(y, lo, hi, Substitute(body, x, k), env, ints).Some?
    ensures MapValues(y, lo, hi, body, env, ints[x := k]) == MapValues(y, lo, hi, Substitute(body, x, k), env, ints)
    decreases hi - lo
  {
    hide ExprValue, Substitute;
    if lo < hi {
      assert ints[y := lo][x := k] == ints[x := k][y := lo];
      SubstituteMeaning(body, x, k, env, ints[y := lo]);
      SubstituteMap(y, lo + 1, hi, body, x, k, env, ints);
    }
  }

  lemma {:induction false} SubstituteArgs(es: seq<Expr>, x: string, k: nat, env: Env, ints: Ints)
    requires ArgValues(SubstituteAll(es, x, k), env, ints).Some?
    ensures ArgValues(es, env, ints[x := k]) == ArgValues(SubstituteAll(es, x, k), env, ints)
    decreases |es|
  {
    hide ExprValue, Substitute, ArrayNamed;
    if es != [] {
      SubstituteArrayName(es[0], x, k, env, ints);
      if ArrayNamed(es[0], env, ints[x := k]).None? { SubstituteMeaning(es[0], x, k, env, ints); }
      SubstituteArgs(es[1..], x, k, env, ints);
    }
  }

  lemma {:induction false} SubstituteLocals(
      params: seq<Param>, es: seq<Expr>, x: string, k: nat, env: Env, ints: Ints)
    requires |params| == |es| && LocalEnv(params, SubstituteAll(es, x, k), env, ints).Some?
    ensures LocalEnv(params, es, env, ints[x := k]) == LocalEnv(params, SubstituteAll(es, x, k), env, ints)
    decreases |params|
  {
    hide ExprValue, Substitute, ArrayNamed;
    if params != [] {
      var n := |params| - 1;
      assert SubstituteAll(es, x, k)[..n] == SubstituteAll(es[..n], x, k);
      SubstituteLocals(params[..n], es[..n], x, k, env, ints);
      SubstituteArrayName(es[n], x, k, env, ints);
      if params[n].size.None? { SubstituteMeaning(es[n], x, k, env, ints); }
    }
  }

  lemma SubstituteRhsMeaning(n: nat, v: Rhs, x: string, k: nat, env: Env, ints: Ints, orc: Oracle)
    requires RhsValue(n, SubstituteRhs(v, x, k), env, ints, orc).Some?
    ensures RhsValue(n, v, env, ints[x := k], orc) == RhsValue(n, SubstituteRhs(v, x, k), env, ints, orc)
  {
    hide ExprValue, Substitute, ArrayNamed, IndexValue, BlockValue, ArgValues, ExprValues, MapValues, LocalEnv, Flatten;
    hide CallBinders, ForBinders;
    match v
    case Scalar(e) => SubstituteMeaning(e, x, k, env, ints);
    case ArrayLit(es) => SubstituteExprs(es, x, k, env, ints);
    case Map(j, a, b, body) =>
      SubstituteIndex(a, x, k, ints);
      SubstituteIndex(b, x, k, ints);
      SubstituteBinder(j, x, k);
      SubstituteMap(j.x, IndexValue(a, ints[x := k]).value, IndexValue(b, ints[x := k]).value, body, x, k, env, ints);
    case Update(a, i, e) =>
      SubstituteArrayName(a, x, k, env, ints);
      SubstituteIndex(i, x, k, ints);
      SubstituteMeaning(e, x, k, env, ints);
    case Splice(f, es) => SubstituteLocals(f.params, es, x, k, env, ints);
    case Activate(f, es) => SubstituteArgs(es, x, k, env, ints);
  }

  /** A binder that survives substitution is another name. */
  lemma SubstituteBinder(j: Expr, x: string, k: nat)
    requires PlainName(Substitute(j, x, k), map[]).Some?
    ensures j.Name? && j.x != x && Substitute(j, x, k) == j
  {
  }

  lemma {:induction false} SubstituteStmtMeaning(s: Stmt, x: string, k: nat, env: Env, ints: Ints, orc: Oracle)
    requires HygienicStmt(s, {x}) && StmtValue(SubstituteStmt(s, x, k), env, ints, orc).Some?
    ensures StmtValue(s, env, ints[x := k], orc) == StmtValue(SubstituteStmt(s, x, k), env, ints, orc)
    decreases StmtSize(s), 0, 0
  {
    hide ExprValue, Substitute, RhsValue, SubstituteRhs, Bind, LoopValue, SubstituteBlock;
    match s
    case Let(names, v) => SubstituteRhsMeaning(|names|, v, x, k, env, ints, orc);
    case Assert(l, r) =>
      SubstituteMeaning(l, x, k, env, ints);
      SubstituteMeaning(r, x, k, env, ints);
    case For(y, a, b, body) =>
      HygienicSubset(body, {x} + {y}, {x});
      SubstituteLoopMeaning(y, a, b, body, x, k, env, ints, orc);
  }

  lemma {:induction false} SubstituteBlockMeaning(
      body: seq<Stmt>, x: string, k: nat, env: Env, ints: Ints, orc: Oracle)
    requires Hygienic(body, {x}) && BlockValue(SubstituteBlock(body, x, k), env, ints, orc).Some?
    ensures BlockValue(body, env, ints[x := k], orc) == BlockValue(SubstituteBlock(body, x, k), env, ints, orc)
    decreases BlockSize(body), 1, 0
  {
    hide StmtValue, SubstituteStmt, HygienicStmt;
    if body != [] {
      SubstituteStmtMeaning(body[0], x, k, env, ints, orc);
      var env' := StmtValue(body[0], env, ints[x := k], orc).value.0;
      SubstituteBlockMeaning(body[1..], x, k, env', ints, orc);
    }
  }

  lemma {:induction false} SubstituteLoopMeaning(
      y: string, lo: nat, hi: nat, body: seq<Stmt>, x: string, k: nat, env: Env, ints: Ints, orc: Oracle)
    requires y != x && Hygienic(body, {x}) && LoopValue(y, lo, hi, SubstituteBlock(body, x, k), env, ints, orc).Some?
    ensures LoopValue(y, lo, hi, body, env, ints[x := k], orc)
         == LoopValue(y, lo, hi, SubstituteBlock(body, x, k), env, ints, orc)
    decreases BlockSize(body), 2, hi - lo
  {
    hide BlockValue, SubstituteBlock, Hygienic;
    if lo < hi {
      assert ints[y := lo][x := k] == ints[x := k][y := lo];
      SubstituteBlockMeaning(body, x, k, env, ints[y := lo], orc);
      var env' := BlockValue(body, env, ints[x := k][y := lo], orc).value.0;
      SubstituteLoopMeaning(y, lo + 1, hi, body, x, k, env', ints, orc);
    }
  }

  // -- Hygiene ----------------------------------------------------------------------------

  lemma {:induction false} HygienicSubset(body: seq<Stmt>, bound: set<string>, fewer: set<string>)
    requires Hygienic(body, bound) && fewer <= bound
    ensures Hygienic(body, fewer)
    decreases BlockSize(body), 1
  {
    if body != [] {
      HygienicStmtSubset(body[0], bound, fewer);
      HygienicSubset(body[1..], bound, fewer);
    }
  }

  lemma {:induction false} HygienicStmtSubset(s: Stmt, bound: set<string>, fewer: set<string>)
    requires HygienicStmt(s, bound) && fewer <= bound
    ensures HygienicStmt(s, fewer)
    decreases StmtSize(s), 0
  {
    hide HygienicRhs;
    match s
    case Let(_, _) =>
    case Assert(_, _) =>
    case For(x, _, _, body) => HygienicSubset(body, bound + {x}, fewer + {x});
  }

  lemma {:induction false} SubstituteHygienic(body: seq<Stmt>, x: string, k: nat, bound: set<string>)
    requires Hygienic(body, bound)
    ensures Hygienic(SubstituteBlock(body, x, k), bound)
    decreases BlockSize(body), 1
  {
    if body != [] {
      SubstituteHygienicStmt(body[0], x, k, bound);
      SubstituteHygienic(body[1..], x, k, bound);
    }
  }

  lemma {:induction false} SubstituteHygienicStmt(s: Stmt, x: string, k: nat, bound: set<string>)
    requires HygienicStmt(s, bound)
    ensures HygienicStmt(SubstituteStmt(s, x, k), bound)
    decreases StmtSize(s), 0
  {
    match s
    case Let(_, v) =>
    case Assert(_, _) =>
    case For(y, _, _, body) => SubstituteHygienic(body, x, k, bound + {y});
  }

  /**
   * Why hygiene is needed: for i in 0..1 { for i in 1..2 { let y = i; } } binds
   * y to 1, but its unrolled form binds y to 0.
   */
  lemma CaptureExample(orc: Oracle)
    ensures var inner := [For("i", 1, 2, [Let(["y"], Scalar(Name("i")))])];
            && !Hygienic(inner, {"i"})
            && BlockValue(inner, map[], map["i" := 0], orc) == Some((map["y" := Single(1)], true))
            && BlockValue(SubstituteBlock(inner, "i", 0), map[], map[], orc) == Some((map["y" := Single(0)], true))
  {
    var binding := Let(["y"], Scalar(Name("i")));
    var inner := [For("i", 1, 2, [binding])];
    BindOne(binding, Name("i"), map["i" := 0]["i" := 1], 1, orc);
    BindOne(Let(["y"], Scalar(Lit(0))), Lit(0), map["i" := 1], 0, orc);
    hide BlockValue, StmtValue;
    OneStatement(inner[0], map[], map["i" := 0], orc);
    OneIteration("i", 1, [binding], map[], map["i" := 0], orc);
    var unrolled := SubstituteBlock(inner, "i", 0);
    SubstituteOne(binding, "i", 0);
    SubstituteOne(inner[0], "i", 0);
    OneStatement(unrolled[0], map[], map[], orc);
    OneIteration("i", 1, [Let(["y"], Scalar(Lit(0)))], map[], map[], orc);
  }

  lemma SubstituteOne(s: Stmt, x: string, k: nat)
    ensures SubstituteBlock([s], x, k) == [SubstituteStmt(s, x, k)]
  {
    assert [s][1..] == [];
  }

  lemma OneStatement(s: Stmt, env: Env, ints: Ints, orc: Oracle)
    ensures StmtValue(s, env, ints, orc).Some? ==> BlockValue([s], env, ints, orc) == StmtValue(s, env, ints, orc)
    ensures s.For? ==> StmtValue(s, env, ints, orc) == LoopValue(s.x, s.start, s.end, s.body, env, ints, orc)
  {
    hide LoopValue, RhsValue, ExprValue;
    var v := StmtValue(s, env, ints, orc);
    if v.Some? { assert BlockValue([], v.value.0, ints, orc) == Some((v.value.0, true)); }
  }

  lemma OneIteration(x: string, lo: nat, body: seq<Stmt>, env: Env, ints: Ints, orc: Oracle)
    ensures BlockValue(body, env, ints[x := lo], orc).Some? ==>
              LoopValue(x, lo, lo + 1, body, env, ints, orc) == BlockValue(body, env, ints[x := lo], orc)
  {
    hide BlockValue;
    var v := BlockValue(body, env, ints[x := lo], orc);
    if v.Some? { assert LoopValue(x, lo + 1, lo + 1, body, v.value.0, ints, orc) == Some((v.value.0, true)); }
  }

  lemma BindOne(s: Stmt, e: Expr, ints: Ints, v: Felt, orc: Oracle)
    requires s == Let(["y"], Scalar(e)) && ExprValue(e, map[], ints) == Some(v)
    ensures BlockValue([s], map[], ints, orc) == Some((map["y" := Single(v)], true))
  {
    hide ExprValue;
    assert Bind(["y"], [Single(v)], map[]) == map["y" := Single(v)] by {
      assert ["y"][1..] == [];
    }
    assert StmtValue(s, map[], ints, orc) == Some((map["y" := Single(v)], true)) by {
      assert RhsValue(1, s.value, map[], ints, orc) == Some(([Single(v)], true));
    }
    OneStatement(s, map[], ints, orc);
  }
}
