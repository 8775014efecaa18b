// When no sum, map or loop on the way rebinds a loop variable, substituting it is
// binding it, for values and failures alike.
module UnshadowedBinders {
  import opened M31
  import opened Wrappers
  import opened FeltAst
  import opened FeltSemantics
  import opened Lowering
  import opened LoweringExprs
  import opened SubstitutedBlocks

  // -- Binders of sums and maps ------------------------------------------------------------------

  function Binder(j: Expr): set<string> {
    if j.Name? then {j.x} else {}
  }

  /** No sum rebinds a variable that is in scope: substitution would replace its binder. */
  predicate Unshadowed(e: Expr, bound: set<string>) {
    match e
    case Sum(j, _, _, body) => Binder(j) !! bound && Unshadowed(body, bound + Binder(j))
    case Binary(_, l, r) => Unshadowed(l, bound) && Unshadowed(r, bound)
    case Power(b, _) => Unshadowed(b, bound)
    case Neg(f) => Unshadowed(f, bound)
    case Paren(f) => Unshadowed(f, bound)
    case _ => true
  }

  predicate AllUnshadowed(es: seq<Expr>, bound: set<string>) {
    forall i :: 0 <= i < |es| ==> Unshadowed(es[i], bound)
  }

  predicate RhsUnshadowed(v: Rhs, bound: set<string>)
    decreases RhsSize(v), 0
  {
    match v
    case Scalar(e) => Unshadowed(e, bound)
    case ArrayLit(es) => AllUnshadowed(es, bound)
    case Map(j, _, _, body) => Binder(j) !! bound && Unshadowed(body, bound + Binder(j))
    case Update(_, _, e) => Unshadowed(e, bound)
    case Splice(f, es) => AllUnshadowed(es, bound) && AllUnshadowed(f.rets, {}) && BlockUnshadowed(f.body, {})
    case Activate(_, es) => AllUnshadowed(es, bound)
  }

  predicate StmtUnshadowed(s: Stmt, bound: set<string>)
    decreases StmtSize(s), 0
  {
    match s
    case Let(_, v) => RhsUnshadowed(v, bound)
    case Assert(l, r) => Unshadowed(l, bound) && Unshadowed(r, bound)
    case For(x, _, _, body) => BlockUnshadowed(body, bound + {x})
  }

  predicate BlockUnshadowed(body: seq<Stmt>, bound: set<string>)
    decreases BlockSize(body), 1
  {
    body == [] || (StmtUnshadowed(body[0], bound) && BlockUnshadowed(body[1..], bound))
  }

  lemma {:induction false} FewerBound(e: Expr, bound: set<string>, fewer: set<string>)
    requires Unshadowed(e, bound) && fewer <= bound
    ensures Unshadowed(e, fewer)
  {
    match e
    case Sum(j, _, _, body) => FewerBound(body, bound + Binder(j), fewer + Binder(j));
    case Binary(_, l, r) =>
      FewerBound(l, bound, fewer);
      FewerBound(r, bound, fewer);
    case Power(b, _) => FewerBound(b, bound, fewer);
    case Neg(f) => FewerBound(f, bound, fewer);
    case Paren(f) => FewerBound(f, bound, fewer);
    case _ =>
  }

  lemma AllFewerBound(es: seq<Expr>, bound: set<string>, fewer: set<string>)
    requires AllUnshadowed(es, bound) && fewer <= bound
    ensures AllUnshadowed(es, fewer)
  {
    hide Unshadowed;
    forall i | 0 <= i < |es|
      ensures Unshadowed(es[i], fewer)
    {
      FewerBound(es[i], bound, fewer);
    }
  }

  lemma RhsFewerBound(v: Rhs, bound: set<string>, fewer: set<string>)
    requires RhsUnshadowed(v, bound) && fewer <= bound
    ensures RhsUnshadowed(v, fewer)
  {
    hide Unshadowed, AllUnshadowed, BlockUnshadowed;
    match v
    case Scalar(e) => FewerBound(e, bound, fewer);
    case ArrayLit(es) => AllFewerBound(es, bound, fewer);
    case Map(j, _, _, body) => FewerBound(body, bound + Binder(j), fewer + Binder(j));
    case Update(_, _, e) => FewerBound(e, bound, fewer);
    case Splice(_, es) => AllFewerBound(es, bound, fewer);
    case Activate(_, es) => AllFewerBound(es, bound, fewer);
  }

  lemma {:induction false} StmtFewerBound(s: Stmt, bound: set<string>, fewer: set<string>)
    requires StmtUnshadowed(s, bound) && fewer <= bound
    ensures StmtUnshadowed(s, fewer)
    decreases StmtSize(s), 0
  {
    hide Unshadowed, RhsUnshadowed, BlockUnshadowed;
    match s
    case Let(_, v) => RhsFewerBound(v, bound, fewer);
    case Assert(l, r) =>
      FewerBound(l, bound, fewer);
      FewerBound(r, bound, fewer);
    case For(x, _, _, body) => BlockFewerBound(body, bound + {x}, fewer + {x});
  }

  lemma {:induction false} BlockFewerBound(body: seq<Stmt>, bound: set<string>, fewer: set<string>)
    requires BlockUnshadowed(body, bound) && fewer <= bound
    ensures BlockUnshadowed(body, fewer)
    decreases BlockSize(body), 1
  {
    hide StmtUnshadowed;
    if body != [] {
      StmtFewerBound(body[0], bound, fewer);
      BlockFewerBound(body[1..], bound, fewer);
    }
  }

  // -- Substitution keeps binders apart ------------------------------------------------------------

  lemma BinderKept(j: Expr, x: string, k: nat)
    requires x !in Binder(j)
    ensures Binder(Substitute(j, x, k)) == Binder(j) && PlainName(Substitute(j, x, k), map[]) == PlainName(j, map[])
  {
  }

  lemma {:induction false} SubstituteUnshadowed(e: Expr, x: string, k: nat, bound: set<string>)
    requires Unshadowed(e, bound) && x in bound
    ensures Unshadowed(Substitute(e, x, k), bound)
  {
    match e
    case Sum(j, _, _, body) =>
      BinderKept(j, x, k);
      SubstituteUnshadowed(body, x, k, bound + Binder(j));
    case Binary(_, l, r) =>
      SubstituteUnshadowed(l, x, k, bound);
      SubstituteUnshadowed(r, x, k, bound);
    case Power(b, _) => SubstituteUnshadowed(b, x, k, bound);
    case Neg(f) => SubstituteUnshadowed(f, x, k, bound);
    case Paren(f) => SubstituteUnshadowed(f, x, k, bound);
    case _ =>
  }

  lemma SubstituteAllUnshadowed(es: seq<Expr>, x: string, k: nat, bound: set<string>)
    requires AllUnshadowed(es, bound) && x in bound
    ensures AllUnshadowed(SubstituteAll(es, x, k), bound)
  {
    hide Unshadowed, Substitute;
    forall i | 0 <= i < |es|
      ensures Unshadowed(Substitute(es[i], x, k), bound)
    {
      SubstituteUnshadowed(es[i], x, k, bound);
    }
  }

  lemma SubstituteRhsUnshadowed(v: Rhs, x: string, k: nat, bound: set<string>)
    requires RhsUnshadowed(v, bound) && x in bound
    ensures RhsUnshadowed(SubstituteRhs(v, x, k), bound)
  {
    hide Unshadowed, AllUnshadowed, BlockUnshadowed, Substitute, SubstituteAll;
    match v
    case Scalar(e) => SubstituteUnshadowed(e, x, k, bound);
    case ArrayLit(es) => SubstituteAllUnshadowed(es, x, k, bound);
    case Map(j, _, _, body) =>
      BinderKept(j, x, k);
      SubstituteUnshadowed(body, x, k, bound + Binder(j));
    case Update(_, _, e) => SubstituteUnshadowed(e, x, k, bound);
    case Splice(_, es) => SubstituteAllUnshadowed(es, x, k, bound);
    case Activate(_, es) => SubstituteAllUnshadowed(es, x, k, bound);
  }

  lemma {:induction false} SubstituteStmtUnshadowed(s: Stmt, x: string, k: nat, bound: set<string>)
    requires StmtUnshadowed(s, bound) && x in bound
    ensures StmtUnshadowed(SubstituteStmt(s, x, k), bound)
    decreases StmtSize(s), 0
  {
    hide Unshadowed, RhsUnshadowed, BlockUnshadowed, Substitute, SubstituteRhs;
    match s
    case Let(_, v) => SubstituteRhsUnshadowed(v, x, k, bound);
    case Assert(l, r) =>
      SubstituteUnshadowed(l, x, k, bound);
      SubstituteUnshadowed(r, x, k, bound);
    case For(y, _, _, body) => SubstituteBlockUnshadowed(body, x, k, bound + {y});
  }

  lemma {:induction false} SubstituteBlockUnshadowed(body: seq<Stmt>, x: string, k: nat, bound: set<string>)
    requires BlockUnshadowed(body, bound) && x in bound
    ensures BlockUnshadowed(SubstituteBlock(body, x, k), bound)
    decreases BlockSize(body), 1
  {
    hide StmtUnshadowed, SubstituteStmt;
    if body != [] {
      SubstituteStmtUnshadowed(body[0], x, k, bound);
      SubstituteBlockUnshadowed(body[1..], x, k, bound);
    }
  }

  // -- Substitution is binding, in both directions ---------------------------------------------------

  lemma {:induction false} SubstituteIsBinding(e: Expr, x: string, k: nat, env: Env, ints: Ints)
    requires Unshadowed(e, {x})
    ensures ExprValue(Substitute(e, x, k), env, ints) == ExprValue(e, env, ints[x := k])
    decreases e, 0, 0
  {
    hide FAdd, FSub, FMul, FPow, FNeg, IndexValue, ConstValue, HostConstant;
    match e
    case Lit(_) =>
    case Name(_) =>
    case Index(a, i) =>
      SubstituteArrayName(a, x, k, env, ints);
      SubstituteIndex(i, x, k, ints);
    case Constant(_, i) => SubstituteIndex(i, x, k, ints);
    case Pow2(_) => SubstituteConst(e, x, k, ints);
    case Sum(_, _, _, _) => WholeSumIsBinding(e, x, k, env, ints);
    case Binary(op, l, r) =>
      if op == Shl {
        SubstituteConst(e, x, k, ints);
      } else {
        SubstituteIsBinding(l, x, k, env, ints);
        SubstituteIsBinding(r, x, k, env, ints);
      }
    case Power(b, n) =>
      SubstituteIndex(n, x, k, ints);
      SubstituteIsBinding(b, x, k, env, ints);
    case Neg(f) => SubstituteIsBinding(f, x, k, env, ints);
    case Paren(f) => SubstituteIsBinding(f, x, k, env, ints);
  }

  lemma {:induction false} WholeSumIsBinding(e: Expr, x: string, k: nat, env: Env, ints: Ints)
    requires e.Sum? && Unshadowed(e, {x})
    ensures ExprValue(Substitute(e, x, k), env, ints) == ExprValue(e, env, ints[x := k])
    decreases e.body, 2, 0
  {
    hide IndexValue, SumValue;
    SubstituteIndex(e.start, x, k, ints);
    SubstituteIndex(e.end, x, k, ints);
    BinderKept(e.binder, x, k);
    var lo, hi := IndexValue(e.start, ints[x := k]), IndexValue(e.end, ints[x := k]);
    if e.binder.Name? && lo.Some? && hi.Some? && lo.value < hi.value {
      FewerBound(e.body, {x} + Binder(e.binder), {x});
      SumIsBinding(e.binder.x, lo.value, hi.value, e.body, x, k, env, ints);
    }
  }

  lemma {:induction false} SumIsBinding(
      y: string, lo: nat, hi: nat, body: Expr, x: string, k: nat, env: Env, ints: Ints)
    requires lo < hi && y != x && Unshadowed(body, {x})
    ensures SumValue(y, lo, hi, body, env, ints[x := k]) == SumValue(y, lo, hi, Substitute(body, x, k), env, ints)
    decreases body, 1, hi - lo
  {
    hide FAdd, Substitute;
    assert ints[y := hi - 1][x := k] == ints[x := k][y := hi - 1];
    SubstituteIsBinding(body, x, k, env, ints[y := hi - 1]);
    if lo + 1 < hi { SumIsBinding(y, lo, hi - 1, body, x, k, env, ints); }
  }

  lemma {:induction false} ExprsAreBinding(es: seq<Expr>, x: string, k: nat, env: Env, ints: Ints)
    requires AllUnshadowed(es, {x})
    ensures ExprValues(SubstituteAll(es, x, k), env, ints) == ExprValues(es, env, ints[x := k])
    decreases |es|
  {
    hide ExprValue, Substitute, Unshadowed;
    if es != [] {
      SubstituteIsBinding(es[0], x, k, env, ints);
      ExprsAreBinding(es[1..], x, k, env, ints);
    }
  }

  lemma {:induction false} MapIsBinding(
      y: string, lo: nat, hi: nat, body: Expr, x: string, k: nat, env: Env, ints: Ints)
    requires y != x && Unshadowed(body, {x})
    ensures MapValues(y, lo, hi, Substitute(body, x, k), env, ints) == MapValues(y, lo, hi, body, env, ints[x := k])
    decreases if lo < hi then hi - lo else 0
  {
    hide ExprValue, Substitute, Unshadowed;
    if lo < hi {
      assert ints[y := lo][x := k] == ints[x := k][y := lo];
      SubstituteIsBinding(body, x, k, env, ints[y := lo]);
      MapIsBinding(y, lo + 1, hi, body, x, k, env, ints);
    }
  }

  lemma {:induction false} ArgsAreBinding(es: seq<Expr>, x: string, k: nat, env: Env, ints: Ints)
    requires AllUnshadowed(es, {x})
    ensures ArgValues(SubstituteAll(es, x, k), env, ints) == ArgValues(es, env, ints[x := k])
    decreases |es|
  {
    hide ExprValue, Substitute, ArrayNamed, Unshadowed;
    if es != [] {
      SubstituteArrayName(es[0], x, k, env, ints);
      SubstituteIsBinding(es[0], x, k, env, ints);
      ArgsAreBinding(es[1..], x, k, env, ints);
    }
  }

  lemma {:induction false} LocalsAreBinding(
      params: seq<Param>, es: seq<Expr>, x: string, k: nat, env: Env, ints: Ints)
    requires |params| == |es| && AllUnshadowed(es, {x})
    ensures LocalEnv(params, SubstituteAll(es, x, k), env, ints) == LocalEnv(params, es, env, ints[x := k])
    decreases |params|
  {
    hide ParamValue, Substitute, Unshadowed, SubstituteAll;
    if params != [] {
      var n := |params| - 1;
      SubstituteFront(es, x, k, n);
      LocalsAreBinding(params[..n], es[..n], x, k, env, ints);
      ParamIsBinding(params[n], es[n], x, k, env, ints);
    }
  }

  lemma SubstituteFront(es: seq<Expr>, x: string, k: nat, n: nat)
    requires n <= |es|
    ensures SubstituteAll(es, x, k)[..n] == SubstituteAll(es[..n], x, k)
  {
    hide SubstituteAll, Substitute;
  }

  lemma ParamIsBinding(p: Param, e: Expr, x: string, k: nat, env: Env, ints: Ints)
    requires Unshadowed(e, {x})
    ensures ParamValue(p, Substitute(e, x, k), env, ints) == ParamValue(p, e, env, ints[x := k])
  {
    hide ExprValue, Substitute, ArrayNamed, Unshadowed;
    SubstituteArrayName(e, x, k, env, ints);
    SubstituteIsBinding(e, x, k, env, ints);
  }

  lemma RhsIsBinding(n: nat, v: Rhs, x: string, k: nat, env: Env, ints: Ints, orc: Oracle)
    requires RhsUnshadowed(v, {x})
    ensures RhsValue(n, SubstituteRhs(v, x, k), env, ints, orc) == RhsValue(n, v, env, ints[x := k], orc)
  {
    hide ExprValue, Substitute, ArrayNamed, IndexValue, BlockValue, ArgValues, ExprValues, MapValues, LocalEnv, Flatten;
    hide CallBinders, ForBinders, Unshadowed, AllUnshadowed, BlockUnshadowed;
    match v
    case Scalar(e) => SubstituteIsBinding(e, x, k, env, ints);
    case ArrayLit(es) => ExprsAreBinding(es, x, k, env, ints);
    case Map(j, a, b, body) =>
      SubstituteIndex(a, x, k, ints);
      SubstituteIndex(b, x, k, ints);
      BinderKept(j, x, k);
      var lo, hi := IndexValue(a, ints[x := k]), IndexValue(b, ints[x := k]);
      if j.Name? && lo.Some? && hi.Some? {
        FewerBound(body, {x} + Binder(j), {x});
        MapIsBinding(j.x, lo.value, hi.value, body, x, k, env, ints);
      }
    case Update(a, i, e) =>
      SubstituteArrayName(a, x, k, env, ints);
      SubstituteIndex(i, x, k, ints);
      SubstituteIsBinding(e, x, k, env, ints);
    case Splice(f, es) => if |es| == |f.params| { LocalsAreBinding(f.params, es, x, k, env, ints); }
    case Activate(f, es) => ArgsAreBinding(es, x, k, env, ints);
  }

  lemma {:induction false} StmtIsBinding(s: Stmt, x: string, k: nat, env: Env, ints: Ints, orc: Oracle)
    requires HygienicStmt(s, {x}) && StmtUnshadowed(s, {x})
    ensures StmtValue(SubstituteStmt(s, x, k), env, ints, orc) == StmtValue(s, env, ints[x := k], orc)
    decreases StmtSize(s), 0, 0
  {
    hide ExprValue, Substitute, RhsValue, SubstituteRhs, Bind, LoopValue, SubstituteBlock, Unshadowed, RhsUnshadowed;
    hide BlockUnshadowed;
    match s
    case Let(names, v) => RhsIsBinding(|names|, v, x, k, env, ints, orc);
    case Assert(l, r) =>
      SubstituteIsBinding(l, x, k, env, ints);
      SubstituteIsBinding(r, x, k, env, ints);
    case For(y, a, b, body) =>
      HygienicSubset(body, {x} + {y}, {x});
      BlockFewerBound(body, {x} + {y}, {x});
      LoopIsBinding(y, a, b, body, x, k, env, ints, orc);
  }

  lemma {:induction false} BlockIsBinding(body: seq<Stmt>, x: string, k: nat, env: Env, ints: Ints, orc: Oracle)
    requires Hygienic(body, {x}) && BlockUnshadowed(body, {x})
    ensures BlockValue(SubstituteBlock(body, x, k), env, ints, orc) == BlockValue(body, env, ints[x := k], orc)
    decreases BlockSize(body), 1, 0
  {
    hide StmtValue, SubstituteStmt, HygienicStmt, StmtUnshadowed;
    if body != [] {
      StmtIsBinding(body[0], x, k, env, ints, orc);
      var v := StmtValue(body[0], env, ints[x := k], orc);
      if v.Some? { BlockIsBinding(body[1..], x, k, v.value.0, ints, orc); }
    }
  }

  lemma {:induction false} LoopIsBinding(
      y: string, lo: nat, hi: nat, body: seq<Stmt>, x: string, k: nat, env: Env, ints: Ints, orc: Oracle)
    requires y != x && Hygienic(body, {x}) && BlockUnshadowed(body, {x})
    ensures LoopValue(y, lo, hi, SubstituteBlock(body, x, k), env, ints, orc)
         == LoopValue(y, lo, hi, body, env, ints[x := k], orc)
    decreases BlockSize(body), 2, if lo < hi then hi - lo else 0
  {
    hide BlockValue, SubstituteBlock, Hygienic, BlockUnshadowed;
    if lo < hi {
      assert ints[y := lo][x := k] == ints[x := k][y := lo];
      BlockIsBinding(body, x, k, env, ints[y := lo], orc);
      var v := BlockValue(body, env, ints[x := k][y := lo], orc);
      if v.Some? { LoopIsBinding(y, lo + 1, hi, body, x, k, v.value.0, ints, orc); }
    }
  }
}
