// The compiler refuses nothing that has a meaning: with a degree bound of three
// or more a function lowers if and only if it evaluates.
module LowerProgress {
  import opened M31
  import opened Wrappers
  import opened FeltAst
  import opened FeltSemantics
  import opened Lowering
  import opened LoweredMeaning
  import opened LoweringInvariant
  import opened LoweringExprs
  import opened LowerPreserves
  import opened LowerStatements
  import opened LowerActivations
  import opened LowerBlocks
  import opened LowerFunctions
  import opened CompilerTheorems
  import opened SubstitutedBlocks
  import opened UnshadowedBinders

  /** Callees are answered exactly when they are known and get the right number of arguments. */
  ghost predicate OracleTight(orc: Oracle, arities: Arities) {
    && OracleFits(orc, arities)
    && (forall f, xs :: orc(f, xs).Some? ==> f in arities && |xs| == arities[f].0)
  }

  /** A lowering step that may start: a budget of two or more and a frame to lower in. */
  ghost predicate Able(s: LState, scope: Scope, budget: nat, env: Cells, orc: Oracle) {
    Ready(s, scope, env, orc) && budget == s.maxDegree - 1 && budget >= 2
  }

  // -- Expressions -------------------------------------------------------------------------------

  lemma {:induction false} PowersFit(s: LState, power: Lowered, acc: Option<Lowered>, remaining: nat, budget: nat)
    requires budget >= 2
    ensures SquareAndMultiply(s, power, acc, remaining, budget).Ok?
    decreases remaining
  {
    hide LowerProduct;
    if remaining > 0 {
      if acc.Some? { ProductsFit(s, acc.value, power, budget); }
      var (s1, acc1) := AccumulateBit(s, power, acc, remaining, budget).value;
      if remaining / 2 > 0 {
        ProductsFit(s1, power, power, budget);
        var (s2, square) := LowerProduct(s1, power, power, budget).value;
        PowersFit(s2, square, acc1, remaining / 2, budget);
      } else {
        PowersFit(s1, power, acc1, remaining / 2, budget);
      }
    }
  }

  lemma NameLowers(s: LState, x: string, scope: Scope, env: Cells, orc: Oracle)
    requires ExprValue(Name(x), EnvOf(s, scope, env, orc), map[]).Some?
    ensures ScalarNamed(x, scope).Ok?
  {
    hide Frame;
  }

  lemma IndexLowers(s: LState, a: Expr, i: Expr, scope: Scope, env: Cells, orc: Oracle)
    requires ScopeOK(scope, s) && ExprValue(Index(a, i), EnvOf(s, scope, env, orc), map[]).Some?
    ensures SlotsNamed(a, scope).Some? && IndexValue(i, map[]).Some?
    ensures IndexValue(i, map[]).value < |SlotsNamed(a, scope).value|
  {
    ArrayInScope(s, a, scope, env, orc);
    hide Frame, IndexValue, SlotsNamed, ArrayNamed, EnvOf;
  }

  /** What lowers, given that it does, leaves the frame able to go on. */
  lemma AbleAfter(s: LState, e: Expr, scope: Scope, budget: nat, env: Cells, orc: Oracle)
    requires Able(s, scope, budget, env, orc) && Lower(s, e, scope, budget).Ok?
    ensures var s1 := Lower(s, e, scope, budget).value.0;
            Able(s1, scope, budget, env, orc) && EnvOf(s1, scope, env, orc) == EnvOf(s, scope, env, orc)
  {
    hide Ready, Lower, Means, EnvOf;
    LowerCorrect(s, e, scope, budget, env, orc);
    var (s1, l) := Lower(s, e, scope, budget).value;
    MeansReady(s, s1, l, e, scope, env, orc);
  }

  /** An expression with a value lowers. */
  lemma {:induction false} ExprLowers(s: LState, e: Expr, scope: Scope, budget: nat, env: Cells, orc: Oracle)
    requires Able(s, scope, budget, env, orc) && Unshadowed(e, {})
    requires ExprValue(e, EnvOf(s, scope, env, orc), map[]).Some?
    ensures Lower(s, e, scope, budget).Ok?
    decreases ExprSize(e), 0, 0
  {
    hide Able, ConstValue, IndexValue, SlotsNamed, LowerProduct, SquareAndMultiply, ScalarNamed, EnvOf;
    hide FAdd, FSub, FMul, FPow, FNeg, ArrayNamed, HostConstant;
    if ConstValue(e, map[]).None? {
      match e
      case Name(x) => NameLowers(s, x, scope, env, orc);
      case Index(a, i) =>
        AbleScope(s, scope, budget, env, orc);
        IndexLowers(s, a, i, scope, env, orc);
      case Sum(_, _, _, _) => WholeSumLowers(s, e, scope, budget, env, orc);
      case Binary(_, _, _) => BinaryLowers(s, e, scope, budget, env, orc);
      case Power(b, n) => PowerLowers(s, e, scope, budget, env, orc);
      case Neg(f) => ExprLowers(s, f, scope, budget, env, orc);
      case Paren(f) => ExprLowers(s, f, scope, budget, env, orc);
      case Lit(n) => LitIsConst(n);
      case _ =>
    }
  }

  lemma {:induction false} PowerLowers(s: LState, e: Expr, scope: Scope, budget: nat, env: Cells, orc: Oracle)
    requires Able(s, scope, budget, env, orc) && e.Power? && ConstValue(e, map[]).None? && Unshadowed(e, {})
    requires ExprValue(e, EnvOf(s, scope, env, orc), map[]).Some?
    ensures Lower(s, e, scope, budget).Ok?
    decreases ExprSize(e.base) + ExprSize(e.exponent), 1, 0
  {
    hide Able, ConstValue, IndexValue, SquareAndMultiply, EnvOf, FPow;
    if IndexValue(e.exponent, map[]) != Some(0) {
      ExprLowers(s, e.base, scope, budget, env, orc);
      var (s1, power) := Lower(s, e.base, scope, budget).value;
      BudgetAble(s, scope, budget, env, orc);
      PowersFit(s1, power, None, IndexValue(e.exponent, map[]).value, budget);
    }
  }

  lemma {:induction false} WholeSumLowers(s: LState, e: Expr, scope: Scope, budget: nat, env: Cells, orc: Oracle)
    requires Able(s, scope, budget, env, orc) && e.Sum? && ConstValue(e, map[]).None? && Unshadowed(e, {})
    requires ExprValue(e, EnvOf(s, scope, env, orc), map[]).Some?
    ensures Lower(s, e, scope, budget).Ok?
    decreases ExprSize(e.body), 2, 0
  {
    hide Able, ConstValue, IndexValue, EnvOf;
    var lo, hi := IndexValue(e.start, map[]).value, IndexValue(e.end, map[]).value;
    assert {} + Binder(e.binder) == {e.binder.x};
    SumLowers(s, e.binder.x, lo, hi, e.body, scope, budget, env, orc);
  }

  lemma LitIsConst(n: nat)
    ensures ConstValue(Lit(n), map[]).Some?
  {
  }

  lemma AbleScope(s: LState, scope: Scope, budget: nat, env: Cells, orc: Oracle)
    requires Able(s, scope, budget, env, orc)
    ensures ScopeOK(scope, s) && Inv(s, env.Keys) && OracleFits(orc, s.arities)
  {
    hide Inv, OracleFits, ScopeOK;
  }

  lemma {:induction false} BinaryLowers(s: LState, e: Expr, scope: Scope, budget: nat, env: Cells, orc: Oracle)
    requires Able(s, scope, budget, env, orc) && e.Binary? && ConstValue(e, map[]).None? && Unshadowed(e, {})
    requires ExprValue(e, EnvOf(s, scope, env, orc), map[]).Some?
    ensures Lower(s, e, scope, budget).Ok?
    decreases ExprSize(e.left) + ExprSize(e.right), 1, 0
  {
    hide Able, ConstValue, LowerProduct, EnvOf, FAdd, FSub, FMul;
    if e.op != Shl {
      ExprLowers(s, e.left, scope, budget, env, orc);
      AbleAfter(s, e.left, scope, budget, env, orc);
      var (s1, ll) := Lower(s, e.left, scope, budget).value;
      ExprLowers(s1, e.right, scope, budget, env, orc);
      var (s2, lr) := Lower(s1, e.right, scope, budget).value;
      BudgetAble(s, scope, budget, env, orc);
      ProductsFit(s2, ll, lr, budget);
    }
  }

  lemma BudgetAble(s: LState, scope: Scope, budget: nat, env: Cells, orc: Oracle)
    requires Able(s, scope, budget, env, orc)
    ensures budget >= 2
  {
    hide Ready;
  }

  lemma {:induction false} SumLowers(
      s: LState, x: string, lo: nat, hi: nat, body: Expr, scope: Scope, budget: nat, env: Cells, orc: Oracle)
    requires Able(s, scope, budget, env, orc) && lo < hi && Unshadowed(body, {x})
    requires SumValue(x, lo, hi, body, EnvOf(s, scope, env, orc), map[]).Some?
    ensures LowerSum(s, x, lo, hi, body, scope, budget).Ok?
    decreases ExprSize(body), 1, hi - lo
  {
    hide Able, Lower, ExprValue, Substitute, Unshadowed, EnvOf, FAdd;
    SubstituteSize(body, x, hi - 1);
    var term, source := Substitute(body, x, hi - 1), EnvOf(s, scope, env, orc);
    SubstituteIsBinding(body, x, hi - 1, source, map[]);
    SubstituteUnshadowed(body, x, hi - 1, {x});
    FewerBound(term, {x}, {});
    if lo + 1 == hi {
      ExprLowers(s, term, scope, budget, env, orc);
    } else {
      SumLowers(s, x, lo, hi - 1, body, scope, budget, env, orc);
      SumAbleAfter(s, x, lo, hi - 1, body, scope, budget, env, orc);
      var (s1, acc) := LowerSum(s, x, lo, hi - 1, body, scope, budget).value;
      ExprLowers(s1, term, scope, budget, env, orc);
    }
  }

  lemma SumAbleAfter(
      s: LState, x: string, lo: nat, hi: nat, body: Expr, scope: Scope, budget: nat, env: Cells, orc: Oracle)
    requires Able(s, scope, budget, env, orc) && lo < hi && LowerSum(s, x, lo, hi, body, scope, budget).Ok?
    ensures var s1 := LowerSum(s, x, lo, hi, body, scope, budget).value.0;
            Able(s1, scope, budget, env, orc) && EnvOf(s1, scope, env, orc) == EnvOf(s, scope, env, orc)
  {
    hide LowerSum, Inv, ScopeOK, OracleFits, EnvOf, SumValue, Yields, VanishFrom;
    LowerSumCorrect(s, x, lo, hi, body, scope, budget, env, orc);
    var (s1, acc) := LowerSum(s, x, lo, hi, body, scope, budget).value;
    ReadyKept(s, s1, scope, env, orc);
  }

  // -- Right-hand sides --------------------------------------------------------------------------

  lemma CellLowers(s: LState, e: Expr, base: string, scope: Scope, budget: nat, env: Cells, orc: Oracle)
    requires Able(s, scope, budget, env, orc) && Unshadowed(e, {})
    requires ExprValue(e, EnvOf(s, scope, env, orc), map[]).Some?
    ensures LowerToCell(s, e, base, scope, budget).Ok?
    ensures var s1 := LowerToCell(s, e, base, scope, budget).value.0;
            Able(s1, scope, budget, env, orc) && EnvOf(s1, scope, env, orc) == EnvOf(s, scope, env, orc)
  {
    hide Inv, ScopeOK, OracleFits, Lower, ExprValue, EnvOf, Unshadowed, RegisterDerived, SlotsOK, SlotValues, VanishFrom;
    ExprLowers(s, e, scope, budget, env, orc);
    ToCellCorrect(s, e, base, scope, budget, env, orc);
    ReadyKept(s, LowerToCell(s, e, base, scope, budget).value.0, scope, env, orc);
  }

  lemma {:induction false} ElementsLower(
      s: LState, es: seq<Expr>, k: nat, base: string, scope: Scope, budget: nat, env: Cells, orc: Oracle)
    requires Able(s, scope, budget, env, orc) && AllUnshadowed(es, {})
    requires ExprValues(es, EnvOf(s, scope, env, orc), map[]).Some?
    ensures LowerElements(s, es, k, base, scope, budget).Ok?
    decreases |es|
  {
    hide Able, LowerToCell, ExprValue, EnvOf, Unshadowed, Digits;
    if es != [] {
      CellLowers(s, es[0], Indexed(base, k), scope, budget, env, orc);
      var (s1, slot) := LowerToCell(s, es[0], Indexed(base, k), scope, budget).value;
      ElementsLower(s1, es[1..], k + 1, base, scope, budget, env, orc);
    }
  }

  lemma {:induction false} MapLowers(
      s: LState, x: string, lo: nat, hi: nat, body: Expr, base: string, scope: Scope, budget: nat, env: Cells, orc: Oracle)
    requires Able(s, scope, budget, env, orc) && Unshadowed(body, {x})
    requires MapValues(x, lo, hi, body, EnvOf(s, scope, env, orc), map[]).Some?
    ensures LowerMap(s, x, lo, hi, body, base, scope, budget).Ok?
    decreases if lo < hi then hi - lo else 0
  {
    hide Able, LowerToCell, ExprValue, EnvOf, Unshadowed, Substitute, Digits;
    if lo < hi {
      var term := Substitute(body, x, lo);
      SubstituteIsBinding(body, x, lo, EnvOf(s, scope, env, orc), map[]);
      SubstituteUnshadowed(body, x, lo, {x});
      FewerBound(term, {x}, {});
      CellLowers(s, term, Indexed(base, lo), scope, budget, env, orc);
      var (s1, slot) := LowerToCell(s, term, Indexed(base, lo), scope, budget).value;
      MapLowers(s1, x, lo + 1, hi, body, base, scope, budget, env, orc);
    }
  }

  lemma ParamLowers(
      s: LState, callee: string, p: Param, arg: Expr, scope: Scope, budget: nat, env: Cells, orc: Oracle)
    requires Able(s, scope, budget, env, orc) && Unshadowed(arg, {})
    requires ParamValue(p, arg, EnvOf(s, scope, env, orc), map[]).Some?
    ensures LowerParam(s, callee, p, arg, scope, budget).Ok?
    ensures var s1 := LowerParam(s, callee, p, arg, scope, budget).value.0;
            Able(s1, scope, budget, env, orc) && EnvOf(s1, scope, env, orc) == EnvOf(s, scope, env, orc)
  {
    hide Ready, Inv, LowerToCell, ExprValue, EnvOf, Unshadowed, ArrayNamed, SlotsNamed, Frame, SlotValues, ScopeOK, OracleFits;
    AbleScope(s, scope, budget, env, orc);
    ArrayInScope(s, arg, scope, env, orc);
    hide Able;
    if p.size.None? { CellLowers(s, arg, callee + "_" + p.name, scope, budget, env, orc); }
  }

  lemma {:induction false} ParamsLower(
      s: LState, callee: string, params: seq<Param>, args: seq<Expr>, scope: Scope, budget: nat, env: Cells, orc: Oracle)
    requires |params| == |args| && Able(s, scope, budget, env, orc) && AllUnshadowed(args, {})
    requires LocalEnv(params, args, EnvOf(s, scope, env, orc), map[]).Some?
    ensures LowerParams(s, callee, params, args, scope, budget).Ok?
    ensures var s1 := LowerParams(s, callee, params, args, scope, budget).value.0;
            Able(s1, scope, budget, env, orc) && EnvOf(s1, scope, env, orc) == EnvOf(s, scope, env, orc)
    decreases |params|
  {
    hide Able, LowerParam, ParamValue, EnvOf, Unshadowed;
    if params != [] {
      var n := |params| - 1;
      ParamsLower(s, callee, params[..n], args[..n], scope, budget, env, orc);
      var (s1, local) := LowerParams(s, callee, params[..n], args[..n], scope, budget).value;
      ParamLowers(s1, callee, params[n], args[n], scope, budget, env, orc);
    }
  }

  lemma {:induction false} ArgsLower(
      s: LState, callee: string, args: seq<Expr>, done: nat, scope: Scope, budget: nat, env: Cells, orc: Oracle)
    requires Able(s, scope, budget, env, orc) && AllUnshadowed(args, {})
    requires ArgValues(args, EnvOf(s, scope, env, orc), map[]).Some?
    ensures LowerArgs(s, callee, args, done, scope, budget).Ok?
    decreases |args|
  {
    hide Able, LowerToCell, ExprValue, EnvOf, Unshadowed, ArrayNamed, SlotsNamed, Frame, SlotValues, Digits, SlotCells;
    if args != [] {
      AbleScope(s, scope, budget, env, orc);
      ArrayInScope(s, args[0], scope, env, orc);
      var slots := SlotsNamed(args[0], scope);
      if slots.Some? {
        ArgsLower(s, callee, args[1..], done + |slots.value|, scope, budget, env, orc);
      } else {
        CellLowers(s, args[0], callee + "_a" + Digits(done), scope, budget, env, orc);
        var (s1, slot) := LowerToCell(s, args[0], callee + "_a" + Digits(done), scope, budget).value;
        ArgsLower(s1, callee, args[1..], done + 1, scope, budget, env, orc);
      }
    }
  }

  /** A known callee with the right arguments and binders. */
  lemma ActivationLowers(
      s: LState, names: seq<string>, callee: string, args: seq<Expr>, scope: Scope, budget: nat, env: Cells, orc: Oracle)
    requires |names| > 0 && Able(s, scope, budget, env, orc) && AllUnshadowed(args, {}) && OracleTight(orc, s.arities)
    requires RhsValue(|names|, Activate(callee, args), EnvOf(s, scope, env, orc), map[], orc).Some?
    ensures LowerActivation(s, names, callee, args, scope, budget).Ok?
  {
    hide LowerArgs, ArgValues, Flatten, Digits, RegisterReturns, EnvOf, AllUnshadowed, Inv, ScopeOK, Frame;
    ActivateMeaning(|names|, callee, args, EnvOf(s, scope, env, orc), orc);
    ArgsLower(s, callee, args, 0, scope, budget, env, orc);
    ArgsCorrect(s, callee, args, 0, scope, budget, env, orc);
    hide RhsValue, Grown;
  }

  lemma ReturnLowers(s: LState, e: Expr, scope: Scope, budget: nat, env: Cells, orc: Oracle)
    requires Able(s, scope, budget, env, orc) && Unshadowed(e, {})
    requires ArgValue(e, EnvOf(s, scope, env, orc), map[]).Some?
    ensures LowerReturn(s, e, scope, budget).Ok?
    ensures var s1 := LowerReturn(s, e, scope, budget).value.0;
            Able(s1, scope, budget, env, orc) && EnvOf(s1, scope, env, orc) == EnvOf(s, scope, env, orc)
  {
    hide Ready, Inv, LowerToCell, ExprValue, EnvOf, Unshadowed, ArrayNamed, SlotsNamed, Frame, SlotValues, ScopeOK, OracleFits;
    AbleScope(s, scope, budget, env, orc);
    ArrayInScope(s, e, scope, env, orc);
    hide Able;
    if SlotsNamed(e, scope).None? { CellLowers(s, e, s.fnName + "_ret", scope, budget, env, orc); }
  }

  lemma {:induction false} ReturnsLower(s: LState, es: seq<Expr>, scope: Scope, budget: nat, env: Cells, orc: Oracle)
    requires Able(s, scope, budget, env, orc) && AllUnshadowed(es, {})
    requires ArgValues(es, EnvOf(s, scope, env, orc), map[]).Some?
    ensures LowerReturns(s, es, scope, budget).Ok?
    decreases |es|
  {
    hide Able, LowerReturn, ArgValue, EnvOf, Unshadowed;
    if es != [] {
      ReturnLowers(s, es[0], scope, budget, env, orc);
      var (s1, v) := LowerReturn(s, es[0], scope, budget).value;
      ReturnsLower(s1, es[1..], scope, budget, env, orc);
    }
  }

  lemma MapValueLowers(
      s: LState, names: seq<string>, v: Rhs, scope: Scope, budget: nat, env: Cells, orc: Oracle)
    requires |names| > 0 && Able(s, scope, budget, env, orc) && RhsUnshadowed(v, {}) && v.Map?
    requires RhsValue(|names|, v, EnvOf(s, scope, env, orc), map[], orc).Some?
    ensures LowerValue(s, names, v, scope, budget).Ok?
  {
    hide Able, LowerMap, IndexValue, MapValues, EnvOf, Unshadowed;
    assert {} + Binder(v.binder) == {v.binder.x};
    MapLowers(s, v.binder.x, IndexValue(v.start, map[]).value, IndexValue(v.end, map[]).value, v.body, names[0],
              scope, budget, env, orc);
  }

  lemma UpdateLowers(s: LState, names: seq<string>, a: Expr, i: Expr, e: Expr, scope: Scope, budget: nat, env: Cells, orc: Oracle)
    requires |names| > 0 && Able(s, scope, budget, env, orc) && Unshadowed(e, {})
    requires RhsValue(|names|, Update(a, i, e), EnvOf(s, scope, env, orc), map[], orc).Some?
    ensures LowerValue(s, names, Update(a, i, e), scope, budget).Ok?
  {
    hide Able, LowerToCell, IndexValue, SlotsNamed, ExprValue, ArrayNamed, EnvOf, Indexed, Unshadowed, Frame, SlotValues, ScopeOK,
         Inv, OracleFits, SlotsOK, RhsValue;
    UpdateMeaning(|names|, a, i, e, EnvOf(s, scope, env, orc), orc);
    AbleScope(s, scope, budget, env, orc);
    ArrayInScope(s, a, scope, env, orc);
    CellLowers(s, e, Indexed(names[0], IndexValue(i, map[]).value), scope, budget, env, orc);
  }

  lemma UpdateMeaning(n: nat, a: Expr, i: Expr, e: Expr, env: Env, orc: Oracle)
    requires RhsValue(n, Update(a, i, e), env, map[], orc).Some?
    ensures ArrayNamed(a, env, map[]).Some? && IndexValue(i, map[]).Some? && ExprValue(e, env, map[]).Some?
    ensures IndexValue(i, map[]).value < |ArrayNamed(a, env, map[]).value|
  {
    hide ArrayNamed, IndexValue, ExprValue;
  }

  lemma ScalarLowers(s: LState, names: seq<string>, e: Expr, scope: Scope, budget: nat, env: Cells, orc: Oracle)
    requires |names| > 0 && Able(s, scope, budget, env, orc) && Unshadowed(e, {})
    requires RhsValue(|names|, Scalar(e), EnvOf(s, scope, env, orc), map[], orc).Some?
    ensures LowerValue(s, names, Scalar(e), scope, budget).Ok?
  {
    hide Able, LowerToCell, ExprValue, EnvOf, Unshadowed;
    CellLowers(s, e, names[0], scope, budget, env, orc);
  }

  lemma ArrayLowers(s: LState, names: seq<string>, es: seq<Expr>, scope: Scope, budget: nat, env: Cells, orc: Oracle)
    requires |names| > 0 && Able(s, scope, budget, env, orc) && AllUnshadowed(es, {})
    requires RhsValue(|names|, ArrayLit(es), EnvOf(s, scope, env, orc), map[], orc).Some?
    ensures LowerValue(s, names, ArrayLit(es), scope, budget).Ok?
  {
    hide Able, LowerElements, ExprValues, EnvOf, AllUnshadowed;
    ElementsLower(s, es, 0, names[0], scope, budget, env, orc);
  }

  lemma SimpleValueLowers(
      s: LState, names: seq<string>, v: Rhs, scope: Scope, budget: nat, env: Cells, orc: Oracle)
    requires |names| > 0 && Able(s, scope, budget, env, orc) && RhsUnshadowed(v, {}) && !v.Splice? && !v.Activate?
    requires RhsValue(|names|, v, EnvOf(s, scope, env, orc), map[], orc).Some?
    ensures LowerValue(s, names, v, scope, budget).Ok?
  {
    match v
    case Map(_, _, _, _) =>
      hide *;
      MapValueLowers(s, names, v, scope, budget, env, orc);
    case Update(a, i, e) =>
      hide Able, RhsValue, LowerValue, EnvOf, Unshadowed;
      UpdateLowers(s, names, a, i, e, scope, budget, env, orc);
    case Scalar(e) =>
      hide Able, RhsValue, LowerValue, EnvOf, Unshadowed;
      ScalarLowers(s, names, e, scope, budget, env, orc);
    case ArrayLit(es) =>
      hide Able, RhsValue, LowerValue, EnvOf, AllUnshadowed;
      ArrayLowers(s, names, es, scope, budget, env, orc);
    case _ =>
  }

  // -- Blocks ------------------------------------------------------------------------------------

  /** The frame after a step that stands for a known environment. */
  lemma AbleNext(
      s: LState, s1: LState, scope: Scope, scope1: Scope, next: Env, budget: nat, env: Cells, orc: Oracle, ok: bool)
    requires Able(s, scope, budget, env, orc) && ScopeGives(s, s1, scope1, next, env, orc, ok)
    ensures Able(s1, scope1, budget, env, orc) && EnvOf(s1, scope1, env, orc) == next && s1.arities == s.arities
  {
    hide Inv, ScopeOK, EnvOf, VanishFrom, OracleFits;
  }

  lemma {:induction false} ValueLowers(
      s: LState, names: seq<string>, v: Rhs, scope: Scope, budget: nat, env: Cells, orc: Oracle)
    requires |names| > 0 && Able(s, scope, budget, env, orc) && HygienicRhs(v) && RhsUnshadowed(v, {})
    requires OracleTight(orc, s.arities)
    requires RhsValue(|names|, v, EnvOf(s, scope, env, orc), map[], orc).Some?
    ensures LowerValue(s, names, v, scope, budget).Ok?
    decreases RhsSize(v), 2, 0
  {
    hide Able, OracleTight, RhsValue, EnvOf, LowerActivation;
    if v.Splice? {
      SpliceLowers(s, names, v, scope, budget, env, orc);
    } else if v.Activate? {
      ActivationLowers(s, names, v.name, v.args, scope, budget, env, orc);
    } else {
      SimpleValueLowers(s, names, v, scope, budget, env, orc);
    }
  }

  lemma {:induction false} SpliceLowers(
      s: LState, names: seq<string>, v: Rhs, scope: Scope, budget: nat, env: Cells, orc: Oracle)
    requires |names| > 0 && Able(s, scope, budget, env, orc) && v.Splice? && HygienicRhs(v) && RhsUnshadowed(v, {})
    requires OracleTight(orc, s.arities)
    requires RhsValue(|names|, v, EnvOf(s, scope, env, orc), map[], orc).Some?
    ensures LowerValue(s, names, v, scope, budget).Ok?
    decreases RhsSize(v), 1, 0
  {
    hide Ready, OracleTight, LowerParams, LowerBlock, LowerReturns, LocalEnv, BlockValue, ArgValues, EnvOf, ForBinders,
         BindReturns, ScopeGives, Hygienic, AllUnshadowed, BlockUnshadowed, Grown, ValuesGive;
    var f := v.callee;
    ParamsLower(s, f.name, f.params, v.args, scope, budget, env, orc);
    ParamsCorrect(s, f.name, f.params, v.args, scope, budget, env, orc);
    var (s1, local) := LowerParams(s, f.name, f.params, v.args, scope, budget).value;
    var bound := LocalEnv(f.params, v.args, EnvOf(s, scope, env, orc), map[]).value;
    AbleNext(s, s1, scope, local, bound, budget, env, orc, true);
    BlockLowers(s1, f.body, local, budget, env, orc);
    BlockCorrect(s1, f.body, local, budget, env, orc);
    var (s2, final) := LowerBlock(s1, f.body, local, budget).value;
    var (after, ok) := BlockValue(f.body, bound, map[], orc).value;
    AbleNext(s1, s2, local, final, after, budget, env, orc, ok);
    ReturnsLower(s2, f.rets, final, budget, env, orc);
    ReturnsCorrect(s2, f.rets, final, budget, env, orc);
    var (s3, rets) := LowerReturns(s2, f.rets, final, budget).value;
    BindersFit(s2, s3, |names|, rets, ArgValues(f.rets, after, map[]).value, env, orc);
  }

  lemma BindersFit(s: LState, s': LState, n: nat, rets: seq<Value>, xs: seq<Val>, env: Cells, orc: Oracle)
    requires ValuesGive(s, s', rets, xs, env, orc, true) && ForBinders(n, xs).Some?
    ensures BindReturns(n, rets).Ok?
  {
    hide Grown, ValuesOK, Frame;
  }

  lemma {:induction false} BlockLowers(s: LState, body: seq<Stmt>, scope: Scope, budget: nat, env: Cells, orc: Oracle)
    requires Able(s, scope, budget, env, orc) && Hygienic(body, {}) && BlockUnshadowed(body, {})
    requires OracleTight(orc, s.arities)
    requires BlockValue(body, EnvOf(s, scope, env, orc), map[], orc).Some?
    ensures LowerBlock(s, body, scope, budget).Ok?
    decreases BlockSize(body), 1, 0
  {
    hide Ready, OracleTight, LowerStmt, StmtValue, ScopeGives, EnvOf, HygienicStmt, StmtUnshadowed;
    if body != [] {
      StmtLowers(s, body[0], scope, budget, env, orc);
      StmtCorrect(s, body[0], scope, budget, env, orc);
      var (s1, scope1) := LowerStmt(s, body[0], scope, budget).value;
      var (next, ok) := StmtValue(body[0], EnvOf(s, scope, env, orc), map[], orc).value;
      AbleNext(s, s1, scope, scope1, next, budget, env, orc, ok);
      BlockLowers(s1, body[1..], scope1, budget, env, orc);
    }
  }

  lemma {:induction false} StmtLowers(s: LState, stmt: Stmt, scope: Scope, budget: nat, env: Cells, orc: Oracle)
    requires Able(s, scope, budget, env, orc) && HygienicStmt(stmt, {}) && StmtUnshadowed(stmt, {})
    requires OracleTight(orc, s.arities)
    requires StmtValue(stmt, EnvOf(s, scope, env, orc), map[], orc).Some?
    ensures LowerStmt(s, stmt, scope, budget).Ok?
    decreases StmtSize(stmt), 0, 0
  {
    hide Ready, OracleTight, RhsValue, LoopValue, ExprValue, EnvOf, LowerValue, LowerLoop, Lower, HygienicRhs, BindValues, Bind,
         Hygienic, RhsUnshadowed, BlockUnshadowed;
    match stmt
    case Let(names, v) => ValueLowers(s, names, v, scope, budget, env, orc);
    case Assert(l, r) =>
      DifferenceMeaning(l, r, EnvOf(s, scope, env, orc));
      ExprLowers(s, Binary(Sub, Paren(l), Paren(r)), scope, budget, env, orc);
    case For(x, lo, hi, body) =>
      assert {} + {x} == {x};
      LoopLowers(s, x, lo, hi, body, scope, budget, env, orc);
  }

  lemma {:induction false} LoopLowers(
      s: LState, x: string, lo: nat, hi: nat, body: seq<Stmt>, scope: Scope, budget: nat, env: Cells, orc: Oracle)
    requires Able(s, scope, budget, env, orc) && Hygienic(body, {x}) && BlockUnshadowed(body, {x})
    requires OracleTight(orc, s.arities)
    requires LoopValue(x, lo, hi, body, EnvOf(s, scope, env, orc), map[], orc).Some?
    ensures LowerLoop(s, x, lo, hi, body, scope, budget).Ok?
    decreases BlockSize(body), 2, if lo < hi then hi - lo else 0
  {
    hide Ready, OracleTight, LowerBlock, BlockValue, ScopeGives, EnvOf, Hygienic, SubstituteBlock, BlockSize, BlockUnshadowed;
    if lo < hi {
      var unrolled := SubstituteBlock(body, x, lo);
      SubstituteBlockSize(body, x, lo);
      SubstituteHygienic(body, x, lo, {x});
      HygienicSubset(unrolled, {x}, {});
      SubstituteBlockUnshadowed(body, x, lo, {x});
      BlockFewerBound(unrolled, {x}, {});
      BlockIsBinding(body, x, lo, EnvOf(s, scope, env, orc), map[], orc);
      BlockLowers(s, unrolled, scope, budget, env, orc);
      BlockCorrect(s, unrolled, scope, budget, env, orc);
      var (s1, scope1) := LowerBlock(s, unrolled, scope, budget).value;
      var (next, ok) := BlockValue(unrolled, EnvOf(s, scope, env, orc), map[], orc).value;
      AbleNext(s, s1, scope, scope1, next, budget, env, orc, ok);
      LoopLowers(s1, x, lo + 1, hi, body, scope1, budget, env, orc);
    }
  }

  // -- Functions ---------------------------------------------------------------------------------

  lemma {:induction false} ArgValuesFront(es: seq<Expr>, env: Env)
    requires |es| > 0 && ArgValues(es, env, map[]).Some?
    ensures ArgValues(es[..|es| - 1], env, map[]).Some? && ArgValue(es[|es| - 1], env, map[]).Some?
    decreases |es|
  {
    hide ArgValue;
    var n := |es| - 1;
    if n > 0 {
      assert es[1..][..n - 1] == es[..n][1..] && es[1..][n - 1] == es[n];
      ArgValuesFront(es[1..], env);
    }
  }

  lemma {:induction false} FnReturnsLower(
      s: LState, es: seq<Expr>, scope: Scope, budget: nat, materializeRets: bool, env: Cells, orc: Oracle)
    requires Able(s, scope, budget, env, orc) && AllUnshadowed(es, {})
    requires ArgValues(es, EnvOf(s, scope, env, orc), map[]).Some?
    ensures FnReturns(s, es, scope, budget, materializeRets).Ok?
    decreases |es|
  {
    hide Ready, LowerReturn, ReturnCells, ArgValue, EnvOf, Unshadowed, ArgValues, CellsGive, Committed;
    if es != [] {
      var n := |es| - 1;
      ArgValuesFront(es, EnvOf(s, scope, env, orc));
      FnReturnsLower(s, es[..n], scope, budget, materializeRets, env, orc);
      FnReturnsCorrect(s, es[..n], scope, budget, materializeRets, env, orc);
      var (s1, cells) := FnReturns(s, es[..n], scope, budget, materializeRets).value;
      CellsAble(s, s1, cells, Flatten(ArgValues(es[..n], EnvOf(s, scope, env, orc), map[]).value), scope, budget, env, orc);
      ReturnLowers(s1, es[n], scope, budget, env, orc);
    }
  }

  lemma CellsAble(
      s: LState, s1: LState, cells: seq<Cell>, vs: seq<Felt>, scope: Scope, budget: nat, env: Cells, orc: Oracle)
    requires Able(s, scope, budget, env, orc) && CellsGive(s, s1, cells, vs, env, orc)
    ensures Able(s1, scope, budget, env, orc) && EnvOf(s1, scope, env, orc) == EnvOf(s, scope, env, orc)
  {
    hide Inv, ScopeOK, EnvOf, VanishFrom, OracleFits;
    ReadyKept(s, s1, scope, env, orc);
  }

  /** The number of argument columns. */
  function Width(params: seq<Param>): nat {
    if params == [] then 0
    else
      var p := params[|params| - 1];
      Width(params[..|params| - 1]) + (if p.size.None? then 1 else p.size.value)
  }

  lemma {:induction false} ColumnsWide(s: LState, params: seq<Param>)
    requires Naming(s)
    ensures |ParamColumns(s, params).2| == Width(params)
  {
    hide Naming, RegisterColumn, RegisterArguments, IndexedNames, ColumnsAdded, ParamsStandFor;
    if params != [] {
      var n := |params| - 1;
      ColumnsWide(s, params[..n]);
      ParamsRegistered(s, params[..n]);
      var (s1, scope, cells) := ParamColumns(s, params[..n]);
      AddedNames(s, s1, cells);
      if params[n].size.Some? { ArgumentsAdded(s1, IndexedNames(params[n].name, params[n].size.value)); }
    }
  }

  /** No loop, sum or map rebinds a variable in scope. */
  predicate Clean(f: AirFn) {
    Hygienic(f.body, {}) && BlockUnshadowed(f.body, {}) && AllUnshadowed(f.rets, {})
  }

  lemma BodyLowers(
      f: AirFn, maxDegree: nat, arities: Arities, materializeRets: bool, xs: seq<Felt>, orc: Oracle)
    requires maxDegree >= 3 && Clean(f) && OracleTight(orc, arities) && |xs| == Width(f.params)
    requires FnValue(f, xs, orc).Some?
    ensures LowerBody(f, maxDegree, arities, materializeRets).Ok?
  {
    hide ParamColumns, LowerBlock, FnReturns, OracleFits, Hygienic, Start, Inv, Naming, ColumnsAdded, ParamsStandFor, BlockValue,
         BlockUnshadowed, AllUnshadowed, ParamEnv, ArgValues;
    var (s0, scope, args) := ParamColumns(Initial(maxDegree, arities, f.name), f.params);
    InitialNaming(maxDegree, arities, f.name);
    ColumnsWide(Initial(maxDegree, arities, f.name), f.params);
    ParamsRegistered(Initial(maxDegree, arities, f.name), f.params);
    ParametersReady(f, s0, scope, args, maxDegree, arities, xs, orc);
    var env, budget := Start(args, xs), maxDegree - 1;
    hide Ready, OracleTight, EnvOf, BlockMeans;
    BlockLowers(s0, f.body, scope, budget, env, orc);
    BlockCorrect(s0, f.body, scope, budget, env, orc);
    var (s1, final) := LowerBlock(s0, f.body, scope, budget).value;
    BodyReady(s0, s1, f.body, scope, final, env, orc);
    BodyEnds(s0, s1, f.body, scope, final, env, orc);
    FnReturnsLower(s1, f.rets, final, budget, materializeRets, env, orc);
  }

  lemma BodyEnds(s0: LState, s1: LState, body: seq<Stmt>, scope: Scope, final: Scope, env: Cells, orc: Oracle)
    requires BlockMeans(s0, s1, body, scope, final, env, orc)
    ensures BlockValue(body, EnvOf(s0, scope, env, orc), map[], orc).Some?
    ensures EnvOf(s1, final, env, orc) == BlockValue(body, EnvOf(s0, scope, env, orc), map[], orc).value.0
  {
    hide Grown, ScopeOK, EnvOf, BlockValue;
  }

  lemma ArgsWide(f: AirFn, maxDegree: nat, arities: Arities, materializeRets: bool)
    requires maxDegree >= 2 && LowerFn(f, maxDegree, arities, materializeRets).Ok?
    ensures |LowerFn(f, maxDegree, arities, materializeRets).value.args| == Width(f.params)
  {
    hide ParamColumns, LowerBlock, FnReturns, Naming;
    InitialNaming(maxDegree, arities, f.name);
    ColumnsWide(Initial(maxDegree, arities, f.name), f.params);
  }

  /** Progress: with a degree bound of three or more, a function lowers if and only if it has a value,
      whatever the values of its arguments. */
  lemma LowersIffMeaningful(
      f: AirFn, maxDegree: nat, arities: Arities, materializeRets: bool, xs: seq<Felt>, orc: Oracle)
    requires maxDegree >= 3 && Clean(f) && OracleTight(orc, arities) && |xs| == Width(f.params)
    ensures LowerFn(f, maxDegree, arities, materializeRets).Ok? <==> FnValue(f, xs, orc).Some?
  {
    hide LowerBody, FnValue, OracleFits, Hygienic, BlockUnshadowed, AllUnshadowed;
    if FnValue(f, xs, orc).Some? { BodyLowers(f, maxDegree, arities, materializeRets, xs, orc); }
    if LowerFn(f, maxDegree, arities, materializeRets).Ok? {
      hide LowerFn;
      ArgsWide(f, maxDegree, arities, materializeRets);
      LoweringComplete(f, maxDegree, arities, materializeRets, xs, orc);
    }
  }

  function Rebinding(): Expr {
    Sum(Name("i"), Lit(0), Lit(1), Sum(Name("i"), Lit(0), Lit(1), Name("i")))
  }

  /** Why binders must differ: this sum of sums is zero, but unrolling it substitutes the inner binder. */
  lemma RebindingSumRefused(s: LState, scope: Scope, budget: nat, env: Env)
    ensures !Unshadowed(Rebinding(), {}) && ExprValue(Rebinding(), env, map[]) == Some(0)
    ensures Lower(s, Rebinding(), scope, budget).Err?
  {
    RebindingIsZero(env);
    hide ExprValue, SumValue;
    var inner := Sum(Name("i"), Lit(0), Lit(1), Name("i"));
    assert "i" in Binder(Name("i")) && "i" in {} + Binder(Name("i"));
    hide Unshadowed, LowerSum;
    InnerRefused(s, scope, budget);
  }

  lemma InnerRefused(s: LState, scope: Scope, budget: nat)
    ensures LowerSum(s, "i", 0, 1, Sum(Name("i"), Lit(0), Lit(1), Name("i")), scope, budget).Err?
  {
    var inner := Sum(Name("i"), Lit(0), Lit(1), Name("i"));
    SubstituteSize(inner, "i", 0);
    assert Substitute(inner, "i", 0) == Sum(Lit(0), Lit(0), Lit(1), Lit(0));
    BinderRefused(s, scope, budget);
    hide Lower;
  }

  lemma BinderRefused(s: LState, scope: Scope, budget: nat)
    ensures Lower(s, Sum(Lit(0), Lit(0), Lit(1), Lit(0)), scope, budget).Err?
  {
  }

  lemma RebindingIsZero(env: Env)
    ensures ExprValue(Rebinding(), env, map[]) == Some(0)
  {
    var inner := Sum(Name("i"), Lit(0), Lit(1), Name("i"));
    assert ExprValue(Name("i"), env, map["i" := 0]["i" := 0]) == Some(0);
    assert SumValue("i", 0, 1, Name("i"), env, map["i" := 0]) == Some(0);
    assert ExprValue(inner, env, map[]["i" := 0]) == Some(0);
    assert SumValue("i", 0, 1, inner, env, map[]) == Some(0);
  }
}
