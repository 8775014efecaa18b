// Statements, blocks and unrolled loops: the source environment runs beside the
// lowerer's scope, and the constraints added hold exactly when the assertions do.
module LowerBlocks {
  import opened M31
  import opened Wrappers
  import opened FeltAst
  import opened FeltSemantics
  import opened Lowering
  import opened LoweredMeaning
  import opened LoweringInvariant
  import opened LoweringExprs
  import opened LowerPreserves
  import opened LowerStatements
  import opened LowerActivations
  import opened SubstitutedBlocks

  // -- Returns ----------------------------------------------------------------------------

  lemma ReturnCorrect(s: LState, e: Expr, scope: Scope, budget: nat, env: Cells, orc: Oracle)
    requires Ready(s, scope, env, orc) && budget == s.maxDegree - 1
    requires LowerReturn(s, e, scope, budget).Ok?
    ensures var (s', v) := LowerReturn(s, e, scope, budget).value;
            var val := ArgValue(e, EnvOf(s, scope, env, orc), map[]);
            && val.Some? && Grown(s, s', env, orc, true)
            && ValueOK(v, s') && ValueIn(v, Frame(s', env, orc)) == val.value
  {
    hide Inv, ScopeOK, ScopeEnv, Frame, LowerToCell, ExprValue, ArrayNamed, SlotsNamed, VanishFrom;
    ArrayInScope(s, e, scope, env, orc);
    if SlotsNamed(e, scope).Some? {
      GrownRefl(s, env, orc);
    } else {
      ToCellCorrect(s, e, s.fnName + "_ret", scope, budget, env, orc);
      var (s1, slot) := LowerToCell(s, e, s.fnName + "_ret", scope, budget).value;
      assert [slot][0] == slot;
      OneSlot(slot, Frame(s1, env, orc));
    }
  }

  lemma ValuesKept(s: LState, s': LState, vals: seq<Value>, env: Cells, orc: Oracle)
    requires Inv(s, env.Keys) && Inv(s', env.Keys) && Extends(s, s') && OracleFits(orc, s.arities)
    requires ValuesOK(vals, s)
    ensures ValuesOK(vals, s') && ValuesIn(vals, Frame(s', env, orc)) == ValuesIn(vals, Frame(s, env, orc))
  {
    hide Naming, Filling, Linked, Columns, Budgeted, Frame, ValueOK, ValueIn;
    FrameKept(s, s', env, orc);
    forall i | 0 <= i < |vals|
      ensures ValueOK(vals[i], s') && ValueIn(vals[i], Frame(s', env, orc)) == ValueIn(vals[i], Frame(s, env, orc))
    {
      ValueKept(vals[i], s, s', Frame(s, env, orc), Frame(s', env, orc));
    }
  }

  lemma ValuesCons(
      s: LState, s1: LState, s2: LState, v: Value, vals: seq<Value>, x: Val, xs: seq<Val>, env: Cells, orc: Oracle)
    requires Inv(s, env.Keys) && OracleFits(orc, s.arities)
    requires Grown(s, s1, env, orc, true) && ValueOK(v, s1) && ValueIn(v, Frame(s1, env, orc)) == x
    requires ValuesGive(s1, s2, vals, xs, env, orc, true)
    ensures ValuesGive(s, s2, [v] + vals, [x] + xs, env, orc, true)
  {
    hide Inv, Frame, VanishFrom, ValueOK, ValueIn;
    GrownTransitive(s, s1, s2, env, orc, true, true);
    ValuesKept(s1, s2, [v], env, orc);
    assert ValuesOK([v], s2) && ValuesIn([v], Frame(s2, env, orc))[0] == ValueIn(v, Frame(s2, env, orc));
    assert [v][0] == v;
    assert ValuesIn([v], Frame(s1, env, orc))[0] == x;
    assert ValuesIn([v] + vals, Frame(s2, env, orc)) == [x] + xs;
  }

  lemma NoValues(s: LState, env: Cells, orc: Oracle)
    requires Inv(s, env.Keys)
    ensures ValuesGive(s, s, [], [], env, orc, true)
  {
    hide Inv;
    GrownRefl(s, env, orc);
  }

  lemma {:induction false} ReturnsCorrect(s: LState, es: seq<Expr>, scope: Scope, budget: nat, env: Cells, orc: Oracle)
    requires Ready(s, scope, env, orc) && budget == s.maxDegree - 1
    requires LowerReturns(s, es, scope, budget).Ok?
    ensures var (s', vals) := LowerReturns(s, es, scope, budget).value;
            var xs := ArgValues(es, EnvOf(s, scope, env, orc), map[]);
            xs.Some? && ValuesGive(s, s', vals, xs.value, env, orc, true)
    decreases |es|
  {
    hide Inv, ScopeOK, ScopeEnv, Frame, LowerReturn, ArgValue, Grown, ValuesGive, ValueOK, ValueIn;
    if es == [] {
      NoValues(s, env, orc);
    } else {
      ReturnCorrect(s, es[0], scope, budget, env, orc);
      var (s1, v) := LowerReturn(s, es[0], scope, budget).value;
      GrownReady(s, s1, scope, env, orc, true);
      ReturnsCorrect(s1, es[1..], scope, budget, env, orc);
      var (s2, vals) := LowerReturns(s1, es[1..], scope, budget).value;
      var source := EnvOf(s, scope, env, orc);
      ValuesCons(s, s1, s2, v, vals, ArgValue(es[0], source, map[]).value, ArgValues(es[1..], source, map[]).value, env, orc);
    }
  }

  lemma {:induction false} FlattenIn(vals: seq<Value>, s: LState, f: Cells)
    requires ValuesOK(vals, s)
    ensures SlotsOK(FlattenSlots(vals), s)
    ensures SlotValues(FlattenSlots(vals), f) == Flatten(ValuesIn(vals, f))
    decreases |vals|
  {
    if vals != [] {
      hide Flatten, SlotValues;
      assert ValueOK(vals[0], s);
      FlattenIn(vals[1..], s, f);
      FlattenCons(ValueIn(vals[0], f), ValuesIn(vals[1..], f));
      if vals[0].One? { OneSlot(vals[0].slot, f); }
      var first := if vals[0].One? then [vals[0].slot] else vals[0].slots;
      SlotValuesAppend(first, FlattenSlots(vals[1..]), f);
    }
  }

  lemma SlotValuesAppend(a: seq<Slot>, b: seq<Slot>, f: Cells)
    ensures SlotValues(a + b, f) == SlotValues(a, f) + SlotValues(b, f)
  {
  }

  lemma BindReturnsCorrect(
      s: LState, s': LState, n: nat, rets: seq<Value>, xs: seq<Val>, env: Cells, orc: Oracle, ok: bool)
    requires ValuesGive(s, s', rets, xs, env, orc, ok) && BindReturns(n, rets).Ok?
    ensures var vals := ForBinders(n, xs);
            vals.Some? && ValuesGive(s, s', BindReturns(n, rets).value, vals.value, env, orc, ok)
  {
    hide Grown, Frame, SlotsOK, SlotValues;
    if n == 1 && |rets| != 1 {
      FlattenIn(rets, s', Frame(s', env, orc));
      assert ValuesIn([Many(FlattenSlots(rets))], Frame(s', env, orc)) == [Array(Flatten(xs))];
    }
  }

  // -- Bindings -----------------------------------------------------------------------------

  lemma {:induction false} BindCorrect(s: LState, names: seq<string>, vals: seq<Value>, scope: Scope, env: Cells, orc: Oracle)
    requires ScopeOK(scope, s) && ValuesOK(vals, s)
    ensures ScopeOK(BindValues(names, vals, scope), s)
    ensures EnvOf(s, BindValues(names, vals, scope), env, orc)
         == Bind(names, ValuesIn(vals, Frame(s, env, orc)), EnvOf(s, scope, env, orc))
    decreases |names|
  {
    hide Frame, ValueOK, ValueIn;
    if names != [] && vals != [] {
      var f, next := Frame(s, env, orc), scope[names[0] := vals[0]];
      assert EnvOf(s, next, env, orc) == EnvOf(s, scope, env, orc)[names[0] := ValueIn(vals[0], f)];
      BindCorrect(s, names[1..], vals[1..], next, env, orc);
      assert ValuesIn(vals, f)[1..] == ValuesIn(vals[1..], f);
    }
  }

  // -- Right-hand sides and blocks ------------------------------------------------------------

  /** The right-hand side has values, vals stand for them, and the new constraints hold iff its assertions do. */
  ghost predicate RhsMeans(
      s: LState, s': LState, n: nat, v: Rhs, vals: seq<Value>, scope: Scope, env: Cells, orc: Oracle)
  {
    var r := RhsValue(n, v, EnvOf(s, scope, env, orc), map[], orc);
    r.Some? && ValuesGive(s, s', vals, r.value.0, env, orc, r.value.1)
  }

  /** The block takes the source environment of one scope to that of the other. */
  ghost predicate BlockMeans(
      s: LState, s': LState, body: seq<Stmt>, scope: Scope, scope': Scope, env: Cells, orc: Oracle)
  {
    var r := BlockValue(body, EnvOf(s, scope, env, orc), map[], orc);
    r.Some? && ScopeGives(s, s', scope', r.value.0, env, orc, r.value.1)
  }

  ghost predicate StmtMeans(
      s: LState, s': LState, stmt: Stmt, scope: Scope, scope': Scope, env: Cells, orc: Oracle)
  {
    var r := StmtValue(stmt, EnvOf(s, scope, env, orc), map[], orc);
    r.Some? && ScopeGives(s, s', scope', r.value.0, env, orc, r.value.1)
  }

  ghost predicate LoopMeans(
      s: LState, s': LState, x: string, lo: nat, hi: nat, body: seq<Stmt>, scope: Scope, scope': Scope, env: Cells, orc: Oracle)
  {
    var r := LoopValue(x, lo, hi, body, EnvOf(s, scope, env, orc), map[], orc);
    r.Some? && ScopeGives(s, s', scope', r.value.0, env, orc, r.value.1)
  }

  lemma ScopeGivesReady(s: LState, s': LState, scope: Scope, local: Env, env: Cells, orc: Oracle, ok: bool)
    requires Inv(s, env.Keys) && OracleFits(orc, s.arities) && ScopeGives(s, s', scope, local, env, orc, ok)
    ensures Ready(s', scope, env, orc) && s'.maxDegree == s.maxDegree && EnvOf(s', scope, env, orc) == local
    ensures Grown(s, s', env, orc, ok)
  {
    hide Inv, ScopeOK, ScopeEnv, Frame;
  }

  lemma ScopeGivesAfter(
      s: LState, s1: LState, s2: LState, scope: Scope, local: Env, env: Cells, orc: Oracle, ok1: bool, ok2: bool)
    requires Inv(s, env.Keys) && OracleFits(orc, s.arities)
    requires Grown(s, s1, env, orc, ok1) && ScopeGives(s1, s2, scope, local, env, orc, ok2)
    ensures ScopeGives(s, s2, scope, local, env, orc, ok1 && ok2)
  {
    hide Inv, ScopeOK, ScopeEnv, Frame, VanishFrom;
    GrownTransitive(s, s1, s2, env, orc, ok1, ok2);
  }

  lemma ValuesGiveAfter(
      s: LState, s1: LState, s2: LState, vals: seq<Value>, xs: seq<Val>, env: Cells, orc: Oracle, ok1: bool, ok2: bool)
    requires Inv(s, env.Keys) && OracleFits(orc, s.arities)
    requires Grown(s, s1, env, orc, ok1) && ValuesGive(s1, s2, vals, xs, env, orc, ok2)
    ensures ValuesGive(s, s2, vals, xs, env, orc, ok1 && ok2)
  {
    hide Inv, ValuesOK, ValuesIn, Frame, VanishFrom;
    GrownTransitive(s, s1, s2, env, orc, ok1, ok2);
  }

  lemma {:induction false} ValueCorrect(
      s: LState, names: seq<string>, v: Rhs, scope: Scope, budget: nat, env: Cells, orc: Oracle)
    requires |names| > 0 && Ready(s, scope, env, orc) && budget == s.maxDegree - 1 && HygienicRhs(v)
    requires LowerValue(s, names, v, scope, budget).Ok?
    ensures var (s', vals) := LowerValue(s, names, v, scope, budget).value;
            RhsMeans(s, s', |names|, v, vals, scope, env, orc)
    decreases RhsSize(v), 2, 0
  {
    if v.Splice? {
      hide Ready, RhsMeans;
      SpliceCorrect(s, names, v, scope, budget, env, orc);
    } else if v.Activate? {
      hide Ready, ValuesGive;
      ActivationCorrect(s, names, v.name, v.args, scope, budget, env, orc);
    } else {
      hide Ready, RhsMeans;
      SimpleValueCorrect(s, names, v, scope, budget, env, orc);
    }
  }

  /** Right-hand sides that call nothing. */
  lemma SimpleValueCorrect(
      s: LState, names: seq<string>, v: Rhs, scope: Scope, budget: nat, env: Cells, orc: Oracle)
    requires |names| > 0 && Ready(s, scope, env, orc) && budget == s.maxDegree - 1 && !v.Splice? && !v.Activate?
    requires LowerValue(s, names, v, scope, budget).Ok?
    ensures var (s', vals) := LowerValue(s, names, v, scope, budget).value;
            RhsMeans(s, s', |names|, v, vals, scope, env, orc)
  {
    hide Ready, ValuesGive, LowerToCell, LowerElements, LowerMap, IndexValue, SlotsNamed, ExprValue, ExprValues, MapValues,
         ArrayNamed, SlotsGive, EnvOf, Digits;
    var (s', vals) := LowerValue(s, names, v, scope, budget).value;
    var source := EnvOf(s, scope, env, orc);
    match v
    case Scalar(e) =>
      ToCellCorrect(s, e, names[0], scope, budget, env, orc);
      ScalarValues(s, s', [vals[0].slot], [ExprValue(e, source, map[]).value], env, orc);
      OneScalar(vals[0].slot, ExprValue(e, source, map[]).value);
    case ArrayLit(es) =>
      ElementsCorrect(s, es, 0, names[0], scope, budget, env, orc);
      ArrayValue(s, s', vals[0].slots, ExprValues(es, source, map[]).value, env, orc);
    case Map(j, a, b, body) =>
      var lo, hi := IndexValue(a, map[]).value, IndexValue(b, map[]).value;
      MapCorrect(s, j.x, lo, hi, body, names[0], scope, budget, env, orc);
      ArrayValue(s, s', vals[0].slots, MapValues(j.x, lo, hi, body, source, map[]).value, env, orc);
    case Update(a, i, e) =>
      var k := IndexValue(i, map[]).value;
      UpdateCorrect(s, a, k, e, Indexed(names[0], k), scope, budget, env, orc);
      ArrayValue(s, s', vals[0].slots, ArrayNamed(a, source, map[]).value[k := ExprValue(e, source, map[]).value], env, orc);
    case _ =>
  }

  lemma OneScalar(slot: Slot, v: Felt)
    ensures Scalars([slot]) == [One(slot)] && Singles([v]) == [Single(v)]
  {
  }

  /** A spliced call is its parameters, its body and its returns, in this frame. */
  lemma {:induction false} SpliceCorrect(
      s: LState, names: seq<string>, v: Rhs, scope: Scope, budget: nat, env: Cells, orc: Oracle)
    requires |names| > 0 && Ready(s, scope, env, orc) && budget == s.maxDegree - 1 && v.Splice? && HygienicRhs(v)
    requires LowerValue(s, names, v, scope, budget).Ok?
    ensures var (s', vals) := LowerValue(s, names, v, scope, budget).value;
            RhsMeans(s, s', |names|, v, vals, scope, env, orc)
    decreases RhsSize(v), 1, 0
  {
    hide Inv, ScopeOK, OracleFits, ValuesGive, LowerParams, LowerBlock, LowerReturns, LocalEnv, BlockValue, ArgValues, EnvOf,
         ForBinders, BindReturns, ScopeGives, Grown, Hygienic;
    var f := v.callee;
    var (s1, local) := LowerParams(s, f.name, f.params, v.args, scope, budget).value;
    ParamsCorrect(s, f.name, f.params, v.args, scope, budget, env, orc);
    var bound := LocalEnv(f.params, v.args, EnvOf(s, scope, env, orc), map[]).value;
    ScopeGivesReady(s, s1, local, bound, env, orc, true);
    var (s2, final) := LowerBlock(s1, f.body, local, budget).value;
    BlockCorrect(s1, f.body, local, budget, env, orc);
    var (after, ok) := BlockValue(f.body, bound, map[], orc).value;
    ScopeGivesReady(s1, s2, final, after, env, orc, ok);
    var (s3, rets) := LowerReturns(s2, f.rets, final, budget).value;
    ReturnsCorrect(s2, f.rets, final, budget, env, orc);
    var xs := ArgValues(f.rets, after, map[]).value;
    GrownTransitive(s, s1, s2, env, orc, true, ok);
    ValuesGiveAfter(s, s2, s3, rets, xs, env, orc, ok, true);
    BindReturnsCorrect(s, s3, |names|, rets, xs, env, orc, ok);
  }

  lemma {:induction false} BlockCorrect(s: LState, body: seq<Stmt>, scope: Scope, budget: nat, env: Cells, orc: Oracle)
    requires Ready(s, scope, env, orc) && budget == s.maxDegree - 1 && Hygienic(body, {})
    requires LowerBlock(s, body, scope, budget).Ok?
    ensures var (s', scope') := LowerBlock(s, body, scope, budget).value;
            BlockMeans(s, s', body, scope, scope', env, orc)
    decreases BlockSize(body), 1, 0
  {
    hide Inv, ScopeOK, OracleFits, LowerStmt, StmtValue, ScopeGives, EnvOf, HygienicStmt, Grown;
    if body == [] {
      EmptyBlock(s, scope, env, orc);
    } else {
      var (s1, scope1) := LowerStmt(s, body[0], scope, budget).value;
      StmtCorrect(s, body[0], scope, budget, env, orc);
      var (next, ok) := StmtValue(body[0], EnvOf(s, scope, env, orc), map[], orc).value;
      ScopeGivesReady(s, s1, scope1, next, env, orc, ok);
      BlockCorrect(s1, body[1..], scope1, budget, env, orc);
      var (s2, scope2) := LowerBlock(s1, body[1..], scope1, budget).value;
      var (after, ok') := BlockValue(body[1..], next, map[], orc).value;
      ScopeGivesAfter(s, s1, s2, scope2, after, env, orc, ok, ok');
    }
  }

  lemma EmptyBlock(s: LState, scope: Scope, env: Cells, orc: Oracle)
    requires Ready(s, scope, env, orc)
    ensures ScopeGives(s, s, scope, EnvOf(s, scope, env, orc), env, orc, true)
  {
    hide Inv, ScopeOK;
    GrownRefl(s, env, orc);
  }

  lemma {:induction false} StmtCorrect(s: LState, stmt: Stmt, scope: Scope, budget: nat, env: Cells, orc: Oracle)
    requires Ready(s, scope, env, orc) && budget == s.maxDegree - 1 && HygienicStmt(stmt, {})
    requires LowerStmt(s, stmt, scope, budget).Ok?
    ensures var (s', scope') := LowerStmt(s, stmt, scope, budget).value;
            StmtMeans(s, s', stmt, scope, scope', env, orc)
    decreases StmtSize(stmt), 0, 0
  {
    hide Inv, ScopeOK, OracleFits, RhsValue, LoopValue, ExprValue, ScopeGives, EnvOf, LowerValue, LowerLoop, Lower, HygienicRhs,
         ValuesGive, BindValues, Bind, Hygienic;
    match stmt
    case Let(names, v) =>
      ValueCorrect(s, names, v, scope, budget, env, orc);
      var (s1, vals) := LowerValue(s, names, v, scope, budget).value;
      var (xs, ok) := RhsValue(|names|, v, EnvOf(s, scope, env, orc), map[], orc).value;
      LetBinds(s, s1, names, vals, xs, scope, env, orc, ok);
    case Assert(l, r) => AssertCorrect(s, l, r, scope, env, orc);
    case For(x, lo, hi, body) =>
      assert {} + {x} == {x};
      LoopCorrect(s, x, lo, hi, body, scope, budget, env, orc);
  }

  lemma LetBinds(
      s: LState, s1: LState, names: seq<string>, vals: seq<Value>, xs: seq<Val>, scope: Scope, env: Cells, orc: Oracle, ok: bool)
    requires Ready(s, scope, env, orc) && ValuesGive(s, s1, vals, xs, env, orc, ok)
    ensures ScopeGives(s, s1, BindValues(names, vals, scope), Bind(names, xs, EnvOf(s, scope, env, orc)), env, orc, ok)
  {
    hide Inv, ScopeOK, ScopeEnv, Frame, ValuesOK, ValuesIn, VanishFrom, Bind, BindValues;
    ReadyKept(s, s1, scope, env, orc);
    BindCorrect(s1, names, vals, scope, env, orc);
  }

  // -- Assertions -------------------------------------------------------------------------------

  lemma DifferenceVanishes(a: Felt, b: Felt)
    ensures FSub(a, b) == 0 <==> a == b
  {
    assert (a - b) % P == 0 ==> a == b;
  }

  lemma AssertCorrect(s: LState, l: Expr, r: Expr, scope: Scope, env: Cells, orc: Oracle)
    requires Ready(s, scope, env, orc)
    requires LowerStmt(s, Assert(l, r), scope, 0).Ok?
    ensures var (s', scope') := LowerStmt(s, Assert(l, r), scope, 0).value;
            StmtMeans(s, s', Assert(l, r), scope, scope', env, orc)
  {
    var diff := Binary(Sub, Paren(l), Paren(r));
    hide Ready, Lower, ExprValue, ScopeEnv, Frame, ScopeGives, Means;
    var (s1, d) := Lower(s, diff, scope, s.maxDegree - 1).value;
    LowerCorrect(s, diff, scope, s.maxDegree - 1, env, orc);
    AssertPushed(s, s1, d, l, r, scope, env, orc);
  }

  lemma DifferenceMeaning(l: Expr, r: Expr, env: Env)
    ensures ExprValue(Binary(Sub, Paren(l), Paren(r)), env, map[]) ==
      var a :- ExprValue(l, env, map[]);
      var b :- ExprValue(r, env, map[]);
      Some(FSub(a, b))
  {
    hide FSub;
    ParenMeaning(l, env);
    ParenMeaning(r, env);
    OperandsMeaning(Paren(l), Paren(r), env);
    hide ExprValue;
  }

  lemma ParenMeaning(e: Expr, env: Env)
    ensures ExprValue(Paren(e), env, map[]) == ExprValue(e, env, map[])
  {
  }

  lemma OperandsMeaning(l: Expr, r: Expr, env: Env)
    ensures ExprValue(Binary(Sub, l, r), env, map[]) ==
      var a :- ExprValue(l, env, map[]);
      var b :- ExprValue(r, env, map[]);
      Some(FSub(a, b))
  {
    hide FSub, ConstValue;
  }

  lemma AssertPushed(
      s: LState, s1: LState, d: Lowered, l: Expr, r: Expr, scope: Scope, env: Cells, orc: Oracle)
    requires Ready(s, scope, env, orc)
    requires Means(s, s1, d, Binary(Sub, Paren(l), Paren(r)), scope, env, orc)
    ensures StmtMeans(s, s1.(constraints := s1.constraints + [d.e]), Assert(l, r), scope, scope, env, orc)
  {
    hide Inv, Yields, ScopeOK, ScopeEnv, ExprValue, FSub, Frame, VanishFrom, OracleFits;
    var source := EnvOf(s, scope, env, orc);
    DifferenceMeaning(l, r, source);
    var a, b := ExprValue(l, source, map[]).value, ExprValue(r, source, map[]).value;
    DifferenceVanishes(a, b);
    ConstraintPushed(s, s1, d, FSub(a, b), env, orc);
    var s2 := s1.(constraints := s1.constraints + [d.e]);
    ReadyKept(s, s2, scope, env, orc);
  }

  lemma ConstraintPushed(s: LState, s1: LState, d: Lowered, v: Felt, env: Cells, orc: Oracle)
    requires Inv(s, env.Keys) && Gives(s, s1, d, v, env, orc)
    ensures Grown(s, s1.(constraints := s1.constraints + [d.e]), env, orc, v == 0)
  {
    var s2 := s1.(constraints := s1.constraints + [d.e]);
    ConstraintInv(s1, d, env.Keys);
    hide Inv, Closed, Degree, Eval, Frame, NoShift;
    FrameOfFill(s1, s2, env, orc);
    OneMoreVanishes(s1, s2, d.e, v, |s.constraints|, env, orc);
    hide VanishFrom;
  }

  lemma OneMoreVanishes(s1: LState, s2: LState, e: LExpr, v: Felt, k: nat, env: Cells, orc: Oracle)
    requires s2.constraints == s1.constraints + [e] && k <= |s1.constraints| && Frame(s2, env, orc) == Frame(s1, env, orc)
    requires VanishFrom(s1, k, env, orc) && Eval(e, Frame(s1, env, orc)) == v
    ensures VanishFrom(s2, k, env, orc) <==> v == 0
  {
    hide Frame, Eval;
    assert s2.constraints[|s1.constraints|] == e;
  }

  lemma FrameOfFill(s: LState, s': LState, env: Cells, orc: Oracle)
    requires s.fill == s'.fill
    ensures Frame(s, env, orc) == Frame(s', env, orc)
  {
  }

  lemma ConstraintInv(s: LState, d: Lowered, known: set<Cell>)
    requires Inv(s, known) && Closed(d.e, s) && Degree(d.e, s.cells) <= s.maxDegree - 1
    ensures Inv(s.(constraints := s.constraints + [d.e]), known)
  {
    var s' := s.(constraints := s.constraints + [d.e]);
    assert Naming(s') && Filling(s', known) && Columns(s', known) by { hide Linked, Budgeted; }
    hide Naming, Filling, Columns, Linked, Budgeted;
    ConstraintKeepsLinks(s, s', d);
    ConstraintKeepsBudget(s, s', d);
  }

  lemma ConstraintKeepsLinks(s: LState, s': LState, d: Lowered)
    requires Linked(s) && s' == s.(constraints := s.constraints + [d.e])
    ensures Linked(s')
  {
    forall c, e | Assign(c, e) in s'.fill
      ensures AssignLinked(s', c, e)
    {
      assert AssignLinked(s, c, e);
    }
  }

  lemma ConstraintKeepsBudget(s: LState, s': LState, d: Lowered)
    requires Budgeted(s) && Closed(d.e, s) && Degree(d.e, s.cells) <= s.maxDegree - 1
    requires s' == s.(constraints := s.constraints + [d.e])
    ensures Budgeted(s')
  {
    hide Degree, Vars;
  }

  // -- Loops ----------------------------------------------------------------------------------------

  lemma {:induction false} LoopCorrect(
      s: LState, x: string, lo: nat, hi: nat, body: seq<Stmt>, scope: Scope, budget: nat, env: Cells, orc: Oracle)
    requires Ready(s, scope, env, orc) && budget == s.maxDegree - 1 && Hygienic(body, {x})
    requires LowerLoop(s, x, lo, hi, body, scope, budget).Ok?
    ensures var (s', scope') := LowerLoop(s, x, lo, hi, body, scope, budget).value;
            LoopMeans(s, s', x, lo, hi, body, scope, scope', env, orc)
    decreases BlockSize(body), 2, hi - lo
  {
    hide Inv, ScopeOK, OracleFits, LowerBlock, BlockValue, ScopeGives, EnvOf, Hygienic, SubstituteBlock, Grown, BlockSize;
    if lo >= hi {
      EmptyBlock(s, scope, env, orc);
    } else {
      var unrolled := SubstituteBlock(body, x, lo);
      SubstituteBlockSize(body, x, lo);
      SubstituteHygienic(body, x, lo, {x});
      HygienicSubset(unrolled, {x}, {});
      var (s1, scope1) := LowerBlock(s, unrolled, scope, budget).value;
      BlockCorrect(s, unrolled, scope, budget, env, orc);
      SubstituteBlockMeaning(body, x, lo, EnvOf(s, scope, env, orc), map[], orc);
      var (next, ok) := BlockValue(unrolled, EnvOf(s, scope, env, orc), map[], orc).value;
      ScopeGivesReady(s, s1, scope1, next, env, orc, ok);
      LoopCorrect(s1, x, lo + 1, hi, body, scope1, budget, env, orc);
      var (s2, scope2) := LowerLoop(s1, x, lo + 1, hi, body, scope1, budget).value;
      var (after, ok') := LoopValue(x, lo + 1, hi, body, next, map[], orc).value;
      ScopeGivesAfter(s, s1, s2, scope2, after, env, orc, ok, ok');
    }
  }
}
