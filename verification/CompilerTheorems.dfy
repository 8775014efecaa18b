// The compiler's main theorems for one function: the fill satisfies the row's
// equations and returns the source's values; any row that satisfies them is the
// fill; and every constraint leaves room for the enabler gate.
module CompilerTheorems {
  import opened M31
  import opened Wrappers
  import opened FeltAst
  import opened FeltSemantics
  import opened Lowering
  import opened LoweredMeaning
  import opened LoweringInvariant
  import opened LoweringExprs
  import opened LowerPreserves
  import opened LowerStatements
  import opened LowerActivations
  import opened LowerBlocks
  import opened LowerFunctions

  // -- What a row is held to ------------------------------------------------------------

  /** The straight-line evaluation: derived cells computed from the columns, in order. */
  function Derive(derived: seq<(Cell, LExpr)>, row: Cells): Cells {
    if derived == [] then row
    else
      var n := |derived| - 1;
      var before := Derive(derived[..n], row);
      before[derived[n].0 := Eval(derived[n].1, before)]
  }

  ghost predicate DerivedHold(derived: seq<(Cell, LExpr)>, cells: Cells) {
    forall i :: 0 <= i < |derived| ==> At(cells, derived[i].0) == Eval(derived[i].1, cells)
  }

  ghost predicate ConstraintsHold(fn: LoweredFn, cells: Cells) {
    forall i :: 0 <= i < |fn.constraints| ==> Eval(fn.constraints[i], cells) == 0
  }

  /** Every activation made is answered by the callee's meaning. */
  ghost predicate CallsAnswered(fn: LoweredFn, cells: Cells, orc: Oracle) {
    forall k :: k in fn.calls ==> orc(k.callee, Values(k.args, cells)) == Some(Values(k.rets, cells))
  }

  /** The witness row of a function on given arguments. */
  function WitnessOf(fn: LoweredFn, xs: seq<Felt>, orc: Oracle): Cells
    requires |xs| == |fn.args|
  {
    Run(fn.fill, Start(fn.args, xs), orc)
  }

  // -- The final state --------------------------------------------------------------------

  /** What lowering a body establishes, whatever the arguments. */
  ghost predicate BodyMeans(
      f: AirFn, s: LState, args: seq<Cell>, rets: seq<Cell>, xs: seq<Felt>, materializeRets: bool, orc: Oracle)
    requires |xs| == |args|
  {
    var env := Start(args, xs);
    var v := FnValue(f, xs, orc);
    && Distinct(args) && env.Keys == CellSet(args) && Inv(s, CellSet(args))
    && v.Some? && CellSet(rets) <= s.cells.Keys && Values(rets, Frame(s, env, orc)) == v.value.0
    && (VanishFrom(s, 0, env, orc) <==> v.value.1)
    && (materializeRets ==> Committed(rets, s))
  }

  lemma BodyCorrect(
      f: AirFn, maxDegree: nat, arities: Arities, materializeRets: bool, xs: seq<Felt>, orc: Oracle)
    requires maxDegree >= 2 && Hygienic(f.body, {}) && OracleFits(orc, arities)
    requires LowerBody(f, maxDegree, arities, materializeRets).Ok?
    requires |xs| == |LowerBody(f, maxDegree, arities, materializeRets).value.1|
    ensures var (s, args, rets) := LowerBody(f, maxDegree, arities, materializeRets).value;
            && BodyMeans(f, s, args, rets, xs, materializeRets, orc)
            && s.arities == arities && s.maxDegree == maxDegree
  {
    hide ParamColumns, LowerBlock, FnReturns, BodyMeans, OracleFits, Hygienic, Start, Inv, Naming, ColumnsAdded, ParamsStandFor;
    var (s0, scope, args) := ParamColumns(Initial(maxDegree, arities, f.name), f.params);
    InitialNaming(maxDegree, arities, f.name);
    ParamsRegistered(Initial(maxDegree, arities, f.name), f.params);
    ParametersReady(f, s0, scope, args, maxDegree, arities, xs, orc);
    var env := Start(args, xs);
    var (s1, final) := LowerBlock(s0, f.body, scope, maxDegree - 1).value;
    var (s2, rets) := FnReturns(s1, f.rets, final, maxDegree - 1, materializeRets).value;
    hide Ready;
    BlockCorrect(s0, f.body, scope, maxDegree - 1, env, orc);
    BodyReady(s0, s1, f.body, scope, final, env, orc);
    FnReturnsCorrect(s1, f.rets, final, maxDegree - 1, materializeRets, env, orc);
    BodyAssembled(f, s0, s1, s2, scope, final, args, rets, xs, materializeRets, orc);
  }

  lemma InitialNaming(maxDegree: nat, arities: Arities, name: string)
    ensures Naming(Initial(maxDegree, arities, name))
  {
  }

  lemma ParametersReady(
      f: AirFn, s0: LState, scope: Scope, args: seq<Cell>, maxDegree: nat, arities: Arities, xs: seq<Felt>, orc: Oracle)
    requires maxDegree >= 2 && OracleFits(orc, arities) && |xs| == |args|
    requires ColumnsAdded(Initial(maxDegree, arities, f.name), s0, args) && ParamsStandFor(f.params, scope, args, s0)
    ensures Distinct(args) && Start(args, xs).Keys == CellSet(args)
    ensures Ready(s0, scope, Start(args, xs), orc)
    ensures ParamEnv(f.params, xs) == Some(EnvOf(s0, scope, Start(args, xs), orc))
    ensures s0.maxDegree == maxDegree && s0.arities == arities && s0.constraints == []
  {
    hide Inv, Naming, ParamEnv, ScopeEnv, ScopeOK, OracleFits;
    StartSpec(args, xs);
    InitialInv(s0, maxDegree, arities, f.name, args);
    var env := Start(args, xs);
    assert Frame(s0, env, orc) == env;
    assert ParamEnv(f.params, Values(args, env)) == Some(ScopeEnv(scope, env));
  }

  lemma BodyReady(s0: LState, s1: LState, body: seq<Stmt>, scope: Scope, final: Scope, env: Cells, orc: Oracle)
    requires Ready(s0, scope, env, orc) && BlockMeans(s0, s1, body, scope, final, env, orc)
    ensures Ready(s1, final, env, orc) && s1.maxDegree == s0.maxDegree && s1.arities == s0.arities
  {
    hide Inv, ScopeOK, ScopeEnv, Frame, VanishFrom, BlockValue, OracleFits;
  }

  lemma BodyAssembled(
      f: AirFn, s0: LState, s1: LState, s2: LState, scope: Scope, final: Scope, args: seq<Cell>, rets: seq<Cell>,
      xs: seq<Felt>, materializeRets: bool, orc: Oracle)
    requires |xs| == |args| && Distinct(args) && Start(args, xs).Keys == CellSet(args) && s0.constraints == []
    requires Ready(s0, scope, Start(args, xs), orc) && Ready(s1, final, Start(args, xs), orc)
    requires ParamEnv(f.params, xs) == Some(EnvOf(s0, scope, Start(args, xs), orc))
    requires BlockMeans(s0, s1, f.body, scope, final, Start(args, xs), orc)
    requires ArgValues(f.rets, EnvOf(s1, final, Start(args, xs), orc), map[]).Some?
    requires CellsGive(s1, s2, rets, Flatten(ArgValues(f.rets, EnvOf(s1, final, Start(args, xs), orc), map[]).value),
                       Start(args, xs), orc)
    requires materializeRets ==> Committed(rets, s2)
    ensures BodyMeans(f, s2, args, rets, xs, materializeRets, orc)
    ensures s2.maxDegree == s0.maxDegree && s2.arities == s0.arities
  {
    hide Inv, ScopeOK, EnvOf, Frame, VanishFrom, BlockValue, OracleFits, ParamEnv, ArgValues, Start, Flatten, CellSet, Committed,
         Distinct, Values;
    var env := Start(args, xs);
    var (after, ok) := BlockValue(f.body, EnvOf(s0, scope, env, orc), map[], orc).value;
    GrownTransitive(s0, s1, s2, env, orc, ok, true);
  }

  // -- The fill is a solution -----------------------------------------------------------------

  /**
   * Completeness: whatever the arguments, the fill computes every derived cell
   * and call, returns what the source returns, and satisfies every constraint,
   * materialization equalities and asserts, exactly when the source's
   * assertions hold.
   */
  lemma LoweringComplete(
      f: AirFn, maxDegree: nat, arities: Arities, materializeRets: bool, xs: seq<Felt>, orc: Oracle)
    requires maxDegree >= 2 && Hygienic(f.body, {}) && OracleFits(orc, arities)
    requires LowerFn(f, maxDegree, arities, materializeRets).Ok?
    requires |xs| == |LowerFn(f, maxDegree, arities, materializeRets).value.args|
    ensures var fn, v := LowerFn(f, maxDegree, arities, materializeRets).value, FnValue(f, xs, orc);
            var row := WitnessOf(fn, xs, orc);
            && v.Some? && Values(fn.args, row) == xs && Values(fn.rets, row) == v.value.0
            && DerivedHold(fn.derived, row) && CallsAnswered(fn, row, orc)
            && (ConstraintsHold(fn, row) <==> v.value.1)
  {
    hide LowerBody, FnValue, OracleFits, Hygienic;
    var fn := LowerFn(f, maxDegree, arities, materializeRets).value;
    var (s, args, rets) := LowerBody(f, maxDegree, arities, materializeRets).value;
    BodyCorrect(f, maxDegree, arities, materializeRets, xs, orc);
    FillSolves(f, s, args, rets, xs, materializeRets, orc);
    hide Run, Inv, Start, DerivedHold, Eval, Values;
  }

  lemma FillSolves(
      f: AirFn, s: LState, args: seq<Cell>, rets: seq<Cell>, xs: seq<Felt>, materializeRets: bool, orc: Oracle)
    requires |xs| == |args| && OracleFits(orc, s.arities) && BodyMeans(f, s, args, rets, xs, materializeRets, orc)
    ensures var row := Frame(s, Start(args, xs), orc);
            && Values(args, row) == xs && DerivedHold(s.derived, row)
            && (forall k :: k in s.calls ==> orc(k.callee, Values(k.args, row)) == Some(Values(k.rets, row)))
  {
    hide FnValue;
    StartSpec(args, xs);
    var env := Start(args, xs);
    InvParts(s, CellSet(args));
    hide Inv, BodyMeans, Start, FnValue;
    ArgumentsKept(s, args, xs, env, orc);
    DerivedSolved(s, env, orc);
    forall k | k in s.calls
      ensures var row := Frame(s, env, orc); orc(k.callee, Values(k.args, row)) == Some(Values(k.rets, row))
    {
      CallSolved(s, k, env, orc);
    }
  }

  lemma InvParts(s: LState, args: set<Cell>)
    requires Inv(s, args)
    ensures Filling(s, args) && Linked(s) && Columns(s, args) && Budgeted(s)
  {
  }

  lemma ArgumentsKept(s: LState, args: seq<Cell>, xs: seq<Felt>, env: Cells, orc: Oracle)
    requires Filling(s, env.Keys) && OracleFits(orc, s.arities)
    requires env.Keys == CellSet(args) && |xs| == |args| && Values(args, env) == xs
    ensures Values(args, Frame(s, env, orc)) == xs
  {
    RunPrefix(s.fill, 0, env, orc, s.arities);
    assert s.fill[..0] == [];
    ValuesFrame(args, env, Frame(s, env, orc), env.Keys);
  }

  lemma DerivedSolved(s: LState, env: Cells, orc: Oracle)
    requires Filling(s, env.Keys) && OracleFits(orc, s.arities) && Linked(s)
    ensures DerivedHold(s.derived, Frame(s, env, orc))
  {
    forall i | 0 <= i < |s.derived|
      ensures At(Frame(s, env, orc), s.derived[i].0) == Eval(s.derived[i].1, Frame(s, env, orc))
    {
      var step := Assign(s.derived[i].0, s.derived[i].1);
      assert step in s.fill;
      var k :| 0 <= k < |s.fill| && s.fill[k] == step;
      hide Linked, Filling;
      AssignSolved(s, k, env, orc);
    }
  }

  lemma AssignSolved(s: LState, k: nat, env: Cells, orc: Oracle)
    requires FillOK(s.fill, env.Keys, s.arities) && OracleFits(orc, s.arities) && k < |s.fill| && s.fill[k].Assign?
    ensures At(Frame(s, env, orc), s.fill[k].cell) == Eval(s.fill[k].e, Frame(s, env, orc))
  {
    RunAssign(s.fill, k, env, orc, s.arities);
  }

  lemma CallSolved(s: LState, k: Call, env: Cells, orc: Oracle)
    requires Filling(s, env.Keys) && OracleFits(orc, s.arities) && Linked(s) && k in s.calls
    ensures var row := Frame(s, env, orc); orc(k.callee, Values(k.args, row)) == Some(Values(k.rets, row))
  {
    var step := CallFn(k.rets, k.callee, k.args);
    assert step in s.fill;
    var i :| 0 <= i < |s.fill| && s.fill[i] == step;
    RunCall(s.fill, i, env, orc, s.arities);
  }

  // -- The fill is the only solution --------------------------------------------------------------

  /** Cells that satisfy every equation of the state, and whose calls are answered. */
  ghost predicate Solution(s: LState, cells: Cells, orc: Oracle) {
    && DerivedHold(s.derived, cells)
    && (forall i :: 0 <= i < |s.constraints| ==> Eval(s.constraints[i], cells) == 0)
    && (forall k :: k in s.calls ==> orc(k.callee, Values(k.args, cells)) == Some(Values(k.rets, cells)))
  }

  lemma AssignForced(s: LState, c: Cell, e: LExpr, cells: Cells, orc: Oracle)
    requires Linked(s) && Solution(s, cells, orc) && Assign(c, e) in s.fill
    ensures At(cells, c) == Eval(e, cells)
  {
    hide Eval;
    assert AssignLinked(s, c, e);
    if (c, e) in s.derived {
      var i :| 0 <= i < |s.derived| && s.derived[i] == (c, e);
    } else {
      var i :| 0 <= i < |s.constraints| && s.constraints[i] == Pinned(c, e);
      PinnedVanishes(c, e, cells);
    }
  }

  /** A solution agrees with the fill on every cell, step after step. */
  lemma {:induction false} FillUnique(s: LState, k: nat, env: Cells, cells: Cells, orc: Oracle)
    requires k <= |s.fill| && FillOK(s.fill, env.Keys, s.arities) && OracleFits(orc, s.arities)
    requires Linked(s) && Solution(s, cells, orc) && Agree(env, cells, env.Keys)
    ensures Agree(Run(s.fill[..k], env, orc), cells, Known(s.fill[..k], env.Keys))
  {
    hide Linked, Solution, OracleFits, Eval, Values;
    if k == 0 {
      assert s.fill[..0] == [];
    } else {
      FillUnique(s, k - 1, env, cells, orc);
      var prefix, step := s.fill[..k], s.fill[k - 1];
      assert prefix[..k - 1] == s.fill[..k - 1];
      PrefixOK(s.fill, k, env.Keys, s.arities);
      PrefixOK(s.fill, k - 1, env.Keys, s.arities);
      RunKeys(s.fill[..k - 1], env, orc, s.arities);
      var known := Known(s.fill[..k - 1], env.Keys);
      StepUnique(s, step, Run(s.fill[..k - 1], env, orc), known, cells, orc);
    }
  }

  lemma StepUnique(s: LState, step: FillStep, before: Cells, known: set<Cell>, cells: Cells, orc: Oracle)
    requires step in s.fill && StepOK(step, known, s.arities) && before.Keys == known && OracleFits(orc, s.arities)
    requires Linked(s) && Solution(s, cells, orc) && Agree(before, cells, known)
    ensures Agree(Step(before, step, orc), cells, known + Assigned(step))
  {
    hide Eval;
    match step
    case Assign(c, e) =>
      AssignForced(s, c, e, cells, orc);
      EvalFrame(e, before, cells);
    case CallFn(rets, f, args) =>
      hide Values;
      ValuesFrame(args, before, cells, known);
      assert Call(f, args, rets) in s.calls;
      ReturnsForced(before, rets, CallResult(orc, f, Values(args, before)), cells, known);
  }

  lemma ReturnsForced(before: Cells, rets: seq<Cell>, vs: seq<Felt>, cells: Cells, known: set<Cell>)
    requires Distinct(rets) && |vs| == |rets| && Values(rets, cells) == vs && Agree(before, cells, known)
    requires CellSet(rets) !! known
    ensures Agree(Store(before, rets, vs), cells, known + CellSet(rets))
  {
    StoreSpec(before, rets, vs);
    forall c | c in known + CellSet(rets)
      ensures At(Store(before, rets, vs), c) == At(cells, c)
    {
      if c in rets {
        var i :| 0 <= i < |rets| && rets[i] == c;
      }
    }
  }

  lemma {:induction false} DeriveFrame(derived: seq<(Cell, LExpr)>, row: Cells, c: Cell)
    requires c !in DerivedCells(derived)
    ensures At(Derive(derived, row), c) == At(row, c)
  {
    hide Eval;
    if derived != [] {
      var n := |derived| - 1;
      assert derived[n].0 in DerivedCells(derived);
      DerivedPrefix(derived, n);
      DeriveFrame(derived[..n], row, c);
    }
  }

  /** The straight-line evaluation satisfies its own equations. */
  lemma {:induction false} DeriveHolds(derived: seq<(Cell, LExpr)>, row: Cells, columns: set<Cell>)
    requires DerivedOrder(derived, columns)
    ensures DerivedHold(derived, Derive(derived, row))
  {
    hide Eval;
    if derived != [] {
      var n := |derived| - 1;
      var before, after := Derive(derived[..n], row), Derive(derived, row);
      DeriveHolds(derived[..n], row, columns);
      DerivedNotColumns(derived[..n], columns);
      forall i | 0 <= i < |derived|
        ensures At(after, derived[i].0) == Eval(derived[i].1, after)
      {
        EarlierVars(derived, i, columns);
        EvalFrame(derived[i].1, before, after);
        if i < n {
          assert derived[..n][i] == derived[i];
          assert derived[..n][i].0 in DerivedCells(derived[..n]);
        }
      }
    }
  }

  /** No derived expression reads the last derived cell. */
  lemma {:induction false} EarlierVars(derived: seq<(Cell, LExpr)>, i: nat, columns: set<Cell>)
    requires DerivedOrder(derived, columns) && i < |derived|
    ensures derived[|derived| - 1].0 !in Vars(derived[i].1)
  {
    var n := |derived| - 1;
    if i < n {
      VarsBefore(derived[..n], i, columns);
    }
  }

  lemma {:induction false} VarsBefore(derived: seq<(Cell, LExpr)>, i: nat, columns: set<Cell>)
    requires DerivedOrder(derived, columns) && i < |derived|
    ensures Vars(derived[i].1) <= columns + DerivedCells(derived)
  {
    var n := |derived| - 1;
    DerivedPrefix(derived, n);
    if i < n {
      assert derived[..n][i] == derived[i];
      VarsBefore(derived[..n], i, columns);
    }
  }

  /**
   * Soundness: a row whose evaluation satisfies the constraints, and whose calls
   * are answered by the callees' meanings, returns what the source returns on the
   * row's arguments, with every assertion true; and it is the fill, cell by cell.
   */
  lemma LoweringSound(
      f: AirFn, maxDegree: nat, arities: Arities, materializeRets: bool, row: Cells, orc: Oracle)
    requires maxDegree >= 2 && Hygienic(f.body, {}) && OracleFits(orc, arities)
    requires LowerFn(f, maxDegree, arities, materializeRets).Ok?
    requires var fn := LowerFn(f, maxDegree, arities, materializeRets).value;
             var cells := Derive(fn.derived, row);
             ConstraintsHold(fn, cells) && CallsAnswered(fn, cells, orc)
    ensures var fn := LowerFn(f, maxDegree, arities, materializeRets).value;
            var cells, xs := Derive(fn.derived, row), Values(fn.args, row);
            && Values(fn.args, cells) == xs
            && FnValue(f, xs, orc) == Some((Values(fn.rets, cells), true))
            && Agree(WitnessOf(fn, xs, orc), cells, WitnessOf(fn, xs, orc).Keys)
  {
    hide LowerBody, FnValue, OracleFits, Hygienic, Eval, Run, Derive;
    var fn := LowerFn(f, maxDegree, arities, materializeRets).value;
    var cells, xs := Derive(fn.derived, row), Values(fn.args, row);
    var (s, args, rets) := LowerBody(f, maxDegree, arities, materializeRets).value;
    BodyCorrect(f, maxDegree, arities, materializeRets, xs, orc);
    SolutionIsFill(f, s, args, rets, row, materializeRets, orc);
  }

  lemma SolutionIsFill(
      f: AirFn, s: LState, args: seq<Cell>, rets: seq<Cell>, row: Cells, materializeRets: bool, orc: Oracle)
    requires BodyMeans(f, s, args, rets, Values(args, row), materializeRets, orc) && OracleFits(orc, s.arities)
    requires forall i :: 0 <= i < |s.constraints| ==> Eval(s.constraints[i], Derive(s.derived, row)) == 0
    requires forall k :: k in s.calls ==>
               orc(k.callee, Values(k.args, Derive(s.derived, row))) == Some(Values(k.rets, Derive(s.derived, row)))
    ensures var cells, xs := Derive(s.derived, row), Values(args, row);
            var fill := Frame(s, Start(args, xs), orc);
            && Values(args, cells) == xs
            && FnValue(f, xs, orc) == Some((Values(rets, cells), true))
            && Agree(fill, cells, fill.Keys)
  {
    hide FnValue, Inv, Start, Derive, Eval, OracleFits, Committed, Frame, Values, CellSet;
    var cells, xs := Derive(s.derived, row), Values(args, row);
    var env := Start(args, xs);
    BodyStarts(f, s, args, rets, xs, materializeRets, orc);
    SolutionAgrees(s, args, row, cells, env, orc);
    hide VanishFrom;
    ValuesFrame(rets, Frame(s, env, orc), cells, s.cells.Keys);
  }

  lemma BodyStarts(
      f: AirFn, s: LState, args: seq<Cell>, rets: seq<Cell>, xs: seq<Felt>, materializeRets: bool, orc: Oracle)
    requires |xs| == |args| && BodyMeans(f, s, args, rets, xs, materializeRets, orc)
    ensures Start(args, xs).Keys == CellSet(args) && Values(args, Start(args, xs)) == xs && Inv(s, CellSet(args))
  {
    hide FnValue, Inv, Frame, VanishFrom, Committed;
    StartSpec(args, xs);
  }

  lemma SolutionAgrees(s: LState, args: seq<Cell>, row: Cells, cells: Cells, env: Cells, orc: Oracle)
    requires Inv(s, CellSet(args)) && OracleFits(orc, s.arities)
    requires env.Keys == CellSet(args) && Values(args, env) == Values(args, row) && cells == Derive(s.derived, row)
    requires forall i :: 0 <= i < |s.constraints| ==> Eval(s.constraints[i], cells) == 0
    requires forall k :: k in s.calls ==> orc(k.callee, Values(k.args, cells)) == Some(Values(k.rets, cells))
    ensures Frame(s, env, orc).Keys == s.cells.Keys && Agree(Frame(s, env, orc), cells, s.cells.Keys)
    ensures VanishFrom(s, 0, env, orc) && Values(args, cells) == Values(args, row)
  {
    hide Derive, Eval, OracleFits;
    InvParts(s, CellSet(args));
    hide Inv;
    DeriveHolds(s.derived, row, CellSet(args) + CellSet(s.extraColumns));
    ArgumentsRead(s, args, row, env);
    assert Solution(s, cells, orc);
    FillUnique(s, |s.fill|, env, cells, orc);
    assert s.fill[..|s.fill|] == s.fill;
    RunKeys(s.fill, env, orc, s.arities);
    AllVanish(s, env, cells, orc);
  }

  /** The constraints vanish in the fill too, so the assertions hold. */
  lemma AllVanish(s: LState, env: Cells, cells: Cells, orc: Oracle)
    requires Solution(s, cells, orc) && Budgeted(s) && Agree(Frame(s, env, orc), cells, s.cells.Keys)
    ensures VanishFrom(s, 0, env, orc)
  {
    forall i | 0 <= i < |s.constraints|
      ensures Eval(s.constraints[i], Frame(s, env, orc)) == 0
    {
      assert Closed(s.constraints[i], s);
      EvalFrame(s.constraints[i], Frame(s, env, orc), cells);
    }
  }

  lemma ArgumentsRead(s: LState, args: seq<Cell>, row: Cells, env: Cells)
    requires Columns(s, CellSet(args)) && env.Keys == CellSet(args)
    requires Values(args, env) == Values(args, row)
    ensures Agree(env, Derive(s.derived, row), env.Keys)
    ensures Values(args, Derive(s.derived, row)) == Values(args, row)
  {
    DerivedNotColumns(s.derived, CellSet(args) + CellSet(s.extraColumns));
    forall i | 0 <= i < |args|
      ensures At(Derive(s.derived, row), args[i]) == At(row, args[i]) && At(env, args[i]) == At(row, args[i])
    {
      assert args[i] in CellSet(args);
      DeriveFrame(s.derived, row, args[i]);
      assert Values(args, env)[i] == Values(args, row)[i];
    }
  }

  // -- Degrees -----------------------------------------------------------------------------------

  /** Degrees recomputed from scratch: columns are variables, derived cells are their expressions. */
  function TrueDegrees(derived: seq<(Cell, LExpr)>): map<Cell, nat> {
    if derived == [] then map[]
    else
      var n := |derived| - 1;
      var before := TrueDegrees(derived[..n]);
      before[derived[n].0 := PolyDegree(derived[n].1, before)]
  }

  /** Degree of a polynomial in the columns, derived cells standing for their own polynomials. */
  function PolyDegree(e: LExpr, degrees: map<Cell, nat>): nat {
    match e
    case Verbatim(_) => 0
    case Ref(c) => if c in degrees then degrees[c] else 1
    case LBinary(op, l, r) =>
      if op == Mul then PolyDegree(l, degrees) + PolyDegree(r, degrees)
      else Max(PolyDegree(l, degrees), PolyDegree(r, degrees))
    case LNeg(f) => PolyDegree(f, degrees)
  }

  lemma {:induction false} TrueDegreeBound(e: LExpr, degrees: map<Cell, nat>, s: LState)
    requires Closed(e, s)
    requires forall c :: c in Vars(e) ==> (if c in degrees then degrees[c] else 1) <= s.cells[c]
    ensures PolyDegree(e, degrees) <= Degree(e, s.cells)
  {
    match e
    case Verbatim(_) =>
    case Ref(c) =>
    case LBinary(_, l, r) =>
      TrueDegreeBound(l, degrees, s);
      TrueDegreeBound(r, degrees, s);
    case LNeg(f) => TrueDegreeBound(f, degrees, s);
  }

  lemma NextDegree(s: LState, k: nat, columns: set<Cell>, before: map<Cell, nat>)
    requires 0 < k <= |s.derived| && Budgeted(s) && DerivedOrder(s.derived[..k], columns)
    requires columns <= s.cells.Keys && forall c :: c in columns ==> s.cells[c] == 1
    requires before.Keys == DerivedCells(s.derived[..k - 1]) <= s.cells.Keys
    requires forall c :: c in before ==> before[c] <= s.cells[c]
    ensures var (c, e) := s.derived[k - 1]; c in s.cells && PolyDegree(e, before) <= s.cells[c]
  {
    hide PolyDegree, Degree;
    var e := s.derived[k - 1].1;
    assert s.derived[..k][..k - 1] == s.derived[..k - 1] && s.derived[..k][k - 1] == s.derived[k - 1];
    DerivedNotColumns(s.derived[..k - 1], columns);
    TrueDegreeBound(e, before, s);
  }

  lemma {:induction false} TrueDegreesBound(s: LState, k: nat, columns: set<Cell>)
    requires k <= |s.derived| && Budgeted(s) && DerivedOrder(s.derived[..k], columns)
    requires columns <= s.cells.Keys && forall c :: c in columns ==> s.cells[c] == 1
    ensures var degrees := TrueDegrees(s.derived[..k]);
            && degrees.Keys == DerivedCells(s.derived[..k]) <= s.cells.Keys
            && (forall c :: c in degrees ==> degrees[c] <= s.cells[c])
  {
    var prefix := s.derived[..k];
    if k > 0 {
      assert prefix[..k - 1] == s.derived[..k - 1] && prefix[k - 1] == s.derived[k - 1];
      TrueDegreesBound(s, k - 1, columns);
      var (c, e) := s.derived[k - 1];
      var before := TrueDegrees(s.derived[..k - 1]);
      DerivedCellsPush(s.derived[..k - 1], c, e);
      assert s.derived[..k - 1] + [(c, e)] == prefix;
      NextDegree(s, k, columns, before);
    }
  }

  /** An oracle that fits any arities. */
  function ZeroOracle(arities: Arities): Oracle {
    (f: string, xs: seq<Felt>) => if f in arities then Some(seq(arities[f].1, i => 0)) else None
  }

  /**
   * The degree budget: every derived cell and every constraint has degree at
   * most maxDegree - 1 as a polynomial in the columns, so a constraint times the
   * enabler stays within maxDegree; materialized returns have degree at most one.
   */
  lemma LoweringDegree(f: AirFn, maxDegree: nat, arities: Arities, materializeRets: bool)
    requires maxDegree >= 2 && Hygienic(f.body, {})
    requires LowerFn(f, maxDegree, arities, materializeRets).Ok?
    ensures var fn := LowerFn(f, maxDegree, arities, materializeRets).value;
            var degrees := TrueDegrees(fn.derived);
            && (forall c :: c in degrees ==> degrees[c] + 1 <= maxDegree)
            && (forall i :: 0 <= i < |fn.constraints| ==> PolyDegree(fn.constraints[i], degrees) + 1 <= maxDegree)
            && (materializeRets ==> forall c :: c in fn.rets && c in degrees ==> degrees[c] <= 1)
  {
    hide LowerBody, Hygienic, TrueDegrees, PolyDegree;
    var (s, args, rets) := LowerBody(f, maxDegree, arities, materializeRets).value;
    var xs: seq<Felt> := seq(|args|, i => 0);
    BodyCorrect(f, maxDegree, arities, materializeRets, xs, ZeroOracle(arities));
    StateDegrees(f, s, args, rets, xs, materializeRets, ZeroOracle(arities));
  }

  lemma StateDegrees(
      f: AirFn, s: LState, args: seq<Cell>, rets: seq<Cell>, xs: seq<Felt>, materializeRets: bool, orc: Oracle)
    requires |xs| == |args| && BodyMeans(f, s, args, rets, xs, materializeRets, orc)
    ensures var degrees := TrueDegrees(s.derived);
            && (forall c :: c in degrees ==> degrees[c] + 1 <= s.maxDegree)
            && (forall i :: 0 <= i < |s.constraints| ==> PolyDegree(s.constraints[i], degrees) + 1 <= s.maxDegree)
            && (materializeRets ==> forall c :: c in rets && c in degrees ==> degrees[c] <= 1)
  {
    hide FnValue;
    InvParts(s, CellSet(args));
    hide Inv, Start, FnValue, Linked, Filling, Eval, TrueDegrees;
    assert s.derived[..|s.derived|] == s.derived;
    TrueDegreesBound(s, |s.derived|, CellSet(args) + CellSet(s.extraColumns));
    var degrees := TrueDegrees(s.derived);
    forall i | 0 <= i < |s.constraints|
      ensures PolyDegree(s.constraints[i], degrees) + 1 <= s.maxDegree
    {
      TrueDegreeBound(s.constraints[i], degrees, s);
    }
  }
}
