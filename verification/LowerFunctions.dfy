// A whole lowered function: the fill is the only solution of the row's
// equations, it returns what the source returns, and the row's constraints hold
// exactly when the source's assertions do.
module LowerFunctions {
  import opened M31
  import opened Wrappers
  import opened FeltAst
  import opened FeltSemantics
  import opened Lowering
  import opened LoweredMeaning
  import opened LoweringInvariant
  import opened LoweringExprs
  import opened LowerPreserves
  import opened LowerStatements
  import opened LowerActivations
  import opened LowerBlocks

  // -- Parameters -----------------------------------------------------------------------

  /** s' is s with fresh degree-one columns, not counted as extra. */
  ghost predicate ColumnsAdded(s: LState, s': LState, cells: seq<Cell>) {
    && s' == s.(used := s'.used, cells := s'.cells)
    && Naming(s') && Distinct(cells) && CellSet(cells) !! s.cells.Keys
    && s'.cells.Keys == s.cells.Keys + CellSet(cells)
    && (forall c :: c in s.cells ==> s'.cells[c] == s.cells[c])
    && (forall c :: c in cells ==> s'.cells[c] == 1)
  }

  lemma ColumnAdded(s: LState, base: string)
    requires Naming(s)
    ensures var (s', cell) := RegisterColumn(s, base);
            ColumnsAdded(s, s', [cell])
  {
    var (s', cell) := RegisterColumn(s, base);
    FreshIsNew(s, base);
    NamingAdds(s.(used := s'.used), s', cell);
    assert CellSet([cell]) == {cell};
  }

  lemma ColumnsAppend(s: LState, s1: LState, s2: LState, a: seq<Cell>, b: seq<Cell>)
    requires ColumnsAdded(s, s1, a) && ColumnsAdded(s1, s2, b)
    ensures ColumnsAdded(s, s2, a + b)
  {
    hide Naming;
    assert CellSet(a + b) == CellSet(a) + CellSet(b);
    forall i, j | 0 <= i < j < |a + b|
      ensures (a + b)[i] != (a + b)[j]
    {
      if i < |a| <= j { assert a[i] in CellSet(a) && b[j - |a|] in CellSet(b); }
    }
    forall c | c in a + b
      ensures s2.cells[c] == 1
    {
      if c in a { assert c in CellSet(a); }
    }
  }

  lemma NothingAdded(s: LState)
    requires Naming(s)
    ensures ColumnsAdded(s, s, [])
  {
  }

  lemma {:induction false} ArgumentsAdded(s: LState, bases: seq<string>)
    requires Naming(s)
    ensures var (s', cells) := RegisterArguments(s, bases);
            |cells| == |bases| && ColumnsAdded(s, s', cells)
  {
    hide ColumnsAdded, Naming, RegisterColumn;
    if bases == [] {
      NothingAdded(s);
    } else {
      var n := |bases| - 1;
      var (s1, cells) := RegisterArguments(s, bases[..n]);
      ArgumentsAdded(s, bases[..n]);
      AddedNames(s, s1, cells);
      var (s2, cell) := RegisterColumn(s1, bases[n]);
      ColumnAdded(s1, bases[n]);
      ColumnsAppend(s, s1, s2, cells, [cell]);
    }
  }

  lemma AddedNames(s: LState, s1: LState, cells: seq<Cell>)
    requires ColumnsAdded(s, s1, cells)
    ensures Naming(s1)
  {
  }

  /** The parameter scope stands for the parameter environment, whatever the arguments. */
  ghost predicate ParamsStandFor(params: seq<Param>, scope: Scope, cells: seq<Cell>, s: LState) {
    && ScopeOK(scope, s)
    && (forall env :: ParamEnv(params, Values(cells, env)) == Some(ScopeEnv(scope, env)))
  }

  lemma {:induction false} ParamsRegistered(s: LState, params: seq<Param>)
    requires Naming(s)
    ensures var (s', scope, cells) := ParamColumns(s, params);
            ColumnsAdded(s, s', cells) && ParamsStandFor(params, scope, cells, s')
  {
    hide ColumnsAdded, Naming, RegisterColumn, RegisterArguments, ParamsStandFor, IndexedNames;
    if params == [] {
      NothingAdded(s);
      NoParameters(s);
    } else {
      var n := |params| - 1;
      var (s1, scope, cells) := ParamColumns(s, params[..n]);
      ParamsRegistered(s, params[..n]);
      AddedNames(s, s1, cells);
      if params[n].size.None? {
        var (s2, cell) := RegisterColumn(s1, params[n].name);
        ColumnAdded(s1, params[n].name);
        ColumnsAppend(s, s1, s2, cells, [cell]);
        ScalarParam(params, scope, cells, s1, s2, cell);
      } else {
        var bases := IndexedNames(params[n].name, params[n].size.value);
        var (s2, elements) := RegisterArguments(s1, bases);
        ArgumentsAdded(s1, bases);
        ColumnsAppend(s, s1, s2, cells, elements);
        ArrayParam(params, scope, cells, s1, s2, elements);
      }
    }
  }

  lemma NoParameters(s: LState)
    ensures ParamsStandFor([], map[], [], s)
  {
  }

  lemma ScopeAdded(scope: Scope, s1: LState, s2: LState, cells: seq<Cell>)
    requires ScopeOK(scope, s1) && ColumnsAdded(s1, s2, cells)
    ensures ScopeOK(scope, s2)
  {
    hide Naming, Distinct;
    forall x | x in scope
      ensures ValueOK(scope[x], s2)
    {
      assert ValueOK(scope[x], s1);
    }
  }

  lemma {:induction false} ScalarParam(params: seq<Param>, scope: Scope, cells: seq<Cell>, s1: LState, s2: LState, cell: Cell)
    requires |params| > 0 && params[|params| - 1].size.None?
    requires ParamsStandFor(params[..|params| - 1], scope, cells, s1) && ColumnsAdded(s1, s2, [cell])
    ensures ParamsStandFor(params, scope[params[|params| - 1].name := One(Slot(cell, 1))], cells + [cell], s2)
  {
    hide Naming, Distinct, ScopeEnv, ParamEnv, Values;
    var p := params[|params| - 1];
    ScopeAdded(scope, s1, s2, [cell]);
    assert cell in CellSet([cell]);
    forall env: Cells
      ensures ParamEnv(params, Values(cells + [cell], env)) == Some(ScopeEnv(scope[p.name := One(Slot(cell, 1))], env))
    {
      ScalarParamEnv(params, scope, cells, cell, env);
    }
  }

  lemma {:induction false} ScalarParamEnv(params: seq<Param>, scope: Scope, cells: seq<Cell>, cell: Cell, env: Cells)
    requires |params| > 0 && params[|params| - 1].size.None?
    requires ParamEnv(params[..|params| - 1], Values(cells, env)) == Some(ScopeEnv(scope, env))
    ensures ParamEnv(params, Values(cells + [cell], env))
         == Some(ScopeEnv(scope[params[|params| - 1].name := One(Slot(cell, 1))], env))
  {
    var name, all := params[|params| - 1].name, Values(cells + [cell], env);
    assert all[..|cells|] == Values(cells, env);
    ScopeEnvBind(scope, name, One(Slot(cell, 1)), env);
  }

  lemma {:induction false} ScopeEnvBind(scope: Scope, x: string, v: Value, env: Cells)
    ensures ScopeEnv(scope[x := v], env) == ScopeEnv(scope, env)[x := ValueIn(v, env)]
  {
    hide ValueIn;
  }

  lemma {:induction false} ArrayParamEnv(params: seq<Param>, scope: Scope, cells: seq<Cell>, elements: seq<Cell>, env: Cells)
    requires |params| > 0 && params[|params| - 1].size == Some(|elements|)
    requires ParamEnv(params[..|params| - 1], Values(cells, env)) == Some(ScopeEnv(scope, env))
    ensures ParamEnv(params, Values(cells + elements, env))
         == Some(ScopeEnv(scope[params[|params| - 1].name := Many(ColumnSlots(elements))], env))
  {
    hide ParamEnv, ScopeEnv, Values, SlotValues;
    ValuesAppend(cells, elements, env);
    ArrayParamValue(params, Values(cells, env), Values(elements, env), ScopeEnv(scope, env));
    ScopeEnvBind(scope, params[|params| - 1].name, Many(ColumnSlots(elements)), env);
    ColumnSlotValues(elements, env);
  }

  lemma ValuesAppend(a: seq<Cell>, b: seq<Cell>, env: Cells)
    ensures Values(a + b, env) == Values(a, env) + Values(b, env)
  {
  }

  lemma ColumnSlotValues(cells: seq<Cell>, env: Cells)
    ensures SlotValues(ColumnSlots(cells), env) == Values(cells, env)
  {
  }

  lemma {:induction false} ArrayParamValue(params: seq<Param>, before: seq<Felt>, last: seq<Felt>, env: Env)
    requires |params| > 0 && params[|params| - 1].size == Some(|last|)
    requires ParamEnv(params[..|params| - 1], before) == Some(env)
    ensures ParamEnv(params, before + last) == Some(env[params[|params| - 1].name := Array(last)])
  {
    assert (before + last)[..|before|] == before && (before + last)[|before|..] == last;
  }

  lemma {:induction false} ArrayParam(params: seq<Param>, scope: Scope, cells: seq<Cell>, s1: LState, s2: LState, elements: seq<Cell>)
    requires |params| > 0 && params[|params| - 1].size == Some(|elements|)
    requires ParamsStandFor(params[..|params| - 1], scope, cells, s1) && ColumnsAdded(s1, s2, elements)
    ensures ParamsStandFor(params, scope[params[|params| - 1].name := Many(ColumnSlots(elements))], cells + elements, s2)
  {
    hide Naming, Distinct, ScopeEnv, ParamEnv, Values;
    var p := params[|params| - 1];
    ScopeAdded(scope, s1, s2, elements);
    ReturnSlots(s2, elements, map[]);
    forall env: Cells
      ensures ParamEnv(params, Values(cells + elements, env))
           == Some(ScopeEnv(scope[p.name := Many(ColumnSlots(elements))], env))
    {
      ArrayParamEnv(params, scope, cells, elements, env);
    }
  }

  // -- The initial state -------------------------------------------------------------------

  /** A frame holding the arguments only. */
  function Start(args: seq<Cell>, xs: seq<Felt>): Cells
    requires |args| == |xs|
  {
    Store(map[], args, xs)
  }

  lemma StartSpec(args: seq<Cell>, xs: seq<Felt>)
    requires |args| == |xs| && Distinct(args)
    ensures Start(args, xs).Keys == CellSet(args) && Values(args, Start(args, xs)) == xs
  {
    StoreSpec(map[], args, xs);
  }

  lemma InitialInv(s: LState, maxDegree: nat, arities: Arities, name: string, args: seq<Cell>)
    requires maxDegree >= 2 && ColumnsAdded(Initial(maxDegree, arities, name), s, args)
    ensures Inv(s, CellSet(args))
  {
    hide Naming, Distinct;
    assert CellSet([]) == {};
    assert forall c :: c in CellSet(args) ==> s.cells[c] == 1;
  }

  // -- Returns -------------------------------------------------------------------------------

  lemma {:induction false} ArgValuesSnoc(es: seq<Expr>, env: Env)
    requires |es| > 0
    requires ArgValues(es[..|es| - 1], env, map[]).Some? && ArgValue(es[|es| - 1], env, map[]).Some?
    ensures ArgValues(es, env, map[])
         == Some(ArgValues(es[..|es| - 1], env, map[]).value + [ArgValue(es[|es| - 1], env, map[]).value])
  {
    hide ArgValue;
    var n := |es| - 1;
    if n == 0 {
      assert es[1..] == [] && es[..n] == [];
      assert ArgValues(es[..n], env, map[]) == Some([]);
      assert [] + [ArgValue(es[n], env, map[]).value] == [ArgValue(es[0], env, map[]).value] + [];
    } else {
      assert es[1..][..n - 1] == es[..n][1..] && es[1..][n - 1] == es[n] && es[..n][0] == es[0];
      ArgValuesSnoc(es[1..], env);
      var first, middle := ArgValue(es[0], env, map[]).value, ArgValues(es[1..][..n - 1], env, map[]).value;
      var last := ArgValue(es[n], env, map[]).value;
      assert ArgValues(es[..n], env, map[]).value == [first] + middle;
      assert [first] + (middle + [last]) == [first] + middle + [last];
    }
  }

  lemma {:induction false} FlattenAppend(a: seq<Val>, b: seq<Val>)
    ensures Flatten(a + b) == Flatten(a) + Flatten(b)
    decreases |a|
  {
    if a == [] {
      assert a + b == b;
    } else {
      assert (a + b)[1..] == a[1..] + b;
      FlattenAppend(a[1..], b);
    }
  }

  /** Cells of degree at most one. */
  ghost predicate Committed(cells: seq<Cell>, s: LState) {
    forall c :: c in cells ==> c in s.cells && s.cells[c] <= 1
  }

  lemma {:induction false} ReturnCellsCorrect(s: LState, slots: seq<Slot>, materializeRets: bool, env: Cells, orc: Oracle)
    requires Inv(s, env.Keys) && OracleFits(orc, s.arities) && SlotsOK(slots, s)
    ensures var (s', cells) := ReturnCells(s, slots, materializeRets);
            && CellsGive(s, s', cells, SlotValues(slots, Frame(s, env, orc)), env, orc)
            && (materializeRets ==> Committed(cells, s'))
  {
    hide Inv, OracleFits, CellsGive, Materialize, Frame, Committed, Grown, SlotValues;
    var f := Frame(s, env, orc);
    if slots == [] {
      NoCells(s, env, orc);
      NothingReturned(f);
      NothingCommitted(s);
    } else {
      var n := |slots| - 1;
      ReturnCellsCorrect(s, slots[..n], materializeRets, env, orc);
      var (s1, cells) := ReturnCells(s, slots[..n], materializeRets);
      var (s2, cell) := if materializeRets && slots[n].degree > 1 then Materialize(s1, Ref(slots[n].cell)) else (s1, slots[n].cell);
      OneReturnCell(s, s1, slots[n], materializeRets, cells, SlotValues(slots[..n], f), env, orc);
      CellsAppend(s, s1, s2, cells, [cell], SlotValues(slots[..n], f), [At(f, slots[n].cell)], env, orc);
      assert slots == slots[..n] + [slots[n]];
      SlotValuesAppend(slots[..n], [slots[n]], f);
      OneSlot(slots[n], f);
      CommittedAppend(s1, s2, cells, cell, materializeRets, env, orc);
    }
  }

  lemma NothingReturned(f: Cells)
    ensures SlotValues([], f) == Flatten([])
  {
  }

  lemma NothingCommitted(s: LState)
    ensures Committed([], s)
  {
  }

  lemma OneReturnCell(
      s: LState, s1: LState, slot: Slot, materializeRets: bool, cells: seq<Cell>, vs: seq<Felt>, env: Cells, orc: Oracle)
    requires Inv(s, env.Keys) && OracleFits(orc, s.arities) && SlotOK(slot, s)
    requires CellsGive(s, s1, cells, vs, env, orc)
    ensures var (s2, cell) := if materializeRets && slot.degree > 1 then Materialize(s1, Ref(slot.cell)) else (s1, slot.cell);
            && Inv(s1, env.Keys) && OracleFits(orc, s1.arities)
            && Grown(s1, s2, env, orc, true)
            && CellsGive(s1, s2, [cell], [At(Frame(s, env, orc), slot.cell)], env, orc)
            && (materializeRets ==> cell in s2.cells && s2.cells[cell] <= 1)
  {
    hide Materialize, Frame, VanishFrom, OracleFits, Naming, Filling, Linked, Columns;
    assert SlotsOK([slot], s);
    SlotsKept(s, s1, [slot], env, orc);
    OneSlot(slot, Frame(s, env, orc));
    OneSlot(slot, Frame(s1, env, orc));
    assert SlotOK([slot][0], s1);
    var e := Ref(slot.cell);
    if materializeRets && slot.degree > 1 {
      MaterializeGrows(s1, e, env, orc);
      var (s2, cell) := Materialize(s1, e);
      assert Values([cell], Frame(s2, env, orc)) == [At(Frame(s2, env, orc), cell)];
    } else {
      GrownRefl(s1, env, orc);
      assert Values([slot.cell], Frame(s1, env, orc)) == [At(Frame(s1, env, orc), slot.cell)];
    }
  }

  lemma CommittedAppend(
      s1: LState, s2: LState, cells: seq<Cell>, cell: Cell, materializeRets: bool, env: Cells, orc: Oracle)
    requires Grown(s1, s2, env, orc, true)
    requires materializeRets ==> Committed(cells, s1) && cell in s2.cells && s2.cells[cell] <= 1
    ensures materializeRets ==> Committed(cells + [cell], s2)
  {
    hide Inv, VanishFrom;
  }

  lemma {:induction false} FnReturnsCorrect(
      s: LState, es: seq<Expr>, scope: Scope, budget: nat, materializeRets: bool, env: Cells, orc: Oracle)
    requires Ready(s, scope, env, orc) && budget == s.maxDegree - 1
    requires FnReturns(s, es, scope, budget, materializeRets).Ok?
    ensures var (s', cells) := FnReturns(s, es, scope, budget, materializeRets).value;
            var xs := ArgValues(es, EnvOf(s, scope, env, orc), map[]);
            && xs.Some? && CellsGive(s, s', cells, Flatten(xs.value), env, orc)
            && (materializeRets ==> Committed(cells, s'))
  {
    hide Inv, ScopeOK, OracleFits, CellsGive, Frame, Committed, Grown, LowerReturn, ReturnCells, EnvOf, ArgValue, Flatten;
    if es == [] {
      NoCells(s, env, orc);
      NothingCommitted(s);
    } else {
      var n := |es| - 1;
      FnReturnsCorrect(s, es[..n], scope, budget, materializeRets, env, orc);
      var (s1, cells) := FnReturns(s, es[..n], scope, budget, materializeRets).value;
      var source := EnvOf(s, scope, env, orc);
      var before := ArgValues(es[..n], source, map[]).value;
      CellsGrown(s, s1, cells, Flatten(before), env, orc);
      GrownReady(s, s1, scope, env, orc, true);
      OneReturn(s1, es[n], scope, budget, materializeRets, env, orc);
      var (s2, v) := LowerReturn(s1, es[n], scope, budget).value;
      var (s3, more) := ReturnCells(s2, if v.One? then [v.slot] else v.slots, materializeRets);
      var last := ArgValue(es[n], source, map[]).value;
      CellsAppend(s, s1, s3, cells, more, Flatten(before), Flatten([last]), env, orc);
      FlattenAppend(before, [last]);
      ArgValuesSnoc(es, source);
      CellsGrown(s1, s3, more, Flatten([last]), env, orc);
      CommittedConcat(s1, s3, cells, more, materializeRets, env, orc);
    }
  }

  lemma CellsGrown(s: LState, s': LState, cells: seq<Cell>, vs: seq<Felt>, env: Cells, orc: Oracle)
    requires CellsGive(s, s', cells, vs, env, orc)
    ensures Grown(s, s', env, orc, true)
  {
  }

  lemma CommittedConcat(
      s1: LState, s2: LState, a: seq<Cell>, b: seq<Cell>, materializeRets: bool, env: Cells, orc: Oracle)
    requires Grown(s1, s2, env, orc, true)
    requires materializeRets ==> Committed(a, s1) && Committed(b, s2)
    ensures materializeRets ==> Committed(a + b, s2)
  {
    hide Inv, VanishFrom;
  }

  lemma OneReturn(s: LState, e: Expr, scope: Scope, budget: nat, materializeRets: bool, env: Cells, orc: Oracle)
    requires Ready(s, scope, env, orc) && budget == s.maxDegree - 1
    requires LowerReturn(s, e, scope, budget).Ok?
    ensures var (s1, v) := LowerReturn(s, e, scope, budget).value;
            var (s2, cells) := ReturnCells(s1, if v.One? then [v.slot] else v.slots, materializeRets);
            var x := ArgValue(e, EnvOf(s, scope, env, orc), map[]);
            && x.Some? && CellsGive(s, s2, cells, Flatten([x.value]), env, orc)
            && (materializeRets ==> Committed(cells, s2))
  {
    hide Inv, ScopeOK, OracleFits, Frame, Committed, VanishFrom, LowerReturn, ReturnCells, EnvOf, ArgValue, Values, CellSet;
    ReturnCorrect(s, e, scope, budget, env, orc);
    var (s1, v) := LowerReturn(s, e, scope, budget).value;
    GrownReady(s, s1, scope, env, orc, true);
    var slots := if v.One? then [v.slot] else v.slots;
    assert SlotsOK(slots, s1);
    ReturnCellsCorrect(s1, slots, materializeRets, env, orc);
    var (s2, cells) := ReturnCells(s1, slots, materializeRets);
    var x := ArgValue(e, EnvOf(s, scope, env, orc), map[]).value;
    FlattenOne(x);
    if v.One? { OneSlot(v.slot, Frame(s1, env, orc)); }
    GrownTransitive(s, s1, s2, env, orc, true, true);
  }

  lemma FlattenOne(v: Val)
    ensures Flatten([v]) == if v.Single? then [v.v] else v.vs
  {
    FlattenCons(v, []);
    assert [v] + [] == [v];
  }
}
