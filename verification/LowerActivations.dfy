// Activations: arguments in cells, returns in fresh witness columns, and one
// call step in the fill.
module LowerActivations {
  import opened M31
  import opened Wrappers
  import opened FeltAst
  import opened FeltSemantics
  import opened Lowering
  import opened LoweredMeaning
  import opened LoweringInvariant
  import opened LoweringExprs
  import opened LowerPreserves
  import opened LowerStatements

  // -- Arguments ------------------------------------------------------------------------

  /** The state grew, and the cells hold vs. */
  ghost predicate CellsGive(s: LState, s': LState, cells: seq<Cell>, vs: seq<Felt>, env: Cells, orc: Oracle) {
    Grown(s, s', env, orc, true) && CellSet(cells) <= s'.cells.Keys && Values(cells, Frame(s', env, orc)) == vs
  }

  lemma SlotsAreCells(s: LState, s': LState, slots: seq<Slot>, vs: seq<Felt>, env: Cells, orc: Oracle)
    requires SlotsGive(s, s', slots, vs, env, orc)
    ensures CellsGive(s, s', SlotCells(slots), vs, env, orc)
  {
    hide Grown, Frame;
    var cells := SlotCells(slots);
    forall c | c in CellSet(cells)
      ensures c in s'.cells
    {
      var i :| 0 <= i < |cells| && cells[i] == c;
      assert SlotOK(slots[i], s');
    }
    assert Values(cells, Frame(s', env, orc)) == vs;
  }

  lemma CellsAppend(
      s: LState, s1: LState, s2: LState, a: seq<Cell>, b: seq<Cell>, va: seq<Felt>, vb: seq<Felt>, env: Cells, orc: Oracle)
    requires Inv(s, env.Keys) && OracleFits(orc, s.arities)
    requires CellsGive(s, s1, a, va, env, orc) && CellsGive(s1, s2, b, vb, env, orc)
    ensures CellsGive(s, s2, a + b, va + vb, env, orc)
  {
    hide Naming, Filling, Linked, Columns, Budgeted, Frame, VanishFrom;
    GrownTransitive(s, s1, s2, env, orc, true, true);
    FrameKept(s1, s2, env, orc);
    hide Inv, OracleFits;
    forall i | 0 <= i < |a|
      ensures At(Frame(s2, env, orc), a[i]) == va[i]
    {
      assert a[i] in CellSet(a);
      assert Values(a, Frame(s1, env, orc))[i] == va[i];
    }
    assert Values(a + b, Frame(s2, env, orc)) == va + vb;
  }

  lemma FlattenCons(v: Val, vs: seq<Val>)
    ensures Flatten([v] + vs) == (if v.Single? then [v.v] else v.vs) + Flatten(vs)
  {
    assert ([v] + vs)[1..] == vs;
  }

  lemma {:induction false} ArgsCorrect(
      s: LState, callee: string, args: seq<Expr>, done: nat, scope: Scope, budget: nat, env: Cells, orc: Oracle)
    requires Ready(s, scope, env, orc) && budget == s.maxDegree - 1
    requires LowerArgs(s, callee, args, done, scope, budget).Ok?
    ensures var (s', cells) := LowerArgs(s, callee, args, done, scope, budget).value;
            var vals := ArgValues(args, EnvOf(s, scope, env, orc), map[]);
            vals.Some? && CellsGive(s, s', cells, Flatten(vals.value), env, orc)
    decreases |args|
  {
    hide Inv, ScopeOK, ScopeEnv, Frame, LowerToCell, ExprValue, Grown, Digits, SlotsNamed, ArrayNamed, CellsGive, Flatten;
    if args == [] {
      NoCells(s, env, orc);
    } else {
      var source := EnvOf(s, scope, env, orc);
      var slots := SlotsNamed(args[0], scope);
      var (s', cells) := LowerArgs(s, callee, args, done, scope, budget).value;
      ArrayInScope(s, args[0], scope, env, orc);
      if slots.Some? {
        ArgsCorrect(s, callee, args[1..], done + |slots.value|, scope, budget, env, orc);
        FlattenCons(ArgValue(args[0], source, map[]).value, ArgValues(args[1..], source, map[]).value);
        ArrayGives(s, slots.value, env, orc);
        SlotsAreCells(s, s, slots.value, SlotValues(slots.value, Frame(s, env, orc)), env, orc);
        CellsAppend(s, s, s', SlotCells(slots.value), cells[|slots.value|..],
                    SlotValues(slots.value, Frame(s, env, orc)), Flatten(ArgValues(args[1..], source, map[]).value), env, orc);
      } else {
        var base := callee + "_a" + Digits(done);
        ToCellCorrect(s, args[0], base, scope, budget, env, orc);
        var (s1, slot) := LowerToCell(s, args[0], base, scope, budget).value;
        GrownOfSlots(s, s1, [slot], [ExprValue(args[0], source, map[]).value], env, orc);
        GrownReady(s, s1, scope, env, orc, true);
        ArgsCorrect(s1, callee, args[1..], done + 1, scope, budget, env, orc);
        FlattenCons(ArgValue(args[0], source, map[]).value, ArgValues(args[1..], source, map[]).value);
        SlotsAreCells(s, s1, [slot], [ExprValue(args[0], source, map[]).value], env, orc);
        OneCell(slot);
        CellsAppend(s, s1, s', [slot.cell], cells[1..],
                    [ExprValue(args[0], source, map[]).value], Flatten(ArgValues(args[1..], source, map[]).value), env, orc);
      }
    }
  }

  lemma NoCells(s: LState, env: Cells, orc: Oracle)
    requires Inv(s, env.Keys)
    ensures CellsGive(s, s, [], Flatten([]), env, orc)
  {
    hide Inv;
    GrownRefl(s, env, orc);
  }

  lemma OneCell(slot: Slot)
    ensures SlotCells([slot]) == [slot.cell]
  {
  }

  lemma GrownOfSlots(s: LState, s': LState, slots: seq<Slot>, vs: seq<Felt>, env: Cells, orc: Oracle)
    requires SlotsGive(s, s', slots, vs, env, orc)
    ensures Grown(s, s', env, orc, true)
  {
  }

  lemma ArrayGives(s: LState, slots: seq<Slot>, env: Cells, orc: Oracle)
    requires Inv(s, env.Keys) && SlotsOK(slots, s)
    ensures SlotsGive(s, s, slots, SlotValues(slots, Frame(s, env, orc)), env, orc)
  {
    hide Inv;
    GrownRefl(s, env, orc);
  }

  // -- Return columns -------------------------------------------------------------------

  /** s' is s with fresh degree-one columns rets. */
  ghost predicate ReturnsAdded(s: LState, s': LState, rets: seq<Cell>) {
    && s' == s.(used := s'.used, cells := s'.cells, extraColumns := s.extraColumns + rets)
    && Naming(s') && Distinct(rets) && CellSet(rets) !! s.cells.Keys
    && s'.cells.Keys == s.cells.Keys + CellSet(rets)
    && (forall c :: c in s.cells ==> s'.cells[c] == s.cells[c])
    && (forall c :: c in rets ==> s'.cells[c] == 1)
  }

  lemma {:induction false} RegisterReturnsAdds(s: LState, bases: seq<string>)
    requires Naming(s)
    ensures var (s', rets) := RegisterReturns(s, bases);
            |rets| == |bases| && ReturnsAdded(s, s', rets)
    decreases |bases|
  {
    hide Naming;
    var (s', rets) := RegisterReturns(s, bases);
    if bases != [] {
      var (s1, cell) := RegisterExtra(s, bases[0]);
      FreshIsNew(s, bases[0]);
      NamingAdds(s.(used := s1.used), s1, cell);
      RegisterReturnsAdds(s1, bases[1..]);
      var (s2, cells) := RegisterReturns(s1, bases[1..]);
      hide RegisterExtra, RegisterReturns;
      AddedCons(s, s1, s2, cell, cells);
    }
  }

  lemma AddedCons(s: LState, s1: LState, s2: LState, cell: Cell, cells: seq<Cell>)
    requires s1 == s.(used := s1.used, cells := s.cells[cell := 1], extraColumns := s.extraColumns + [cell])
    requires cell !in s.cells && ReturnsAdded(s1, s2, cells)
    ensures ReturnsAdded(s, s2, [cell] + cells)
  {
    hide Naming;
    assert CellSet([cell] + cells) == {cell} + CellSet(cells);
    assert cell in s1.cells && cell !in CellSet(cells);
    assert s.extraColumns + [cell] + cells == s.extraColumns + ([cell] + cells);
    assert forall c :: c in [cell] + cells <==> c == cell || c in cells;
  }

  // -- The call step ----------------------------------------------------------------------

  ghost predicate Called(s: LState, s2: LState, s3: LState, callee: string, args: seq<Cell>, rets: seq<Cell>) {
    && ReturnsAdded(s, s2, rets)
    && s3 == s2.(fill := s2.fill + [CallFn(rets, callee, args)], calls := s2.calls + [Call(callee, args, rets)])
    && CellSet(args) <= s.cells.Keys && callee in s.arities
    && |args| == s.arities[callee].0 && |rets| == s.arities[callee].1
  }

  lemma CallGrows(
      s: LState, s2: LState, s3: LState, callee: string, args: seq<Cell>, rets: seq<Cell>, env: Cells, orc: Oracle)
    requires Inv(s, env.Keys) && OracleFits(orc, s.arities) && Called(s, s2, s3, callee, args, rets)
    ensures Grown(s, s3, env, orc, true)
    ensures orc(callee, Values(args, Frame(s, env, orc))) == Some(Values(rets, Frame(s3, env, orc)))
    ensures SlotsOK(ColumnSlots(rets), s3)
    ensures SlotValues(ColumnSlots(rets), Frame(s3, env, orc)) == Values(rets, Frame(s3, env, orc))
  {
    CallInv(s, s2, s3, callee, args, rets, env.Keys);
    hide Naming, Filling, Linked, Columns, Budgeted, OracleFits, Values, Frame, Distinct, Extends;
    CallAnswered(s, s3, callee, args, rets, env, orc);
    assert VanishFrom(s3, |s.constraints|, env, orc);
    hide Grown, VanishFrom;
    ReturnSlots(s3, rets, Frame(s3, env, orc));
  }

  lemma ReturnSlots(s: LState, rets: seq<Cell>, f: Cells)
    requires forall c :: c in rets ==> c in s.cells && s.cells[c] == 1
    ensures SlotsOK(ColumnSlots(rets), s) && SlotValues(ColumnSlots(rets), f) == Values(rets, f)
  {
  }

  lemma CallAnswered(s: LState, s3: LState, callee: string, args: seq<Cell>, rets: seq<Cell>, env: Cells, orc: Oracle)
    requires Filling(s, env.Keys) && Filling(s3, env.Keys) && Extends(s, s3) && OracleFits(orc, s.arities)
    requires s3.fill == s.fill + [CallFn(rets, callee, args)] && CellSet(args) <= s.cells.Keys
    ensures orc(callee, Values(args, Frame(s, env, orc))) == Some(Values(rets, Frame(s3, env, orc)))
  {
    var n := |s.fill|;
    assert s3.fill[n] == CallFn(rets, callee, args);
    FrameKept(s, s3, env, orc);
    ValuesFrame(args, Frame(s, env, orc), Frame(s3, env, orc), s.cells.Keys);
    RunCall(s3.fill, n, env, orc, s.arities);
  }

  lemma ValuesFrame(cells: seq<Cell>, f: Cells, f': Cells, on: set<Cell>)
    requires Agree(f, f', on) && CellSet(cells) <= on
    ensures Values(cells, f') == Values(cells, f)
  {
    forall i | 0 <= i < |cells|
      ensures At(f', cells[i]) == At(f, cells[i])
    {
      assert cells[i] in CellSet(cells);
    }
  }

  lemma CallInv(s: LState, s2: LState, s3: LState, callee: string, args: seq<Cell>, rets: seq<Cell>, known: set<Cell>)
    requires Inv(s, known) && Called(s, s2, s3, callee, args, rets)
    ensures Inv(s3, known) && Extends(s, s3) && s3.constraints == s.constraints
  {
    hide Naming, Filling, Linked, Columns, Budgeted;
    CallNaming(s, s2, s3, callee, args, rets);
    CallFilling(s, s2, s3, callee, args, rets, known);
    CallLinked(s, s2, s3, callee, args, rets);
    CallColumns(s, s2, s3, callee, args, rets, known);
    CallBudget(s, s2, s3, callee, args, rets);
  }

  lemma CallNaming(s: LState, s2: LState, s3: LState, callee: string, args: seq<Cell>, rets: seq<Cell>)
    requires Called(s, s2, s3, callee, args, rets)
    ensures Naming(s3)
  {
  }

  lemma CallFilling(
      s: LState, s2: LState, s3: LState, callee: string, args: seq<Cell>, rets: seq<Cell>, known: set<Cell>)
    requires Filling(s, known) && Called(s, s2, s3, callee, args, rets)
    ensures Filling(s3, known)
  {
    hide Naming;
    assert s3.fill[..|s.fill|] == s.fill;
  }

  lemma CallLinked(s: LState, s2: LState, s3: LState, callee: string, args: seq<Cell>, rets: seq<Cell>)
    requires Linked(s) && Called(s, s2, s3, callee, args, rets)
    ensures Linked(s3)
  {
    hide Naming, Distinct;
    CallStepsPush(s.fill, CallFn(rets, callee, args));
    forall d, f | Assign(d, f) in s3.fill
      ensures AssignLinked(s3, d, f)
    {
      assert Assign(d, f) in s.fill;
      assert AssignLinked(s, d, f);
    }
  }

  lemma CallColumns(
      s: LState, s2: LState, s3: LState, callee: string, args: seq<Cell>, rets: seq<Cell>, known: set<Cell>)
    requires Columns(s, known) && Called(s, s2, s3, callee, args, rets)
    ensures Columns(s3, known)
  {
    hide Naming, Distinct;
    assert CellSet(s3.extraColumns) == CellSet(s.extraColumns) + CellSet(rets);
    DisjointFromDerived(s, known);
    ColumnsKeepOrder(s.derived, known + CellSet(s.extraColumns), known + CellSet(s3.extraColumns));
  }

  lemma CallBudget(s: LState, s2: LState, s3: LState, callee: string, args: seq<Cell>, rets: seq<Cell>)
    requires Budgeted(s) && Called(s, s2, s3, callee, args, rets)
    ensures Budgeted(s3)
  {
    hide Naming, Distinct;
    forall i | 0 <= i < |s.constraints|
      ensures Degree(s.constraints[i], s3.cells) == Degree(s.constraints[i], s.cells)
    {
      DegreeFrame(s.constraints[i], s.cells, s3.cells);
    }
    forall i | 0 <= i < |s.derived|
      ensures Degree(s.derived[i].1, s3.cells) == Degree(s.derived[i].1, s.cells)
    {
      DegreeFrame(s.derived[i].1, s.cells, s3.cells);
    }
    forall c | c in s3.cells
      ensures s3.cells[c] <= s3.maxDegree - 1
    {
      if c !in s.cells { assert c in rets; }
    }
  }

  // -- The whole activation ------------------------------------------------------------------

  function ValuesIn(vals: seq<Value>, env: Cells): (r: seq<Val>)
    ensures |r| == |vals|
    ensures forall i :: 0 <= i < |vals| ==> r[i] == ValueIn(vals[i], env)
  {
    if vals == [] then [] else [ValueIn(vals[0], env)] + ValuesIn(vals[1..], env)
  }

  ghost predicate ValuesOK(vals: seq<Value>, s: LState) {
    forall i :: 0 <= i < |vals| ==> ValueOK(vals[i], s)
  }

  /** The state grew by constraints that hold exactly if ok, and vals stand for source. */
  ghost predicate ValuesGive(
      s: LState, s': LState, vals: seq<Value>, source: seq<Val>, env: Cells, orc: Oracle, ok: bool)
  {
    Grown(s, s', env, orc, ok) && ValuesOK(vals, s') && ValuesIn(vals, Frame(s', env, orc)) == source
  }

  lemma ArrayValue(s: LState, s': LState, slots: seq<Slot>, vs: seq<Felt>, env: Cells, orc: Oracle)
    requires SlotsGive(s, s', slots, vs, env, orc)
    ensures ValuesGive(s, s', [Many(slots)], [Array(vs)], env, orc, true)
  {
    hide Grown, Frame;
    assert ValuesIn([Many(slots)], Frame(s', env, orc)) == [Array(vs)];
  }

  lemma ScalarValues(s: LState, s': LState, slots: seq<Slot>, vs: seq<Felt>, env: Cells, orc: Oracle)
    requires SlotsGive(s, s', slots, vs, env, orc)
    ensures ValuesGive(s, s', Scalars(slots), Singles(vs), env, orc, true)
  {
    hide Grown, Frame;
    var f := Frame(s', env, orc);
    forall i | 0 <= i < |slots|
      ensures ValueOK(Scalars(slots)[i], s') && ValueIn(Scalars(slots)[i], f) == Single(vs[i])
    {
      assert SlotOK(slots[i], s');
      assert SlotValues(slots, f)[i] == vs[i];
    }
    assert ValuesIn(Scalars(slots), f) == Singles(vs);
  }

  /** An activation binds what the callee means on the flattened arguments. */
  lemma ActivationCorrect(
      s: LState, names: seq<string>, callee: string, args: seq<Expr>, scope: Scope, budget: nat, env: Cells, orc: Oracle)
    requires |names| > 0 && Ready(s, scope, env, orc) && budget == s.maxDegree - 1
    requires LowerActivation(s, names, callee, args, scope, budget).Ok?
    ensures var (s', vals) := LowerActivation(s, names, callee, args, scope, budget).value;
            var v := RhsValue(|names|, Activate(callee, args), EnvOf(s, scope, env, orc), map[], orc);
            v.Some? && ValuesGive(s, s', vals, v.value.0, env, orc, v.value.1)
  {
    hide Inv, ScopeOK, ScopeEnv, Frame, OracleFits, LowerArgs, ArgValues, Flatten, Digits, RegisterReturns, ValuesGive;
    hide Grown, Naming, Called, RhsValue, CallBinders;
    var (s1, argCells) := LowerArgs(s, callee, args, 0, scope, budget).value;
    ArgsCorrect(s, callee, args, 0, scope, budget, env, orc);
    GrownReady(s, s1, scope, env, orc, true);
    var (s3, vals) := LowerActivation(s, names, callee, args, scope, budget).value;
    var bases := ReturnBases(names, s.arities[callee].1);
    var (s2, retCells) := RegisterReturns(s1, bases);
    RegisterCalled(s1, names, callee, argCells, env.Keys);
    ActivateMeaning(|names|, callee, args, EnvOf(s, scope, env, orc), orc);
    ActivationGives(s, s1, s2, s3, |names|, callee, argCells, retCells, env, orc);
  }

  function ReturnBases(names: seq<string>, nRets: nat): seq<string>
    requires |names| > 0
  {
    if |names| == 1 && nRets > 1 then IndexedNames(names[0], nRets) else names
  }

  lemma RegisterCalled(s: LState, names: seq<string>, callee: string, args: seq<Cell>, known: set<Cell>)
    requires |names| > 0 && Inv(s, known) && CellSet(args) <= s.cells.Keys && callee in s.arities
    requires |args| == s.arities[callee].0 && |ReturnBases(names, s.arities[callee].1)| == s.arities[callee].1
    ensures var (s2, rets) := RegisterReturns(s, ReturnBases(names, s.arities[callee].1));
            |rets| == s.arities[callee].1 &&
            Called(s, s2, s2.(fill := s2.fill + [CallFn(rets, callee, args)],
                              calls := s2.calls + [Call(callee, args, rets)]), callee, args, rets)
  {
    InvNaming(s, known);
    hide Inv, Naming, RegisterReturns, Digits;
    RegisterReturnsAdds(s, ReturnBases(names, s.arities[callee].1));
  }

  lemma ActivateMeaning(n: nat, callee: string, args: seq<Expr>, env: Env, orc: Oracle)
    ensures RhsValue(n, Activate(callee, args), env, map[], orc) ==
      var xs :- ArgValues(args, env, map[]);
      var rets :- orc(callee, Flatten(xs));
      var vals :- CallBinders(n, rets);
      Some((vals, true))
  {
    hide ArgValues, Flatten, CallBinders;
  }

  /** The call step after its arguments, for any number of binders it accepts. */
  lemma ActivationGives(
      s: LState, s1: LState, s2: LState, s3: LState, n: nat, callee: string, args: seq<Cell>, rets: seq<Cell>,
      env: Cells, orc: Oracle)
    requires Inv(s, env.Keys) && OracleFits(orc, s.arities) && Grown(s, s1, env, orc, true)
    requires Called(s1, s2, s3, callee, args, rets) && ((n == 1 && |rets| > 1) || n == |rets|)
    ensures var asArray := n == 1 && |rets| > 1;
            var vs := orc(callee, Values(args, Frame(s1, env, orc)));
            && vs.Some? && CallBinders(n, vs.value).Some?
            && ValuesGive(s, s3, if asArray then [Many(ColumnSlots(rets))] else Scalars(ColumnSlots(rets)),
                          CallBinders(n, vs.value).value, env, orc, true)
  {
    hide Inv, Frame, OracleFits, ValuesGive, VanishFrom, SlotsOK, Called, Values, SlotValues;
    CallGrows(s1, s2, s3, callee, args, rets, env, orc);
    GrownTransitive(s, s1, s3, env, orc, true, true);
    var vs := Values(rets, Frame(s3, env, orc));
    ArrayValue(s, s3, ColumnSlots(rets), vs, env, orc);
    ScalarValues(s, s3, ColumnSlots(rets), vs, env, orc);
  }

  lemma InvNaming(s: LState, args: set<Cell>)
    requires Inv(s, args)
    ensures Naming(s)
  {
  }
}
