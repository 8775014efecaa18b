// Right-hand sides: derived cells, arrays, spliced parameters and activations.
module LowerStatements {
  import opened M31
  import opened Wrappers
  import opened FeltAst
  import opened FeltSemantics
  import opened Lowering
  import opened LoweredMeaning
  import opened LoweringInvariant
  import opened LoweringExprs
  import opened LowerPreserves

  // -- One derived cell ---------------------------------------------------------------

  /** The state grew, and the slots are cells holding vs. */
  ghost predicate SlotsGive(s: LState, s': LState, slots: seq<Slot>, vs: seq<Felt>, env: Cells, orc: Oracle) {
    Grown(s, s', env, orc, true) && SlotsOK(slots, s') && SlotValues(slots, Frame(s', env, orc)) == vs
  }

  lemma ToCellCorrect(s: LState, e: Expr, base: string, scope: Scope, budget: nat, env: Cells, orc: Oracle)
    requires Ready(s, scope, env, orc) && budget == s.maxDegree - 1
    requires LowerToCell(s, e, base, scope, budget).Ok?
    ensures var (s', slot) := LowerToCell(s, e, base, scope, budget).value;
            var v := ExprValue(e, EnvOf(s, scope, env, orc), map[]);
            v.Some? && SlotsGive(s, s', [slot], [v.value], env, orc)
  {
    hide Lower, Inv, ExprValue, Frame, ScopeOK, ScopeEnv, RegisterDerived;
    LowerCorrect(s, e, scope, budget, env, orc);
    var (s1, l) := Lower(s, e, scope, budget).value;
    var (s2, cell) := RegisterDerived(s1, base, l.e, l.degree);
    RegisterDerivedGrows(s1, base, l.e, l.degree, env, orc);
    GrownTransitive(s, s1, s2, env, orc, true, true);
    OneSlot(Slot(cell, l.degree), Frame(s2, env, orc));
  }

  lemma OneSlot(slot: Slot, env: Cells)
    ensures SlotValues([slot], env) == [At(env, slot.cell)]
  {
  }

  lemma GrownReady(s: LState, s1: LState, scope: Scope, env: Cells, orc: Oracle, ok: bool)
    requires Ready(s, scope, env, orc) && Grown(s, s1, env, orc, ok)
    ensures Ready(s1, scope, env, orc) && EnvOf(s1, scope, env, orc) == EnvOf(s, scope, env, orc)
    ensures s1.maxDegree == s.maxDegree && s1.arities == s.arities
  {
    hide Inv, ScopeOK, ScopeEnv, Frame;
    ReadyKept(s, s1, scope, env, orc);
  }

  lemma SlotsKept(s: LState, s': LState, slots: seq<Slot>, env: Cells, orc: Oracle)
    requires Inv(s, env.Keys) && Inv(s', env.Keys) && Extends(s, s') && OracleFits(orc, s.arities)
    requires SlotsOK(slots, s)
    ensures SlotsOK(slots, s') && SlotValues(slots, Frame(s', env, orc)) == SlotValues(slots, Frame(s, env, orc))
  {
    hide Naming, Filling, Linked, Columns, Budgeted, Frame;
    FrameKept(s, s', env, orc);
    ValueKept(Many(slots), s, s', Frame(s, env, orc), Frame(s', env, orc));
    assert ValueIn(Many(slots), Frame(s', env, orc)) == ValueIn(Many(slots), Frame(s, env, orc));
  }

  lemma SlotsAppend(
      s: LState, s1: LState, s2: LState, a: seq<Slot>, b: seq<Slot>, va: seq<Felt>, vb: seq<Felt>, env: Cells, orc: Oracle)
    requires Inv(s, env.Keys) && OracleFits(orc, s.arities)
    requires SlotsGive(s, s1, a, va, env, orc) && SlotsGive(s1, s2, b, vb, env, orc)
    ensures SlotsGive(s, s2, a + b, va + vb, env, orc)
  {
    hide Inv, Frame, VanishFrom;
    GrownTransitive(s, s1, s2, env, orc, true, true);
    SlotsKept(s1, s2, a, env, orc);
    assert SlotValues(a + b, Frame(s2, env, orc)) == va + vb;
  }

  lemma NoSlots(s: LState, env: Cells, orc: Oracle)
    requires Inv(s, env.Keys)
    ensures SlotsGive(s, s, [], [], env, orc)
  {
    GrownRefl(s, env, orc);
  }

  lemma {:induction false} ElementsCorrect(
      s: LState, es: seq<Expr>, k: nat, base: string, scope: Scope, budget: nat, env: Cells, orc: Oracle)
    requires Ready(s, scope, env, orc) && budget == s.maxDegree - 1
    requires LowerElements(s, es, k, base, scope, budget).Ok?
    ensures var (s', slots) := LowerElements(s, es, k, base, scope, budget).value;
            var vs := ExprValues(es, EnvOf(s, scope, env, orc), map[]);
            vs.Some? && SlotsGive(s, s', slots, vs.value, env, orc)
    decreases |es|
  {
    hide Inv, ScopeOK, ScopeEnv, Frame, LowerToCell, ExprValue, Grown, Digits;
    if es == [] {
      NoSlots(s, env, orc);
    } else {
      ToCellCorrect(s, es[0], Indexed(base, k), scope, budget, env, orc);
      var (s1, slot) := LowerToCell(s, es[0], Indexed(base, k), scope, budget).value;
      GrownReady(s, s1, scope, env, orc, true);
      ElementsCorrect(s1, es[1..], k + 1, base, scope, budget, env, orc);
      var (s2, slots) := LowerElements(s1, es[1..], k + 1, base, scope, budget).value;
      var source := EnvOf(s, scope, env, orc);
      SlotsAppend(s, s1, s2, [slot], slots, [ExprValue(es[0], source, map[]).value],
                  ExprValues(es[1..], source, map[]).value, env, orc);
    }
  }

  lemma {:induction false} MapCorrect(
      s: LState, x: string, lo: nat, hi: nat, body: Expr, base: string, scope: Scope, budget: nat, env: Cells, orc: Oracle)
    requires Ready(s, scope, env, orc) && budget == s.maxDegree - 1
    requires LowerMap(s, x, lo, hi, body, base, scope, budget).Ok?
    ensures var (s', slots) := LowerMap(s, x, lo, hi, body, base, scope, budget).value;
            var vs := MapValues(x, lo, hi, body, EnvOf(s, scope, env, orc), map[]);
            vs.Some? && SlotsGive(s, s', slots, vs.value, env, orc)
    decreases hi - lo
  {
    hide Inv, ScopeOK, ScopeEnv, Frame, LowerToCell, ExprValue, Grown, Digits, Substitute;
    if lo >= hi {
      NoSlots(s, env, orc);
    } else {
      var term := Substitute(body, x, lo);
      ToCellCorrect(s, term, Indexed(base, lo), scope, budget, env, orc);
      var (s1, slot) := LowerToCell(s, term, Indexed(base, lo), scope, budget).value;
      GrownReady(s, s1, scope, env, orc, true);
      MapCorrect(s1, x, lo + 1, hi, body, base, scope, budget, env, orc);
      var (s2, slots) := LowerMap(s1, x, lo + 1, hi, body, base, scope, budget).value;
      var source := EnvOf(s, scope, env, orc);
      SubstituteMeaning(body, x, lo, source, map[]);
      SlotsAppend(s, s1, s2, [slot], slots, [ExprValue(term, source, map[]).value],
                  MapValues(x, lo + 1, hi, body, source, map[]).value, env, orc);
    }
  }

  lemma UpdateCorrect(
      s: LState, a: Expr, k: nat, e: Expr, base: string, scope: Scope, budget: nat, env: Cells, orc: Oracle)
    requires Ready(s, scope, env, orc) && budget == s.maxDegree - 1
    requires SlotsNamed(a, scope).Some? && k < |SlotsNamed(a, scope).value|
    requires LowerToCell(s, e, base, scope, budget).Ok?
    ensures var (s', slot) := LowerToCell(s, e, base, scope, budget).value;
            var source := EnvOf(s, scope, env, orc);
            var xs, v := ArrayNamed(a, source, map[]), ExprValue(e, source, map[]);
            && xs.Some? && v.Some? && k < |xs.value|
            && SlotsGive(s, s', SlotsNamed(a, scope).value[k := slot], xs.value[k := v.value], env, orc)
  {
    hide Inv, ScopeOK, ScopeEnv, Frame, LowerToCell, ExprValue, ArrayNamed, SlotsNamed, VanishFrom;
    ToCellCorrect(s, e, base, scope, budget, env, orc);
    var (s', slot) := LowerToCell(s, e, base, scope, budget).value;
    ArrayInScope(s, a, scope, env, orc);
    var slots := SlotsNamed(a, scope).value;
    SlotsKept(s, s', slots, env, orc);
    assert [slot][0] == slot;
    var v := ExprValue(e, EnvOf(s, scope, env, orc), map[]).value;
    assert SlotValues([slot], Frame(s', env, orc))[0] == v;
    assert SlotValues(slots[k := slot], Frame(s', env, orc)) == SlotValues(slots, Frame(s', env, orc))[k := v];
  }

  // -- Parameters of a spliced function ---------------------------------------------------

  /** The state grew, and the callee's scope stands for local. */
  ghost predicate ScopeGives(s: LState, s': LState, scope: Scope, local: Env, env: Cells, orc: Oracle, ok: bool) {
    Grown(s, s', env, orc, ok) && ScopeOK(scope, s') && EnvOf(s', scope, env, orc) == local
  }

  lemma ScopeBind(
      s: LState, s1: LState, s2: LState, scope: Scope, local: Env, x: string, v: Value, val: Val,
      env: Cells, orc: Oracle, ok: bool, ok2: bool)
    requires Inv(s, env.Keys) && OracleFits(orc, s.arities)
    requires ScopeGives(s, s1, scope, local, env, orc, ok)
    requires Grown(s1, s2, env, orc, ok2) && ValueOK(v, s2) && ValueIn(v, Frame(s2, env, orc)) == val
    ensures ScopeGives(s, s2, scope[x := v], local[x := val], env, orc, ok && ok2)
  {
    hide Inv, Frame, VanishFrom, ValueOK, ValueIn;
    GrownTransitive(s, s1, s2, env, orc, ok, ok2);
    ReadyKept(s1, s2, scope, env, orc);
  }

  lemma {:induction false} ParamsCorrect(
      s: LState, callee: string, params: seq<Param>, args: seq<Expr>, scope: Scope, budget: nat, env: Cells, orc: Oracle)
    requires |params| == |args| && Ready(s, scope, env, orc) && budget == s.maxDegree - 1
    requires LowerParams(s, callee, params, args, scope, budget).Ok?
    ensures var (s', local) := LowerParams(s, callee, params, args, scope, budget).value;
            var source := LocalEnv(params, args, EnvOf(s, scope, env, orc), map[]);
            source.Some? && ScopeGives(s, s', local, source.value, env, orc, true)
    decreases |params|
  {
    hide Inv, ScopeOK, ScopeEnv, Frame, LowerParam, ParamValue, Grown, ValueOK, ValueIn;
    if params == [] {
      NoParams(s, env, orc);
    } else {
      var n := |params| - 1;
      ParamsCorrect(s, callee, params[..n], args[..n], scope, budget, env, orc);
      var (s1, local) := LowerParams(s, callee, params[..n], args[..n], scope, budget).value;
      GrownReady(s, s1, scope, env, orc, true);
      ParamCorrect(s1, callee, params[n], args[n], scope, budget, env, orc);
      var (s2, v) := LowerParam(s1, callee, params[n], args[n], scope, budget).value;
      var source := EnvOf(s, scope, env, orc);
      ScopeBind(s, s1, s2, local, LocalEnv(params[..n], args[..n], source, map[]).value, params[n].name, v,
                ParamValue(params[n], args[n], source, map[]).value, env, orc, true, true);
    }
  }

  lemma NoParams(s: LState, env: Cells, orc: Oracle)
    requires Inv(s, env.Keys)
    ensures ScopeGives(s, s, map[], map[], env, orc, true)
  {
    hide Inv, Frame;
    GrownRefl(s, env, orc);
  }

  lemma ParamCorrect(
      s: LState, callee: string, p: Param, arg: Expr, scope: Scope, budget: nat, env: Cells, orc: Oracle)
    requires Ready(s, scope, env, orc) && budget == s.maxDegree - 1
    requires LowerParam(s, callee, p, arg, scope, budget).Ok?
    ensures var (s', v) := LowerParam(s, callee, p, arg, scope, budget).value;
            var val := ParamValue(p, arg, EnvOf(s, scope, env, orc), map[]);
            && val.Some? && Grown(s, s', env, orc, true)
            && ValueOK(v, s') && ValueIn(v, Frame(s', env, orc)) == val.value
  {
    hide Inv, ScopeOK, ScopeEnv, Frame, LowerToCell, ExprValue, ArrayNamed, SlotsNamed, VanishFrom;
    if p.size.None? {
      ToCellCorrect(s, arg, callee + "_" + p.name, scope, budget, env, orc);
      var (s1, slot) := LowerToCell(s, arg, callee + "_" + p.name, scope, budget).value;
      assert [slot][0] == slot;
      OneSlot(slot, Frame(s1, env, orc));
    } else {
      GrownRefl(s, env, orc);
      ArrayInScope(s, arg, scope, env, orc);
    }
  }
}
