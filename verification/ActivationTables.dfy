// The witness tables: call_<fn> runs the fill, activates callees on the way and
// pushes one row per activation.  The activation bag of what it pushes is exactly
// the one tuple asked for, and every row satisfies its constraints exactly when
// the assertions on its arguments hold.
module ActivationTables {
  import opened M31
  import opened Wrappers
  import opened FeltAst
  import opened FeltSemantics
  import opened Lowering
  import opened LoweredMeaning
  import opened LoweringInvariant
  import opened LowerFunctions
  import opened LowerActivations
  import opened CompilerTheorems
  import opened Activations

  // -- What the generated functions push -------------------------------------------------

  function ColumnsOf(fn: LoweredFn): seq<Cell> {
    fn.args + fn.extraColumns
  }

  /** The trace row: the committed columns only. */
  function Columns(fn: LoweredFn, cells: Cells): Cells {
    map c | c in ColumnsOf(fn) :: At(cells, c)
  }

  /** Rows pushed by an activation, and its returns. */
  function CallRows(prog: seq<LoweredFn>, name: string, xs: seq<Felt>): (seq<Row>, seq<Felt>)
    decreases |prog|, 0
  {
    if prog == [] then ([], [])
    else
      var n := |prog| - 1;
      var fn := prog[n];
      if fn.name != name then CallRows(prog[..n], name, xs)
      else if |xs| != |fn.args| then ([], [])
      else
        var (rows, cells) := FillRows(prog[..n], fn.fill, Start(fn.args, xs));
        (rows + [Row(n, 1, Columns(fn, cells))], Values(fn.rets, cells))
  }

  /** Rows pushed by the calls of a fill, and the cells it computes. */
  function FillRows(prog: seq<LoweredFn>, fill: seq<FillStep>, env: Cells): (seq<Row>, Cells)
    decreases |prog|, 1 + |fill|
  {
    if fill == [] then ([], env)
    else
      var (rows, before) := FillRows(prog, fill[..|fill| - 1], env);
      match fill[|fill| - 1]
      case Assign(c, e) => (rows, before[c := Eval(e, before)])
      case CallFn(rets, callee, args) =>
        var (more, vs) := CallRows(prog, callee, Values(args, before));
        (rows + more, if |vs| == |rets| then Store(before, rets, vs) else before)
  }

  // -- The rows are the meaning ------------------------------------------------------------

  /** A call of known arity returns what the source means. */
  lemma {:induction false} CallRowsMean(fns: seq<AirFn>, prog: seq<LoweredFn>, maxDegree: nat, name: string, xs: seq<Felt>)
    requires Compiled(fns, prog, maxDegree) && |prog| == |fns|
    requires name in ArityMap(prog) && |xs| == ArityMap(prog)[name].0
    ensures OracleOf(fns)(name, xs) == Some(CallRows(prog, name, xs).1)
    decreases |prog|, 0
  {
    hide LowerFn, FnValue, Compiled, Hygienic, Values, Start, FillRows;
    var n := |prog| - 1;
    CompiledLast(fns, prog, maxDegree);
    if prog[n].name != name {
      CallRowsMean(fns[..n], prog[..n], maxDegree, name, xs);
    } else {
      CompiledAll(fns, prog, maxDegree, n);
      hide OracleFits, ConstraintsHold, DerivedHold, CallsAnswered, Run, ArityMap;
      LoweringComplete(fns[n], maxDegree, ArityMap(prog[..n]), false, xs, OracleOf(fns[..n]));
      FnFillRows(fns, prog, maxDegree, n, xs);
    }
  }

  /** The fill of function n, run with nested calls, is the fill run on meanings. */
  lemma {:induction false} FnFillRows(fns: seq<AirFn>, prog: seq<LoweredFn>, maxDegree: nat, n: nat, xs: seq<Felt>)
    requires Compiled(fns, prog, maxDegree) && |prog| == |fns| && n < |prog| && |xs| == |prog[n].args|
    ensures FillRows(prog[..n], prog[n].fill, Start(prog[n].args, xs)).1 == WitnessOf(prog[n], xs, OracleOf(fns[..n]))
    decreases n, 2
  {
    CompiledAll(fns, prog, maxDegree, n);
    CompiledPrefix(fns, prog, maxDegree, n);
    FnFillOK(fns[n], maxDegree, ArityMap(prog[..n]), xs);
    hide Compiled, LowerFn, Hygienic, OracleFits, FillOK, Start, Run;
    var fill := prog[n].fill;
    FillRowsRun(fns[..n], prog[..n], maxDegree, fill, |fill|, Start(prog[n].args, xs));
    assert fill[..|fill|] == fill;
  }

  lemma FnFillOK(f: AirFn, maxDegree: nat, arities: Arities, xs: seq<Felt>)
    requires maxDegree >= 2 && Hygienic(f.body, {}) && LowerFn(f, maxDegree, arities, false).Ok?
    requires |xs| == |LowerFn(f, maxDegree, arities, false).value.args|
    ensures var fn := LowerFn(f, maxDegree, arities, false).value;
            && FillOK(fn.fill, Start(fn.args, xs).Keys, arities) && Distinct(fn.args)
            && Start(fn.args, xs).Keys == CellSet(fn.args)
  {
    hide LowerBody, Hygienic;
    var (s, args, rets) := LowerBody(f, maxDegree, arities, false).value;
    BodyCorrect(f, maxDegree, arities, false, xs, ZeroOracle(arities));
    BodyInv(f, s, args, rets, xs, ZeroOracle(arities));
    BodyDistinct(f, s, args, rets, xs, ZeroOracle(arities));
  }

  lemma BodyDistinct(f: AirFn, s: LState, args: seq<Cell>, rets: seq<Cell>, xs: seq<Felt>, orc: Oracle)
    requires |xs| == |args| && BodyMeans(f, s, args, rets, xs, false, orc)
    ensures Distinct(args) && Start(args, xs).Keys == CellSet(args)
  {
    hide FnValue, Inv;
  }

  lemma {:induction false} FillRowsRun(
      fns: seq<AirFn>, prog: seq<LoweredFn>, maxDegree: nat, fill: seq<FillStep>, k: nat, env: Cells)
    requires Compiled(fns, prog, maxDegree) && |prog| == |fns| && k <= |fill|
    requires FillOK(fill, env.Keys, ArityMap(prog)) && OracleFits(OracleOf(fns), ArityMap(prog))
    ensures FillRows(prog, fill[..k], env).1 == Run(fill[..k], env, OracleOf(fns))
    decreases |prog|, 1, k
  {
    hide Compiled, OracleFits, Eval, Values, CallRows, Meaning, OracleOf;
    if k > 0 {
      FillRowsRun(fns, prog, maxDegree, fill, k - 1, env);
      var prefix, step := fill[..k], fill[k - 1];
      assert prefix[..k - 1] == fill[..k - 1] && prefix[k - 1] == step;
      PrefixOK(fill, k, env.Keys, ArityMap(prog));
      if step.CallFn? {
        var xs := Values(step.args, Run(fill[..k - 1], env, OracleOf(fns)));
        assert StepOK(step, Known(fill[..k - 1], env.Keys), ArityMap(prog));
        CallRowsMean(fns, prog, maxDegree, step.callee, xs);
      }
    } else {
      assert fill[..0] == [];
    }
  }

  // -- Committed columns suffice -----------------------------------------------------------

  /** Facts about a compiled function and its fill on given arguments. */
  ghost predicate FnState(fn: LoweredFn, s: LState, xs: seq<Felt>, orc: Oracle) {
    && |xs| == |fn.args| && fn.extraColumns == s.extraColumns && fn.derived == s.derived
    && fn.constraints == s.constraints && fn.calls == s.calls && fn.fill == s.fill
    && Start(fn.args, xs).Keys == CellSet(fn.args) && Inv(s, CellSet(fn.args)) && CellSet(fn.rets) <= s.cells.Keys
    && OracleFits(orc, s.arities)
  }

  lemma FnStateOf(f: AirFn, maxDegree: nat, arities: Arities, xs: seq<Felt>, orc: Oracle) returns (s: LState)
    requires maxDegree >= 2 && Hygienic(f.body, {}) && LowerFn(f, maxDegree, arities, false).Ok?
    requires OracleFits(orc, arities) && |xs| == |LowerFn(f, maxDegree, arities, false).value.args|
    ensures FnState(LowerFn(f, maxDegree, arities, false).value, s, xs, orc) && s.arities == arities
  {
    hide LowerBody, Hygienic, OracleFits, Inv;
    var (final, args, rets) := LowerBody(f, maxDegree, arities, false).value;
    s := final;
    BodyCorrect(f, maxDegree, arities, false, xs, orc);
    hide FnValue;
  }

  /** Recomputing the derived cells from the committed columns gives the fill's cells back. */
  lemma ColumnsSuffice(fn: LoweredFn, s: LState, xs: seq<Felt>, orc: Oracle)
    requires FnState(fn, s, xs, orc)
    ensures var cells := WitnessOf(fn, xs, orc);
            Agree(Derive(fn.derived, Columns(fn, cells)), cells, s.cells.Keys)
  {
    var cells, env := WitnessOf(fn, xs, orc), Start(fn.args, xs);
    InvParts(s, CellSet(fn.args));
    hide Inv, Start, Eval, Budgeted, OracleFits;
    DerivedSolved(s, env, orc);
    var columns := CellSet(fn.args) + CellSet(fn.extraColumns);
    assert fn.derived[..|fn.derived|] == fn.derived;
    DeriveAgrees(fn.derived, |fn.derived|, columns, Columns(fn, cells), cells);
  }

  lemma {:induction false} DeriveAgrees(
      derived: seq<(Cell, LExpr)>, k: nat, columns: set<Cell>, row: Cells, cells: Cells)
    requires k <= |derived| && DerivedOrder(derived[..k], columns) && DerivedHold(derived, cells)
    requires Agree(row, cells, columns)
    ensures Agree(Derive(derived[..k], row), cells, columns + DerivedCells(derived[..k]))
  {
    hide Eval;
    if k > 0 {
      var prefix := derived[..k];
      assert prefix[..k - 1] == derived[..k - 1] && prefix[k - 1] == derived[k - 1];
      DeriveAgrees(derived, k - 1, columns, row, cells);
      var (c, e) := derived[k - 1];
      EvalFrame(e, Derive(derived[..k - 1], row), cells);
      DerivedCellsPush(derived[..k - 1], c, e);
      assert derived[..k - 1] + [(c, e)] == prefix;
      AgreeOneMore(Derive(derived[..k - 1], row), cells, columns + DerivedCells(derived[..k - 1]), c, Eval(e, cells));
    } else {
      assert derived[..0] == [];
    }
  }

  lemma AgreeOneMore(env: Cells, env': Cells, on: set<Cell>, c: Cell, v: Felt)
    requires Agree(env, env', on) && At(env', c) == v
    ensures Agree(env[c := v], env', on + {c})
  {
  }

  // -- The bag of a call -------------------------------------------------------------------

  lemma {:induction false} BagFrame(prog: seq<LoweredFn>, n: nat, rows: seq<Row>, t: Activation)
    requires n <= |prog| && InSystem(prog[..n], rows)
    ensures InSystem(prog, rows)
    ensures Emitted(prog, rows, t) == Emitted(prog[..n], rows, t)
    ensures Consumed(prog, rows, t) == Consumed(prog[..n], rows, t)
  {
    hide RowCells, CallCount, Own;
    if rows != [] {
      var last := rows[|rows| - 1];
      BagFrame(prog, n, rows[..|rows| - 1], t);
      assert prog[..n][last.fn] == prog[last.fn];
      RowCellsFrame(prog, n, last);
    }
  }

  lemma RowCellsFrame(prog: seq<LoweredFn>, n: nat, row: Row)
    requires n <= |prog| && row.fn < n
    ensures RowCells(prog[..n], row) == RowCells(prog, row)
  {
    hide Derive;
    assert prog[..n][row.fn] == prog[row.fn];
  }

  lemma {:induction false} BagAppend(prog: seq<LoweredFn>, a: seq<Row>, b: seq<Row>, t: Activation)
    requires InSystem(prog, a) && InSystem(prog, b)
    ensures InSystem(prog, a + b)
    ensures Emitted(prog, a + b, t) == Emitted(prog, a, t) + Emitted(prog, b, t)
    ensures Consumed(prog, a + b, t) == Consumed(prog, a, t) + Consumed(prog, b, t)
    decreases |b|
  {
    hide RowCells, CallCount, Own;
    if b == [] {
      assert a + b == a;
    } else {
      var n := |b| - 1;
      BagAppend(prog, a, b[..n], t);
      assert (a + b)[..|a| + n] == a + b[..n];
    }
  }

  function Once(a: Activation, t: Activation): nat {
    if a == t then 1 else 0
  }

  /** The rows consume exactly one tuple more than they emit: the one asked for. */
  ghost predicate BagOf(prog: seq<LoweredFn>, rows: seq<Row>, extra: nat, t: Activation) {
    InSystem(prog, rows) && Emitted(prog, rows, t) + extra == Consumed(prog, rows, t)
  }

  /** A call's rows balance its one activation. */
  lemma {:induction false} CallBalances(
      fns: seq<AirFn>, prog: seq<LoweredFn>, maxDegree: nat, name: string, xs: seq<Felt>, t: Activation)
    requires Compiled(fns, prog, maxDegree) && |prog| == |fns|
    requires name in ArityMap(prog) && |xs| == ArityMap(prog)[name].0
    ensures var (rows, ys) := CallRows(prog, name, xs);
            BagOf(prog, rows, Once(Activation(name, xs + ys), t), t)
    decreases |prog|, 0
  {
    hide LowerFn, FnValue, Compiled, Hygienic, Start, FillRows, Once, CallCount, Own, RowCells, Columns, Emitted, Consumed;
    var n := |prog| - 1;
    CompiledLast(fns, prog, maxDegree);
    if prog[n].name != name {
      CallBalances(fns[..n], prog[..n], maxDegree, name, xs, t);
      BagFrame(prog, n, CallRows(prog, name, xs).0, t);
    } else {
      FillBalances(fns, prog, maxDegree, n, xs, t);
      FnFillRows(fns, prog, maxDegree, n, xs);
      var (rows, cells) := FillRows(prog[..n], prog[n].fill, Start(prog[n].args, xs));
      BagFrame(prog, n, rows, t);
      OwnRow(fns, prog, maxDegree, n, xs, t);
      RowAdded(prog, rows, Row(n, 1, Columns(prog[n], cells)), t);
    }
  }

  lemma RowAdded(prog: seq<LoweredFn>, rows: seq<Row>, row: Row, t: Activation)
    requires InSystem(prog, rows) && row.fn < |prog| && row.enabler == 1
    ensures InSystem(prog, rows + [row])
    ensures Emitted(prog, rows + [row], t)
         == Emitted(prog, rows, t) + CallCount(prog[row.fn].calls, RowCells(prog, row), t)
    ensures Consumed(prog, rows + [row], t)
         == Consumed(prog, rows, t) + Once(Own(prog[row.fn], RowCells(prog, row)), t)
  {
    hide RowCells, CallCount, Own;
    assert (rows + [row])[..|rows|] == rows;
  }

  /** The nested calls of function n balance its call entries. */
  lemma {:induction false} FillBalances(
      fns: seq<AirFn>, prog: seq<LoweredFn>, maxDegree: nat, n: nat, xs: seq<Felt>, t: Activation)
    requires Compiled(fns, prog, maxDegree) && |prog| == |fns| && n < |prog| && |xs| == |prog[n].args|
    ensures var cells := WitnessOf(prog[n], xs, OracleOf(fns[..n]));
            BagOf(prog[..n], FillRows(prog[..n], prog[n].fill, Start(prog[n].args, xs)).0,
                  CallCount(CallSteps(prog[n].fill), cells, t), t)
    decreases n, 2
  {
    CompiledAll(fns, prog, maxDegree, n);
    CompiledPrefix(fns, prog, maxDegree, n);
    FnFillOK(fns[n], maxDegree, ArityMap(prog[..n]), xs);
    hide Compiled, LowerFn, Hygienic, OracleFits, FillOK, Start, Run, BagOf, CallSteps, CallCount;
    var fill := prog[n].fill;
    FillBagStep(fns[..n], prog[..n], maxDegree, fill, |fill|, Start(prog[n].args, xs), t);
    assert fill[..|fill|] == fill;
  }

  lemma {:induction false} FillBagStep(
      fns: seq<AirFn>, prog: seq<LoweredFn>, maxDegree: nat, fill: seq<FillStep>, k: nat, env: Cells, t: Activation)
    requires Compiled(fns, prog, maxDegree) && |prog| == |fns| && k <= |fill|
    requires FillOK(fill, env.Keys, ArityMap(prog)) && OracleFits(OracleOf(fns), ArityMap(prog))
    ensures var cells := Run(fill, env, OracleOf(fns));
            BagOf(prog, FillRows(prog, fill[..k], env).0, CallCount(CallSteps(fill[..k]), cells, t), t)
    decreases |prog|, 1, k
  {
    hide Compiled, OracleFits, Eval, CallRows, OracleOf, Emitted, Consumed, Run, FillOK, CallCount;
    if k == 0 {
      assert fill[..0] == [];
      NoRows(prog, Run(fill, env, OracleOf(fns)), t);
    } else {
      FillBagStep(fns, prog, maxDegree, fill, k - 1, env, t);
      var prefix, step := fill[..k], fill[k - 1];
      assert prefix == fill[..k - 1] + [step] && prefix[..k - 1] == fill[..k - 1];
      CallStepsPush(fill[..k - 1], step);
      if step.CallFn? {
        CallStepTuple(fns, prog, maxDegree, fill, k - 1, env);
        var before := FillRows(prog, fill[..k - 1], env);
        var vs := Values(step.args, before.1);
        CallBalances(fns, prog, maxDegree, step.callee, vs, t);
        BagAppend(prog, before.0, CallRows(prog, step.callee, vs).0, t);
        CountPushed(CallSteps(fill[..k - 1]), Call(step.callee, step.args, step.rets), Run(fill, env, OracleOf(fns)), t);
      } else {
        assert CallSteps(prefix) == CallSteps(fill[..k - 1]);
      }
    }
  }

  lemma NoRows(prog: seq<LoweredFn>, cells: Cells, t: Activation)
    ensures BagOf(prog, [], CallCount([], cells, t), t)
  {
  }

  lemma CountPushed(calls: seq<Call>, k: Call, cells: Cells, t: Activation)
    ensures CallCount(calls + [k], cells, t) == CallCount(calls, cells, t) + Once(Emission(k, cells), t)
  {
    assert (calls + [k])[..|calls|] == calls;
  }

  /** The tuple a call step asks for, as seen in the finished frame. */
  lemma CallStepTuple(
      fns: seq<AirFn>, prog: seq<LoweredFn>, maxDegree: nat, fill: seq<FillStep>, k: nat, env: Cells)
    requires Compiled(fns, prog, maxDegree) && |prog| == |fns| && k < |fill| && fill[k].CallFn?
    requires FillOK(fill, env.Keys, ArityMap(prog)) && OracleFits(OracleOf(fns), ArityMap(prog))
    ensures var step, cells := fill[k], Run(fill, env, OracleOf(fns));
            var xs := Values(step.args, FillRows(prog, fill[..k], env).1);
            && step.callee in ArityMap(prog) && |xs| == ArityMap(prog)[step.callee].0
            && Emission(Call(step.callee, step.args, step.rets), cells)
               == Activation(step.callee, xs + CallRows(prog, step.callee, xs).1)
  {
    hide Compiled, OracleFits, Eval, CallRows, Meaning, OracleOf;
    var step, cells := fill[k], Run(fill, env, OracleOf(fns));
    FillRowsRun(fns, prog, maxDegree, fill, k, env);
    PrefixOK(fill, k + 1, env.Keys, ArityMap(prog));
    assert fill[..k + 1][..k] == fill[..k] && fill[..k + 1][k] == step;
    assert StepOK(step, Known(fill[..k], env.Keys), ArityMap(prog));
    RunPrefix(fill, k, env, OracleOf(fns), ArityMap(prog));
    hide FillRows, Run, FillOK;
    ValuesFrame(step.args, Run(fill[..k], env, OracleOf(fns)), cells, Known(fill[..k], env.Keys));
    RunCall(fill, k, env, OracleOf(fns), ArityMap(prog));
    CallRowsMean(fns, prog, maxDegree, step.callee, Values(step.args, cells));
  }

  /** The pushed row consumes its own tuple and emits its calls, as the fill has them. */
  lemma OwnRow(fns: seq<AirFn>, prog: seq<LoweredFn>, maxDegree: nat, n: nat, xs: seq<Felt>, t: Activation)
    requires Compiled(fns, prog, maxDegree) && |prog| == |fns| && n < |prog| && |xs| == |prog[n].args|
    ensures var fn, cells := prog[n], WitnessOf(prog[n], xs, OracleOf(fns[..n]));
            var row := Row(n, 1, Columns(fn, cells));
            && Own(fn, RowCells(prog, row)) == Activation(fn.name, xs + Values(fn.rets, cells))
            && CallCount(fn.calls, RowCells(prog, row), t) == CallCount(CallSteps(fn.fill), cells, t)
  {
    CompiledAll(fns, prog, maxDegree, n);
    var fn, orc := prog[n], OracleOf(fns[..n]);
    hide Compiled, LowerFn, Hygienic, FnValue, ConstraintsHold, DerivedHold, CallsAnswered;
    LoweringComplete(fns[n], maxDegree, ArityMap(prog[..n]), false, xs, orc);
    var s := FnStateOf(fns[n], maxDegree, ArityMap(prog[..n]), xs, orc);
    hide OracleFits, Derive, Columns;
    ColumnsSuffice(fn, s, xs, orc);
    var cells := WitnessOf(fn, xs, orc);
    hide WitnessOf, OracleOf;
    var read := RowCells(prog, Row(n, 1, Columns(fn, cells)));
    InvParts(s, CellSet(fn.args));
    hide Inv, Start;
    ArgumentCells(fn, s);
    ValuesFrame(fn.args, cells, read, s.cells.Keys);
    ValuesFrame(fn.rets, cells, read, s.cells.Keys);
    CallsRead(s, fn.args, fn.calls, cells, read, t);
  }

  lemma ArgumentCells(fn: LoweredFn, s: LState)
    requires LoweringInvariant.Columns(s, CellSet(fn.args))
    ensures CellSet(fn.args) <= s.cells.Keys
  {
  }

  lemma {:induction false} CallsRead(s: LState, args: seq<Cell>, calls: seq<Call>, cells: Cells, read: Cells, t: Activation)
    requires Filling(s, CellSet(args)) && Linked(s) && Agree(read, cells, s.cells.Keys)
    requires forall k :: k in calls ==> k in s.calls
    ensures CallCount(calls, read, t) == CallCount(calls, cells, t)
  {
    hide Filling, Linked, Values;
    if calls != [] {
      var n := |calls| - 1;
      CallsRead(s, args, calls[..n], cells, read, t);
      CallCellsKnown(s, args, calls[n]);
      ValuesFrame(calls[n].args, cells, read, s.cells.Keys);
      ValuesFrame(calls[n].rets, cells, read, s.cells.Keys);
    }
  }

  lemma CallCellsKnown(s: LState, args: seq<Cell>, k: Call)
    requires Filling(s, CellSet(args)) && Linked(s) && k in s.calls
    ensures CellSet(k.args) <= s.cells.Keys && CellSet(k.rets) <= s.cells.Keys
  {
    hide FillOK, Known, CellSet;
    var step := CallFn(k.rets, k.callee, k.args);
    assert step in s.fill;
    var i :| 0 <= i < |s.fill| && s.fill[i] == step;
    hide Linked;
    StepCellsKnown(s.fill, i, CellSet(args), s.arities);
  }

  /** What a call step of a fill reads and returns is known at the end. */
  lemma StepCellsKnown(fill: seq<FillStep>, i: nat, known: set<Cell>, arities: Arities)
    requires FillOK(fill, known, arities) && i < |fill| && fill[i].CallFn?
    ensures CellSet(fill[i].args) <= Known(fill, known) && CellSet(fill[i].rets) <= Known(fill, known)
  {
    PrefixOK(fill, i + 1, known, arities);
    KnownGrows(fill, i + 1, known);
    var prefix := fill[..i + 1];
    assert prefix[i] == fill[i] && prefix[..i] == fill[..i];
    LastStepKnown(prefix, known, arities);
  }

  lemma LastStepKnown(fill: seq<FillStep>, known: set<Cell>, arities: Arities)
    requires FillOK(fill, known, arities) && fill != [] && fill[|fill| - 1].CallFn?
    ensures var step := fill[|fill| - 1]; CellSet(step.args) <= Known(fill, known) && CellSet(step.rets) <= Known(fill, known)
  {
  }

  // -- The rows satisfy their constraints exactly when the assertions hold -------------------

  /** An enabled row that records its function's answer, and is satisfied iff the assertions hold there. */
  ghost predicate Honest(fns: seq<AirFn>, prog: seq<LoweredFn>, row: Row) {
    && row.fn < |prog| && row.enabler == 1
    && var fn, cells := prog[row.fn], RowCells(prog, row);
       var v := Meaning(fns, fn.name, Values(fn.args, cells));
       && v.Some? && v.value.0 == Values(fn.rets, cells)
       && (RowSatisfied(prog, row) <==> v.value.1)
  }

  ghost predicate AllHonest(fns: seq<AirFn>, prog: seq<LoweredFn>, rows: seq<Row>) {
    forall i :: 0 <= i < |rows| ==> Honest(fns, prog, rows[i])
  }

  lemma HonestFrame(fns: seq<AirFn>, prog: seq<LoweredFn>, maxDegree: nat, n: nat, rows: seq<Row>)
    requires Compiled(fns, prog, maxDegree) && |prog| == |fns| && n <= |prog| && AllHonest(fns[..n], prog[..n], rows)
    ensures AllHonest(fns, prog, rows)
  {
    forall i | 0 <= i < |rows|
      ensures Honest(fns, prog, rows[i])
    {
      assert Honest(fns[..n], prog[..n], rows[i]);
      HonestRowFrame(fns, prog, maxDegree, n, rows[i]);
    }
  }

  lemma HonestRowFrame(fns: seq<AirFn>, prog: seq<LoweredFn>, maxDegree: nat, n: nat, row: Row)
    requires Compiled(fns, prog, maxDegree) && |prog| == |fns| && n <= |prog| && Honest(fns[..n], prog[..n], row)
    ensures Honest(fns, prog, row)
  {
    var j := row.fn;
    CompiledAll(fns, prog, maxDegree, j);
    hide Compiled, LowerFn, Hygienic, OracleFits, FnValue, Meaning, RowCells, Eval;
    assert prog[..n][j] == prog[j];
    RowCellsFrame(prog, n, row);
    var xs := Values(prog[j].args, RowCells(prog, row));
    MeaningOfEarlier(fns, n, j, xs);
    MeaningOfEarlier(fns, |fns|, j, xs);
    assert fns[..|fns|] == fns;
  }

  /** Everything a call pushes is honest. */
  lemma {:induction false} CallRowsHonest(fns: seq<AirFn>, prog: seq<LoweredFn>, maxDegree: nat, name: string, xs: seq<Felt>)
    requires Compiled(fns, prog, maxDegree) && |prog| == |fns|
    requires name in ArityMap(prog) && |xs| == ArityMap(prog)[name].0
    ensures AllHonest(fns, prog, CallRows(prog, name, xs).0)
    decreases |prog|, 0
  {
    hide LowerFn, FnValue, Compiled, Hygienic, Start, FillRows, Honest, Columns;
    var n := |prog| - 1;
    CompiledLast(fns, prog, maxDegree);
    if prog[n].name != name {
      CallRowsHonest(fns[..n], prog[..n], maxDegree, name, xs);
      HonestFrame(fns, prog, maxDegree, n, CallRows(prog, name, xs).0);
    } else {
      FillRowsHonest(fns, prog, maxDegree, n, xs);
      FnFillRows(fns, prog, maxDegree, n, xs);
      HonestFrame(fns, prog, maxDegree, n, FillRows(prog[..n], prog[n].fill, Start(prog[n].args, xs)).0);
      OwnRowHonest(fns, prog, maxDegree, n, xs);
    }
  }

  lemma {:induction false} FillRowsHonest(fns: seq<AirFn>, prog: seq<LoweredFn>, maxDegree: nat, n: nat, xs: seq<Felt>)
    requires Compiled(fns, prog, maxDegree) && |prog| == |fns| && n < |prog| && |xs| == |prog[n].args|
    ensures AllHonest(fns[..n], prog[..n], FillRows(prog[..n], prog[n].fill, Start(prog[n].args, xs)).0)
    decreases n, 2
  {
    CompiledAll(fns, prog, maxDegree, n);
    CompiledPrefix(fns, prog, maxDegree, n);
    FnFillOK(fns[n], maxDegree, ArityMap(prog[..n]), xs);
    hide Compiled, LowerFn, Hygienic, OracleFits, FillOK, Start, Run;
    var fill := prog[n].fill;
    FillHonestStep(fns[..n], prog[..n], maxDegree, fill, |fill|, Start(prog[n].args, xs));
    assert fill[..|fill|] == fill;
  }

  lemma {:induction false} FillHonestStep(
      fns: seq<AirFn>, prog: seq<LoweredFn>, maxDegree: nat, fill: seq<FillStep>, k: nat, env: Cells)
    requires Compiled(fns, prog, maxDegree) && |prog| == |fns| && k <= |fill|
    requires FillOK(fill, env.Keys, ArityMap(prog)) && OracleFits(OracleOf(fns), ArityMap(prog))
    ensures AllHonest(fns, prog, FillRows(prog, fill[..k], env).0)
    decreases |prog|, 1, k
  {
    hide Compiled, OracleFits, Eval, CallRows, OracleOf, Run, FillOK, Honest;
    if k == 0 {
      assert fill[..0] == [];
    } else {
      FillHonestStep(fns, prog, maxDegree, fill, k - 1, env);
      var prefix, step := fill[..k], fill[k - 1];
      assert prefix[..k - 1] == fill[..k - 1] && prefix[k - 1] == step;
      if step.CallFn? {
        CallStepTuple(fns, prog, maxDegree, fill, k - 1, env);
        CallRowsHonest(fns, prog, maxDegree, step.callee, Values(step.args, FillRows(prog, fill[..k - 1], env).1));
      }
    }
  }

  lemma OwnRowHonest(fns: seq<AirFn>, prog: seq<LoweredFn>, maxDegree: nat, n: nat, xs: seq<Felt>)
    requires Compiled(fns, prog, maxDegree) && |prog| == |fns| && n < |prog| && |xs| == |prog[n].args|
    ensures Honest(fns, prog, Row(n, 1, Columns(prog[n], WitnessOf(prog[n], xs, OracleOf(fns[..n])))))
  {
    CompiledAll(fns, prog, maxDegree, n);
    var fn, orc := prog[n], OracleOf(fns[..n]);
    hide Compiled, LowerFn, Hygienic, FnValue, DerivedHold, CallsAnswered, Eval, Meaning;
    LoweringComplete(fns[n], maxDegree, ArityMap(prog[..n]), false, xs, orc);
    var s := FnStateOf(fns[n], maxDegree, ArityMap(prog[..n]), xs, orc);
    hide OracleFits, Derive, Columns;
    ColumnsSuffice(fn, s, xs, orc);
    var cells := WitnessOf(fn, xs, orc);
    var row := Row(n, 1, Columns(fn, cells));
    assert Agree(RowCells(prog, row), cells, s.cells.Keys);
    MeaningOfEarlier(fns, |fns|, n, xs);
    assert fns[..|fns|] == fns;
    hide WitnessOf, OracleOf, FnState, RowCells, RowSatisfied, ConstraintsHold, Agree;
    SameReading(prog, row, s, cells, xs, orc);
  }

  /** Reading the fill's cells back changes neither the row's values nor whether it is satisfied. */
  lemma SameReading(prog: seq<LoweredFn>, row: Row, s: LState, cells: Cells, xs: seq<Felt>, orc: Oracle)
    requires row.fn < |prog| && row.enabler == 1 && FnState(prog[row.fn], s, xs, orc)
    requires Agree(RowCells(prog, row), cells, s.cells.Keys)
    ensures var fn, read := prog[row.fn], RowCells(prog, row);
            && Values(fn.args, read) == Values(fn.args, cells) && Values(fn.rets, read) == Values(fn.rets, cells)
            && (RowSatisfied(prog, row) <==> ConstraintsHold(fn, cells))
  {
    var fn, read := prog[row.fn], RowCells(prog, row);
    InvParts(s, CellSet(fn.args));
    hide Inv, Start, Filling, Linked, Budgeted, LoweringInvariant.Columns, RowCells, ConstraintsHold, RowSatisfied;
    ArgumentCells(fn, s);
    ValuesFrame(fn.args, cells, read, s.cells.Keys);
    ValuesFrame(fn.rets, cells, read, s.cells.Keys);
    EnabledSatisfied(prog, row);
    SameConstraints(fn, s, cells, read);
  }

  /** An enabled row is satisfied exactly when the ungated constraints hold. */
  lemma EnabledSatisfied(prog: seq<LoweredFn>, row: Row)
    requires row.fn < |prog| && row.enabler == 1
    ensures RowSatisfied(prog, row) <==> ConstraintsHold(prog[row.fn], RowCells(prog, row))
  {
    hide Eval, RowCells;
  }

  lemma SameConstraints(fn: LoweredFn, s: LState, cells: Cells, read: Cells)
    requires fn.constraints == s.constraints && Budgeted(s) && Agree(read, cells, s.cells.Keys)
    ensures ConstraintsHold(fn, read) <==> ConstraintsHold(fn, cells)
  {
    hide Eval;
    forall i | 0 <= i < |fn.constraints|
      ensures Eval(fn.constraints[i], read) == Eval(fn.constraints[i], cells)
    {
      assert Closed(s.constraints[i], s);
      EvalFrame(fn.constraints[i], read, cells);
    }
  }

  // -- Whole sessions ------------------------------------------------------------------------

  datatype Request = Request(name: string, inputs: seq<Felt>)

  /** Tables and public activations after the host's calls, in order. */
  function Session(prog: seq<LoweredFn>, requests: seq<Request>): (seq<Row>, seq<Activation>) {
    if requests == [] then ([], [])
    else
      var n := |requests| - 1;
      var (rows, public) := Session(prog, requests[..n]);
      var (more, ys) := CallRows(prog, requests[n].name, requests[n].inputs);
      (rows + more, public + [Activation(requests[n].name, requests[n].inputs + ys)])
  }

  ghost predicate KnownRequests(prog: seq<LoweredFn>, requests: seq<Request>) {
    forall i :: 0 <= i < |requests| ==>
      requests[i].name in ArityMap(prog) && |requests[i].inputs| == ArityMap(prog)[requests[i].name].0
  }

  /**
   * The tables always close: whatever the host calls, the rows pushed consume
   * exactly the public activations, each of which is the source's answer; and
   * every row is satisfied exactly when the assertions on its inputs hold.
   */
  lemma {:induction false} SessionCloses(
      fns: seq<AirFn>, prog: seq<LoweredFn>, maxDegree: nat, requests: seq<Request>, t: Activation)
    requires Compiled(fns, prog, maxDegree) && |prog| == |fns| && KnownRequests(prog, requests)
    ensures var (rows, public) := Session(prog, requests);
            && |public| == |requests| && BagOf(prog, rows, PublicCount(public, t), t) && AllHonest(fns, prog, rows)
            && (forall i :: 0 <= i < |requests| ==> Answers(fns, requests[i], public[i]))
  {
    hide Compiled, Honest, CallRows, ArityMap, BagOf, Answers;
    if requests == [] {
      NothingCalled(prog, t);
    } else {
      var n := |requests| - 1;
      SessionCloses(fns, prog, maxDegree, requests[..n], t);
      var (rows, public) := Session(prog, requests[..n]);
      var (name, xs) := (requests[n].name, requests[n].inputs);
      var (more, ys) := CallRows(prog, name, xs);
      CallBalances(fns, prog, maxDegree, name, xs, t);
      CallRowsHonest(fns, prog, maxDegree, name, xs);
      BagsAppend(prog, rows, more, public, Activation(name, xs + ys), t);
      CallAnswers(fns, prog, maxDegree, name, xs);
      forall i | 0 <= i < n
        ensures Answers(fns, requests[i], public[i])
      {
        assert requests[..n][i] == requests[i];
      }
    }
  }

  /** The public activation is the source's answer to the request. */
  ghost predicate Answers(fns: seq<AirFn>, request: Request, public: Activation) {
    var v := Meaning(fns, request.name, request.inputs);
    v.Some? && public == Activation(request.name, request.inputs + v.value.0)
  }

  lemma NothingCalled(prog: seq<LoweredFn>, t: Activation)
    ensures BagOf(prog, [], PublicCount([], t), t)
  {
  }

  lemma BagsAppend(
      prog: seq<LoweredFn>, rows: seq<Row>, more: seq<Row>, public: seq<Activation>, a: Activation, t: Activation)
    requires BagOf(prog, rows, PublicCount(public, t), t) && BagOf(prog, more, Once(a, t), t)
    ensures BagOf(prog, rows + more, PublicCount(public + [a], t), t)
  {
    hide Emitted, Consumed;
    BagAppend(prog, rows, more, t);
    assert (public + [a])[..|public|] == public;
  }

  lemma CallAnswers(fns: seq<AirFn>, prog: seq<LoweredFn>, maxDegree: nat, name: string, xs: seq<Felt>)
    requires Compiled(fns, prog, maxDegree) && |prog| == |fns|
    requires name in ArityMap(prog) && |xs| == ArityMap(prog)[name].0
    ensures Answers(fns, Request(name, xs), Activation(name, xs + CallRows(prog, name, xs).1))
  {
    hide Compiled, Meaning, CallRows, ArityMap;
    CallRowsMean(fns, prog, maxDegree, name, xs);
  }

  /** A session's tables pass the verifier's check. */
  lemma SessionAccepted(fns: seq<AirFn>, prog: seq<LoweredFn>, maxDegree: nat, requests: seq<Request>)
    requires Compiled(fns, prog, maxDegree) && |prog| == |fns| && KnownRequests(prog, requests)
    ensures var (rows, public) := Session(prog, requests); InSystem(prog, rows) && Closes(prog, rows, public)
  {
    hide Compiled, Session, AllHonest, Emitted, Consumed, PublicCount;
    var (rows, public) := Session(prog, requests);
    SessionCloses(fns, prog, maxDegree, requests, Activation("", []));
    forall t
      ensures (Emitted(prog, rows, t) + PublicCount(public, t) - Consumed(prog, rows, t)) % P == 0
    {
      SessionCloses(fns, prog, maxDegree, requests, t);
    }
  }
}
