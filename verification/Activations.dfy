// A system of compiled functions: one table each, tied together by activation
// tuples.  If the tables' rows satisfy their constraints and the activation bag
// closes over the public activations, every public activation is a true
// statement about the source; and the tables that call_<fn> fills always close.
module Activations {
  import opened M31
  import opened Wrappers
  import opened FeltAst
  import opened FeltSemantics
  import opened Lowering
  import opened LoweredMeaning
  import opened LoweringInvariant
  import opened LowerFunctions
  import opened LowerActivations
  import opened CompilerTheorems
  import RowFacts
  import Mersenne

  // -- The compiled system --------------------------------------------------------------

  function ArityMap(prog: seq<LoweredFn>): Arities {
    if prog == [] then map[]
    else
      var n := |prog| - 1;
      ArityMap(prog[..n])[prog[n].name := (|prog[n].args|, |prog[n].rets|)]
  }

  /** Functions are lowered in declaration order, so calls reach earlier ones only. */
  function Compile(fns: seq<AirFn>, maxDegree: nat): Result<seq<LoweredFn>>
    requires maxDegree >= 2
  {
    if fns == [] then Ok([])
    else
      var n := |fns| - 1;
      var prog :- Compile(fns[..n], maxDegree);
      var fn :- LowerFn(fns[n], maxDegree, ArityMap(prog), false);
      Ok(prog + [fn])
  }

  /** What the function of that name means on xs: its returns, and whether its assertions hold. */
  function Meaning(fns: seq<AirFn>, name: string, xs: seq<Felt>): Option<(seq<Felt>, bool)>
    decreases |fns|, 0
  {
    if fns == [] then None
    else
      var n := |fns| - 1;
      if fns[n].name == name then FnValue(fns[n], xs, OracleOf(fns[..n])) else Meaning(fns[..n], name, xs)
  }

  /** The earlier functions, as seen by a caller. */
  function OracleOf(fns: seq<AirFn>): Oracle
    decreases |fns|, 1
  {
    (name: string, xs: seq<Felt>) =>
      var v := Meaning(fns, name, xs);
      if v.Some? then Some(v.value.0) else None
  }

  ghost predicate DistinctNames(fns: seq<AirFn>) {
    forall i, j :: 0 <= i < j < |fns| ==> fns[i].name != fns[j].name
  }

  ghost predicate AllHygienic(fns: seq<AirFn>) {
    forall i :: 0 <= i < |fns| ==> Hygienic(fns[i].body, {})
  }

  /** prog is the compiled form of fns. */
  ghost predicate Compiled(fns: seq<AirFn>, prog: seq<LoweredFn>, maxDegree: nat) {
    maxDegree >= 2 && DistinctNames(fns) && AllHygienic(fns) && Compile(fns, maxDegree) == Ok(prog)
  }

  lemma {:induction false} CompiledPrefix(fns: seq<AirFn>, prog: seq<LoweredFn>, maxDegree: nat, k: nat)
    requires Compiled(fns, prog, maxDegree) && k <= |fns|
    ensures |prog| == |fns| && Compiled(fns[..k], prog[..k], maxDegree)
  {
    hide LowerFn, Hygienic;
    if fns == [] {
      assert fns[..k] == fns && prog[..k] == prog;
    } else {
      var n := |fns| - 1;
      var before := Compile(fns[..n], maxDegree).value;
      if k == |fns| {
        CompiledPrefix(fns[..n], before, maxDegree, n);
        assert fns[..k] == fns && prog[..k] == prog;
      } else {
        CompiledPrefix(fns[..n], before, maxDegree, k);
        assert fns[..n][..k] == fns[..k] && prog[..k] == before[..k];
      }
    }
  }

  lemma CompiledLast(fns: seq<AirFn>, prog: seq<LoweredFn>, maxDegree: nat)
    requires Compiled(fns, prog, maxDegree) && fns != []
    ensures var n := |fns| - 1;
            && |prog| == |fns| && Compiled(fns[..n], prog[..n], maxDegree)
            && LowerFn(fns[n], maxDegree, ArityMap(prog[..n]), false) == Ok(prog[n])
            && prog[n].name == fns[n].name
  {
    hide LowerBody, Hygienic;
    var n := |fns| - 1;
    CompiledPrefix(fns, prog, maxDegree, n);
    CompiledPrefix(fns[..n], Compile(fns[..n], maxDegree).value, maxDegree, n);
    assert prog[..n] == Compile(fns[..n], maxDegree).value;
  }

  /** Position i of the system, compiled against what comes before it. */
  lemma CompiledAt(fns: seq<AirFn>, prog: seq<LoweredFn>, maxDegree: nat, i: nat)
    requires Compiled(fns, prog, maxDegree) && i < |fns|
    ensures |prog| == |fns| && Compiled(fns[..i], prog[..i], maxDegree)
    ensures LowerFn(fns[i], maxDegree, ArityMap(prog[..i]), false) == Ok(prog[i]) && prog[i].name == fns[i].name
    ensures maxDegree >= 2 && Hygienic(fns[i].body, {})
  {
    hide LowerFn, Hygienic, Compile, ArityMap;
    CompiledPrefix(fns, prog, maxDegree, i);
    CompiledPrefix(fns, prog, maxDegree, i + 1);
    assert fns[..i + 1][..i] == fns[..i] && prog[..i + 1][..i] == prog[..i];
    CompiledLast(fns[..i + 1], prog[..i + 1], maxDegree);
  }

  /** The meanings of a compiled system answer every call of known arity. */
  lemma {:induction false} SystemOracleFits(fns: seq<AirFn>, prog: seq<LoweredFn>, maxDegree: nat)
    requires Compiled(fns, prog, maxDegree)
    ensures OracleFits(OracleOf(fns), ArityMap(prog))
    decreases |fns|
  {
    hide LowerFn, FnValue, Compiled;
    if fns == [] {
      EmptySystem(fns, prog, maxDegree);
    } else {
      CompiledLast(fns, prog, maxDegree);
      var n := |fns| - 1;
      SystemOracleFits(fns[..n], prog[..n], maxDegree);
      forall f, xs: seq<Felt> | f in ArityMap(prog) && |xs| == ArityMap(prog)[f].0
        ensures OracleOf(fns)(f, xs).Some? && |OracleOf(fns)(f, xs).value| == ArityMap(prog)[f].1
      {
        if f == fns[n].name {
          MeaningDefined(fns, prog, maxDegree, xs);
        } else {
          assert Meaning(fns, f, xs) == Meaning(fns[..n], f, xs);
          assert OracleOf(fns[..n])(f, xs).Some?;
        }
      }
    }
  }

  lemma EmptySystem(fns: seq<AirFn>, prog: seq<LoweredFn>, maxDegree: nat)
    requires Compiled(fns, prog, maxDegree) && fns == []
    ensures prog == [] && ArityMap(prog) == map[]
  {
  }

  lemma MeaningDefined(fns: seq<AirFn>, prog: seq<LoweredFn>, maxDegree: nat, xs: seq<Felt>)
    requires Compiled(fns, prog, maxDegree) && fns != []
    requires |prog| == |fns| && |xs| == |prog[|fns| - 1].args|
    requires OracleFits(OracleOf(fns[..|fns| - 1]), ArityMap(prog[..|fns| - 1]))
    ensures var v := Meaning(fns, fns[|fns| - 1].name, xs);
            v.Some? && |v.value.0| == |prog[|fns| - 1].rets|
  {
    hide LowerFn, FnValue, Compiled, Hygienic, OracleFits, OracleOf, ConstraintsHold, DerivedHold, CallsAnswered, Run;
    var n := |fns| - 1;
    CompiledAt(fns, prog, maxDegree, n);
    LoweringComplete(fns[n], maxDegree, ArityMap(prog[..n]), false, xs, OracleOf(fns[..n]));
  }

  lemma {:induction false} ArityNames(prog: seq<LoweredFn>, f: string)
    ensures f in ArityMap(prog) <==> exists i :: 0 <= i < |prog| && prog[i].name == f
  {
    if prog != [] {
      var n := |prog| - 1;
      ArityNames(prog[..n], f);
      if f in ArityMap(prog) && f != prog[n].name {
        var i :| 0 <= i < n && prog[..n][i].name == f;
        assert prog[i].name == f;
      }
      if i :| 0 <= i < |prog| && prog[i].name == f {
        if i < n { assert prog[..n][i].name == f; }
      }
    }
  }

  /** A function means the same in any larger system. */
  lemma {:induction false} MeaningOfEarlier(fns: seq<AirFn>, k: nat, i: nat, xs: seq<Felt>)
    requires DistinctNames(fns) && i < k <= |fns|
    ensures Meaning(fns[..k], fns[i].name, xs) == FnValue(fns[i], xs, OracleOf(fns[..i]))
    decreases k
  {
    hide FnValue;
    var prefix := fns[..k];
    assert prefix[..k - 1] == fns[..k - 1] && prefix[k - 1] == fns[k - 1];
    if i < k - 1 { MeaningOfEarlier(fns, k - 1, i, xs); }
  }

  lemma {:induction false} ArityAt(prog: seq<LoweredFn>, j: nat)
    requires j < |prog| && forall i, k :: 0 <= i < k < |prog| ==> prog[i].name != prog[k].name
    ensures prog[j].name in ArityMap(prog)
    ensures ArityMap(prog)[prog[j].name] == (|prog[j].args|, |prog[j].rets|)
  {
    var n := |prog| - 1;
    if j < n {
      assert prog[..n][j] == prog[j];
      ArityAt(prog[..n], j);
    }
  }

  // -- Rows and the activation bag ----------------------------------------------------------

  /** A trace row of function number fn. */
  datatype Row = Row(fn: nat, enabler: Felt, columns: Cells)

  /** An activation tuple: inputs then outputs. */
  datatype Activation = Activation(name: string, values: seq<Felt>)

  function RowCells(prog: seq<LoweredFn>, row: Row): Cells
    requires row.fn < |prog|
  {
    Derive(prog[row.fn].derived, row.columns)
  }

  /** The row's constraints: a boolean enabler, and every other constraint gated by it. */
  ghost predicate RowSatisfied(prog: seq<LoweredFn>, row: Row) {
    && row.fn < |prog|
    && FMul(row.enabler, FSub(1, row.enabler)) == 0
    && (forall i :: 0 <= i < |prog[row.fn].constraints| ==>
          FMul(row.enabler, Eval(prog[row.fn].constraints[i], RowCells(prog, row))) == 0)
  }

  /** The tuple a row consumes. */
  function Own(fn: LoweredFn, cells: Cells): Activation {
    Activation(fn.name, Values(fn.args, cells) + Values(fn.rets, cells))
  }

  /** The tuple an activation emits. */
  function Emission(k: Call, cells: Cells): Activation {
    Activation(k.callee, Values(k.args, cells) + Values(k.rets, cells))
  }

  function CallCount(calls: seq<Call>, cells: Cells, t: Activation): nat {
    if calls == [] then 0
    else CallCount(calls[..|calls| - 1], cells, t) + (if Emission(calls[|calls| - 1], cells) == t then 1 else 0)
  }

  ghost predicate InSystem(prog: seq<LoweredFn>, rows: seq<Row>) {
    forall i :: 0 <= i < |rows| ==> rows[i].fn < |prog|
  }

  /** Multiplicity with which the rows emit t. */
  function Emitted(prog: seq<LoweredFn>, rows: seq<Row>, t: Activation): nat
    requires InSystem(prog, rows)
  {
    if rows == [] then 0
    else
      var n := |rows| - 1;
      var row := rows[n];
      Emitted(prog, rows[..n], t) + row.enabler * CallCount(prog[row.fn].calls, RowCells(prog, row), t)
  }

  /** Multiplicity with which the rows consume t. */
  function Consumed(prog: seq<LoweredFn>, rows: seq<Row>, t: Activation): nat
    requires InSystem(prog, rows)
  {
    if rows == [] then 0
    else
      var n := |rows| - 1;
      var row := rows[n];
      Consumed(prog, rows[..n], t) + (if Own(prog[row.fn], RowCells(prog, row)) == t then row.enabler else 0)
  }

  function PublicCount(public: seq<Activation>, t: Activation): nat {
    if public == [] then 0
    else PublicCount(public[..|public| - 1], t) + (if public[|public| - 1] == t then 1 else 0)
  }

  /** The most times anything is emitted. */
  function TotalCalls(prog: seq<LoweredFn>, rows: seq<Row>): nat
    requires InSystem(prog, rows)
  {
    if rows == [] then 0
    else TotalCalls(prog, rows[..|rows| - 1]) + |prog[rows[|rows| - 1].fn].calls|
  }

  /** The verifier's check, tuple by tuple: multiplicities are field elements. */
  ghost predicate Closes(prog: seq<LoweredFn>, rows: seq<Row>, public: seq<Activation>)
    requires InSystem(prog, rows)
  {
    forall t :: (Emitted(prog, rows, t) + PublicCount(public, t) - Consumed(prog, rows, t)) % P == 0
  }

  /** Satisfied tables that close over the public activations, with fewer emissions than field elements. */
  ghost predicate Accepted(
      fns: seq<AirFn>, prog: seq<LoweredFn>, maxDegree: nat, rows: seq<Row>, public: seq<Activation>)
  {
    && Compiled(fns, prog, maxDegree) && InSystem(prog, rows)
    && (forall i :: 0 <= i < |rows| ==> RowSatisfied(prog, rows[i]))
    && Closes(prog, rows, public) && TotalCalls(prog, rows) + |public| < P
  }

  lemma EnablerIsBit(prog: seq<LoweredFn>, row: Row)
    requires RowSatisfied(prog, row)
    ensures row.enabler == 0 || row.enabler == 1
  {
    hide Eval;
    BitGate(row.enabler);
  }

  lemma BitGate(e: Felt)
    requires FMul(e, FSub(1, e)) == 0
    ensures e == 0 || e == 1
  {
    GateVanishes(e, 1 - e);
    Mersenne.PIsPrime();
    hide *;
    RowFacts.ProductVanishes(e, 1 - e);
    SmallVanishing(e);
    SmallVanishing(1 - e);
  }

  lemma SmallVanishing(x: int)
    requires -P < x < P
    ensures RowFacts.Vanishes(x) <==> x == 0
  {
    if RowFacts.Vanishes(x) { SmallMultipleIsZero(P, x); }
  }

  lemma GateVanishes(e: Felt, x: int)
    requires FMul(e, Reduce(x)) == 0
    ensures RowFacts.Vanishes(e * x)
  {
    MulMod(x, e, P);
    assert x * e == e * x && (x % P) * e == e * (x % P);
  }

  lemma EnabledConstraints(prog: seq<LoweredFn>, row: Row)
    requires RowSatisfied(prog, row) && row.enabler == 1
    ensures ConstraintsHold(prog[row.fn], RowCells(prog, row))
  {
    hide Eval, Derive;
  }

  // -- An emission has a consumer ---------------------------------------------------------------

  lemma {:induction false} CallCounted(calls: seq<Call>, cells: Cells, k: Call)
    requires k in calls
    ensures CallCount(calls, cells, Emission(k, cells)) >= 1
  {
    var n := |calls| - 1;
    if calls[n] != k {
      assert k in calls[..n];
      CallCounted(calls[..n], cells, k);
    }
  }

  lemma {:induction false} CallsBounded(calls: seq<Call>, cells: Cells, t: Activation)
    ensures CallCount(calls, cells, t) <= |calls|
  {
    if calls != [] { CallsBounded(calls[..|calls| - 1], cells, t); }
  }

  lemma {:induction false} EmittedByRow(prog: seq<LoweredFn>, rows: seq<Row>, i: nat, t: Activation)
    requires InSystem(prog, rows) && i < |rows|
    ensures Emitted(prog, rows, t) >= rows[i].enabler * CallCount(prog[rows[i].fn].calls, RowCells(prog, rows[i]), t)
  {
    hide RowCells, CallCount;
    var n := |rows| - 1;
    if i < n {
      assert rows[..n][i] == rows[i];
      EmittedByRow(prog, rows[..n], i, t);
    }
  }

  lemma {:induction false} EmittedBounded(prog: seq<LoweredFn>, rows: seq<Row>, t: Activation)
    requires InSystem(prog, rows) && forall i :: 0 <= i < |rows| ==> rows[i].enabler == 0 || rows[i].enabler == 1
    ensures Emitted(prog, rows, t) <= TotalCalls(prog, rows)
  {
    hide RowCells, CallCount;
    if rows != [] {
      var n := |rows| - 1;
      EmittedBounded(prog, rows[..n], t);
      CallsBounded(prog[rows[n].fn].calls, RowCells(prog, rows[n]), t);
    }
  }

  lemma {:induction false} PublicCounted(public: seq<Activation>, i: nat)
    requires i < |public|
    ensures PublicCount(public, public[i]) >= 1
  {
    var n := |public| - 1;
    if i < n {
      assert public[..n][i] == public[i];
      PublicCounted(public[..n], i);
    }
  }

  lemma {:induction false} PublicBounded(public: seq<Activation>, t: Activation)
    ensures PublicCount(public, t) <= |public|
  {
    if public != [] { PublicBounded(public[..|public| - 1], t); }
  }

  /** A row that consumes t. */
  ghost predicate Consumes(prog: seq<LoweredFn>, row: Row, t: Activation) {
    row.fn < |prog| && row.enabler == 1 && Own(prog[row.fn], RowCells(prog, row)) == t
  }

  lemma {:induction false} NothingConsumed(prog: seq<LoweredFn>, rows: seq<Row>, t: Activation)
    requires InSystem(prog, rows) && forall i :: 0 <= i < |rows| ==> rows[i].enabler == 0 || rows[i].enabler == 1
    requires forall i :: 0 <= i < |rows| ==> !Consumes(prog, rows[i], t)
    ensures Consumed(prog, rows, t) == 0
  {
    hide RowCells, Own;
    if rows != [] {
      var n := |rows| - 1;
      assert !Consumes(prog, rows[n], t);
      forall i | 0 <= i < n
        ensures !Consumes(prog, rows[..n][i], t)
      {
        assert rows[..n][i] == rows[i];
      }
      NothingConsumed(prog, rows[..n], t);
    }
  }

  /** Whatever is emitted, by a row or publicly, some enabled row consumes. */
  lemma ConsumerExists(
      fns: seq<AirFn>, prog: seq<LoweredFn>, maxDegree: nat, rows: seq<Row>, public: seq<Activation>, t: Activation)
    returns (i: nat)
    requires Accepted(fns, prog, maxDegree, rows, public)
    requires Emitted(prog, rows, t) + PublicCount(public, t) >= 1
    ensures i < |rows| && Consumes(prog, rows[i], t)
  {
    hide Compiled, Emitted, Consumed, PublicCount, Consumes, RowSatisfied;
    forall j | 0 <= j < |rows|
      ensures rows[j].enabler == 0 || rows[j].enabler == 1
    {
      EnablerIsBit(prog, rows[j]);
    }
    EmittedBounded(prog, rows, t);
    PublicBounded(public, t);
    if !exists j: nat :: j < |rows| && Consumes(prog, rows[j], t) {
      NothingConsumed(prog, rows, t);
      assert false;
    }
    i :| i < |rows| && Consumes(prog, rows[i], t);
  }

  // -- Soundness ------------------------------------------------------------------------------------

  /** The row states a true fact: its outputs are the source function on its inputs, assertions included. */
  ghost predicate RowTrue(fns: seq<AirFn>, prog: seq<LoweredFn>, row: Row) {
    && row.fn < |prog|
    && var fn, cells := prog[row.fn], RowCells(prog, row);
       Meaning(fns, fn.name, Values(fn.args, cells)) == Some((Values(fn.rets, cells), true))
  }

  /** A compiled function calls earlier functions at their arities. */
  lemma CallsKnown(f: AirFn, maxDegree: nat, arities: Arities, k: Call)
    requires maxDegree >= 2 && Hygienic(f.body, {}) && LowerFn(f, maxDegree, arities, false).Ok?
    requires k in LowerFn(f, maxDegree, arities, false).value.calls
    ensures k.callee in arities && |k.args| == arities[k.callee].0 && |k.rets| == arities[k.callee].1
  {
    hide LowerBody, Hygienic;
    var (s, args, rets) := LowerBody(f, maxDegree, arities, false).value;
    var xs: seq<Felt> := seq(|args|, i => 0);
    BodyCorrect(f, maxDegree, arities, false, xs, ZeroOracle(arities));
    BodyInv(f, s, args, rets, xs, ZeroOracle(arities));
    hide BodyMeans, FnValue;
    CallStepKnown(s, args, k);
  }

  lemma BodyInv(f: AirFn, s: LState, args: seq<Cell>, rets: seq<Cell>, xs: seq<Felt>, orc: Oracle)
    requires |xs| == |args| && BodyMeans(f, s, args, rets, xs, false, orc)
    ensures Filling(s, CellSet(args)) && Linked(s)
  {
    hide FnValue, Linked, Filling, Columns, Budgeted, Naming;
  }

  lemma CallStepKnown(s: LState, args: seq<Cell>, k: Call)
    requires Filling(s, CellSet(args)) && Linked(s) && k in s.calls
    ensures k.callee in s.arities && |k.args| == s.arities[k.callee].0 && |k.rets| == s.arities[k.callee].1
  {
    var step := CallFn(k.rets, k.callee, k.args);
    assert step in s.fill;
    var i :| 0 <= i < |s.fill| && s.fill[i] == step;
    PrefixOK(s.fill, i + 1, CellSet(args), s.arities);
    assert s.fill[..i + 1][i] == step;
  }

  lemma SplitTuple(a: seq<Felt>, b: seq<Felt>, c: seq<Felt>, d: seq<Felt>)
    requires |a| == |c| && a + b == c + d
    ensures a == c && b == d
  {
    assert a == (a + b)[..|a|] && c == (c + d)[..|c|];
    assert b == (a + b)[|a|..] && d == (c + d)[|c|..];
  }

  /** Every enabled row of an accepted system is true. */
  lemma {:induction false} RowSound(
      fns: seq<AirFn>, prog: seq<LoweredFn>, maxDegree: nat, rows: seq<Row>, public: seq<Activation>, i: nat)
    requires Accepted(fns, prog, maxDegree, rows, public) && i < |rows| && rows[i].enabler == 1
    ensures RowTrue(fns, prog, rows[i])
    decreases rows[i].fn
  {
    var row := rows[i];
    var n, fn, cells := row.fn, prog[row.fn], RowCells(prog, row);
    EnabledConstraints(prog, row);
    CompiledAll(fns, prog, maxDegree, n);
    hide Compiled, Eval, Derive, RowCells, FnValue, LowerFn, Hygienic, OracleFits, Run, Start, Meaning;
    hide Closes, RowSatisfied;
    var orc := OracleOf(fns[..n]);
    forall k | k in fn.calls
      ensures orc(k.callee, Values(k.args, cells)) == Some(Values(k.rets, cells))
    {
      var j := CallConsumer(fns, prog, maxDegree, rows, public, i, k);
      RowSound(fns, prog, maxDegree, rows, public, j);
      CallMatches(fns, prog, maxDegree, row, rows[j], k);
    }
    assert CallsAnswered(fn, cells, orc);
    RowFromCalls(fns, prog, maxDegree, row);
  }

  lemma CompiledAll(fns: seq<AirFn>, prog: seq<LoweredFn>, maxDegree: nat, i: nat)
    requires Compiled(fns, prog, maxDegree) && i < |prog|
    ensures |prog| == |fns| && DistinctNames(fns) && maxDegree >= 2
    ensures LowerFn(fns[i], maxDegree, ArityMap(prog[..i]), false) == Ok(prog[i]) && prog[i].name == fns[i].name
    ensures Hygienic(fns[i].body, {}) && OracleFits(OracleOf(fns[..i]), ArityMap(prog[..i]))
  {
    hide LowerFn, Hygienic, Compile, OracleFits, ArityMap;
    CompiledPrefix(fns, prog, maxDegree, 0);
    CompiledAt(fns, prog, maxDegree, i);
    SystemOracleFits(fns[..i], prog[..i], maxDegree);
  }

  /** The consumer of a call's tuple is a row of the (earlier) callee. */
  lemma CallConsumer(
      fns: seq<AirFn>, prog: seq<LoweredFn>, maxDegree: nat, rows: seq<Row>, public: seq<Activation>, i: nat, k: Call)
    returns (j: nat)
    requires Accepted(fns, prog, maxDegree, rows, public) && i < |rows| && rows[i].enabler == 1
    requires k in prog[rows[i].fn].calls
    ensures j < |rows| && Consumes(prog, rows[j], Emission(k, RowCells(prog, rows[i]))) && rows[j].fn < rows[i].fn
  {
    var row := rows[i];
    var t := Emission(k, RowCells(prog, row));
    CompiledAll(fns, prog, maxDegree, row.fn);
    hide Compiled, RowCells, LowerFn, Hygienic, Emitted, CallCount, OracleFits, Closes, RowSatisfied;
    CallCounted(prog[row.fn].calls, RowCells(prog, row), k);
    EmittedByRow(prog, rows, i, t);
    j := ConsumerExists(fns, prog, maxDegree, rows, public, t);
    CallsKnown(fns[row.fn], maxDegree, ArityMap(prog[..row.fn]), k);
    CalleeEarlier(fns, prog, maxDegree, row.fn, rows[j].fn, k.callee);
  }

  lemma CalleeEarlier(fns: seq<AirFn>, prog: seq<LoweredFn>, maxDegree: nat, n: nat, j: nat, callee: string)
    requires Compiled(fns, prog, maxDegree) && n < |prog| && j < |prog|
    requires callee in ArityMap(prog[..n]) && prog[j].name == callee
    ensures j < n && ArityMap(prog[..n])[callee] == (|prog[j].args|, |prog[j].rets|)
  {
    ArityNames(prog[..n], callee);
    var m :| 0 <= m < n && prog[..n][m].name == callee;
    NamesDistinct(fns, prog, maxDegree);
    hide Compiled;
    assert m == j;
    ArityAt(prog[..n], j);
  }

  lemma NamesDistinct(fns: seq<AirFn>, prog: seq<LoweredFn>, maxDegree: nat)
    requires Compiled(fns, prog, maxDegree)
    ensures forall i, k :: 0 <= i < k < |prog| ==> prog[i].name != prog[k].name
  {
    hide LowerFn, Hygienic, Compile, OracleFits, ArityMap;
    forall i | 0 <= i < |prog|
      ensures i < |fns| && prog[i].name == fns[i].name
    {
      CompiledPrefix(fns, prog, maxDegree, 0);
      CompiledAt(fns, prog, maxDegree, i);
    }
  }

  /** A true callee row answers the call. */
  lemma CallMatches(fns: seq<AirFn>, prog: seq<LoweredFn>, maxDegree: nat, row: Row, callee: Row, k: Call)
    requires Compiled(fns, prog, maxDegree) && |prog| == |fns| && row.fn < |prog| && k in prog[row.fn].calls
    requires Consumes(prog, callee, Emission(k, RowCells(prog, row))) && callee.fn < row.fn
    requires RowTrue(fns, prog, callee)
    ensures OracleOf(fns[..row.fn])(k.callee, Values(k.args, RowCells(prog, row))) == Some(Values(k.rets, RowCells(prog, row)))
  {
    CompiledAll(fns, prog, maxDegree, row.fn);
    CompiledAll(fns, prog, maxDegree, callee.fn);
    hide Compiled, RowCells, LowerFn, Hygienic, OracleFits, FnValue, Meaning;
    CallsKnown(fns[row.fn], maxDegree, ArityMap(prog[..row.fn]), k);
    CalleeEarlier(fns, prog, maxDegree, row.fn, callee.fn, k.callee);
    var cells, cells', g := RowCells(prog, row), RowCells(prog, callee), prog[callee.fn];
    SplitTuple(Values(g.args, cells'), Values(g.rets, cells'), Values(k.args, cells), Values(k.rets, cells));
    var xs := Values(k.args, cells);
    MeaningOfEarlier(fns, row.fn, callee.fn, xs);
    MeaningOfEarlier(fns, |fns|, callee.fn, xs);
    assert fns[..|fns|] == fns;
  }

  lemma RowFromCalls(fns: seq<AirFn>, prog: seq<LoweredFn>, maxDegree: nat, row: Row)
    requires Compiled(fns, prog, maxDegree) && |prog| == |fns| && row.fn < |prog|
    requires ConstraintsHold(prog[row.fn], RowCells(prog, row))
    requires CallsAnswered(prog[row.fn], RowCells(prog, row), OracleOf(fns[..row.fn]))
    ensures RowTrue(fns, prog, row)
  {
    var n := row.fn;
    CompiledAll(fns, prog, maxDegree, n);
    hide Compiled, LowerFn, Hygienic, OracleFits, FnValue, Meaning, Derive, ConstraintsHold, CallsAnswered, Run, Start;
    LoweringSound(fns[n], maxDegree, ArityMap(prog[..n]), false, row.columns, OracleOf(fns[..n]));
    MeaningOfEarlier(fns, |fns|, n, Values(prog[n].args, RowCells(prog, row)));
    assert fns[..|fns|] == fns;
  }

  /**
   * Activation soundness: when the tables are accepted, every public activation
   * is the source function's answer, assertions included.
   */
  lemma PublicActivationsSound(
      fns: seq<AirFn>, prog: seq<LoweredFn>, maxDegree: nat, rows: seq<Row>, public: seq<Activation>, p: nat,
      f: nat, inputs: seq<Felt>, outputs: seq<Felt>)
    requires Accepted(fns, prog, maxDegree, rows, public) && p < |public| && f < |prog|
    requires public[p] == Activation(prog[f].name, inputs + outputs)
    requires |inputs| == |prog[f].args| && |outputs| == |prog[f].rets|
    ensures Meaning(fns, prog[f].name, inputs) == Some((outputs, true))
  {
    hide Compiled, RowCells, LowerFn, Meaning, Emitted, Closes, RowSatisfied;
    PublicCounted(public, p);
    var i := ConsumerExists(fns, prog, maxDegree, rows, public, public[p]);
    RowSound(fns, prog, maxDegree, rows, public, i);
    NamesDistinct(fns, prog, maxDegree);
    var cells := RowCells(prog, rows[i]);
    assert rows[i].fn == f;
    SplitTuple(Values(prog[f].args, cells), Values(prog[f].rets, cells), inputs, outputs);
  }
}
