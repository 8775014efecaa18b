// The invariant of the lowerer's state and what one operation may change: cells
// are single-assignment and freshly named, the fill, the derived list and the
// constraints describe the same frame, and every degree is within the budget.
module LoweringInvariant {
  import opened M31
  import opened Wrappers
  import opened FeltAst
  import opened FeltSemantics
  import opened Lowering
  import opened LoweredMeaning

  ghost predicate Naming(s: LState) {
    forall c :: c in s.cells ==> c.base in s.used && c.version <= s.used[c.base]
  }

  ghost predicate Filling(s: LState, args: set<Cell>) {
    FillOK(s.fill, args, s.arities) && s.cells.Keys == Known(s.fill, args)
  }

  ghost function DerivedCells(derived: seq<(Cell, LExpr)>): set<Cell> {
    set i | 0 <= i < |derived| :: derived[i].0
  }

  /** Each derived cell reads columns and earlier derived cells only. */
  ghost predicate DerivedOrder(derived: seq<(Cell, LExpr)>, columns: set<Cell>) {
    derived == [] ||
    (var n := |derived| - 1;
     && DerivedOrder(derived[..n], columns)
     && derived[n].0 !in columns && derived[n].0 !in DerivedCells(derived[..n])
     && Vars(derived[n].1) <= columns + DerivedCells(derived[..n]))
  }

  ghost predicate AssignLinked(s: LState, c: Cell, e: LExpr) {
    (c, e) in s.derived || (c in s.extraColumns && Pinned(c, e) in s.constraints)
  }

  /** The calls a fill makes, in order. */
  function CallSteps(fill: seq<FillStep>): seq<Call> {
    if fill == [] then []
    else
      var n := |fill| - 1;
      CallSteps(fill[..n]) + (if fill[n].CallFn? then [Call(fill[n].callee, fill[n].args, fill[n].rets)] else [])
  }

  lemma CallStepsPush(fill: seq<FillStep>, step: FillStep)
    ensures CallSteps(fill + [step])
         == CallSteps(fill) + (if step.CallFn? then [Call(step.callee, step.args, step.rets)] else [])
  {
    assert (fill + [step])[..|fill|] == fill;
  }

  /** The fill and the declarative lists describe the same frame. */
  ghost predicate Linked(s: LState) {
    && s.calls == CallSteps(s.fill)
    && (forall i :: 0 <= i < |s.derived| ==> Assign(s.derived[i].0, s.derived[i].1) in s.fill)
    && (forall c, e :: Assign(c, e) in s.fill ==> AssignLinked(s, c, e))
    && (forall k :: k in s.calls ==> CallFn(k.rets, k.callee, k.args) in s.fill)
    && (forall rs, f, xs :: CallFn(rs, f, xs) in s.fill ==> Call(f, xs, rs) in s.calls)
    && (forall e :: e in s.cse ==> Assign(s.cse[e], e) in s.fill)
  }

  ghost predicate Columns(s: LState, args: set<Cell>) {
    && DerivedOrder(s.derived, args + CellSet(s.extraColumns))
    && s.cells.Keys == args + CellSet(s.extraColumns) + DerivedCells(s.derived)
    && (forall c :: c in args || c in s.extraColumns ==> s.cells[c] == 1)
    && (forall e :: e in s.cse ==> s.cse[e] in s.extraColumns)
  }

  ghost predicate Closed(e: LExpr, s: LState) {
    Vars(e) <= s.cells.Keys
  }

  /** Degrees leave room for the enabler gate. */
  ghost predicate Budgeted(s: LState) {
    && s.maxDegree >= 2
    && (forall c :: c in s.cells ==> s.cells[c] <= s.maxDegree - 1)
    && (forall i :: 0 <= i < |s.constraints| ==>
          Closed(s.constraints[i], s) && Degree(s.constraints[i], s.cells) <= s.maxDegree - 1)
    && (forall i :: 0 <= i < |s.derived| ==>
          s.derived[i].0 in s.cells && Closed(s.derived[i].1, s)
          && Degree(s.derived[i].1, s.cells) <= s.cells[s.derived[i].0])
  }

  ghost predicate Inv(s: LState, args: set<Cell>) {
    Naming(s) && Filling(s, args) && Linked(s) && Columns(s, args) && Budgeted(s)
  }

  ghost predicate Extends(s: LState, s': LState) {
    && s.fill <= s'.fill && s.constraints <= s'.constraints && s.derived <= s'.derived
    && s.calls <= s'.calls && s.extraColumns <= s'.extraColumns
    && s.cells.Keys <= s'.cells.Keys && (forall c :: c in s.cells ==> s'.cells[c] == s.cells[c])
    && s'.arities == s.arities && s'.fnName == s.fnName && s'.maxDegree == s.maxDegree
  }

  lemma ExtendsTransitive(s: LState, s1: LState, s2: LState)
    requires Extends(s, s1) && Extends(s1, s2)
    ensures Extends(s, s2)
  {
  }

  // -- Frames -----------------------------------------------------------------------

  function Frame(s: LState, env: Cells, orc: Oracle): Cells {
    Run(s.fill, env, orc)
  }

  /** Cells keep their values as the state grows. */
  lemma FrameKept(s: LState, s': LState, env: Cells, orc: Oracle)
    requires Filling(s, env.Keys) && Filling(s', env.Keys) && Extends(s, s') && OracleFits(orc, s.arities)
    ensures Agree(Frame(s, env, orc), Frame(s', env, orc), s.cells.Keys)
  {
    RunPrefix(s'.fill, |s.fill|, env, orc, s.arities);
    assert s'.fill[..|s.fill|] == s.fill;
  }

  lemma ClosedKept(e: LExpr, s: LState, s': LState, env: Cells, orc: Oracle)
    requires Filling(s, env.Keys) && Filling(s', env.Keys) && Extends(s, s') && OracleFits(orc, s.arities)
    requires Closed(e, s)
    ensures Closed(e, s') && Degree(e, s'.cells) == Degree(e, s.cells)
    ensures Eval(e, Frame(s', env, orc)) == Eval(e, Frame(s, env, orc))
  {
    FrameKept(s, s', env, orc);
    EvalFrame(e, Frame(s, env, orc), Frame(s', env, orc));
    DegreeFrame(e, s.cells, s'.cells);
  }

  /** The constraints from position k on vanish in the frame. */
  ghost predicate VanishFrom(s: LState, k: nat, env: Cells, orc: Oracle) {
    forall i :: k <= i < |s.constraints| ==> Eval(s.constraints[i], Frame(s, env, orc)) == 0
  }

  /**
   * One lowering step for given arguments and callee meanings: the invariant is
   * kept, the state only grows, and the new constraints hold exactly if ok.
   */
  ghost predicate Grown(s: LState, s': LState, env: Cells, orc: Oracle, ok: bool) {
    && Inv(s', env.Keys) && Extends(s, s')
    && (VanishFrom(s', |s.constraints|, env, orc) <==> ok)
  }

  lemma GrownRefl(s: LState, env: Cells, orc: Oracle)
    requires Inv(s, env.Keys)
    ensures Grown(s, s, env, orc, true)
  {
  }

  lemma GrownTransitive(s: LState, s1: LState, s2: LState, env: Cells, orc: Oracle, ok1: bool, ok2: bool)
    requires Inv(s, env.Keys) && OracleFits(orc, s.arities)
    requires Grown(s, s1, env, orc, ok1) && Grown(s1, s2, env, orc, ok2)
    ensures Grown(s, s2, env, orc, ok1 && ok2)
  {
    ExtendsTransitive(s, s1, s2);
    assert |s.constraints| <= |s1.constraints|;
    EarlierVanish(s1, s2, |s.constraints|, env, orc);
    hide Inv, VanishFrom, OracleFits;
  }

  /** Vanishing from k on splits at the constraints there were before. */
  lemma EarlierVanish(s1: LState, s2: LState, k: nat, env: Cells, orc: Oracle)
    requires Inv(s1, env.Keys) && Inv(s2, env.Keys) && Extends(s1, s2) && OracleFits(orc, s1.arities)
    requires k <= |s1.constraints|
    ensures VanishFrom(s2, k, env, orc) <==> VanishFrom(s1, k, env, orc) && VanishFrom(s2, |s1.constraints|, env, orc)
  {
    forall i | k <= i < |s1.constraints|
      ensures Eval(s2.constraints[i], Frame(s2, env, orc)) == Eval(s1.constraints[i], Frame(s1, env, orc))
    {
      ConstraintKept(s1, s2, i, env, orc);
    }
    hide Inv, OracleFits, Frame, Eval;
    if VanishFrom(s2, k, env, orc) {
      forall i | k <= i < |s1.constraints|
        ensures Eval(s1.constraints[i], Frame(s1, env, orc)) == 0
      {
        assert Eval(s2.constraints[i], Frame(s2, env, orc)) == 0;
      }
    }
  }

  lemma ConstraintKept(s1: LState, s2: LState, i: nat, env: Cells, orc: Oracle)
    requires Inv(s1, env.Keys) && Inv(s2, env.Keys) && Extends(s1, s2) && OracleFits(orc, s1.arities)
    requires i < |s1.constraints|
    ensures i < |s2.constraints| && Eval(s2.constraints[i], Frame(s2, env, orc)) == Eval(s1.constraints[i], Frame(s1, env, orc))
  {
    hide Naming, Filling, Linked, Columns, Eval, Frame;
    ClosedKept(s1.constraints[i], s1, s2, env, orc);
  }

  // -- Fresh cells -------------------------------------------------------------------

  lemma FreshIsNew(s: LState, base: string)
    requires Naming(s)
    ensures var (s1, c) := Fresh(s, base);
            c !in s.cells && s1 == s.(used := s1.used) && Naming(s1)
            && c.base in s1.used && c.version <= s1.used[c.base]
  {
  }

  lemma NamingAdds(s: LState, s': LState, c: Cell)
    requires Naming(s) && s'.cells.Keys == s.cells.Keys + {c}
    requires c.base in s'.used && c.version <= s'.used[c.base]
    requires forall b :: b in s.used ==> b in s'.used && s.used[b] <= s'.used[b]
    ensures Naming(s')
  {
  }

  // -- A derived cell -------------------------------------------------------------------

  lemma RegisterDerivedGrows(s: LState, base: string, e: LExpr, degree: nat, env: Cells, orc: Oracle)
    requires Inv(s, env.Keys) && OracleFits(orc, s.arities)
    requires Closed(e, s) && Degree(e, s.cells) <= degree <= s.maxDegree - 1
    ensures var (s', c) := RegisterDerived(s, base, e, degree);
            && Grown(s, s', env, orc, true)
            && c in s'.cells && s'.cells[c] == degree
            && At(Frame(s', env, orc), c) == Eval(e, Frame(s, env, orc))
  {
    var (s', c) := RegisterDerived(s, base, e, degree);
    DerivedInv(s, base, e, degree, env.Keys);
    assert s'.fill[|s.fill|] == Assign(c, e);
    hide Naming, Linked, Columns, Budgeted, RegisterDerived;
    LastAssign(s', c, e, env, orc);
    ClosedKept(e, s, s', env, orc);
  }

  lemma LastAssign(s: LState, c: Cell, e: LExpr, env: Cells, orc: Oracle)
    requires Filling(s, env.Keys) && OracleFits(orc, s.arities)
    requires |s.fill| > 0 && s.fill[|s.fill| - 1] == Assign(c, e)
    ensures At(Frame(s, env, orc), c) == Eval(e, Frame(s, env, orc))
  {
    RunAssign(s.fill, |s.fill| - 1, env, orc, s.arities);
  }

  lemma DerivedInv(s: LState, base: string, e: LExpr, degree: nat, args: set<Cell>)
    requires Inv(s, args) && Closed(e, s) && Degree(e, s.cells) <= degree <= s.maxDegree - 1
    ensures var (s', c) := RegisterDerived(s, base, e, degree);
            Inv(s', args) && Extends(s, s') && c in s'.cells && s'.cells[c] == degree
            && s'.constraints == s.constraints
  {
    var (s', c) := RegisterDerived(s, base, e, degree);
    hide Naming, Filling, Linked, Columns, Budgeted;
    FreshIsNew(s, base);
    NamingAdds(s, s', c);
    DerivedKeepsFilling(s, s', c, e, args);
    DerivedKeepsLinks(s, s', c, e);
    DerivedKeepsColumns(s, s', c, e, args);
    DerivedKeepsBudget(s, s', c, e, degree);
  }

  lemma DerivedKeepsFilling(s: LState, s': LState, c: Cell, e: LExpr, args: set<Cell>)
    requires Filling(s, args) && c !in s.cells && Closed(e, s)
    requires s'.fill == s.fill + [Assign(c, e)] && s'.cells.Keys == s.cells.Keys + {c} && s'.arities == s.arities
    ensures Filling(s', args)
  {
    assert s'.fill[..|s.fill|] == s.fill;
  }

  lemma DerivedKeepsLinks(s: LState, s': LState, c: Cell, e: LExpr)
    requires Linked(s)
    requires s' == s.(used := s'.used, cells := s'.cells, derived := s.derived + [(c, e)], fill := s.fill + [Assign(c, e)])
    ensures Linked(s')
  {
    CallStepsPush(s.fill, Assign(c, e));
    assert (c, e) in s'.derived;
    forall d, f | Assign(d, f) in s'.fill
      ensures AssignLinked(s', d, f)
    {
      if Assign(d, f) in s.fill { assert AssignLinked(s, d, f); }
    }
  }

  lemma DerivedKeepsColumns(s: LState, s': LState, c: Cell, e: LExpr, args: set<Cell>)
    requires Columns(s, args) && c !in s.cells && Closed(e, s)
    requires s' == s.(used := s'.used, cells := s'.cells, derived := s.derived + [(c, e)], fill := s.fill + [Assign(c, e)])
    requires s'.cells.Keys == s.cells.Keys + {c} && forall d :: d in s.cells ==> s'.cells[d] == s.cells[d]
    ensures Columns(s', args)
  {
    assert s'.derived[..|s.derived|] == s.derived;
    DerivedCellsPush(s.derived, c, e);
  }

  lemma DerivedCellsPush(derived: seq<(Cell, LExpr)>, c: Cell, e: LExpr)
    ensures DerivedCells(derived + [(c, e)]) == DerivedCells(derived) + {c}
  {
    var next := derived + [(c, e)];
    assert next[|derived|].0 == c;
    forall d | d in DerivedCells(derived)
      ensures d in DerivedCells(next)
    {
      var i :| 0 <= i < |derived| && derived[i].0 == d;
      assert next[i].0 == d;
    }
  }

  lemma DerivedKeepsBudget(s: LState, s': LState, c: Cell, e: LExpr, degree: nat)
    requires Budgeted(s) && c !in s.cells && Closed(e, s) && Degree(e, s.cells) <= degree <= s.maxDegree - 1
    requires s' == s.(used := s'.used, cells := s.cells[c := degree], derived := s.derived + [(c, e)], fill := s'.fill)
    ensures Budgeted(s')
  {
    DegreeFrame(e, s.cells, s'.cells);
    forall i | 0 <= i < |s.constraints|
      ensures Degree(s.constraints[i], s'.cells) == Degree(s.constraints[i], s.cells)
    {
      DegreeFrame(s.constraints[i], s.cells, s'.cells);
    }
    forall i | 0 <= i < |s.derived|
      ensures Degree(s.derived[i].1, s'.cells) == Degree(s.derived[i].1, s.cells)
    {
      DegreeFrame(s.derived[i].1, s.cells, s'.cells);
    }
  }

  // -- A materialized cell -----------------------------------------------------------------

  lemma DerivedPrefix(derived: seq<(Cell, LExpr)>, n: nat)
    requires n <= |derived|
    ensures DerivedCells(derived[..n]) <= DerivedCells(derived)
  {
    forall c | c in DerivedCells(derived[..n])
      ensures c in DerivedCells(derived)
    {
      var i :| 0 <= i < n && derived[..n][i].0 == c;
      assert derived[i].0 == c;
    }
  }

  lemma ColumnsKeepOrder(derived: seq<(Cell, LExpr)>, columns: set<Cell>, more: set<Cell>)
    requires DerivedOrder(derived, columns) && columns <= more && more !! DerivedCells(derived)
    ensures DerivedOrder(derived, more)
  {
    if derived != [] {
      var n := |derived| - 1;
      DerivedPrefix(derived, n);
      assert derived[n].0 in DerivedCells(derived);
      ColumnsKeepOrder(derived[..n], columns, more);
    }
  }

  lemma MaterializeGrows(s: LState, e: LExpr, env: Cells, orc: Oracle)
    requires Inv(s, env.Keys) && OracleFits(orc, s.arities)
    requires Closed(e, s) && Degree(e, s.cells) <= s.maxDegree - 1
    ensures var (s', c) := Materialize(s, e);
            && Grown(s, s', env, orc, true)
            && c in s'.cells && s'.cells[c] == 1
            && At(Frame(s', env, orc), c) == Eval(e, Frame(s, env, orc))
  {
    hide Naming, Linked, Columns, Budgeted, Filling;
    var (s', c) := Materialize(s, e);
    if e in s.cse {
      CachedCell(s, e, env, orc);
      GrownRefl(s, env, orc);
    } else {
      MaterializeInv(s, e, env.Keys);
      assert s'.fill == s.fill + [Assign(c, e)] && s'.constraints == s.constraints + [Pinned(c, e)];
      hide Materialize;
      NewPinned(s, s', c, e, env, orc);
    }
  }

  lemma NewPinned(s: LState, s': LState, c: Cell, e: LExpr, env: Cells, orc: Oracle)
    requires Inv(s, env.Keys) && Inv(s', env.Keys) && Extends(s, s') && OracleFits(orc, s.arities)
    requires Closed(e, s) && s'.fill == s.fill + [Assign(c, e)]
    requires s'.constraints == s.constraints + [Pinned(c, e)]
    ensures Grown(s, s', env, orc, true)
    ensures At(Frame(s', env, orc), c) == Eval(e, Frame(s, env, orc))
  {
    hide Naming, Linked, Columns, Budgeted, Eval, Frame;
    assert s'.fill[|s.fill|] == Assign(c, e);
    LastAssign(s', c, e, env, orc);
    ClosedKept(e, s, s', env, orc);
    PinnedVanishes(c, e, Frame(s', env, orc));
  }

  lemma PinnedVanishes(c: Cell, e: LExpr, env: Cells)
    ensures Eval(Pinned(c, e), env) == 0 <==> At(env, c) == Eval(e, env)
  {
    var a, b := At(env, c), Eval(e, env);
    assert (a - b) % P == 0 ==> a == b;
  }

  lemma CachedCell(s: LState, e: LExpr, env: Cells, orc: Oracle)
    requires Inv(s, env.Keys) && OracleFits(orc, s.arities) && e in s.cse
    ensures s.cse[e] in s.cells && s.cells[s.cse[e]] == 1
    ensures At(Frame(s, env, orc), s.cse[e]) == Eval(e, Frame(s, env, orc))
  {
    assert Assign(s.cse[e], e) in s.fill;
    var i :| 0 <= i < |s.fill| && s.fill[i] == Assign(s.cse[e], e);
    RunAssign(s.fill, i, env, orc, s.arities);
  }

  lemma MaterializeInv(s: LState, e: LExpr, args: set<Cell>)
    requires Inv(s, args) && e !in s.cse && Closed(e, s) && Degree(e, s.cells) <= s.maxDegree - 1
    ensures var (s', c) := Materialize(s, e);
            Inv(s', args) && Extends(s, s') && c in s'.cells && s'.cells[c] == 1
  {
    hide Naming, Filling, Linked, Columns, Budgeted, Digits, Materialize;
    var (s', c) := Materialize(s, e);
    MaterializeShape(s, e);
    NamingAdds(s, s', c);
    DerivedKeepsFilling(s, s', c, e, args);
    MaterializeKeepsLinks(s, s', c, e);
    MaterializeKeepsColumns(s, s', c, e, args);
    MaterializeKeepsBudget(s, s', c, e);
  }

  lemma MaterializeShape(s: LState, e: LExpr)
    requires Naming(s) && e !in s.cse
    ensures var (s', c) := Materialize(s, e);
            && MaterializedInto(s, s', c, e) && c !in s.cells
            && c.base in s'.used && c.version <= s'.used[c.base]
            && (forall b :: b in s.used ==> b in s'.used && s.used[b] <= s'.used[b])
  {
    hide Naming, Digits;
    FreshIsNew(s, s.fnName + "_t" + Digits(|s.cse|));
  }

  ghost predicate MaterializedInto(s: LState, s': LState, c: Cell, e: LExpr) {
    s' == s.(used := s'.used, cells := s.cells[c := 1], extraColumns := s.extraColumns + [c],
             constraints := s.constraints + [Pinned(c, e)], fill := s.fill + [Assign(c, e)],
             cse := s.cse[e := c])
  }

  lemma MaterializeKeepsLinks(s: LState, s': LState, c: Cell, e: LExpr)
    requires Linked(s) && MaterializedInto(s, s', c, e)
    ensures Linked(s')
  {
    CallStepsPush(s.fill, Assign(c, e));
    assert c in s'.extraColumns && Pinned(c, e) in s'.constraints;
    forall d, f | Assign(d, f) in s'.fill
      ensures AssignLinked(s', d, f)
    {
      if Assign(d, f) in s.fill { assert AssignLinked(s, d, f); }
    }
  }

  lemma MaterializeKeepsColumns(s: LState, s': LState, c: Cell, e: LExpr, args: set<Cell>)
    requires Columns(s, args) && MaterializedInto(s, s', c, e) && c !in s.cells
    ensures Columns(s', args)
  {
    assert CellSet(s'.extraColumns) == CellSet(s.extraColumns) + {c};
    DisjointFromDerived(s, args);
    ColumnsKeepOrder(s.derived, args + CellSet(s.extraColumns), args + CellSet(s'.extraColumns));
  }

  /** Columns and derived cells are different cells. */
  lemma DisjointFromDerived(s: LState, args: set<Cell>)
    requires DerivedOrder(s.derived, args + CellSet(s.extraColumns))
    ensures (args + CellSet(s.extraColumns)) !! DerivedCells(s.derived)
  {
    DerivedNotColumns(s.derived, args + CellSet(s.extraColumns));
  }

  lemma DerivedNotColumns(derived: seq<(Cell, LExpr)>, columns: set<Cell>)
    requires DerivedOrder(derived, columns)
    ensures columns !! DerivedCells(derived)
  {
    if derived != [] {
      var n := |derived| - 1;
      DerivedNotColumns(derived[..n], columns);
      forall c | c in DerivedCells(derived)
        ensures c !in columns
      {
        var i :| 0 <= i < |derived| && derived[i].0 == c;
        if i < n { assert derived[..n][i].0 in DerivedCells(derived[..n]); }
      }
    }
  }

  lemma MaterializeKeepsBudget(s: LState, s': LState, c: Cell, e: LExpr)
    requires Budgeted(s) && MaterializedInto(s, s', c, e) && c !in s.cells
    requires Closed(e, s) && Degree(e, s.cells) <= s.maxDegree - 1
    ensures Budgeted(s')
  {
    DegreeFrame(e, s.cells, s'.cells);
    assert Degree(Pinned(c, e), s'.cells) == Max(1, Degree(e, s.cells));
    forall i | 0 <= i < |s'.constraints|
      ensures Closed(s'.constraints[i], s') && Degree(s'.constraints[i], s'.cells) <= s'.maxDegree - 1
    {
      if i < |s.constraints| {
        assert s'.constraints[i] == s.constraints[i];
        DegreeFrame(s.constraints[i], s.cells, s'.cells);
      } else {
        assert s'.constraints[i] == Pinned(c, e);
      }
    }
    forall i | 0 <= i < |s.derived|
      ensures Degree(s.derived[i].1, s'.cells) == Degree(s.derived[i].1, s.cells)
    {
      DegreeFrame(s.derived[i].1, s.cells, s'.cells);
    }
  }
}
