// What lowered code means: expressions over a cell assignment, the fill program
// run step by step, and the invariant every step of the lowering keeps.
module LoweredMeaning {
  import opened M31
  import opened Wrappers
  import opened FeltAst
  import opened FeltSemantics
  import opened Lowering

  // -- Evaluation ------------------------------------------------------------------

  /** Values of cells: columns of a row, or all cells of a frame. */
  type Cells = map<Cell, Felt>

  function At(env: Cells, c: Cell): Felt {
    if c in env then env[c] else 0
  }

  function Eval(e: LExpr, env: Cells): Felt {
    match e
    case Verbatim(f) =>
      var v := ExprValue(f, map[], map[]);
      if v.Some? then v.value else 0
    case Ref(c) => At(env, c)
    case LBinary(op, l, r) =>
      (match op
       case Add => FAdd(Eval(l, env), Eval(r, env))
       case Sub => FSub(Eval(l, env), Eval(r, env))
       case Mul => FMul(Eval(l, env), Eval(r, env))
       case _ => 0)
    case LNeg(f) => FNeg(Eval(f, env))
  }

  function Vars(e: LExpr): set<Cell> {
    match e
    case Verbatim(_) => {}
    case Ref(c) => {c}
    case LBinary(_, l, r) => Vars(l) + Vars(r)
    case LNeg(f) => Vars(f)
  }

  /** Polynomial degree, given the degrees of the cells. */
  function Degree(e: LExpr, degrees: map<Cell, nat>): nat {
    match e
    case Verbatim(_) => 0
    case Ref(c) => if c in degrees then degrees[c] else 0
    case LBinary(op, l, r) =>
      if op == Mul then Degree(l, degrees) + Degree(r, degrees)
      else Max(Degree(l, degrees), Degree(r, degrees))
    case LNeg(f) => Degree(f, degrees)
  }

  ghost predicate Agree(env: Cells, env': Cells, on: set<Cell>) {
    forall c :: c in on ==> At(env, c) == At(env', c)
  }

  lemma {:induction false} EvalFrame(e: LExpr, env: Cells, env': Cells)
    requires Agree(env, env', Vars(e))
    ensures Eval(e, env) == Eval(e, env')
  {
    hide FAdd, FSub, FMul, FNeg;
    match e
    case Verbatim(_) =>
    case Ref(c) =>
    case LBinary(_, l, r) =>
      EvalFrame(l, env, env');
      EvalFrame(r, env, env');
    case LNeg(f) => EvalFrame(f, env, env');
  }

  lemma {:induction false} DegreeFrame(e: LExpr, d: map<Cell, nat>, d': map<Cell, nat>)
    requires forall c :: c in Vars(e) ==> c in d && c in d' && d[c] == d'[c]
    ensures Degree(e, d) == Degree(e, d')
  {
    match e
    case Verbatim(_) =>
    case Ref(c) =>
    case LBinary(_, l, r) =>
      DegreeFrame(l, d, d');
      DegreeFrame(r, d, d');
    case LNeg(f) => DegreeFrame(f, d, d');
  }

  // -- The fill program ------------------------------------------------------------------

  function Values(cells: seq<Cell>, env: Cells): (vs: seq<Felt>)
    ensures |vs| == |cells|
    ensures forall i :: 0 <= i < |cells| ==> vs[i] == At(env, cells[i])
  {
    if cells == [] then [] else [At(env, cells[0])] + Values(cells[1..], env)
  }

  /** Assign values to cells, left to right. */
  function Store(env: Cells, cells: seq<Cell>, vs: seq<Felt>): Cells
    requires |cells| == |vs|
  {
    if cells == [] then env
    else Store(env, cells[..|cells| - 1], vs[..|vs| - 1])[cells[|cells| - 1] := vs[|vs| - 1]]
  }

  function CallResult(orc: Oracle, callee: string, args: seq<Felt>): seq<Felt> {
    var r := orc(callee, args);
    if r.Some? then r.value else []
  }

  function Step(env: Cells, step: FillStep, orc: Oracle): Cells {
    match step
    case Assign(c, e) => env[c := Eval(e, env)]
    case CallFn(rets, callee, args) =>
      var vs := CallResult(orc, callee, Values(args, env));
      if |vs| == |rets| then Store(env, rets, vs) else env
  }

  /** The witness program: the lowered cells run concretely. */
  function Run(fill: seq<FillStep>, env: Cells, orc: Oracle): Cells {
    if fill == [] then env
    else Step(Run(fill[..|fill| - 1], env, orc), fill[|fill| - 1], orc)
  }

  ghost function CellSet(cells: seq<Cell>): set<Cell> {
    set c | c in cells
  }

  ghost function Assigned(step: FillStep): set<Cell> {
    match step
    case Assign(c, _) => {c}
    case CallFn(rets, _, _) => CellSet(rets)
  }

  /** Cells known after a fill over the argument cells. */
  ghost function Known(fill: seq<FillStep>, args: set<Cell>): set<Cell> {
    if fill == [] then args
    else Known(fill[..|fill| - 1], args) + Assigned(fill[|fill| - 1])
  }

  ghost predicate Distinct(cells: seq<Cell>) {
    forall i, j :: 0 <= i < j < |cells| ==> cells[i] != cells[j]
  }

  /** Single assignment: each step writes new cells and reads known ones. */
  ghost predicate StepOK(step: FillStep, known: set<Cell>, arities: Arities) {
    match step
    case Assign(c, e) => c !in known && Vars(e) <= known
    case CallFn(rets, f, args) =>
      && Distinct(rets) && CellSet(rets) !! known && CellSet(args) <= known
      && f in arities && |args| == arities[f].0 && |rets| == arities[f].1
  }

  ghost predicate FillOK(fill: seq<FillStep>, args: set<Cell>, arities: Arities) {
    fill == [] ||
    (var n := |fill| - 1;
     FillOK(fill[..n], args, arities) && StepOK(fill[n], Known(fill[..n], args), arities))
  }

  /** The oracle answers every call of known arity. */
  ghost predicate OracleFits(orc: Oracle, arities: Arities) {
    forall f, xs :: f in arities && |xs| == arities[f].0 ==>
      orc(f, xs).Some? && |orc(f, xs).value| == arities[f].1
  }

  lemma {:induction false} StoreSpec(env: Cells, cells: seq<Cell>, vs: seq<Felt>)
    requires |cells| == |vs| && Distinct(cells)
    ensures Store(env, cells, vs).Keys == env.Keys + CellSet(cells)
    ensures forall i :: 0 <= i < |cells| ==> At(Store(env, cells, vs), cells[i]) == vs[i]
    ensures forall c :: c !in cells ==> At(Store(env, cells, vs), c) == At(env, c)
  {
    if cells != [] {
      var n := |cells| - 1;
      StoreSpec(env, cells[..n], vs[..n]);
      assert CellSet(cells) == CellSet(cells[..n]) + {cells[n]};
      forall i | 0 <= i < |cells|
        ensures At(Store(env, cells, vs), cells[i]) == vs[i]
      {
        if i < n { assert cells[..n][i] == cells[i] && vs[..n][i] == vs[i]; }
      }
    }
  }

  lemma {:induction false} KnownGrows(fill: seq<FillStep>, k: nat, args: set<Cell>)
    requires k <= |fill|
    ensures Known(fill[..k], args) <= Known(fill, args)
  {
    if k < |fill| {
      var n := |fill| - 1;
      assert fill[..n][..k] == fill[..k];
      KnownGrows(fill[..n], k, args);
    } else {
      assert fill[..k] == fill;
    }
  }

  lemma {:induction false} RunKeys(fill: seq<FillStep>, env: Cells, orc: Oracle, arities: Arities)
    requires FillOK(fill, env.Keys, arities) && OracleFits(orc, arities)
    ensures Run(fill, env, orc).Keys == Known(fill, env.Keys)
  {
    if fill != [] {
      var n := |fill| - 1;
      RunKeys(fill[..n], env, orc, arities);
      var before := Run(fill[..n], env, orc);
      match fill[n]
      case Assign(c, e) =>
      case CallFn(rets, f, xs) =>
        StoreSpec(before, rets, CallResult(orc, f, Values(xs, before)));
    }
  }

  /** A step leaves the cells known before it alone. */
  lemma StepFrame(env: Cells, step: FillStep, orc: Oracle, arities: Arities)
    requires StepOK(step, env.Keys, arities) && OracleFits(orc, arities)
    ensures Agree(env, Step(env, step, orc), env.Keys)
  {
    match step
    case Assign(c, e) =>
    case CallFn(rets, f, xs) =>
      StoreSpec(env, rets, CallResult(orc, f, Values(xs, env)));
  }

  lemma {:induction false} PrefixOK(fill: seq<FillStep>, k: nat, args: set<Cell>, arities: Arities)
    requires k <= |fill| && FillOK(fill, args, arities)
    ensures FillOK(fill[..k], args, arities)
  {
    if k < |fill| {
      var n := |fill| - 1;
      assert fill[..n][..k] == fill[..k];
      PrefixOK(fill[..n], k, args, arities);
    } else {
      assert fill[..k] == fill;
    }
  }

  /** Running further keeps every cell known so far. */
  lemma {:induction false} RunPrefix(fill: seq<FillStep>, k: nat, env: Cells, orc: Oracle, arities: Arities)
    requires k <= |fill| && FillOK(fill, env.Keys, arities) && OracleFits(orc, arities)
    ensures Agree(Run(fill[..k], env, orc), Run(fill, env, orc), Known(fill[..k], env.Keys))
  {
    if k < |fill| {
      var n := |fill| - 1;
      assert fill[..n][..k] == fill[..k];
      RunPrefix(fill[..n], k, env, orc, arities);
      RunKeys(fill[..n], env, orc, arities);
      StepFrame(Run(fill[..n], env, orc), fill[n], orc, arities);
      KnownGrows(fill[..n], k, env.Keys);
    } else {
      assert fill[..k] == fill;
    }
  }

  /** An assignment computing e into c holds in the finished frame. */
  lemma {:induction false} RunAssign(fill: seq<FillStep>, i: nat, env: Cells, orc: Oracle, arities: Arities)
    requires i < |fill| && fill[i].Assign? && FillOK(fill, env.Keys, arities) && OracleFits(orc, arities)
    ensures var final := Run(fill, env, orc);
            At(final, fill[i].cell) == Eval(fill[i].e, final)
  {
    var step, before := fill[i], Run(fill[..i], env, orc);
    var after := Run(fill[..i + 1], env, orc);
    assert fill[..i + 1][..i] == fill[..i];
    PrefixOK(fill, i + 1, env.Keys, arities);
    PrefixOK(fill, i, env.Keys, arities);
    RunKeys(fill[..i], env, orc, arities);
    StepFrame(before, step, orc, arities);
    EvalFrame(step.e, before, after);
    RunPrefix(fill, i + 1, env, orc, arities);
    EvalFrame(step.e, after, Run(fill, env, orc));
  }

  /** A call's return cells hold the oracle's answer in the finished frame. */
  lemma {:induction false} RunCall(fill: seq<FillStep>, i: nat, env: Cells, orc: Oracle, arities: Arities)
    requires i < |fill| && fill[i].CallFn? && FillOK(fill, env.Keys, arities) && OracleFits(orc, arities)
    ensures var final := Run(fill, env, orc);
            orc(fill[i].callee, Values(fill[i].args, final)) == Some(Values(fill[i].rets, final))
  {
    var step, before := fill[i], Run(fill[..i], env, orc);
    var after, final := Run(fill[..i + 1], env, orc), Run(fill, env, orc);
    assert fill[..i + 1][..i] == fill[..i];
    PrefixOK(fill, i + 1, env.Keys, arities);
    PrefixOK(fill, i, env.Keys, arities);
    RunKeys(fill[..i], env, orc, arities);
    StepFrame(before, step, orc, arities);
    RunPrefix(fill, i + 1, env, orc, arities);
    var vs := CallResult(orc, step.callee, Values(step.args, before));
    StoreSpec(before, step.rets, vs);
    assert Values(step.args, final) == Values(step.args, before);
    assert Values(step.rets, final) == vs;
  }
}
