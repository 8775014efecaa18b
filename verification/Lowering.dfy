// The degree-budget lowering, as functions over the lowerer's state: a felt
// function becomes single-assignment cells, committed columns, equality
// constraints and a fill program.  LowererClass is the in-place form.
module Lowering {
  import opened M31
  import opened Wrappers
  import opened FeltAst
  import opened FeltSemantics

  /** A cell: the version-th use of a base name. */
  datatype Cell = Cell(base: string, version: nat)

  /** Lowered expressions: constant subtrees verbatim, everything else over cells. */
  datatype LExpr =
    | Verbatim(source: Expr)
    | Ref(cell: Cell)
    | LBinary(op: Op, left: LExpr, right: LExpr)
    | LNeg(e: LExpr)

  datatype FillStep =
    | Assign(cell: Cell, e: LExpr)
    | CallFn(rets: seq<Cell>, callee: string, args: seq<Cell>)

  datatype Call = Call(callee: string, args: seq<Cell>, rets: seq<Cell>)

  /** A scalar in scope: its cell and its degree. */
  datatype Slot = Slot(cell: Cell, degree: nat)

  datatype Value = One(slot: Slot) | Many(slots: seq<Slot>)

  type Scope = map<string, Value>

  type Arities = map<string, (nat, nat)>

  datatype LState = LState(
    maxDegree: nat,
    cells: map<Cell, nat>,
    used: map<string, nat>,
    extraColumns: seq<Cell>,
    derived: seq<(Cell, LExpr)>,
    constraints: seq<LExpr>,
    fill: seq<FillStep>,
    calls: seq<Call>,
    cse: map<LExpr, Cell>,
    arities: Arities,
    fnName: string)

  // -- Names --------------------------------------------------------------------------

  function Digits(n: nat): string {
    if n < 10 then [('0' as int + n) as char] else Digits(n / 10) + [('0' as int + n % 10) as char]
  }

  function Indexed(base: string, k: nat): string {
    base + "_" + Digits(k)
  }

  // -- State updates --------------------------------------------------------------------

  function Fresh(s: LState, base: string): (LState, Cell) {
    var count := (if base in s.used then s.used[base] else 0) + 1;
    (s.(used := s.used[base := count]), Cell(base, count))
  }

  function RegisterColumn(s: LState, base: string): (LState, Cell) {
    var (s1, cell) := Fresh(s, base);
    (s1.(cells := s1.cells[cell := 1]), cell)
  }

  /** An extra committed column: a call return or a materialized cell. */
  function RegisterExtra(s: LState, base: string): (LState, Cell) {
    var (s1, cell) := RegisterColumn(s, base);
    (s1.(extraColumns := s1.extraColumns + [cell]), cell)
  }

  function RegisterDerived(s: LState, base: string, e: LExpr, degree: nat): (LState, Cell) {
    var (s1, cell) := Fresh(s, base);
    (s1.(cells := s1.cells[cell := degree],
         derived := s1.derived + [(cell, e)],
         fill := s1.fill + [Assign(cell, e)]),
     cell)
  }

  /** The equality constraint that pins a materialized cell. */
  function Pinned(cell: Cell, e: LExpr): LExpr {
    LBinary(Sub, Ref(cell), e)
  }

  function Materialize(s: LState, e: LExpr): (LState, Cell) {
    if e in s.cse then (s, s.cse[e])
    else
      var (s1, cell) := RegisterExtra(s, s.fnName + "_t" + Digits(|s.cse|));
      (s1.(constraints := s1.constraints + [Pinned(cell, e)],
           fill := s1.fill + [Assign(cell, e)],
           cse := s1.cse[e := cell]),
       cell)
  }

  // -- Expressions -------------------------------------------------------------------------

  /** Constant folding of a lowered expression. */
  function ConstLowered(e: LExpr): Option<Felt> {
    match e
    case Verbatim(f) => ConstValue(f, map[])
    case LBinary(op, l, r) =>
      var a :- ConstLowered(l);
      var b :- ConstLowered(r);
      (match op
       case Add => Some(FAdd(a, b))
       case Sub => Some(FSub(a, b))
       case Mul => Some(FMul(a, b))
       case Shl => Some(FMul(FPow(2, b), a))
       case _ => None)
    case _ => None
  }

  datatype Lowered = Lowered(e: LExpr, degree: nat)

  function Max(a: nat, b: nat): nat { if a >= b then a else b }

  /** Materialize the higher-degree side until the product fits the budget. */
  function FitProduct(s: LState, l: Lowered, r: Lowered, budget: nat): Result<(LState, Lowered)>
    decreases l.degree + r.degree
  {
    if l.degree + r.degree <= budget then
      Ok((s, Lowered(LBinary(Mul, l.e, r.e), l.degree + r.degree)))
    else if l.degree >= r.degree && l.degree > 1 then
      var (s1, cell) := Materialize(s, l.e);
      FitProduct(s1, Lowered(Ref(cell), 1), r, budget)
    else if r.degree > 1 then
      var (s1, cell) := Materialize(s, r.e);
      FitProduct(s1, l, Lowered(Ref(cell), 1), budget)
    else Err("cannot reduce product")
  }

  function LowerProduct(s: LState, l: Lowered, r: Lowered, budget: nat): Result<(LState, Lowered)> {
    if ConstLowered(l.e) == Some(1) then Ok((s, r))
    else if ConstLowered(r.e) == Some(1) then Ok((s, l))
    else FitProduct(s, l, r, budget)
  }

  const ONE: Lowered := Lowered(Verbatim(Lit(1)), 0)

  /** Exponentiation by squaring, low bit first. */
  function SquareAndMultiply(s: LState, power: Lowered, acc: Option<Lowered>, remaining: nat, budget: nat)
    : Result<(LState, Lowered)>
    decreases remaining
  {
    if remaining == 0 then Ok((s, if acc.Some? then acc.value else ONE))
    else
      var (s1, acc1) :- AccumulateBit(s, power, acc, remaining, budget);
      if remaining / 2 > 0 then
        var (s2, square) :- LowerProduct(s1, power, power, budget);
        SquareAndMultiply(s2, square, acc1, remaining / 2, budget)
      else SquareAndMultiply(s1, power, acc1, remaining / 2, budget)
  }

  function AccumulateBit(s: LState, power: Lowered, acc: Option<Lowered>, remaining: nat, budget: nat)
    : Result<(LState, Option<Lowered>)>
  {
    if remaining % 2 == 0 then Ok((s, acc))
    else if acc.None? then Ok((s, Some(power)))
    else
      var (s1, product) :- LowerProduct(s, acc.value, power, budget);
      Ok((s1, Some(product)))
  }

  function Require<T>(o: Option<T>, message: string): Result<T> {
    if o.Some? then Ok(o.value) else Err(message)
  }

  function ScalarNamed(x: string, scope: Scope): Result<Slot> {
    if x !in scope then Err("not defined in this frame")
    else if scope[x].Many? then Err("expected a scalar, found an array")
    else Ok(scope[x].slot)
  }

  function SlotsNamed(e: Expr, scope: Scope): Option<seq<Slot>> {
    var x :- PlainName(e, map[]);
    if x in scope && scope[x].Many? then Some(scope[x].slots) else None
  }

  function OfSlot(slot: Slot): Lowered {
    Lowered(Ref(slot.cell), slot.degree)
  }

  function Lower(s: LState, e: Expr, scope: Scope, budget: nat): Result<(LState, Lowered)>
    decreases ExprSize(e), 0, 0
  {
    if ConstValue(e, map[]).Some? then Ok((s, Lowered(Verbatim(e), 0)))
    else
      match e
      case Name(x) =>
        var slot :- ScalarNamed(x, scope);
        Ok((s, OfSlot(slot)))
      case Index(a, i) =>
        var slots :- Require(SlotsNamed(a, scope), "not an array in this frame");
        var k :- Require(IndexValue(i, map[]), "expected a constant index expression");
        if k < |slots| then Ok((s, OfSlot(slots[k]))) else Err("index out of bounds")
      case Constant(_, _) => Ok((s, Lowered(Verbatim(e), 0)))
      case Sum(j, a, b, body) =>
        var x :- Require(PlainName(j, map[]), "expected a plain name");
        var lo :- Require(IndexValue(a, map[]), "expected a constant range");
        var hi :- Require(IndexValue(b, map[]), "expected a constant range");
        if lo < hi then LowerSum(s, x, lo, hi, body, scope, budget) else Err("sum over an empty range")
      case Binary(op, l, r) =>
        (match op
         case Mul =>
           var (s1, ll) :- Lower(s, l, scope, budget);
           var (s2, lr) :- Lower(s1, r, scope, budget);
           LowerProduct(s2, ll, lr, budget)
         case Add =>
           var (s1, ll) :- Lower(s, l, scope, budget);
           var (s2, lr) :- Lower(s1, r, scope, budget);
           Ok((s2, Lowered(LBinary(op, ll.e, lr.e), Max(ll.degree, lr.degree))))
         case Sub =>
           var (s1, ll) :- Lower(s, l, scope, budget);
           var (s2, lr) :- Lower(s1, r, scope, budget);
           Ok((s2, Lowered(LBinary(op, ll.e, lr.e), Max(ll.degree, lr.degree))))
         case _ => Err("only +, -, *, and ** const are supported"))
      case Power(b, n) =>
        var k :- Require(IndexValue(n, map[]), "expected a constant index expression");
        if k == 0 then Ok((s, ONE))
        else
          var (s1, power) :- Lower(s, b, scope, budget);
          SquareAndMultiply(s1, power, None, k, budget)
      case Neg(f) =>
        var (s1, lf) :- Lower(s, f, scope, budget);
        Ok((s1, Lowered(LNeg(lf.e), lf.degree)))
      case Paren(f) => Lower(s, f, scope, budget)
      case _ => Err("unsupported expression in a felt function")
  }

  /** sum(x, lo..hi, body): an additive fold of the unrolled bodies. */
  function LowerSum(s: LState, x: string, lo: nat, hi: nat, body: Expr, scope: Scope, budget: nat)
    : Result<(LState, Lowered)>
    requires lo < hi
    decreases ExprSize(body), 1, hi - lo
  {
    SubstituteSize(body, x, hi - 1);
    if lo + 1 == hi then Lower(s, Substitute(body, x, lo), scope, budget)
    else
      var (s1, acc) :- LowerSum(s, x, lo, hi - 1, body, scope, budget);
      var (s2, last) :- Lower(s1, Substitute(body, x, hi - 1), scope, budget);
      Ok((s2, Lowered(LBinary(Add, acc.e, last.e), Max(acc.degree, last.degree))))
  }

  // -- Right-hand sides ------------------------------------------------------------------------

  /** Lower into a derived cell. */
  function LowerToCell(s: LState, e: Expr, base: string, scope: Scope, budget: nat): Result<(LState, Slot)> {
    var (s1, l) :- Lower(s, e, scope, budget);
    var (s2, cell) := RegisterDerived(s1, base, l.e, l.degree);
    Ok((s2, Slot(cell, l.degree)))
  }

  /** Array literal: one derived cell per element, numbered from position k. */
  function LowerElements(s: LState, es: seq<Expr>, k: nat, base: string, scope: Scope, budget: nat)
    : Result<(LState, seq<Slot>)>
    decreases |es|
  {
    if es == [] then Ok((s, []))
    else
      var (s1, slot) :- LowerToCell(s, es[0], Indexed(base, k), scope, budget);
      var (s2, slots) :- LowerElements(s1, es[1..], k + 1, base, scope, budget);
      Ok((s2, [slot] + slots))
  }

  /** map(x, lo..hi, body). */
  function LowerMap(s: LState, x: string, lo: nat, hi: nat, body: Expr, base: string, scope: Scope, budget: nat)
    : Result<(LState, seq<Slot>)>
    decreases hi - lo
  {
    if lo >= hi then Ok((s, []))
    else
      var (s1, slot) :- LowerToCell(s, Substitute(body, x, lo), Indexed(base, lo), scope, budget);
      var (s2, slots) :- LowerMap(s1, x, lo + 1, hi, body, base, scope, budget);
      Ok((s2, [slot] + slots))
  }

  /** Arguments of a spliced function, bound in its own scope. */
  function LowerParams(s: LState, callee: string, params: seq<Param>, args: seq<Expr>, scope: Scope, budget: nat)
    : Result<(LState, Scope)>
    requires |params| == |args|
  {
    if params == [] then Ok((s, map[]))
    else
      var n := |params| - 1;
      var (s1, local) :- LowerParams(s, callee, params[..n], args[..n], scope, budget);
      var (s2, value) :- LowerParam(s1, callee, params[n], args[n], scope, budget);
      Ok((s2, local[params[n].name := value]))
  }

  function LowerParam(s: LState, callee: string, p: Param, arg: Expr, scope: Scope, budget: nat)
    : Result<(LState, Value)>
  {
    match p.size
    case None =>
      var (s1, slot) :- LowerToCell(s, arg, callee + "_" + p.name, scope, budget);
      Ok((s1, One(slot)))
    case Some(size) =>
      var slots :- Require(SlotsNamed(arg, scope), "array arguments pass an array name");
      if |slots| == size then Ok((s, Many(slots))) else Err("wrong array size")
  }

  function SlotCells(slots: seq<Slot>): (cells: seq<Cell>)
    ensures |cells| == |slots|
    ensures forall i :: 0 <= i < |slots| ==> cells[i] == slots[i].cell
  {
    if slots == [] then [] else [slots[0].cell] + SlotCells(slots[1..])
  }

  /** Flattened arguments of an activation. */
  function LowerArgs(s: LState, callee: string, args: seq<Expr>, done: nat, scope: Scope, budget: nat)
    : Result<(LState, seq<Cell>)>
    decreases |args|
  {
    if args == [] then Ok((s, []))
    else
      var slots := SlotsNamed(args[0], scope);
      if slots.Some? then
        var (s1, rest) :- LowerArgs(s, callee, args[1..], done + |slots.value|, scope, budget);
        Ok((s1, SlotCells(slots.value) + rest))
      else
        var (s1, slot) :- LowerToCell(s, args[0], callee + "_a" + Digits(done), scope, budget);
        var (s2, rest) :- LowerArgs(s1, callee, args[1..], done + 1, scope, budget);
        Ok((s2, [slot.cell] + rest))
  }

  /** Fresh columns for call returns. */
  function RegisterReturns(s: LState, bases: seq<string>): (LState, seq<Cell>)
    decreases |bases|
  {
    if bases == [] then (s, [])
    else
      var (s1, cell) := RegisterExtra(s, bases[0]);
      var (s2, cells) := RegisterReturns(s1, bases[1..]);
      (s2, [cell] + cells)
  }

  function IndexedNames(base: string, n: nat): (names: seq<string>)
    ensures |names| == n
  {
    if n == 0 then [] else IndexedNames(base, n - 1) + [Indexed(base, n - 1)]
  }

  function ColumnSlots(cells: seq<Cell>): (slots: seq<Slot>)
    ensures |slots| == |cells|
    ensures forall i :: 0 <= i < |cells| ==> slots[i] == Slot(cells[i], 1)
  {
    if cells == [] then [] else [Slot(cells[0], 1)] + ColumnSlots(cells[1..])
  }

  function Scalars(slots: seq<Slot>): (vals: seq<Value>)
    ensures |vals| == |slots|
    ensures forall i :: 0 <= i < |slots| ==> vals[i] == One(slots[i])
  {
    if slots == [] then [] else [One(slots[0])] + Scalars(slots[1..])
  }

  /** An activation: arguments in cells, returns in witness columns. */
  function LowerActivation(s: LState, names: seq<string>, callee: string, args: seq<Expr>, scope: Scope, budget: nat)
    : Result<(LState, seq<Value>)>
    requires |names| > 0
  {
    if callee !in s.arities then Err("unknown function")
    else
      var (nArgs, nRets) := s.arities[callee];
      var (s1, argCells) :- LowerArgs(s, callee, args, 0, scope, budget);
      if |argCells| != nArgs then Err("wrong number of arguments")
      else
        var asArray := |names| == 1 && nRets > 1;
        if !asArray && |names| != nRets then Err("wrong number of binders")
        else
          var (s2, retCells) := RegisterReturns(s1, if asArray then IndexedNames(names[0], nRets) else names);
          var s3 := s2.(fill := s2.fill + [CallFn(retCells, callee, argCells)],
                        calls := s2.calls + [Call(callee, argCells, retCells)]);
          var slots := ColumnSlots(retCells);
          Ok((s3, if asArray then [Many(slots)] else Scalars(slots)))
  }

  function FlattenSlots(vals: seq<Value>): seq<Slot> {
    if vals == [] then []
    else (if vals[0].One? then [vals[0].slot] else vals[0].slots) + FlattenSlots(vals[1..])
  }

  /** Returns of a spliced function for n binders. */
  function BindReturns(n: nat, rets: seq<Value>): Result<seq<Value>> {
    if n == 1 then (if |rets| == 1 then Ok(rets) else Ok([Many(FlattenSlots(rets))]))
    else if n == |rets| then Ok(rets)
    else Err("binder count does not match returned values")
  }

  /** A return: an array by name, or a scalar in a fresh derived cell. */
  function LowerReturn(s: LState, e: Expr, scope: Scope, budget: nat): Result<(LState, Value)> {
    var slots := SlotsNamed(e, scope);
    if slots.Some? then Ok((s, Many(slots.value)))
    else
      var (s1, slot) :- LowerToCell(s, e, s.fnName + "_ret", scope, budget);
      Ok((s1, One(slot)))
  }

  function LowerReturns(s: LState, es: seq<Expr>, scope: Scope, budget: nat): Result<(LState, seq<Value>)>
    decreases |es|
  {
    if es == [] then Ok((s, []))
    else
      var (s1, v) :- LowerReturn(s, es[0], scope, budget);
      var (s2, vs) :- LowerReturns(s1, es[1..], scope, budget);
      Ok((s2, [v] + vs))
  }

  function LowerValue(s: LState, names: seq<string>, v: Rhs, scope: Scope, budget: nat): Result<(LState, seq<Value>)>
    requires |names| > 0
    decreases RhsSize(v), 2, 0
  {
    match v
    case Scalar(e) =>
      if |names| != 1 then Err("tuple bindings are only for function calls")
      else
        var (s1, slot) :- LowerToCell(s, e, names[0], scope, budget);
        Ok((s1, [One(slot)]))
    case ArrayLit(es) =>
      var (s1, slots) :- LowerElements(s, es, 0, names[0], scope, budget);
      Ok((s1, [Many(slots)]))
    case Map(j, a, b, body) =>
      var x :- Require(PlainName(j, map[]), "expected a plain name");
      var lo :- Require(IndexValue(a, map[]), "expected a constant range");
      var hi :- Require(IndexValue(b, map[]), "expected a constant range");
      var (s1, slots) :- LowerMap(s, x, lo, hi, body, names[0], scope, budget);
      Ok((s1, [Many(slots)]))
    case Update(a, i, e) =>
      var slots :- Require(SlotsNamed(a, scope), "update takes an array name");
      var k :- Require(IndexValue(i, map[]), "expected a constant index expression");
      if k >= |slots| then Err("update index out of bounds")
      else
        var (s1, slot) :- LowerToCell(s, e, Indexed(names[0], k), scope, budget);
        Ok((s1, [Many(slots[k := slot])]))
    case Splice(f, args) =>
      if |args| != |f.params| then Err("wrong number of arguments")
      else
        var (s1, local) :- LowerParams(s, f.name, f.params, args, scope, budget);
        var (s2, final) :- LowerBlock(s1, f.body, local, budget);
        var (s3, rets) :- LowerReturns(s2, f.rets, final, budget);
        var vals :- BindReturns(|names|, rets);
        Ok((s3, vals))
    case Activate(f, args) => LowerActivation(s, names, f, args, scope, budget)
  }

  // -- Statements ------------------------------------------------------------------------------

  function BindValues(names: seq<string>, vals: seq<Value>, scope: Scope): Scope {
    if names == [] || vals == [] then scope
    else BindValues(names[1..], vals[1..], scope[names[0] := vals[0]])
  }

  function LowerBlock(s: LState, body: seq<Stmt>, scope: Scope, budget: nat): Result<(LState, Scope)>
    decreases BlockSize(body), 1, 0
  {
    if body == [] then Ok((s, scope))
    else
      var (s1, scope1) :- LowerStmt(s, body[0], scope, budget);
      LowerBlock(s1, body[1..], scope1, budget)
  }

  function LowerStmt(s: LState, stmt: Stmt, scope: Scope, budget: nat): Result<(LState, Scope)>
    decreases StmtSize(stmt), 0, 0
  {
    match stmt
    case Let(names, v) =>
      if names == [] then Err("a let binds a name")
      else
        var (s1, vals) :- LowerValue(s, names, v, scope, budget);
        Ok((s1, BindValues(names, vals, scope)))
    case Assert(l, r) =>
      // The enabler gate costs one degree.
      if s.maxDegree == 0 then Err("max_degree must be 2 or 3")
      else
        var (s1, diff) :- Lower(s, Binary(Sub, Paren(l), Paren(r)), scope, s.maxDegree - 1);
        Ok((s1.(constraints := s1.constraints + [diff.e]), scope))
    case For(x, lo, hi, body) => LowerLoop(s, x, lo, hi, body, scope, budget)
  }

  /** A loop unrolls: each iteration is the body with the variable substituted. */
  function LowerLoop(s: LState, x: string, lo: nat, hi: nat, body: seq<Stmt>, scope: Scope, budget: nat)
    : Result<(LState, Scope)>
    decreases BlockSize(body), 2, hi - lo
  {
    if lo >= hi then Ok((s, scope))
    else
      SubstituteBlockSize(body, x, lo);
      var (s1, scope1) :- LowerBlock(s, SubstituteBlock(body, x, lo), scope, budget);
      LowerLoop(s1, x, lo + 1, hi, body, scope1, budget)
  }

  // -- Functions ---------------------------------------------------------------------------------

  /** Parameters are committed columns, arrays flattened. */
  function ParamColumns(s: LState, params: seq<Param>): (LState, Scope, seq<Cell>) {
    if params == [] then (s, map[], [])
    else
      var n := |params| - 1;
      var (s1, scope, cells) := ParamColumns(s, params[..n]);
      var p := params[n];
      match p.size
      case None =>
        var (s2, cell) := RegisterColumn(s1, p.name);
        (s2, scope[p.name := One(Slot(cell, 1))], cells + [cell])
      case Some(size) =>
        var (s2, elements) := RegisterArguments(s1, IndexedNames(p.name, size));
        (s2, scope[p.name := Many(ColumnSlots(elements))], cells + elements)
  }

  function RegisterArguments(s: LState, bases: seq<string>): (LState, seq<Cell>) {
    if bases == [] then (s, [])
    else
      var n := |bases| - 1;
      var (s1, cells) := RegisterArguments(s, bases[..n]);
      var (s2, cell) := RegisterColumn(s1, bases[n]);
      (s2, cells + [cell])
  }

  /** A lowered table-backed function. */
  datatype LoweredFn = LoweredFn(
    name: string,
    args: seq<Cell>,
    extraColumns: seq<Cell>,
    derived: seq<(Cell, LExpr)>,
    constraints: seq<LExpr>,
    calls: seq<Call>,
    fill: seq<FillStep>,
    rets: seq<Cell>)

  function Initial(maxDegree: nat, arities: Arities, fnName: string): LState {
    LState(maxDegree, map[], map[], [], [], [], [], [], map[], arities, fnName)
  }

  /** Embedded hosts commit every returned cell of degree above one. */
  function ReturnCells(s: LState, slots: seq<Slot>, materializeRets: bool): (LState, seq<Cell>) {
    if slots == [] then (s, [])
    else
      var n := |slots| - 1;
      var (s1, cells) := ReturnCells(s, slots[..n], materializeRets);
      if materializeRets && slots[n].degree > 1 then
        var (s2, cell) := Materialize(s1, Ref(slots[n].cell));
        (s2, cells + [cell])
      else (s1, cells + [slots[n].cell])
  }

  function FnReturns(s: LState, es: seq<Expr>, scope: Scope, budget: nat, materializeRets: bool)
    : Result<(LState, seq<Cell>)>
  {
    if es == [] then Ok((s, []))
    else
      var n := |es| - 1;
      var (s1, cells) :- FnReturns(s, es[..n], scope, budget, materializeRets);
      var (s2, v) :- LowerReturn(s1, es[n], scope, budget);
      var (s3, more) := ReturnCells(s2, if v.One? then [v.slot] else v.slots, materializeRets);
      Ok((s3, cells + more))
  }

  /** The final state of a lowered body, with its argument and return cells. */
  function LowerBody(f: AirFn, maxDegree: nat, arities: Arities, materializeRets: bool)
    : Result<(LState, seq<Cell>, seq<Cell>)>
    requires maxDegree >= 2
  {
    var (s0, scope, args) := ParamColumns(Initial(maxDegree, arities, f.name), f.params);
    var (s1, final) :- LowerBlock(s0, f.body, scope, maxDegree - 1);
    var (s2, rets) :- FnReturns(s1, f.rets, final, maxDegree - 1, materializeRets);
    Ok((s2, args, rets))
  }

  function LowerFn(f: AirFn, maxDegree: nat, arities: Arities, materializeRets: bool): Result<LoweredFn>
    requires maxDegree >= 2
  {
    var (s, args, rets) :- LowerBody(f, maxDegree, arities, materializeRets);
    Ok(LoweredFn(f.name, args, s.extraColumns, s.derived, s.constraints, s.calls, s.fill, rets))
  }
}
