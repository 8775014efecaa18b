// The lowerer in place: the fields it updates, its loops, and a proof that each
// method computes the specification's state and result.
module LowererClass {
  import opened Wrappers
  import opened FeltAst
  import opened FeltSemantics
  import opened Lowering

  class Lowerer {
    const maxDegree: nat
    const arities: Arities
    const fnName: string
    var cells: map<Cell, nat>
    var used: map<string, nat>
    var extraColumns: seq<Cell>
    var derived: seq<(Cell, LExpr)>
    var constraints: seq<LExpr>
    var fill: seq<FillStep>
    var calls: seq<Call>
    var cse: map<LExpr, Cell>

    constructor (maxDegree: nat, arities: Arities, fnName: string)
      ensures State() == Initial(maxDegree, arities, fnName)
    {
      this.maxDegree, this.arities, this.fnName := maxDegree, arities, fnName;
      cells, used, extraColumns, derived, constraints := map[], map[], [], [], [];
      fill, calls, cse := [], [], map[];
    }

    function State(): LState
      reads this
    {
      LState(maxDegree, cells, used, extraColumns, derived, constraints, fill, calls, cse, arities, fnName)
    }

    // -- Cells ------------------------------------------------------------------------

    method FreshCell(base: string) returns (cell: Cell)
      modifies this`used
      ensures (State(), cell) == Fresh(old(State()), base)
    {
      var count := if base in used then used[base] else 0;
      count := count + 1;
      used := used[base := count];
      cell := Cell(base, count);
    }

    method AddColumn(base: string) returns (cell: Cell)
      modifies this
      ensures (State(), cell) == RegisterColumn(old(State()), base)
    {
      cell := FreshCell(base);
      cells := cells[cell := 1];
    }

    method AddExtra(base: string) returns (cell: Cell)
      modifies this
      ensures (State(), cell) == RegisterExtra(old(State()), base)
    {
      cell := AddColumn(base);
      extraColumns := extraColumns + [cell];
    }

    method AddDerived(base: string, e: LExpr, degree: nat) returns (cell: Cell)
      modifies this
      ensures (State(), cell) == RegisterDerived(old(State()), base, e, degree)
    {
      cell := FreshCell(base);
      cells := cells[cell := degree];
      derived := derived + [(cell, e)];
      fill := fill + [Assign(cell, e)];
    }

    method MaterializeCell(e: LExpr) returns (cell: Cell)
      modifies this
      ensures (State(), cell) == Materialize(old(State()), e)
    {
      if e in cse {
        cell := cse[e];
      } else {
        cell := AddExtra(fnName + "_t" + Digits(|cse|));
        constraints := constraints + [Pinned(cell, e)];
        fill := fill + [Assign(cell, e)];
        cse := cse[e := cell];
      }
    }

    // -- Products and powers -----------------------------------------------------------

    /** Materialize the higher-degree side while the product does not fit. */
    method Product(l: Lowered, r: Lowered, budget: nat) returns (result: Result<Lowered>)
      modifies this
      ensures result.Ok? <==> LowerProduct(old(State()), l, r, budget).Ok?
      ensures result.Ok? ==> LowerProduct(old(State()), l, r, budget) == Ok((State(), result.value))
    {
      if ConstLowered(l.e) == Some(1) { return Ok(r); }
      if ConstLowered(r.e) == Some(1) { return Ok(l); }
      var left, right := l, r;
      while left.degree + right.degree > budget
        invariant FitProduct(State(), left, right, budget) == FitProduct(old(State()), l, r, budget)
        decreases left.degree + right.degree
      {
        if left.degree >= right.degree && left.degree > 1 {
          var cell := MaterializeCell(left.e);
          left := Lowered(Ref(cell), 1);
        } else if right.degree > 1 {
          var cell := MaterializeCell(right.e);
          right := Lowered(Ref(cell), 1);
        } else {
          return Err("cannot reduce product");
        }
      }
      return Ok(Lowered(LBinary(Mul, left.e, right.e), left.degree + right.degree));
    }

    /** Exponentiation by squaring, after the base is lowered. */
    method Powers(base: Lowered, exponent: nat, budget: nat) returns (result: Result<Lowered>)
      modifies this
      ensures result.Ok? <==> SquareAndMultiply(old(State()), base, None, exponent, budget).Ok?
      ensures result.Ok? ==> SquareAndMultiply(old(State()), base, None, exponent, budget) == Ok((State(), result.value))
    {
      var power := base;
      var acc: Option<Lowered> := None;
      var remaining := exponent;
      while remaining > 0
        invariant SquareAndMultiply(State(), power, acc, remaining, budget)
               == SquareAndMultiply(old(State()), base, None, exponent, budget)
        decreases remaining
      {
        if remaining % 2 == 1 {
          if acc.None? {
            acc := Some(power);
          } else {
            var product :- Product(acc.value, power, budget);
            acc := Some(product);
          }
        }
        if remaining / 2 > 0 {
          power :- Product(power, power, budget);
        }
        remaining := remaining / 2;
      }
      return Ok(if acc.Some? then acc.value else ONE);
    }

    // -- Expressions --------------------------------------------------------------------

    /** The slot of an array element. */
    method ElementNamed(a: Expr, i: Expr, scope: Scope) returns (result: Result<Slot>)
      ensures var slots, k := SlotsNamed(a, scope), IndexValue(i, map[]);
              && (result.Ok? <==> slots.Some? && k.Some? && k.value < |slots.value|)
              && (result.Ok? ==> result.value == slots.value[k.value])
    {
      hide SlotsNamed, IndexValue;
      var slots :- Require(SlotsNamed(a, scope), "not an array in this frame");
      var k :- Require(IndexValue(i, map[]), "expected a constant index expression");
      if k >= |slots| { return Err("index out of bounds"); }
      return Ok(slots[k]);
    }

    method LowerExpr(e: Expr, scope: Scope, budget: nat) returns (result: Result<Lowered>)
      modifies this
      ensures result.Ok? <==> Lower(old(State()), e, scope, budget).Ok?
      ensures result.Ok? ==> Lower(old(State()), e, scope, budget) == Ok((State(), result.value))
      decreases ExprSize(e), 0
    {
      hide ConstValue, IndexValue, LowerProduct, SquareAndMultiply, SlotsNamed, LowerSum, ScalarNamed;
      if ConstValue(e, map[]).Some? { return Ok(Lowered(Verbatim(e), 0)); }
      match e
      case Name(x) =>
        var slot :- ScalarNamed(x, scope);
        return Ok(OfSlot(slot));
      case Index(a, i) =>
        var slot :- ElementNamed(a, i, scope);
        return Ok(OfSlot(slot));
      case Constant(_, _) => return Ok(Lowered(Verbatim(e), 0));
      case Sum(j, a, b, body) =>
        var x :- Require(PlainName(j, map[]), "expected a plain name");
        var lo :- Require(IndexValue(a, map[]), "expected a constant range");
        var hi :- Require(IndexValue(b, map[]), "expected a constant range");
        if lo >= hi { return Err("sum over an empty range"); }
        result := LowerSumOf(x, lo, hi, body, scope, budget);
      case Binary(_, _, _) => result := LowerBinary(e, scope, budget);
      case Power(_, _) => result := LowerPower(e, scope, budget);
      case Neg(f) =>
        var lf :- LowerExpr(f, scope, budget);
        return Ok(Lowered(LNeg(lf.e), lf.degree));
      case Paren(f) => result := LowerExpr(f, scope, budget);
      case _ => return Err("unsupported expression in a felt function");
    }

    method LowerBinary(e: Expr, scope: Scope, budget: nat) returns (result: Result<Lowered>)
      requires e.Binary? && ConstValue(e, map[]).None?
      modifies this
      ensures result.Ok? <==> Lower(old(State()), e, scope, budget).Ok?
      ensures result.Ok? ==> Lower(old(State()), e, scope, budget) == Ok((State(), result.value))
      decreases ExprSize(e.left) + ExprSize(e.right), 2
    {
      hide ConstValue, LowerProduct;
      if e.op != Mul && e.op != Add && e.op != Sub { return Err("only +, -, *, and ** const are supported"); }
      var ll :- LowerExpr(e.left, scope, budget);
      var lr :- LowerExpr(e.right, scope, budget);
      if e.op == Mul {
        result := Product(ll, lr, budget);
      } else {
        return Ok(Lowered(LBinary(e.op, ll.e, lr.e), Max(ll.degree, lr.degree)));
      }
    }

    method LowerPower(e: Expr, scope: Scope, budget: nat) returns (result: Result<Lowered>)
      requires e.Power? && ConstValue(e, map[]).None?
      modifies this
      ensures result.Ok? <==> Lower(old(State()), e, scope, budget).Ok?
      ensures result.Ok? ==> Lower(old(State()), e, scope, budget) == Ok((State(), result.value))
      decreases ExprSize(e.base) + ExprSize(e.exponent), 2
    {
      hide ConstValue, IndexValue, SquareAndMultiply;
      var k :- Require(IndexValue(e.exponent, map[]), "expected a constant index expression");
      if k == 0 { return Ok(ONE); }
      var power :- LowerExpr(e.base, scope, budget);
      result := Powers(power, k, budget);
    }

    /** sum(x, lo..hi, body): lower each unrolled body and fold. */
    method LowerSumOf(x: string, lo: nat, hi: nat, body: Expr, scope: Scope, budget: nat) returns (result: Result<Lowered>)
      requires lo < hi
      modifies this
      ensures result.Ok? <==> LowerSum(old(State()), x, lo, hi, body, scope, budget).Ok?
      ensures result.Ok? ==> LowerSum(old(State()), x, lo, hi, body, scope, budget) == Ok((State(), result.value))
      decreases ExprSize(body), 1
    {
      hide Lower, Substitute, LowerSum;
      SubstituteSize(body, x, lo);
      SumStarts(State(), x, lo, body, scope, budget);
      var first := LowerExpr(Substitute(body, x, lo), scope, budget);
      if first.Err? {
        SumFails(old(State()), x, lo, lo + 1, hi, body, scope, budget);
        return Err(first.message);
      }
      var total := first.value;
      var next := lo + 1;
      while next < hi
        invariant lo < next <= hi
        invariant LowerSum(old(State()), x, lo, next, body, scope, budget) == Ok((State(), total))
      {
        SubstituteSize(body, x, next);
        var term := LowerExpr(Substitute(body, x, next), scope, budget);
        if term.Err? {
          SumGoesOn(old(State()), x, lo, next, body, scope, budget);
          SumFails(old(State()), x, lo, next + 1, hi, body, scope, budget);
          return Err(term.message);
        }
        SumGoesOn(old(State()), x, lo, next, body, scope, budget);
        total := Lowered(LBinary(Add, total.e, term.value.e), Max(total.degree, term.value.degree));
        next := next + 1;
      }
      return Ok(total);
    }

    // -- Derived cells and arrays ----------------------------------------------------------

    method LowerCell(e: Expr, base: string, scope: Scope, budget: nat) returns (result: Result<Slot>)
      modifies this
      ensures result.Ok? <==> LowerToCell(old(State()), e, base, scope, budget).Ok?
      ensures result.Ok? ==> LowerToCell(old(State()), e, base, scope, budget) == Ok((State(), result.value))
    {
      hide Lower;
      var l :- LowerExpr(e, scope, budget);
      var cell := AddDerived(base, l.e, l.degree);
      return Ok(Slot(cell, l.degree));
    }

    method ElementCells(es: seq<Expr>, base: string, scope: Scope, budget: nat) returns (result: Result<seq<Slot>>)
      modifies this
      ensures result.Ok? <==> LowerElements(old(State()), es, 0, base, scope, budget).Ok?
      ensures result.Ok? ==> LowerElements(old(State()), es, 0, base, scope, budget) == Ok((State(), result.value))
    {
      hide LowerToCell, Digits;
      var slots: seq<Slot> := [];
      var k := 0;
      assert es[0..] == es;
      JoinedNone(LowerElements(State(), es, 0, base, scope, budget));
      while k < |es|
        invariant k <= |es|
        invariant Joined(slots, LowerElements(State(), es[k..], k, base, scope, budget))
               == LowerElements(old(State()), es, 0, base, scope, budget)
      {
        assert es[k..][0] == es[k] && es[k..][1..] == es[k + 1..];
        var slot :- LowerCell(es[k], Indexed(base, k), scope, budget);
        JoinedMore(slots, [slot], LowerElements(State(), es[k + 1..], k + 1, base, scope, budget));
        slots := slots + [slot];
        k := k + 1;
      }
      assert es[k..] == [] && slots + [] == slots;
      return Ok(slots);
    }

    method MapCells(x: string, lo: nat, hi: nat, body: Expr, base: string, scope: Scope, budget: nat)
      returns (result: Result<seq<Slot>>)
      modifies this
      ensures result.Ok? <==> LowerMap(old(State()), x, lo, hi, body, base, scope, budget).Ok?
      ensures result.Ok? ==> LowerMap(old(State()), x, lo, hi, body, base, scope, budget) == Ok((State(), result.value))
    {
      hide LowerToCell, Digits, Substitute;
      var slots: seq<Slot> := [];
      var k := lo;
      JoinedNone(LowerMap(State(), x, lo, hi, body, base, scope, budget));
      while k < hi
        invariant Joined(slots, LowerMap(State(), x, k, hi, body, base, scope, budget))
               == LowerMap(old(State()), x, lo, hi, body, base, scope, budget)
      {
        var slot :- LowerCell(Substitute(body, x, k), Indexed(base, k), scope, budget);
        JoinedMore(slots, [slot], LowerMap(State(), x, k + 1, hi, body, base, scope, budget));
        slots := slots + [slot];
        k := k + 1;
      }
      assert slots + [] == slots;
      return Ok(slots);
    }

    // -- Calls --------------------------------------------------------------------------------

    /** Flattened arguments of an activation. */
    method ArgCells(callee: string, args: seq<Expr>, scope: Scope, budget: nat) returns (result: Result<seq<Cell>>)
      modifies this
      ensures result.Ok? <==> LowerArgs(old(State()), callee, args, 0, scope, budget).Ok?
      ensures result.Ok? ==> LowerArgs(old(State()), callee, args, 0, scope, budget) == Ok((State(), result.value))
    {
      hide LowerToCell, Digits, SlotsNamed;
      var argCells: seq<Cell> := [];
      var k := 0;
      assert args[0..] == args;
      JoinedNone(LowerArgs(State(), callee, args, 0, scope, budget));
      while k < |args|
        invariant k <= |args|
        invariant Joined(argCells, LowerArgs(State(), callee, args[k..], |argCells|, scope, budget))
               == LowerArgs(old(State()), callee, args, 0, scope, budget)
      {
        assert args[k..][0] == args[k] && args[k..][1..] == args[k + 1..];
        var slots := SlotsNamed(args[k], scope);
        ghost var before := argCells;
        if slots.Some? {
          argCells := argCells + SlotCells(slots.value);
        } else {
          var slot :- LowerCell(args[k], callee + "_a" + Digits(|argCells|), scope, budget);
          argCells := argCells + [slot.cell];
        }
        JoinedMore(before, argCells[|before|..], LowerArgs(State(), callee, args[k + 1..], |argCells|, scope, budget));
        k := k + 1;
      }
      assert args[k..] == [] && argCells + [] == argCells;
      return Ok(argCells);
    }

    method ReturnColumns(bases: seq<string>) returns (rets: seq<Cell>)
      modifies this
      ensures (State(), rets) == RegisterReturns(old(State()), bases)
    {
      rets := [];
      var k := 0;
      assert bases[0..] == bases;
      assert [] + RegisterReturns(State(), bases).1 == RegisterReturns(State(), bases).1;
      while k < |bases|
        invariant k <= |bases|
        invariant var rest := RegisterReturns(State(), bases[k..]);
                  RegisterReturns(old(State()), bases) == (rest.0, rets + rest.1)
      {
        assert bases[k..][0] == bases[k] && bases[k..][1..] == bases[k + 1..];
        var cell := AddExtra(bases[k]);
        ghost var rest := RegisterReturns(State(), bases[k + 1..]);
        assert rets + ([cell] + rest.1) == rets + [cell] + rest.1;
        rets := rets + [cell];
        k := k + 1;
      }
      assert bases[k..] == [] && rets + [] == rets;
    }

    method LowerActivationOf(names: seq<string>, callee: string, args: seq<Expr>, scope: Scope, budget: nat)
      returns (result: Result<seq<Value>>)
      requires |names| > 0
      modifies this
      ensures result.Ok? <==> LowerActivation(old(State()), names, callee, args, scope, budget).Ok?
      ensures result.Ok? ==> LowerActivation(old(State()), names, callee, args, scope, budget) == Ok((State(), result.value))
    {
      hide LowerArgs, RegisterReturns;
      if callee !in arities { return Err("unknown function"); }
      var (nArgs, nRets) := arities[callee];
      var argCells :- ArgCells(callee, args, scope, budget);
      if |argCells| != nArgs { return Err("wrong number of arguments"); }
      var asArray := |names| == 1 && nRets > 1;
      if !asArray && |names| != nRets { return Err("wrong number of binders"); }
      var retCells := ReturnColumns(if asArray then IndexedNames(names[0], nRets) else names);
      fill := fill + [CallFn(retCells, callee, argCells)];
      calls := calls + [Call(callee, argCells, retCells)];
      var slots := ColumnSlots(retCells);
      return Ok(if asArray then [Many(slots)] else Scalars(slots));
    }

    /** Bind arguments into the callee's own scope. */
    method LocalScope(callee: string, params: seq<Param>, args: seq<Expr>, scope: Scope, budget: nat)
      returns (result: Result<Scope>)
      requires |params| == |args|
      modifies this
      ensures result.Ok? <==> LowerParams(old(State()), callee, params, args, scope, budget).Ok?
      ensures result.Ok? ==> LowerParams(old(State()), callee, params, args, scope, budget) == Ok((State(), result.value))
    {
      hide LowerToCell, SlotsNamed;
      var local: Scope := map[];
      var k := 0;
      while k < |params|
        invariant k <= |params|
        invariant LowerParams(old(State()), callee, params[..k], args[..k], scope, budget) == Ok((State(), local))
      {
        var p, arg := params[k], args[k];
        assert params[..k + 1][..k] == params[..k] && args[..k + 1][..k] == args[..k];
        if p.size.None? {
          var slot := LowerCell(arg, callee + "_" + p.name, scope, budget);
          if slot.Err? {
            ParamsFail(old(State()), callee, params, args, k + 1, scope, budget);
            return Err(slot.message);
          }
          local := local[p.name := One(slot.value)];
        } else {
          var slots := SlotsNamed(arg, scope);
          if slots.None? || |slots.value| != p.size.value {
            ParamsFail(old(State()), callee, params, args, k + 1, scope, budget);
            return Err("array arguments pass an array name of the parameter's size");
          }
          local := local[p.name := Many(slots.value)];
        }
        k := k + 1;
      }
      assert params[..k] == params && args[..k] == args;
      return Ok(local);
    }

    // -- Returns -----------------------------------------------------------------------------------

    method LowerRet(e: Expr, scope: Scope, budget: nat) returns (result: Result<Value>)
      modifies this
      ensures result.Ok? <==> LowerReturn(old(State()), e, scope, budget).Ok?
      ensures result.Ok? ==> LowerReturn(old(State()), e, scope, budget) == Ok((State(), result.value))
    {
      hide LowerToCell, SlotsNamed;
      var slots := SlotsNamed(e, scope);
      if slots.Some? { return Ok(Many(slots.value)); }
      var slot :- LowerCell(e, fnName + "_ret", scope, budget);
      return Ok(One(slot));
    }

    method LowerRets(es: seq<Expr>, scope: Scope, budget: nat) returns (result: Result<seq<Value>>)
      modifies this
      ensures result.Ok? <==> LowerReturns(old(State()), es, scope, budget).Ok?
      ensures result.Ok? ==> LowerReturns(old(State()), es, scope, budget) == Ok((State(), result.value))
    {
      hide LowerReturn;
      var vals: seq<Value> := [];
      var k := 0;
      assert es[0..] == es;
      JoinedNone(LowerReturns(State(), es, scope, budget));
      while k < |es|
        invariant k <= |es|
        invariant Joined(vals, LowerReturns(State(), es[k..], scope, budget)) == LowerReturns(old(State()), es, scope, budget)
      {
        assert es[k..][0] == es[k] && es[k..][1..] == es[k + 1..];
        var v :- LowerRet(es[k], scope, budget);
        JoinedMore(vals, [v], LowerReturns(State(), es[k + 1..], scope, budget));
        vals := vals + [v];
        k := k + 1;
      }
      assert es[k..] == [] && vals + [] == vals;
      return Ok(vals);
    }

    // -- Right-hand sides and statements ----------------------------------------------------------------

    method LowerRhs(names: seq<string>, v: Rhs, scope: Scope, budget: nat) returns (result: Result<seq<Value>>)
      requires |names| > 0
      modifies this
      ensures result.Ok? <==> LowerValue(old(State()), names, v, scope, budget).Ok?
      ensures result.Ok? ==> LowerValue(old(State()), names, v, scope, budget) == Ok((State(), result.value))
      decreases RhsSize(v), 2, 0
    {
      hide LowerToCell, LowerElements, LowerMap, LowerActivation, IndexValue, SlotsNamed, LowerParams, LowerBlock, LowerReturns,
           Digits, BindReturns;
      match v
      case Scalar(e) =>
        if |names| != 1 { return Err("tuple bindings are only for function calls"); }
        var slot :- LowerCell(e, names[0], scope, budget);
        return Ok([One(slot)]);
      case ArrayLit(es) =>
        var slots :- ElementCells(es, names[0], scope, budget);
        return Ok([Many(slots)]);
      case Map(j, a, b, body) =>
        var x :- Require(PlainName(j, map[]), "expected a plain name");
        var lo :- Require(IndexValue(a, map[]), "expected a constant range");
        var hi :- Require(IndexValue(b, map[]), "expected a constant range");
        var slots :- MapCells(x, lo, hi, body, names[0], scope, budget);
        return Ok([Many(slots)]);
      case Update(a, i, e) =>
        var slots :- Require(SlotsNamed(a, scope), "update takes an array name");
        var k :- Require(IndexValue(i, map[]), "expected a constant index expression");
        if k >= |slots| { return Err("update index out of bounds"); }
        var slot :- LowerCell(e, Indexed(names[0], k), scope, budget);
        return Ok([Many(slots[k := slot])]);
      case Splice(_, _) => result := LowerSplice(names, v, scope, budget);
      case Activate(f, args) => result := LowerActivationOf(names, f, args, scope, budget);
    }

    /** Splice an inline function into this frame. */
    method LowerSplice(names: seq<string>, v: Rhs, scope: Scope, budget: nat) returns (result: Result<seq<Value>>)
      requires |names| > 0 && v.Splice?
      modifies this
      ensures result.Ok? <==> LowerValue(old(State()), names, v, scope, budget).Ok?
      ensures result.Ok? ==> LowerValue(old(State()), names, v, scope, budget) == Ok((State(), result.value))
      decreases RhsSize(v), 1, 0
    {
      hide LowerParams, LowerBlock, LowerReturns, BindReturns;
      var f := v.callee;
      if |v.args| != |f.params| { return Err("wrong number of arguments"); }
      var local :- LocalScope(f.name, f.params, v.args, scope, budget);
      var final :- LowerStmts(f.body, local, budget);
      var rets :- LowerRets(f.rets, final, budget);
      var vals :- BindReturns(|names|, rets);
      return Ok(vals);
    }

    method LowerStmts(body: seq<Stmt>, scope: Scope, budget: nat) returns (result: Result<Scope>)
      modifies this
      ensures result.Ok? <==> LowerBlock(old(State()), body, scope, budget).Ok?
      ensures result.Ok? ==> LowerBlock(old(State()), body, scope, budget) == Ok((State(), result.value))
      decreases BlockSize(body), 1, 0
    {
      hide LowerStmt;
      var local := scope;
      var k := 0;
      assert body[0..] == body;
      while k < |body|
        invariant k <= |body|
        invariant LowerBlock(State(), body[k..], local, budget) == LowerBlock(old(State()), body, scope, budget)
        invariant BlockSize(body[k..]) <= BlockSize(body)
      {
        assert body[k..][0] == body[k] && body[k..][1..] == body[k + 1..];
        local :- LowerOne(body[k], local, budget);
        k := k + 1;
      }
      assert body[k..] == [];
      return Ok(local);
    }

    method LowerOne(stmt: Stmt, scope: Scope, budget: nat) returns (result: Result<Scope>)
      modifies this
      ensures result.Ok? <==> LowerStmt(old(State()), stmt, scope, budget).Ok?
      ensures result.Ok? ==> LowerStmt(old(State()), stmt, scope, budget) == Ok((State(), result.value))
      decreases StmtSize(stmt), 0, 0
    {
      hide LowerValue, Lower, LowerLoop, BindValues;
      match stmt
      case Let(names, v) =>
        if names == [] { return Err("a let binds a name"); }
        var vals :- LowerRhs(names, v, scope, budget);
        return Ok(BindValues(names, vals, scope));
      case Assert(l, r) =>
        if maxDegree == 0 { return Err("max_degree must be 2 or 3"); }
        var diff :- LowerExpr(Binary(Sub, Paren(l), Paren(r)), scope, maxDegree - 1);
        constraints := constraints + [diff.e];
        return Ok(scope);
      case For(x, lo, hi, body) => result := Unroll(x, lo, hi, body, scope, budget);
    }

    method Unroll(x: string, lo: nat, hi: nat, body: seq<Stmt>, scope: Scope, budget: nat) returns (result: Result<Scope>)
      modifies this
      ensures result.Ok? <==> LowerLoop(old(State()), x, lo, hi, body, scope, budget).Ok?
      ensures result.Ok? ==> LowerLoop(old(State()), x, lo, hi, body, scope, budget) == Ok((State(), result.value))
      decreases BlockSize(body), 2, 0
    {
      hide LowerBlock, SubstituteBlock, BlockSize;
      var local := scope;
      var k := lo;
      while k < hi
        invariant LowerLoop(State(), x, k, hi, body, local, budget) == LowerLoop(old(State()), x, lo, hi, body, scope, budget)
      {
        SubstituteBlockSize(body, x, k);
        local :- LowerStmts(SubstituteBlock(body, x, k), local, budget);
        k := k + 1;
      }
      return Ok(local);
    }

    // -- Functions ------------------------------------------------------------------------------------------

    method ArgumentColumns(bases: seq<string>) returns (columns: seq<Cell>)
      modifies this
      ensures (State(), columns) == RegisterArguments(old(State()), bases)
    {
      columns := [];
      var k := 0;
      while k < |bases|
        invariant k <= |bases|
        invariant RegisterArguments(old(State()), bases[..k]) == (State(), columns)
      {
        assert bases[..k + 1][..k] == bases[..k];
        var cell := AddColumn(bases[k]);
        columns := columns + [cell];
        k := k + 1;
      }
      assert bases[..k] == bases;
    }

    /** Parameters become committed columns, arrays flattened. */
    method Parameters(params: seq<Param>) returns (scope: Scope, columns: seq<Cell>)
      modifies this
      ensures (State(), scope, columns) == ParamColumns(old(State()), params)
    {
      hide RegisterArguments, RegisterColumn, Digits;
      scope, columns := map[], [];
      var k := 0;
      while k < |params|
        invariant k <= |params|
        invariant ParamColumns(old(State()), params[..k]) == (State(), scope, columns)
      {
        var p := params[k];
        assert params[..k + 1][..k] == params[..k];
        if p.size.None? {
          var cell := AddColumn(p.name);
          scope, columns := scope[p.name := One(Slot(cell, 1))], columns + [cell];
        } else {
          var elements := ArgumentColumns(IndexedNames(p.name, p.size.value));
          scope, columns := scope[p.name := Many(ColumnSlots(elements))], columns + elements;
        }
        k := k + 1;
      }
      assert params[..k] == params;
    }

    /** Embedded hosts commit every returned cell of degree above one. */
    method CommitReturns(slots: seq<Slot>, materializeRets: bool) returns (columns: seq<Cell>)
      modifies this
      ensures (State(), columns) == ReturnCells(old(State()), slots, materializeRets)
    {
      hide Materialize;
      columns := [];
      var k := 0;
      while k < |slots|
        invariant k <= |slots|
        invariant ReturnCells(old(State()), slots[..k], materializeRets) == (State(), columns)
      {
        assert slots[..k + 1][..k] == slots[..k];
        if materializeRets && slots[k].degree > 1 {
          var cell := MaterializeCell(Ref(slots[k].cell));
          columns := columns + [cell];
        } else {
          columns := columns + [slots[k].cell];
        }
        k := k + 1;
      }
      assert slots[..k] == slots;
    }

    method FunctionReturns(es: seq<Expr>, scope: Scope, budget: nat, materializeRets: bool) returns (result: Result<seq<Cell>>)
      modifies this
      ensures result.Ok? <==> FnReturns(old(State()), es, scope, budget, materializeRets).Ok?
      ensures result.Ok? ==> FnReturns(old(State()), es, scope, budget, materializeRets) == Ok((State(), result.value))
    {
      hide LowerReturn, ReturnCells;
      var columns: seq<Cell> := [];
      var k := 0;
      while k < |es|
        invariant k <= |es|
        invariant FnReturns(old(State()), es[..k], scope, budget, materializeRets) == Ok((State(), columns))
      {
        assert es[..k + 1][..k] == es[..k];
        var v := LowerRet(es[k], scope, budget);
        if v.Err? {
          ReturnsFail(old(State()), es, k + 1, scope, budget, materializeRets);
          return Err(v.message);
        }
        var more := CommitReturns(if v.value.One? then [v.value.slot] else v.value.slots, materializeRets);
        columns := columns + more;
        k := k + 1;
      }
      assert es[..k] == es;
      return Ok(columns);
    }
  }

  /** lower_fn: a fresh lowerer run over the parameters, the body and the returns. */
  method LowerFunction(f: AirFn, maxDegree: nat, arities: Arities, materializeRets: bool) returns (result: Result<LoweredFn>)
    requires maxDegree >= 2
    ensures result.Ok? <==> LowerFn(f, maxDegree, arities, materializeRets).Ok?
    ensures result.Ok? ==> result == LowerFn(f, maxDegree, arities, materializeRets)
  {
    hide ParamColumns, LowerBlock, FnReturns;
    var budget := maxDegree - 1;
    var lowerer := new Lowerer(maxDegree, arities, f.name);
    var scope, args := lowerer.Parameters(f.params);
    var final :- lowerer.LowerStmts(f.body, scope, budget);
    var rets :- lowerer.FunctionReturns(f.rets, final, budget, materializeRets);
    return Ok(LoweredFn(f.name, args, lowerer.extraColumns, lowerer.derived, lowerer.constraints, lowerer.calls,
                        lowerer.fill, rets));
  }

  /** A return list fails if a shorter one does. */
  lemma {:induction false} ReturnsFail(
      s: LState, es: seq<Expr>, k: nat, scope: Scope, budget: nat, materializeRets: bool)
    requires k <= |es| && FnReturns(s, es[..k], scope, budget, materializeRets).Err?
    ensures FnReturns(s, es, scope, budget, materializeRets).Err?
    decreases |es|
  {
    hide LowerReturn, ReturnCells;
    if k < |es| {
      var n := |es| - 1;
      assert es[..n][..k] == es[..k];
      ReturnsFail(s, es[..n], k, scope, budget, materializeRets);
    } else {
      assert es[..k] == es;
    }
  }

  /** A sum fails if a shorter one does. */
  lemma SumStarts(s: LState, x: string, lo: nat, body: Expr, scope: Scope, budget: nat)
    ensures LowerSum(s, x, lo, lo + 1, body, scope, budget) == Lower(s, Substitute(body, x, lo), scope, budget)
  {
    hide Lower, Substitute;
  }

  lemma SumGoesOn(s: LState, x: string, lo: nat, next: nat, body: Expr, scope: Scope, budget: nat)
    requires lo < next && LowerSum(s, x, lo, next, body, scope, budget).Ok?
    ensures var (s1, acc) := LowerSum(s, x, lo, next, body, scope, budget).value;
            LowerSum(s, x, lo, next + 1, body, scope, budget) ==
              var (s2, last) :- Lower(s1, Substitute(body, x, next), scope, budget);
              Ok((s2, Lowered(LBinary(Add, acc.e, last.e), Max(acc.degree, last.degree))))
  {
    hide Lower, Substitute;
  }

  lemma {:induction false} SumFails(
      s: LState, x: string, lo: nat, next: nat, hi: nat, body: Expr, scope: Scope, budget: nat)
    requires lo < next <= hi && LowerSum(s, x, lo, next, body, scope, budget).Err?
    ensures LowerSum(s, x, lo, hi, body, scope, budget).Err?
    decreases hi
  {
    hide Lower;
    if next < hi { SumFails(s, x, lo, next, hi - 1, body, scope, budget); }
  }

  /** The elements still to come, after those already built. */
  function Joined<T>(done: seq<T>, rest: Result<(LState, seq<T>)>): Result<(LState, seq<T>)> {
    if rest.Ok? then Ok((rest.value.0, done + rest.value.1)) else Err(rest.message)
  }

  lemma JoinedNone<T>(rest: Result<(LState, seq<T>)>)
    ensures Joined([], rest) == rest
  {
    if rest.Ok? { assert [] + rest.value.1 == rest.value.1; }
  }

  lemma JoinedMore<T>(done: seq<T>, more: seq<T>, rest: Result<(LState, seq<T>)>)
    ensures Joined(done + more, rest) == Joined(done, Joined(more, rest))
  {
    if rest.Ok? { assert done + more + rest.value.1 == done + (more + rest.value.1); }
  }

  /** A parameter list fails if a shorter one does. */
  lemma {:induction false} ParamsFail(
      s: LState, callee: string, params: seq<Param>, args: seq<Expr>, k: nat, scope: Scope, budget: nat)
    requires |params| == |args| && k <= |params|
    requires LowerParams(s, callee, params[..k], args[..k], scope, budget).Err?
    ensures LowerParams(s, callee, params, args, scope, budget).Err?
    decreases |params|
  {
    hide LowerParam;
    if k < |params| {
      var n := |params| - 1;
      assert params[..n][..k] == params[..k] && args[..n][..k] == args[..k];
      ParamsFail(s, callee, params[..n], args[..n], k, scope, budget);
    } else {
      assert params[..k] == params && args[..k] == args;
    }
  }
}
