// Lowered expressions mean what the source expressions mean, across the degree
// budget, common subexpressions, exponentiation by squaring and unrolled sums.
module LoweringExprs {
  import opened M31
  import opened Wrappers
  import opened FeltAst
  import opened FeltSemantics
  import opened Lowering
  import opened LoweredMeaning
  import opened LoweringInvariant

  // -- Scopes -------------------------------------------------------------------------

  ghost predicate SlotOK(slot: Slot, s: LState) {
    slot.cell in s.cells && s.cells[slot.cell] == slot.degree
  }

  ghost predicate SlotsOK(slots: seq<Slot>, s: LState) {
    forall i :: 0 <= i < |slots| ==> SlotOK(slots[i], s)
  }

  ghost predicate ValueOK(v: Value, s: LState) {
    match v
    case One(slot) => SlotOK(slot, s)
    case Many(slots) => SlotsOK(slots, s)
  }

  ghost predicate ScopeOK(scope: Scope, s: LState) {
    forall x :: x in scope ==> ValueOK(scope[x], s)
  }

  function SlotValues(slots: seq<Slot>, env: Cells): (vs: seq<Felt>)
    ensures |vs| == |slots|
    ensures forall i :: 0 <= i < |slots| ==> vs[i] == At(env, slots[i].cell)
  {
    if slots == [] then [] else [At(env, slots[0].cell)] + SlotValues(slots[1..], env)
  }

  function ValueIn(v: Value, env: Cells): Val {
    match v
    case One(slot) => Single(At(env, slot.cell))
    case Many(slots) => Array(SlotValues(slots, env))
  }

  /** The source environment a scope stands for in a frame. */
  function ScopeEnv(scope: Scope, env: Cells): Env {
    map x | x in scope :: ValueIn(scope[x], env)
  }

  lemma ScopeKept(scope: Scope, s: LState, s': LState, env: Cells, orc: Oracle)
    requires ScopeOK(scope, s) && Filling(s, env.Keys) && Filling(s', env.Keys)
    requires Extends(s, s') && OracleFits(orc, s.arities)
    ensures ScopeOK(scope, s')
    ensures ScopeEnv(scope, Frame(s', env, orc)) == ScopeEnv(scope, Frame(s, env, orc))
  {
    FrameKept(s, s', env, orc);
    hide Filling, Frame;
    var f, f' := Frame(s, env, orc), Frame(s', env, orc);
    forall x | x in scope
      ensures ValueOK(scope[x], s') && ValueIn(scope[x], f') == ValueIn(scope[x], f)
    {
      assert ValueOK(scope[x], s);
      ValueKept(scope[x], s, s', f, f');
    }
  }

  lemma ValueKept(v: Value, s: LState, s': LState, f: Cells, f': Cells)
    requires ValueOK(v, s) && Extends(s, s') && Agree(f, f', s.cells.Keys)
    ensures ValueOK(v, s') && ValueIn(v, f') == ValueIn(v, f)
  {
    match v
    case One(slot) =>
    case Many(slots) =>
      assert SlotValues(slots, f') == SlotValues(slots, f);
  }

  // -- Results --------------------------------------------------------------------------

  /** Lowering emits +, - and * only. */
  predicate NoShift(e: LExpr) {
    match e
    case LBinary(op, l, r) => (op == Add || op == Sub || op == Mul) && NoShift(l) && NoShift(r)
    case LNeg(f) => NoShift(f)
    case _ => true
  }

  /** A lowered expression over the state's cells, within budget, of value v. */
  ghost predicate Yields(s: LState, l: Lowered, v: Felt, env: Cells, orc: Oracle) {
    && Closed(l.e, s) && NoShift(l.e) && Degree(l.e, s.cells) <= l.degree <= s.maxDegree - 1
    && Eval(l.e, Frame(s, env, orc)) == v
  }

  lemma YieldsKept(s: LState, s': LState, l: Lowered, v: Felt, env: Cells, orc: Oracle)
    requires Inv(s, env.Keys) && Inv(s', env.Keys) && Extends(s, s') && OracleFits(orc, s.arities)
    requires Yields(s, l, v, env, orc)
    ensures Yields(s', l, v, env, orc)
  {
    ClosedKept(l.e, s, s', env, orc);
  }

  lemma SlotYields(s: LState, slot: Slot, env: Cells, orc: Oracle)
    requires Budgeted(s) && SlotOK(slot, s)
    ensures Yields(s, OfSlot(slot), At(Frame(s, env, orc), slot.cell), env, orc)
  {
  }

  // -- Constants ------------------------------------------------------------------------

  /** Constant folding of the source agrees with its meaning. */
  lemma {:induction false} ConstMeaning(e: Expr, env: Env)
    requires ConstValue(e, map[]).Some?
    ensures ExprValue(e, env, map[]) == ConstValue(e, map[])
  {
    hide FAdd, FSub, FMul, FPow;
    match e
    case Binary(op, l, r) =>
      if op != Shl {
        ConstMeaning(l, env);
        ConstMeaning(r, env);
      }
    case Paren(f) => ConstMeaning(f, env);
    case _ =>
  }

  /** Constant folding of lowered code agrees with evaluating it. */
  lemma {:induction false} FoldMeaning(e: LExpr, env: Cells)
    requires ConstLowered(e).Some? && NoShift(e)
    ensures Eval(e, env) == ConstLowered(e).value
  {
    hide FAdd, FSub, FMul, FPow;
    match e
    case Verbatim(f) => ConstMeaning(f, map[]);
    case LBinary(op, l, r) =>
      FoldMeaning(l, env);
      FoldMeaning(r, env);
    case _ =>
  }

  // -- Field laws -------------------------------------------------------------------------

  lemma OneTimes(a: Felt)
    ensures FMul(1, a) == a && FMul(a, 1) == a
  {
  }

  lemma TimesAssociates(a: Felt, b: Felt, c: Felt)
    ensures FMul(FMul(a, b), c) == FMul(a, FMul(b, c))
  {
    MulAssocMod(a, b, c, P);
  }

  /** (a * a) ** n == a ** (2 * n). */
  lemma {:induction false} PowerOfSquare(a: Felt, n: nat)
    ensures FPow(FMul(a, a), n) == FPow(a, 2 * n)
  {
    hide FMul;
    if n > 0 {
      PowerOfSquare(a, n - 1);
      TimesAssociates(a, a, FPow(a, 2 * (n - 1)));
      assert FPow(a, 2 * n - 1) == FMul(a, FPow(a, 2 * n - 2));
      assert FPow(a, 2 * n) == FMul(a, FPow(a, 2 * n - 1));
    }
  }

  // -- Products and powers -----------------------------------------------------------------

  /** One lowering step of an expression: the state grew and l stands for v. */
  ghost predicate Gives(s: LState, s': LState, l: Lowered, v: Felt, env: Cells, orc: Oracle) {
    Grown(s, s', env, orc, true) && Yields(s', l, v, env, orc)
  }

  lemma GivesAfter(s: LState, s1: LState, s2: LState, l: Lowered, v: Felt, env: Cells, orc: Oracle)
    requires Inv(s, env.Keys) && OracleFits(orc, s.arities)
    requires Grown(s, s1, env, orc, true) && Gives(s1, s2, l, v, env, orc)
    ensures Gives(s, s2, l, v, env, orc)
  {
    GrownTransitive(s, s1, s2, env, orc, true, true);
  }

  lemma ProductYields(s: LState, l: Lowered, r: Lowered, a: Felt, b: Felt, env: Cells, orc: Oracle)
    requires Yields(s, l, a, env, orc) && Yields(s, r, b, env, orc)
    requires l.degree + r.degree <= s.maxDegree - 1
    ensures Yields(s, Lowered(LBinary(Mul, l.e, r.e), l.degree + r.degree), FMul(a, b), env, orc)
  {
    hide FMul, Frame;
  }

  /** The materialized side of a product: one column of the same value. */
  lemma MaterializeYields(s: LState, l: Lowered, a: Felt, env: Cells, orc: Oracle)
    requires Inv(s, env.Keys) && OracleFits(orc, s.arities) && Yields(s, l, a, env, orc)
    ensures var (s1, cell) := Materialize(s, l.e);
            Gives(s, s1, Lowered(Ref(cell), 1), a, env, orc)
  {
    hide Inv, Materialize, Frame;
    MaterializeGrows(s, l.e, env, orc);
    BudgetOfInv(s, env.Keys);
    var (s1, cell) := Materialize(s, l.e);
  }

  lemma BudgetOfInv(s: LState, args: set<Cell>)
    requires Inv(s, args)
    ensures s.maxDegree >= 2
  {
  }

  lemma {:induction false} FitProductCorrect(
      s: LState, l: Lowered, r: Lowered, budget: nat, a: Felt, b: Felt, env: Cells, orc: Oracle)
    requires Inv(s, env.Keys) && OracleFits(orc, s.arities) && budget == s.maxDegree - 1
    requires Yields(s, l, a, env, orc) && Yields(s, r, b, env, orc)
    requires FitProduct(s, l, r, budget).Ok?
    ensures var (s', p) := FitProduct(s, l, r, budget).value;
            Gives(s, s', p, FMul(a, b), env, orc)
    decreases l.degree + r.degree
  {
    hide Inv, Yields, Materialize, FMul;
    if l.degree + r.degree <= budget {
      GrownRefl(s, env, orc);
      ProductYields(s, l, r, a, b, env, orc);
    } else if l.degree >= r.degree && l.degree > 1 {
      var (s1, cell) := Materialize(s, l.e);
      MaterializeYields(s, l, a, env, orc);
      YieldsKept(s, s1, r, b, env, orc);
      FitProductCorrect(s1, Lowered(Ref(cell), 1), r, budget, a, b, env, orc);
      var (s2, p) := FitProduct(s, l, r, budget).value;
      GivesAfter(s, s1, s2, p, FMul(a, b), env, orc);
    } else if r.degree > 1 {
      var (s1, cell) := Materialize(s, r.e);
      MaterializeYields(s, r, b, env, orc);
      YieldsKept(s, s1, l, a, env, orc);
      FitProductCorrect(s1, l, Lowered(Ref(cell), 1), budget, a, b, env, orc);
      var (s2, p) := FitProduct(s, l, r, budget).value;
      GivesAfter(s, s1, s2, p, FMul(a, b), env, orc);
    }
  }

  lemma LowerProductCorrect(
      s: LState, l: Lowered, r: Lowered, budget: nat, a: Felt, b: Felt, env: Cells, orc: Oracle)
    requires Inv(s, env.Keys) && OracleFits(orc, s.arities) && budget == s.maxDegree - 1
    requires Yields(s, l, a, env, orc) && Yields(s, r, b, env, orc)
    requires LowerProduct(s, l, r, budget).Ok?
    ensures var (s', p) := LowerProduct(s, l, r, budget).value;
            Gives(s, s', p, FMul(a, b), env, orc)
  {
    hide Inv, FitProduct, FMul, ConstLowered;
    if ConstLowered(l.e) == Some(1) {
      FoldMeaning(l.e, Frame(s, env, orc));
      OneTimes(b);
      GrownRefl(s, env, orc);
    } else if ConstLowered(r.e) == Some(1) {
      FoldMeaning(r.e, Frame(s, env, orc));
      OneTimes(a);
      GrownRefl(s, env, orc);
    } else {
      FitProductCorrect(s, l, r, budget, a, b, env, orc);
    }
  }

  /** The degrees a budget can multiply, materializing as needed. */
  predicate Multiplies(budget: nat, l: nat, r: nat) {
    || budget >= 2
    || (budget == 1 && (l == 0 || r == 0))
    || (l == 0 && r == 0)
  }

  /** The product loop succeeds exactly on those degrees: materializing brings each side down to one. */
  lemma {:induction false} FitProductIff(s: LState, l: Lowered, r: Lowered, budget: nat)
    ensures FitProduct(s, l, r, budget).Ok? <==> Multiplies(budget, l.degree, r.degree)
    decreases l.degree + r.degree
  {
    hide Materialize;
    if l.degree + r.degree <= budget {
    } else if l.degree >= r.degree && l.degree > 1 {
      var (s1, cell) := Materialize(s, l.e);
      FitProductIff(s1, Lowered(Ref(cell), 1), r, budget);
    } else if r.degree > 1 {
      var (s1, cell) := Materialize(s, r.e);
      FitProductIff(s1, l, Lowered(Ref(cell), 1), budget);
    }
  }

  /** A product is lowered if and only if a factor is the constant one or the budget can multiply its degrees. */
  lemma LowerProductIff(s: LState, l: Lowered, r: Lowered, budget: nat)
    ensures LowerProduct(s, l, r, budget).Ok? <==>
            ConstLowered(l.e) == Some(1) || ConstLowered(r.e) == Some(1) || Multiplies(budget, l.degree, r.degree)
  {
    hide ConstLowered, FitProduct, Multiplies;
    FitProductIff(s, l, r, budget);
  }

  /**
   * With a budget of two or more (a bound of three on constraint degrees) no
   * product is out of reach, whatever the degrees.
   */
  lemma ProductsFit(s: LState, l: Lowered, r: Lowered, budget: nat)
    requires budget >= 2
    ensures LowerProduct(s, l, r, budget).Ok?
  {
    hide ConstLowered, FitProduct;
    LowerProductIff(s, l, r, budget);
  }

  /** A budget of one refuses the product of two columns. */
  lemma BudgetOneRefusesProducts(s: LState, x: Cell, y: Cell)
    ensures LowerProduct(s, Lowered(Ref(x), 1), Lowered(Ref(y), 1), 1).Err?
  {
    LowerProductIff(s, Lowered(Ref(x), 1), Lowered(Ref(y), 1), 1);
  }

  /** The accumulator of exponentiation by squaring; none yet means one. */
  ghost predicate AccYields(s: LState, acc: Option<Lowered>, v: Felt, env: Cells, orc: Oracle) {
    if acc.Some? then Yields(s, acc.value, v, env, orc) else v == 1
  }

  lemma AccumulateCorrect(
      s: LState, power: Lowered, acc: Option<Lowered>, remaining: nat, budget: nat, p: Felt, v: Felt,
      env: Cells, orc: Oracle)
    requires Inv(s, env.Keys) && OracleFits(orc, s.arities) && budget == s.maxDegree - 1
    requires Yields(s, power, p, env, orc) && AccYields(s, acc, v, env, orc)
    requires AccumulateBit(s, power, acc, remaining, budget).Ok?
    ensures var (s', acc') := AccumulateBit(s, power, acc, remaining, budget).value;
            && Grown(s, s', env, orc, true)
            && AccYields(s', acc', if remaining % 2 == 1 then FMul(v, p) else v, env, orc)
  {
    hide Inv, LowerProduct, FMul, Yields;
    GrownRefl(s, env, orc);
    if remaining % 2 == 1 {
      OneTimes(p);
      if acc.Some? { LowerProductCorrect(s, acc.value, power, budget, v, p, env, orc); }
    }
  }

  /** accumulator * p ** n, where the low bit of n is folded in and p is squared. */
  lemma PowerStep(v: Felt, p: Felt, n: nat)
    requires n > 0
    ensures FMul(v, FPow(p, n))
         == FMul(if n % 2 == 1 then FMul(v, p) else v, FPow(FMul(p, p), n / 2))
  {
    hide *;
    var half := n / 2;
    PowerOfSquare(p, half);
    if n % 2 == 1 {
      assert n == 2 * half + 1;
      PowerUnfolds(p, 2 * half);
      TimesAssociates(v, p, FPow(p, 2 * half));
    } else {
      assert n == 2 * half;
    }
  }

  lemma PowerUnfolds(p: Felt, n: nat)
    ensures FPow(p, n + 1) == FMul(p, FPow(p, n))
  {
  }

  lemma {:induction false} SquareAndMultiplyCorrect(
      s: LState, power: Lowered, acc: Option<Lowered>, remaining: nat, budget: nat, p: Felt, v: Felt,
      env: Cells, orc: Oracle)
    requires Inv(s, env.Keys) && OracleFits(orc, s.arities) && budget == s.maxDegree - 1
    requires Yields(s, power, p, env, orc) && AccYields(s, acc, v, env, orc)
    requires SquareAndMultiply(s, power, acc, remaining, budget).Ok?
    ensures var (s', l) := SquareAndMultiply(s, power, acc, remaining, budget).value;
            Gives(s, s', l, FMul(v, FPow(p, remaining)), env, orc)
    decreases remaining
  {
    hide Inv, Yields, LowerProduct, FMul, AccumulateBit;
    if remaining == 0 {
      OneTimes(v);
      GrownRefl(s, env, orc);
      OneYields(s, env, orc);
    } else {
      PowerStep(v, p, remaining);
      var v1 := if remaining % 2 == 1 then FMul(v, p) else v;
      var (s1, acc1) := AccumulateBit(s, power, acc, remaining, budget).value;
      AccumulateCorrect(s, power, acc, remaining, budget, p, v, env, orc);
      YieldsKept(s, s1, power, p, env, orc);
      var (s', l) := SquareAndMultiply(s, power, acc, remaining, budget).value;
      if remaining / 2 > 0 {
        var (s2, square) := LowerProduct(s1, power, power, budget).value;
        LowerProductCorrect(s1, power, power, budget, p, p, env, orc);
        AccKept(s1, s2, acc1, v1, env, orc);
        SquareAndMultiplyCorrect(s2, square, acc1, remaining / 2, budget, FMul(p, p), v1, env, orc);
        GivesAfter(s1, s2, s', l, FMul(v1, FPow(FMul(p, p), remaining / 2)), env, orc);
      } else {
        SquareAndMultiplyCorrect(s1, power, acc1, remaining / 2, budget, p, v1, env, orc);
      }
      GivesAfter(s, s1, s', l, FMul(v, FPow(p, remaining)), env, orc);
    }
  }

  lemma OneYields(s: LState, env: Cells, orc: Oracle)
    requires Inv(s, env.Keys)
    ensures Yields(s, ONE, 1, env, orc)
  {
    hide Naming, Filling, Linked, Columns, Frame;
  }

  lemma AccKept(s: LState, s': LState, acc: Option<Lowered>, v: Felt, env: Cells, orc: Oracle)
    requires Inv(s, env.Keys) && Inv(s', env.Keys) && Extends(s, s') && OracleFits(orc, s.arities)
    requires AccYields(s, acc, v, env, orc)
    ensures AccYields(s', acc, v, env, orc)
  {
    if acc.Some? { YieldsKept(s, s', acc.value, v, env, orc); }
  }

  // -- Substitution ------------------------------------------------------------------------

  /** Substituting a literal is binding the loop variable. */
  lemma {:induction false} SubstituteIndex(e: Expr, x: string, k: nat, ints: Ints)
    ensures IndexValue(Substitute(e, x, k), ints) == IndexValue(e, ints[x := k])
  {
    match e
    case Binary(_, l, r) =>
      SubstituteIndex(l, x, k, ints);
      SubstituteIndex(r, x, k, ints);
    case Paren(f) => SubstituteIndex(f, x, k, ints);
    case _ =>
  }

  lemma {:induction false} SubstituteConst(e: Expr, x: string, k: nat, ints: Ints)
    ensures ConstValue(Substitute(e, x, k), ints) == ConstValue(e, ints[x := k])
  {
    hide FAdd, FSub, FMul, FPow;
    match e
    case Pow2(n) => SubstituteConst(n, x, k, ints);
    case Binary(_, l, r) =>
      SubstituteConst(l, x, k, ints);
      SubstituteConst(r, x, k, ints);
    case Paren(f) => SubstituteConst(f, x, k, ints);
    case _ =>
  }

  lemma SubstituteArrayName(e: Expr, x: string, k: nat, env: Env, ints: Ints)
    ensures ArrayNamed(Substitute(e, x, k), env, ints) == ArrayNamed(e, env, ints[x := k])
  {
  }

  /** A sum whose binder is the substituted variable has no value, so nothing is captured. */
  lemma {:induction false} SubstituteMeaning(e: Expr, x: string, k: nat, env: Env, ints: Ints)
    requires ExprValue(Substitute(e, x, k), env, ints).Some?
    ensures ExprValue(e, env, ints[x := k]) == ExprValue(Substitute(e, x, k), env, ints)
    decreases e, 0, 0
  {
    hide FAdd, FSub, FMul, FPow, FNeg, IndexValue, ConstValue, HostConstant;
    match e
    case Lit(_) =>
    case Name(_) =>
    case Index(a, i) =>
      SubstituteArrayName(a, x, k, env, ints);
      SubstituteIndex(i, x, k, ints);
    case Constant(_, i) => SubstituteIndex(i, x, k, ints);
    case Pow2(n) => SubstituteConst(e, x, k, ints);
    case Sum(j, a, b, body) =>
      SubstituteIndex(a, x, k, ints);
      SubstituteIndex(b, x, k, ints);
      var lo, hi := IndexValue(a, ints[x := k]).value, IndexValue(b, ints[x := k]).value;
      SubstituteSum(j.x, lo, hi, body, x, k, env, ints);
    case Binary(op, l, r) =>
      if op == Shl {
        SubstituteConst(e, x, k, ints);
      } else {
        SubstituteMeaning(l, x, k, env, ints);
        SubstituteMeaning(r, x, k, env, ints);
      }
    case Power(b, n) =>
      SubstituteIndex(n, x, k, ints);
      if IndexValue(n, ints[x := k]) != Some(0) { SubstituteMeaning(b, x, k, env, ints); }
    case Neg(f) => SubstituteMeaning(f, x, k, env, ints);
    case Paren(f) => SubstituteMeaning(f, x, k, env, ints);
  }

  lemma {:induction false} SubstituteSum(
      y: string, lo: nat, hi: nat, body: Expr, x: string, k: nat, env: Env, ints: Ints)
    requires lo < hi && y != x
    requires SumValue(y, lo, hi, Substitute(body, x, k), env, ints).Some?
    ensures SumValue(y, lo, hi, body, env, ints[x := k]) == SumValue(y, lo, hi, Substitute(body, x, k), env, ints)
    decreases body, 1, hi - lo
  {
    hide FAdd, Substitute;
    assert ints[y := hi - 1][x := k] == ints[x := k][y := hi - 1];
    SubstituteMeaning(body, x, k, env, ints[y := hi - 1]);
    if lo + 1 < hi { SubstituteSum(y, lo, hi - 1, body, x, k, env, ints); }
  }
}
