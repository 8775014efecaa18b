// Lowering preserves meaning, expression by expression and statement by
// statement: whatever the lowerer accepts, the source gives a value, the fill
// computes that value, and the new constraints hold exactly when the source's
// assertions do.
module LowerPreserves {
  import opened M31
  import opened Wrappers
  import opened FeltAst
  import opened FeltSemantics
  import opened Lowering
  import opened LoweredMeaning
  import opened LoweringInvariant
  import opened LoweringExprs

  // -- Expressions --------------------------------------------------------------------

  /** The source environment in the frame of a state. */
  function EnvOf(s: LState, scope: Scope, env: Cells, orc: Oracle): Env {
    ScopeEnv(scope, Frame(s, env, orc))
  }

  /** Everything a lowering step starts from. */
  ghost predicate Ready(s: LState, scope: Scope, env: Cells, orc: Oracle) {
    Inv(s, env.Keys) && OracleFits(orc, s.arities) && ScopeOK(scope, s)
  }

  lemma ReadyKept(s: LState, s': LState, scope: Scope, env: Cells, orc: Oracle)
    requires Ready(s, scope, env, orc) && Inv(s', env.Keys) && Extends(s, s')
    ensures Ready(s', scope, env, orc) && EnvOf(s', scope, env, orc) == EnvOf(s, scope, env, orc)
  {
    ScopeKept(scope, s, s', env, orc);
  }

  /** The expression has a value, and the lowered expression stands for it. */
  ghost predicate Means(s: LState, s': LState, l: Lowered, e: Expr, scope: Scope, env: Cells, orc: Oracle) {
    var v := ExprValue(e, EnvOf(s, scope, env, orc), map[]);
    v.Some? && Gives(s, s', l, v.value, env, orc)
  }

  lemma VerbatimMeans(s: LState, e: Expr, scope: Scope, env: Cells, orc: Oracle)
    requires Ready(s, scope, env, orc)
    requires ConstValue(e, map[]).Some? || e.Constant?
    ensures Means(s, s, Lowered(Verbatim(e), 0), e, scope, env, orc)
  {
    hide Inv, Frame;
    BudgetOfInv(s, env.Keys);
    GrownRefl(s, env, orc);
    if ConstValue(e, map[]).Some? {
      ConstMeaning(e, map[]);
      ConstMeaning(e, EnvOf(s, scope, env, orc));
    }
  }

  lemma NameMeans(s: LState, x: string, scope: Scope, env: Cells, orc: Oracle)
    requires Ready(s, scope, env, orc) && ScalarNamed(x, scope).Ok?
    ensures Means(s, s, OfSlot(ScalarNamed(x, scope).value), Name(x), scope, env, orc)
  {
    hide Frame, Inv, OracleFits;
    assert ValueOK(scope[x], s);
    hide Ready, ScopeOK;
    ReadySlot(s, scope[x].slot, scope, env, orc);
    hide Gives;
  }

  /** An array in scope stands for the values of its cells. */
  lemma ArrayInScope(s: LState, e: Expr, scope: Scope, env: Cells, orc: Oracle)
    requires ScopeOK(scope, s)
    ensures var slots := SlotsNamed(e, scope);
            && (slots.Some? ==> SlotsOK(slots.value, s))
            && ArrayNamed(e, EnvOf(s, scope, env, orc), map[])
               == if slots.Some? then Some(SlotValues(slots.value, Frame(s, env, orc))) else None
  {
    hide Frame;
    var slots := SlotsNamed(e, scope);
    if slots.Some? { assert ValueOK(scope[e.x], s); }
  }

  lemma IndexMeans(s: LState, a: Expr, i: Expr, scope: Scope, env: Cells, orc: Oracle)
    requires Ready(s, scope, env, orc)
    requires SlotsNamed(a, scope).Some? && IndexValue(i, map[]).Some?
    requires IndexValue(i, map[]).value < |SlotsNamed(a, scope).value|
    ensures Means(s, s, OfSlot(SlotsNamed(a, scope).value[IndexValue(i, map[]).value]), Index(a, i), scope, env, orc)
  {
    hide Frame, IndexValue, SlotsNamed, ArrayNamed, EnvOf, Inv, Yields, OracleFits, ScopeOK;
    var slots, k := SlotsNamed(a, scope).value, IndexValue(i, map[]).value;
    ArrayInScope(s, a, scope, env, orc);
    hide Ready;
    ReadySlot(s, slots[k], scope, env, orc);
  }

  lemma ReadySlot(s: LState, slot: Slot, scope: Scope, env: Cells, orc: Oracle)
    requires Ready(s, scope, env, orc) && SlotOK(slot, s)
    ensures Gives(s, s, OfSlot(slot), At(Frame(s, env, orc), slot.cell), env, orc)
  {
    hide Frame, ScopeOK, OracleFits;
    GrownRefl(s, env, orc);
    SlotYields(s, slot, env, orc);
    hide Inv, Yields;
  }

  /** Two operands lowered in turn, as seen from the final state. */
  lemma OperandsMean(
      s: LState, s1: LState, s2: LState, ll: Lowered, lr: Lowered, l: Expr, r: Expr,
      scope: Scope, env: Cells, orc: Oracle)
    requires Ready(s, scope, env, orc)
    requires Means(s, s1, ll, l, scope, env, orc) && Means(s1, s2, lr, r, scope, env, orc)
    ensures var a, b := ExprValue(l, EnvOf(s, scope, env, orc), map[]), ExprValue(r, EnvOf(s, scope, env, orc), map[]);
            && a.Some? && b.Some? && Grown(s, s2, env, orc, true)
            && Yields(s2, ll, a.value, env, orc) && Yields(s2, lr, b.value, env, orc)
  {
    hide Inv, Yields, Frame, ScopeEnv, ScopeOK, ExprValue;
    ReadyKept(s, s1, scope, env, orc);
    GrownTransitive(s, s1, s2, env, orc, true, true);
    YieldsKept(s1, s2, ll, ExprValue(l, EnvOf(s, scope, env, orc), map[]).value, env, orc);
  }

  lemma SumOfTwoYields(s: LState, op: Op, l: Lowered, r: Lowered, a: Felt, b: Felt, env: Cells, orc: Oracle)
    requires Yields(s, l, a, env, orc) && Yields(s, r, b, env, orc) && (op == Add || op == Sub)
    ensures Yields(s, Lowered(LBinary(op, l.e, r.e), Max(l.degree, r.degree)),
                   if op == Add then FAdd(a, b) else FSub(a, b), env, orc)
  {
    hide FAdd, FSub, Frame;
  }

  lemma AdditiveMeans(
      s: LState, s1: LState, s2: LState, op: Op, ll: Lowered, lr: Lowered, l: Expr, r: Expr,
      scope: Scope, env: Cells, orc: Oracle)
    requires Ready(s, scope, env, orc) && (op == Add || op == Sub)
    requires Means(s, s1, ll, l, scope, env, orc) && Means(s1, s2, lr, r, scope, env, orc)
    ensures Means(s, s2, Lowered(LBinary(op, ll.e, lr.e), Max(ll.degree, lr.degree)), Binary(op, l, r), scope, env, orc)
  {
    hide Inv, Yields, Frame, ScopeEnv, ScopeOK, FAdd, FSub;
    OperandsMean(s, s1, s2, ll, lr, l, r, scope, env, orc);
    var a, b := ExprValue(l, EnvOf(s, scope, env, orc), map[]), ExprValue(r, EnvOf(s, scope, env, orc), map[]);
    SumOfTwoYields(s2, op, ll, lr, a.value, b.value, env, orc);
  }

  lemma ProductMeans(
      s: LState, s1: LState, s2: LState, ll: Lowered, lr: Lowered, l: Expr, r: Expr, budget: nat,
      scope: Scope, env: Cells, orc: Oracle)
    requires Ready(s, scope, env, orc) && budget == s.maxDegree - 1
    requires Means(s, s1, ll, l, scope, env, orc) && Means(s1, s2, lr, r, scope, env, orc)
    requires LowerProduct(s2, ll, lr, budget).Ok?
    ensures var (s3, p) := LowerProduct(s2, ll, lr, budget).value;
            Means(s, s3, p, Binary(Mul, l, r), scope, env, orc)
  {
    hide Inv, Yields, Frame, ScopeEnv, ScopeOK, FMul, LowerProduct;
    OperandsMean(s, s1, s2, ll, lr, l, r, scope, env, orc);
    var a, b := ExprValue(l, EnvOf(s, scope, env, orc), map[]), ExprValue(r, EnvOf(s, scope, env, orc), map[]);
    LowerProductCorrect(s2, ll, lr, budget, a.value, b.value, env, orc);
    var (s3, p) := LowerProduct(s2, ll, lr, budget).value;
    GivesAfter(s, s2, s3, p, FMul(a.value, b.value), env, orc);
  }

  lemma PowerMeans(
      s: LState, s1: LState, power: Lowered, b: Expr, n: Expr, budget: nat, scope: Scope, env: Cells, orc: Oracle)
    requires Ready(s, scope, env, orc) && budget == s.maxDegree - 1
    requires IndexValue(n, map[]).Some? && IndexValue(n, map[]).value > 0
    requires Means(s, s1, power, b, scope, env, orc)
    requires SquareAndMultiply(s1, power, None, IndexValue(n, map[]).value, budget).Ok?
    ensures var (s2, l) := SquareAndMultiply(s1, power, None, IndexValue(n, map[]).value, budget).value;
            Means(s, s2, l, Power(b, n), scope, env, orc)
  {
    hide Inv, Yields, Frame, ScopeEnv, ScopeOK, FMul, FPow, SquareAndMultiply, IndexValue;
    var a, k := ExprValue(b, EnvOf(s, scope, env, orc), map[]).value, IndexValue(n, map[]).value;
    SquareAndMultiplyCorrect(s1, power, None, k, budget, a, 1, env, orc);
    OneTimes(FPow(a, k));
    var (s2, l) := SquareAndMultiply(s1, power, None, k, budget).value;
    GivesAfter(s, s1, s2, l, FPow(a, k), env, orc);
  }

  lemma NegMeans(s: LState, s1: LState, lf: Lowered, f: Expr, scope: Scope, env: Cells, orc: Oracle)
    requires Means(s, s1, lf, f, scope, env, orc)
    ensures Means(s, s1, Lowered(LNeg(lf.e), lf.degree), Neg(f), scope, env, orc)
  {
    hide Inv, Frame, ScopeEnv, FNeg;
  }

  /** Lowering an expression preserves its meaning. */
  lemma {:induction false} LowerCorrect(s: LState, e: Expr, scope: Scope, budget: nat, env: Cells, orc: Oracle)
    requires Ready(s, scope, env, orc) && budget == s.maxDegree - 1
    requires Lower(s, e, scope, budget).Ok?
    ensures var (s', l) := Lower(s, e, scope, budget).value;
            Means(s, s', l, e, scope, env, orc)
    decreases ExprSize(e), 0, 0
  {
    hide Ready, ConstValue, IndexValue, SlotsNamed, LowerProduct, SquareAndMultiply, ScalarNamed, Means;
    if ConstValue(e, map[]).Some? {
      VerbatimMeans(s, e, scope, env, orc);
    } else {
      match e
      case Name(x) => NameMeans(s, x, scope, env, orc);
      case Index(a, i) => IndexMeans(s, a, i, scope, env, orc);
      case Constant(_, _) => VerbatimMeans(s, e, scope, env, orc);
      case Sum(j, a, b, body) => LowerSumMeans(s, e, scope, budget, env, orc);
      case Binary(op, l, r) => LowerBinaryCorrect(s, e, scope, budget, env, orc);
      case Power(b, n) => LowerPowerCorrect(s, e, scope, budget, env, orc);
      case Neg(f) =>
        LowerCorrect(s, f, scope, budget, env, orc);
        var (s1, lf) := Lower(s, f, scope, budget).value;
        NegMeans(s, s1, lf, f, scope, env, orc);
      case Paren(f) =>
        LowerCorrect(s, f, scope, budget, env, orc);
        var (s1, lf) := Lower(s, f, scope, budget).value;
        ParenMeans(s, s1, lf, f, scope, env, orc);
      case _ =>
    }
  }

  lemma ParenMeans(s: LState, s1: LState, lf: Lowered, f: Expr, scope: Scope, env: Cells, orc: Oracle)
    requires Means(s, s1, lf, f, scope, env, orc)
    ensures Means(s, s1, lf, Paren(f), scope, env, orc)
  {
    hide Inv, Frame, ScopeEnv, Gives;
  }

  lemma MeansReady(s: LState, s1: LState, l: Lowered, e: Expr, scope: Scope, env: Cells, orc: Oracle)
    requires Ready(s, scope, env, orc) && Means(s, s1, l, e, scope, env, orc)
    ensures Ready(s1, scope, env, orc) && EnvOf(s1, scope, env, orc) == EnvOf(s, scope, env, orc)
    ensures s1.maxDegree == s.maxDegree
  {
    hide Inv, ExprValue, ScopeOK, ScopeEnv, Frame, Yields;
    ReadyKept(s, s1, scope, env, orc);
  }

  lemma {:induction false} LowerBinaryCorrect(s: LState, e: Expr, scope: Scope, budget: nat, env: Cells, orc: Oracle)
    requires Ready(s, scope, env, orc) && budget == s.maxDegree - 1 && e.Binary?
    requires Lower(s, e, scope, budget).Ok? && ConstValue(e, map[]).None?
    ensures var (s', l) := Lower(s, e, scope, budget).value;
            Means(s, s', l, e, scope, env, orc)
    decreases ExprSize(e.left) + ExprSize(e.right), 1, 0
  {
    hide Ready, ConstValue, LowerProduct, Means;
    var (s1, ll) := Lower(s, e.left, scope, budget).value;
    LowerCorrect(s, e.left, scope, budget, env, orc);
    MeansReady(s, s1, ll, e.left, scope, env, orc);
    var (s2, lr) := Lower(s1, e.right, scope, budget).value;
    LowerCorrect(s1, e.right, scope, budget, env, orc);
    if e.op == Mul {
      ProductMeans(s, s1, s2, ll, lr, e.left, e.right, budget, scope, env, orc);
    } else {
      AdditiveMeans(s, s1, s2, e.op, ll, lr, e.left, e.right, scope, env, orc);
    }
  }

  lemma {:induction false} LowerPowerCorrect(s: LState, e: Expr, scope: Scope, budget: nat, env: Cells, orc: Oracle)
    requires Ready(s, scope, env, orc) && budget == s.maxDegree - 1 && e.Power?
    requires Lower(s, e, scope, budget).Ok? && ConstValue(e, map[]).None?
    ensures var (s', l) := Lower(s, e, scope, budget).value;
            Means(s, s', l, e, scope, env, orc)
    decreases ExprSize(e.base) + ExprSize(e.exponent), 1, 0
  {
    hide ConstValue, IndexValue, SquareAndMultiply, Inv, ScopeOK, Frame;
    if IndexValue(e.exponent, map[]) == Some(0) {
      OneYields(s, env, orc);
      GrownRefl(s, env, orc);
    } else {
      hide Ready, Means;
      LowerCorrect(s, e.base, scope, budget, env, orc);
      var (s1, power) := Lower(s, e.base, scope, budget).value;
      PowerMeans(s, s1, power, e.base, e.exponent, budget, scope, env, orc);
    }
  }

  /** A sum: each unrolled body is the body at that value of the binder. */
  ghost predicate SumMeans(
      s: LState, s': LState, l: Lowered, x: string, lo: nat, hi: nat, body: Expr, scope: Scope, env: Cells, orc: Oracle)
    requires lo < hi
  {
    var v := SumValue(x, lo, hi, body, EnvOf(s, scope, env, orc), map[]);
    v.Some? && Gives(s, s', l, v.value, env, orc)
  }

  lemma {:induction false} LowerSumMeans(s: LState, e: Expr, scope: Scope, budget: nat, env: Cells, orc: Oracle)
    requires Ready(s, scope, env, orc) && budget == s.maxDegree - 1 && e.Sum?
    requires Lower(s, e, scope, budget).Ok? && ConstValue(e, map[]).None?
    ensures var (s', l) := Lower(s, e, scope, budget).value;
            Means(s, s', l, e, scope, env, orc)
    decreases ExprSize(e.body), 2, 0
  {
    hide Ready, ConstValue, IndexValue, Gives;
    var lo, hi := IndexValue(e.start, map[]).value, IndexValue(e.end, map[]).value;
    LowerSumCorrect(s, e.binder.x, lo, hi, e.body, scope, budget, env, orc);
  }

  lemma {:induction false} LowerSumCorrect(
      s: LState, x: string, lo: nat, hi: nat, body: Expr, scope: Scope, budget: nat, env: Cells, orc: Oracle)
    requires Ready(s, scope, env, orc) && budget == s.maxDegree - 1 && lo < hi
    requires LowerSum(s, x, lo, hi, body, scope, budget).Ok?
    ensures var (s', l) := LowerSum(s, x, lo, hi, body, scope, budget).value;
            SumMeans(s, s', l, x, lo, hi, body, scope, env, orc)
    decreases ExprSize(body), 1, hi - lo
  {
    hide Ready, Means, SumMeans, Lower;
    SubstituteSize(body, x, hi - 1);
    var term := Substitute(body, x, hi - 1);
    if lo + 1 == hi {
      LowerCorrect(s, term, scope, budget, env, orc);
      var (s1, last) := Lower(s, term, scope, budget).value;
      LastTerm(s, s1, last, x, lo, hi, body, scope, env, orc);
    } else {
      var (s1, acc) := LowerSum(s, x, lo, hi - 1, body, scope, budget).value;
      LowerSumCorrect(s, x, lo, hi - 1, body, scope, budget, env, orc);
      SumReady(s, s1, acc, x, lo, hi - 1, body, scope, env, orc);
      LowerCorrect(s1, term, scope, budget, env, orc);
      var (s2, last) := Lower(s1, term, scope, budget).value;
      NextTerm(s, s1, s2, acc, last, x, lo, hi, body, scope, env, orc);
    }
  }

  lemma SumReady(
      s: LState, s1: LState, acc: Lowered, x: string, lo: nat, hi: nat, body: Expr, scope: Scope, env: Cells, orc: Oracle)
    requires lo < hi && Ready(s, scope, env, orc) && SumMeans(s, s1, acc, x, lo, hi, body, scope, env, orc)
    ensures Ready(s1, scope, env, orc) && s1.maxDegree == s.maxDegree
  {
    hide Inv, SumValue, ScopeOK, ScopeEnv, Frame, Yields;
    ReadyKept(s, s1, scope, env, orc);
  }

  lemma LastTerm(
      s: LState, s1: LState, last: Lowered, x: string, lo: nat, hi: nat, body: Expr, scope: Scope, env: Cells, orc: Oracle)
    requires lo + 1 == hi && Means(s, s1, last, Substitute(body, x, lo), scope, env, orc)
    ensures SumMeans(s, s1, last, x, lo, hi, body, scope, env, orc)
  {
    hide Gives, Substitute, ExprValue;
    SubstituteMeaning(body, x, lo, EnvOf(s, scope, env, orc), map[]);
  }

  lemma NextTerm(
      s: LState, s1: LState, s2: LState, acc: Lowered, last: Lowered, x: string, lo: nat, hi: nat, body: Expr,
      scope: Scope, env: Cells, orc: Oracle)
    requires lo + 1 < hi && Ready(s, scope, env, orc)
    requires SumMeans(s, s1, acc, x, lo, hi - 1, body, scope, env, orc)
    requires Means(s1, s2, last, Substitute(body, x, hi - 1), scope, env, orc)
    ensures SumMeans(s, s2, Lowered(LBinary(Add, acc.e, last.e), Max(acc.degree, last.degree)),
                     x, lo, hi, body, scope, env, orc)
  {
    hide Inv, Yields, Frame, ScopeEnv, ScopeOK, FAdd, Substitute, ExprValue;
    ReadyKept(s, s1, scope, env, orc);
    var source := EnvOf(s, scope, env, orc);
    SubstituteMeaning(body, x, hi - 1, source, map[]);
    var before, b := SumValue(x, lo, hi - 1, body, source, map[]).value,
                     ExprValue(body, source, map[x := hi - 1]).value;
    GrownTransitive(s, s1, s2, env, orc, true, true);
    YieldsKept(s1, s2, acc, before, env, orc);
    SumOfTwoYields(s2, Add, acc, last, before, b, env, orc);
  }
}
