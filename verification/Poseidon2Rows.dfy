// The rows of the compiled Poseidon2 table: filled or merely accepted, they hold
// the plain permutation.
module Poseidon2Rows {
  import opened M31
  import opened Wrappers
  import opened FeltAst
  import opened FeltSemantics
  import opened Sponge
  import opened Poseidon2
  import opened Poseidon2Program
  import opened Lowering
  import opened LoweredMeaning
  import opened CompilerTheorems
  import opened UnshadowedBinders
  import opened LowerProgress

  lemma LetHygienic(names: seq<string>, v: Rhs, rest: seq<Stmt>, bound: set<string>)
    requires (forall n :: n in names ==> n !in bound) && HygienicRhs(v) && Hygienic(rest, bound)
    ensures Hygienic([Let(names, v)] + rest, bound)
  {
    hide HygienicRhs;
    assert ([Let(names, v)] + rest)[1..] == rest;
    assert HygienicStmt(Let(names, v), bound);
  }

  lemma ForHygienic(x: string, lo: nat, hi: nat, body: seq<Stmt>, rest: seq<Stmt>)
    requires Hygienic(body, {x}) && Hygienic(rest, {})
    ensures Hygienic([For(x, lo, hi, body)] + rest, {})
  {
    assert ([For(x, lo, hi, body)] + rest)[1..] == rest && {} + {x} == {x};
    assert HygienicStmt(For(x, lo, hi, body), {});
  }

  lemma {:induction false} ChainHygienic(k: nat)
    ensures Hygienic(ChainFrom(k), {})
    decreases 8 - (if k <= 8 then k else 8)
  {
    hide ChainExpr, Numbered;
    if k < 8 {
      ChainHygienic(k + 1);
      hide Hygienic;
      LetHygienic([Numbered("t", k)], Scalar(ChainExpr(k)), ChainFrom(k + 1), {});
    }
  }

  lemma {:induction false} ExternalHygienic(b: nat)
    ensures Hygienic(ExternalFrom(b), {})
    decreases 4 - (if b <= 4 then b else 4)
  {
    hide Hygienic, ChainFrom, ExternalTail, LaneNames, LaneArgs, Numbered;
    ChainHygienic(0);
    if b < 4 {
      ExternalHygienic(b + 1);
      LetHygienic(LaneNames(b), Splice(M4Fn(), LaneArgs(b)), ExternalFrom(b + 1), {});
    } else {
      TailHygienic();
    }
  }

  lemma NothingHygienic(bound: set<string>)
    ensures Hygienic([], bound)
  {
  }

  lemma TailHygienic()
    ensures Hygienic(ExternalTail(), {})
  {
    hide Hygienic, Lanes, SumsExpr, OutExpr;
    var t := ExternalTail();
    assert [t[2]] + [] == [t[2]] && [t[1]] + [t[2]] == [t[1], t[2]] && [t[0]] + [t[1], t[2]] == t;
    NothingHygienic({});
    LetHygienic(["out"], t[2].value, [], {});
    LetHygienic(["sums"], t[1].value, [t[2]], {});
    LetHygienic(["mixed"], t[0].value, [t[1], t[2]], {});
  }

  lemma RoundsHygienic(c: Constants)
    ensures Hygienic(FullBody(c), {"r"}) && Hygienic(PartialBody(c), {"r"})
  {
    hide Hygienic, ExternalFrom, BoxExpr, FirstBoxExpr, DiagonalExpr;
    assert "state"[0] == 's' && "total"[0] == 't' && "r"[0] == 'r';
    ExternalHygienic(0);
    NothingHygienic({"r"});
    var f, p := FullBody(c), PartialBody(c);
    assert [f[1]] + [] == [f[1]] && [f[0]] + [f[1]] == f;
    assert [p[2]] + [] == [p[2]] && [p[1]] + [p[2]] == [p[1], p[2]] && [p[0]] + [p[1], p[2]] == p;
    LetHygienic(["state"], f[1].value, [], {"r"});
    LetHygienic(["state"], f[0].value, [f[1]], {"r"});
    LetHygienic(["state"], p[2].value, [], {"r"});
    LetHygienic(["total"], p[1].value, [p[2]], {"r"});
    LetHygienic(["state"], p[0].value, [p[1], p[2]], {"r"});
  }

  /** The program repeats no binder, so the compiler's theorems apply to it. */
  lemma ProgramHygienic(c: Constants)
    ensures Hygienic(Poseidon2Fn(c).body, {})
  {
    hide Hygienic, FullBody, PartialBody, ExternalFrom;
    ExternalHygienic(0);
    RoundsHygienic(c);
    NothingHygienic({});
    var b := Poseidon2Fn(c).body;
    assert [b[3]] + [] == [b[3]] && [b[2]] + [b[3]] == [b[2], b[3]] && [b[1]] + [b[2], b[3]] == [b[1], b[2], b[3]];
    assert [b[0]] + [b[1], b[2], b[3]] == b;
    ForHygienic("r", 4, 8, FullBody(c), []);
    ForHygienic("r", 0, 14, PartialBody(c), [b[3]]);
    ForHygienic("r", 0, 4, FullBody(c), [b[2], b[3]]);
    LetHygienic(["state"], b[0].value, [b[1], b[2], b[3]], {});
  }

  // -- Nothing is rebound ------------------------------------------------------------------------

  /** No sum at all. */
  predicate SumFree(e: Expr) {
    match e
    case Sum(_, _, _, _) => false
    case Binary(_, l, r) => SumFree(l) && SumFree(r)
    case Power(b, _) => SumFree(b)
    case Neg(f) => SumFree(f)
    case Paren(f) => SumFree(f)
    case _ => true
  }

  lemma {:induction false} SumFreeUnshadowed(e: Expr, bound: set<string>)
    requires SumFree(e)
    ensures Unshadowed(e, bound)
  {
    match e
    case Binary(_, l, r) =>
      SumFreeUnshadowed(l, bound);
      SumFreeUnshadowed(r, bound);
    case Power(b, _) => SumFreeUnshadowed(b, bound);
    case Neg(f) => SumFreeUnshadowed(f, bound);
    case Paren(f) => SumFreeUnshadowed(f, bound);
    case _ =>
  }

  lemma LetUnshadowed(names: seq<string>, v: Rhs, rest: seq<Stmt>, bound: set<string>)
    requires RhsUnshadowed(v, bound) && BlockUnshadowed(rest, bound)
    ensures BlockUnshadowed([Let(names, v)] + rest, bound)
  {
    hide RhsUnshadowed;
    assert ([Let(names, v)] + rest)[1..] == rest;
    assert StmtUnshadowed(Let(names, v), bound);
  }

  lemma ForUnshadowed(x: string, lo: nat, hi: nat, body: seq<Stmt>, rest: seq<Stmt>)
    requires BlockUnshadowed(body, {x}) && BlockUnshadowed(rest, {})
    ensures BlockUnshadowed([For(x, lo, hi, body)] + rest, {})
  {
    assert ([For(x, lo, hi, body)] + rest)[1..] == rest && {} + {x} == {x};
    assert StmtUnshadowed(For(x, lo, hi, body), {});
  }

  lemma NothingUnshadowed(bound: set<string>)
    ensures BlockUnshadowed([], bound)
  {
  }

  lemma MapUnshadowed(x: string, lo: nat, hi: nat, body: Expr, bound: set<string>)
    requires SumFree(body) && x !in bound
    ensures RhsUnshadowed(Map(Name(x), Lit(lo), Lit(hi), body), bound)
  {
    hide Unshadowed, SumFree;
    SumFreeUnshadowed(body, bound + {x});
    assert Binder(Name(x)) == {x};
  }

  lemma {:induction false} ChainUnshadowed(k: nat)
    ensures BlockUnshadowed(ChainFrom(k), {})
    decreases 8 - (if k <= 8 then k else 8)
  {
    hide Numbered;
    NothingUnshadowed({});
    if k < 8 {
      ChainUnshadowed(k + 1);
      assert SumFree(ChainExpr(k));
      SumFreeUnshadowed(ChainExpr(k), {});
      hide BlockUnshadowed, ChainExpr, Unshadowed;
      LetUnshadowed([Numbered("t", k)], Scalar(ChainExpr(k)), ChainFrom(k + 1), {});
    }
  }

  lemma {:induction false} ExternalUnshadowed(b: nat)
    ensures BlockUnshadowed(ExternalFrom(b), {})
    decreases 4 - (if b <= 4 then b else 4)
  {
    hide BlockUnshadowed, ChainFrom, ExternalTail, LaneNames, Numbered;
    ChainUnshadowed(0);
    if b < 4 {
      ExternalUnshadowed(b + 1);
      assert AllUnshadowed(LaneArgs(b), {}) && AllUnshadowed(M4Fn().rets, {});
      LetUnshadowed(LaneNames(b), Splice(M4Fn(), LaneArgs(b)), ExternalFrom(b + 1), {});
    } else {
      TailUnshadowed();
    }
  }

  lemma {:induction false} LanesUnshadowed(i: nat)
    ensures AllUnshadowed(Lanes(i), {})
    decreases 16 - (if i <= 16 then i else 16)
  {
    hide Numbered;
    if i < 16 { LanesUnshadowed(i + 1); }
  }

  lemma TailUnshadowed()
    ensures BlockUnshadowed(ExternalTail(), {})
  {
    LanesUnshadowed(0);
    hide BlockUnshadowed, Lanes, AllUnshadowed;
    var t := ExternalTail();
    assert [t[2]] + [] == [t[2]] && [t[1]] + [t[2]] == [t[1], t[2]] && [t[0]] + [t[1], t[2]] == t;
    MapUnshadowed("k", 0, 16, OutExpr(), {});
    MapUnshadowed("j", 0, 4, SumsExpr(), {});
    hide OutExpr, SumsExpr;
    NothingUnshadowed({});
    LetUnshadowed(["out"], t[2].value, [], {});
    LetUnshadowed(["sums"], t[1].value, [t[2]], {});
    LetUnshadowed(["mixed"], t[0].value, [t[1], t[2]], {});
  }

  function Step(): Rhs {
    Splice(ExternalFn(), [Name("state")])
  }

  lemma StepUnshadowed(bound: set<string>)
    ensures RhsUnshadowed(Step(), bound)
  {
    hide BlockUnshadowed, ExternalFrom;
    ExternalUnshadowed(0);
  }

  lemma FullUnshadowed(c: Constants)
    ensures BlockUnshadowed(FullBody(c), {"r"})
  {
    assert "r"[0] == 'r' && "j"[0] == 'j';
    BoxSumFree(BoxExpr(c));
    MapUnshadowed("j", 0, 16, BoxExpr(c), {"r"});
    StepUnshadowed({"r"});
    NothingUnshadowed({"r"});
    hide BlockUnshadowed, RhsUnshadowed, BoxExpr, Step;
    var f := FullBody(c);
    assert [f[1]] + [] == [f[1]] && [f[0]] + [f[1]] == f;
    LetUnshadowed(["state"], f[1].value, [], {"r"});
    LetUnshadowed(["state"], f[0].value, [f[1]], {"r"});
  }

  /** A power of a sum of two. */
  lemma BoxSumFree(e: Expr)
    requires e.Power? && e.base.Paren? && e.base.e.Binary? && e.base.e.left.Index? && e.base.e.right.Constant?
    ensures SumFree(e)
  {
    var sum := e.base.e;
    assert SumFree(sum.left) && SumFree(sum.right);
    assert SumFree(sum);
    assert SumFree(e.base);
  }

  lemma DiagonalSumFree(c: Constants)
    ensures SumFree(DiagonalExpr(c))
  {
    var products := DiagonalExpr(c).left;
    assert SumFree(products.left) && SumFree(products.right);
    assert SumFree(products);
  }

  lemma PartialRhsUnshadowed(c: Constants)
    ensures RhsUnshadowed(Update(Name("state"), Lit(0), FirstBoxExpr(c)), {"r"})
    ensures RhsUnshadowed(Scalar(Sum(Name("j"), Lit(0), Lit(16), StateAt(Name("j")))), {"r"})
    ensures RhsUnshadowed(Map(Name("j"), Lit(0), Lit(16), DiagonalExpr(c)), {"r"})
  {
    assert "r"[0] == 'r' && "j"[0] == 'j';
    DiagonalSumFree(c);
    BoxSumFree(FirstBoxExpr(c));
    MapUnshadowed("j", 0, 16, DiagonalExpr(c), {"r"});
    SumFreeUnshadowed(FirstBoxExpr(c), {"r"});
    assert Binder(Name("j")) == {"j"};
  }

  lemma PartialUnshadowed(c: Constants)
    ensures BlockUnshadowed(PartialBody(c), {"r"})
  {
    PartialRhsUnshadowed(c);
    NothingUnshadowed({"r"});
    hide BlockUnshadowed, RhsUnshadowed, FirstBoxExpr, DiagonalExpr;
    var p := PartialBody(c);
    assert [p[2]] + [] == [p[2]] && [p[1]] + [p[2]] == [p[1], p[2]] && [p[0]] + [p[1], p[2]] == p;
    LetUnshadowed(["state"], p[2].value, [], {"r"});
    LetUnshadowed(["total"], p[1].value, [p[2]], {"r"});
    LetUnshadowed(["state"], p[0].value, [p[1], p[2]], {"r"});
  }

  lemma ProgramClean(c: Constants)
    ensures Clean(Poseidon2Fn(c))
  {
    ProgramHygienic(c);
    hide Hygienic, BlockUnshadowed, RhsUnshadowed, FullBody, PartialBody, ExternalFn;
    StepUnshadowed({});
    FullUnshadowed(c);
    PartialUnshadowed(c);
    NothingUnshadowed({});
    var b := Poseidon2Fn(c).body;
    assert [b[3]] + [] == [b[3]] && [b[2]] + [b[3]] == [b[2], b[3]] && [b[1]] + [b[2], b[3]] == [b[1], b[2], b[3]];
    assert [b[0]] + [b[1], b[2], b[3]] == b;
    ForUnshadowed("r", 4, 8, FullBody(c), []);
    ForUnshadowed("r", 0, 14, PartialBody(c), [b[3]]);
    ForUnshadowed("r", 0, 4, FullBody(c), [b[2], b[3]]);
    LetUnshadowed(["state"], Step(), [b[1], b[2], b[3]], {});
    assert AllUnshadowed([Name("state")], {});
  }

  /** The program compiles under the table's degree bound, and under any larger one, with one column
      per word of state. */
  lemma ProgramLowers(c: Constants, maxDegree: nat, materializeRets: bool)
    requires c.Valid() && maxDegree >= 3
    ensures LowerFn(Poseidon2Fn(c), maxDegree, map[], materializeRets).Ok?
    ensures |LowerFn(Poseidon2Fn(c), maxDegree, map[], materializeRets).value.args| == T
  {
    hide LowerFn, Permute, FnValue, Clean;
    var nothing: Oracle := (f, xs) => None;
    var zeros: State := Zeros(T);
    assert [Param("state", Some(16))][..0] == [];
    assert Width(Poseidon2Fn(c).params) == T;
    hide Poseidon2Fn;
    ProgramClean(c);
    ProgramIsPermutation(zeros, c, nothing);
    LowersIffMeaningful(Poseidon2Fn(c), maxDegree, map[], materializeRets, zeros, nothing);
    ArgsWide(Poseidon2Fn(c), maxDegree, map[], materializeRets);
  }

  /** The compiled table. */
  function Compiled(c: Constants, maxDegree: nat, materializeRets: bool): (fn: LoweredFn)
    requires c.Valid() && maxDegree >= 3
    ensures |fn.args| == T
  {
    ProgramLowers(c, maxDegree, materializeRets);
    LowerFn(Poseidon2Fn(c), maxDegree, map[], materializeRets).value
  }

  /** A row that satisfies the compiled constraints carries the permutation of its inputs. */
  lemma AcceptedRowIsPermutation(c: Constants, maxDegree: nat, materializeRets: bool, row: Cells, orc: Oracle)
    requires c.Valid() && maxDegree >= 3
    requires var fn := Compiled(c, maxDegree, materializeRets);
             var cells := Derive(fn.derived, row);
             ConstraintsHold(fn, cells) && CallsAnswered(fn, cells, orc)
    ensures var fn := Compiled(c, maxDegree, materializeRets);
            Values(fn.rets, Derive(fn.derived, row)) == Permute(Values(fn.args, row), c)
  {
    hide LowerFn, Poseidon2Fn, Permute, FnValue, Derive, ConstraintsHold, CallsAnswered, WitnessOf, Values;
    ProgramHygienic(c);
    ProgramLowers(c, maxDegree, materializeRets);
    var fn := Compiled(c, maxDegree, materializeRets);
    LoweringSound(Poseidon2Fn(c), maxDegree, map[], materializeRets, row, orc);
    ProgramIsPermutation(Values(fn.args, row), c, orc);
  }

  /** The filled row of any input satisfies every constraint and returns its permutation. */
  lemma FilledRowIsPermutation(c: Constants, maxDegree: nat, materializeRets: bool, s: State, orc: Oracle)
    requires c.Valid() && maxDegree >= 3
    ensures var fn := Compiled(c, maxDegree, materializeRets);
            var row := WitnessOf(fn, s, orc);
            Values(fn.args, row) == s && Values(fn.rets, row) == Permute(s, c) && ConstraintsHold(fn, row)
  {
    hide LowerFn, Poseidon2Fn, Permute, FnValue, Derive, ConstraintsHold, CallsAnswered, WitnessOf, Values;
    ProgramHygienic(c);
    ProgramLowers(c, maxDegree, materializeRets);
    LoweringComplete(Poseidon2Fn(c), maxDegree, map[], materializeRets, s, orc);
    ProgramIsPermutation(s, c, orc);
  }
}
