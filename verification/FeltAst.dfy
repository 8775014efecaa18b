// Felt functions as the front end parses them: statements, expressions, and the
// compile-time substitution that unrolls loops.  An inline callee is embedded in
// its call, so splicing is well-founded.
module FeltAst {

  import opened Wrappers

  datatype Op = Add | Sub | Mul | Div | Rem | Shl

  datatype Expr =
    | Lit(n: nat)
    | Name(x: string)
    | Index(array: Expr, index: Expr)
    | Constant(table: seq<nat>, index: Expr)        // constant(TABLE[index])
    | Pow2(exponent: Expr)
    | Sum(binder: Expr, start: Expr, end: Expr, body: Expr)
    | Binary(op: Op, left: Expr, right: Expr)
    | Power(base: Expr, exponent: Expr)             // base ** exponent
    | Neg(e: Expr)
    | Paren(e: Expr)

  /** The right-hand side of a let. */
  datatype Rhs =
    | Scalar(e: Expr)
    | ArrayLit(elems: seq<Expr>)
    | Map(binder: Expr, start: Expr, end: Expr, body: Expr)
    | Update(array: Expr, index: Expr, value: Expr)
    | Splice(callee: AirFn, args: seq<Expr>)        // call of an inline fn
    | Activate(name: string, args: seq<Expr>)       // call of a table-backed fn

  datatype Stmt =
    | Let(names: seq<string>, value: Rhs)
    | Assert(lhs: Expr, rhs: Expr)
    | For(x: string, start: nat, end: nat, body: seq<Stmt>)

  datatype Param = Param(name: string, size: Option<nat>)

  datatype AirFn = AirFn(name: string, params: seq<Param>, body: seq<Stmt>, rets: seq<Expr>)

  // -- Substitution of a loop variable by a literal ------------------------------

  function Substitute(e: Expr, x: string, k: nat): Expr {
    match e
    case Lit(_) => e
    case Name(y) => if y == x then Lit(k) else e
    case Index(a, i) => Index(Substitute(a, x, k), Substitute(i, x, k))
    case Constant(t, i) => Constant(t, Substitute(i, x, k))
    case Pow2(n) => Pow2(Substitute(n, x, k))
    case Sum(j, a, b, body) =>
      Sum(Substitute(j, x, k), Substitute(a, x, k), Substitute(b, x, k), Substitute(body, x, k))
    case Binary(op, l, r) => Binary(op, Substitute(l, x, k), Substitute(r, x, k))
    case Power(b, n) => Power(Substitute(b, x, k), Substitute(n, x, k))
    case Neg(f) => Neg(Substitute(f, x, k))
    case Paren(f) => Paren(Substitute(f, x, k))
  }

  function SubstituteAll(es: seq<Expr>, x: string, k: nat): (r: seq<Expr>)
    ensures |r| == |es|
    ensures forall i :: 0 <= i < |es| ==> r[i] == Substitute(es[i], x, k)
  {
    if es == [] then [] else [Substitute(es[0], x, k)] + SubstituteAll(es[1..], x, k)
  }

  function SubstituteRhs(v: Rhs, x: string, k: nat): Rhs {
    match v
    case Scalar(e) => Scalar(Substitute(e, x, k))
    case ArrayLit(es) => ArrayLit(SubstituteAll(es, x, k))
    case Map(j, a, b, body) =>
      Map(Substitute(j, x, k), Substitute(a, x, k), Substitute(b, x, k), Substitute(body, x, k))
    case Update(a, i, e) => Update(Substitute(a, x, k), Substitute(i, x, k), Substitute(e, x, k))
    case Splice(f, es) => Splice(f, SubstituteAll(es, x, k))
    case Activate(f, es) => Activate(f, SubstituteAll(es, x, k))
  }

  function SubstituteStmt(s: Stmt, x: string, k: nat): Stmt {
    match s
    case Let(names, v) => Let(names, SubstituteRhs(v, x, k))
    case Assert(l, r) => Assert(Substitute(l, x, k), Substitute(r, x, k))
    case For(y, a, b, body) => For(y, a, b, SubstituteBlock(body, x, k))
  }

  function SubstituteBlock(body: seq<Stmt>, x: string, k: nat): (r: seq<Stmt>)
    ensures |r| == |body|
  {
    if body == [] then [] else [SubstituteStmt(body[0], x, k)] + SubstituteBlock(body[1..], x, k)
  }

  // -- Sizes, for termination: substitution keeps them ----------------------------

  function ExprSize(e: Expr): nat {
    match e
    case Lit(_) => 1
    case Name(_) => 1
    case Index(a, i) => 1 + ExprSize(a) + ExprSize(i)
    case Constant(_, i) => 1 + ExprSize(i)
    case Pow2(n) => 1 + ExprSize(n)
    case Sum(j, a, b, body) => 1 + ExprSize(j) + ExprSize(a) + ExprSize(b) + ExprSize(body)
    case Binary(_, l, r) => 1 + ExprSize(l) + ExprSize(r)
    case Power(b, n) => 1 + ExprSize(b) + ExprSize(n)
    case Neg(f) => 1 + ExprSize(f)
    case Paren(f) => 1 + ExprSize(f)
  }

  function RhsSize(v: Rhs): nat {
    match v
    case Splice(f, _) => 1 + BlockSize(f.body)
    case _ => 1
  }

  function StmtSize(s: Stmt): nat {
    match s
    case Let(_, v) => 1 + RhsSize(v)
    case Assert(_, _) => 1
    case For(_, _, _, body) => 1 + BlockSize(body)
  }

  function BlockSize(body: seq<Stmt>): nat {
    if body == [] then 0 else 1 + StmtSize(body[0]) + BlockSize(body[1..])
  }

  lemma {:induction e} SubstituteSize(e: Expr, x: string, k: nat)
    ensures ExprSize(Substitute(e, x, k)) == ExprSize(e)
  {
  }

  lemma {:induction false} SubstituteStmtSize(s: Stmt, x: string, k: nat)
    ensures StmtSize(SubstituteStmt(s, x, k)) == StmtSize(s)
  {
    match s
    case Let(_, v) => assert RhsSize(SubstituteRhs(v, x, k)) == RhsSize(v);
    case Assert(_, _) =>
    case For(_, _, _, body) => SubstituteBlockSize(body, x, k);
  }

  lemma {:induction false} SubstituteBlockSize(body: seq<Stmt>, x: string, k: nat)
    ensures BlockSize(SubstituteBlock(body, x, k)) == BlockSize(body)
  {
    if body != [] {
      SubstituteStmtSize(body[0], x, k);
      SubstituteBlockSize(body[1..], x, k);
    }
  }

  // -- Binder hygiene ---------------------------------------------------------------

  /**
   * No loop variable is rebound inside its own loop, by an inner loop or by a
   * let.  Substitution is not capture-aware, so this is what makes unrolling
   * agree with lexical scope.
   */
  predicate Hygienic(body: seq<Stmt>, bound: set<string>) {
    if body == [] then true else HygienicStmt(body[0], bound) && Hygienic(body[1..], bound)
  }

  predicate HygienicStmt(s: Stmt, bound: set<string>) {
    match s
    case Let(names, v) => (forall n :: n in names ==> n !in bound) && HygienicRhs(v)
    case Assert(_, _) => true
    case For(x, _, _, body) => x !in bound && Hygienic(body, bound + {x})
  }

  predicate HygienicRhs(v: Rhs) {
    v.Splice? ==> Hygienic(v.callee.body, {})
  }
}
