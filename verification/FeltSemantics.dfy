// What a felt function means, independently of the compiler: values over M31,
// lexical scope, loop variables in an environment of their own (no substitution),
// and calls of other functions through an oracle.
module FeltSemantics {
  import opened M31
  import opened Wrappers
  import opened FeltAst

  // -- Field operations ------------------------------------------------------------

  function FAdd(a: Felt, b: Felt): Felt { Reduce(a + b) }

  function FSub(a: Felt, b: Felt): Felt { Reduce(a - b) }

  function FMul(a: Felt, b: Felt): Felt { Reduce(a * b) }

  function FNeg(a: Felt): Felt { Reduce(0 - a) }

  function FPow(a: Felt, n: nat): Felt {
    if n == 0 then 1 else FMul(a, FPow(a, n - 1))
  }

  // -- Compile-time values ------------------------------------------------------------

  /** Loop variables in scope. */
  type Ints = map<string, nat>

  /** An index expression: integer arithmetic, where a negative difference or a zero divisor is an error. */
  function IndexValue(e: Expr, ints: Ints): Option<nat> {
    match e
    case Lit(n) => Some(n)
    case Name(x) => if x in ints then Some(ints[x]) else None
    case Binary(op, l, r) =>
      var a :- IndexValue(l, ints);
      var b :- IndexValue(r, ints);
      (match op
       case Add => Some(a + b)
       case Sub => if a < b then None else Some(a - b)
       case Mul => Some(a * b)
       case Div => if b == 0 then None else Some(a / b)
       case Rem => if b == 0 then None else Some(a % b)
       case Shl => None)
    case Paren(f) => IndexValue(f, ints)
    case _ => None
  }

  /** A field constant: literals, pow2, +, -, *, <<. */
  function ConstValue(e: Expr, ints: Ints): Option<Felt> {
    match e
    case Lit(n) => Some(Reduce(n))
    case Name(x) => if x in ints then Some(Reduce(ints[x])) else None
    case Pow2(n) =>
      var k :- ConstValue(n, ints);
      Some(FPow(2, k))
    case Binary(op, l, r) =>
      var a :- ConstValue(l, ints);
      var b :- ConstValue(r, ints);
      (match op
       case Add => Some(FAdd(a, b))
       case Sub => Some(FSub(a, b))
       case Mul => Some(FMul(a, b))
       case Shl => Some(FMul(FPow(2, b), a))
       case _ => None)
    case Paren(f) => ConstValue(f, ints)
    case _ => None
  }

  /** A host constant; a position the host table does not have does not compile. */
  function HostConstant(table: seq<nat>, position: Option<nat>): Felt {
    if position.Some? && position.value < |table| then Reduce(table[position.value]) else 0
  }

  // -- Values ------------------------------------------------------------------------------

  datatype Val = Single(v: Felt) | Array(vs: seq<Felt>)

  type Env = map<string, Val>

  /** A plain name: not a loop variable. */
  function PlainName(e: Expr, ints: Ints): Option<string> {
    if e.Name? && e.x !in ints then Some(e.x) else None
  }

  function ArrayNamed(e: Expr, env: Env, ints: Ints): Option<seq<Felt>> {
    var x :- PlainName(e, ints);
    if x in env && env[x].Array? then Some(env[x].vs) else None
  }

  function ExprValue(e: Expr, env: Env, ints: Ints): Option<Felt>
    decreases e, 0, 0
  {
    match e
    case Lit(n) => Some(Reduce(n))
    case Name(x) =>
      if x in ints then Some(Reduce(ints[x]))
      else if x in env && env[x].Single? then Some(env[x].v) else None
    case Index(a, i) =>
      var vs :- ArrayNamed(a, env, ints);
      var k :- IndexValue(i, ints);
      if k < |vs| then Some(vs[k]) else None
    case Constant(t, i) => Some(HostConstant(t, IndexValue(i, ints)))
    case Pow2(_) => ConstValue(e, ints)
    case Sum(j, a, b, body) =>
      var x :- PlainName(j, map[]);
      var lo :- IndexValue(a, ints);
      var hi :- IndexValue(b, ints);
      if lo < hi then SumValue(x, lo, hi, body, env, ints) else None
    case Binary(op, l, r) =>
      if op == Shl then ConstValue(e, ints)
      else
        var a :- ExprValue(l, env, ints);
        var b :- ExprValue(r, env, ints);
        (match op
         case Add => Some(FAdd(a, b))
         case Sub => Some(FSub(a, b))
         case Mul => Some(FMul(a, b))
         case _ => None)
    case Power(b, n) =>
      var k :- IndexValue(n, ints);
      if k == 0 then Some(1)
      else
        var a :- ExprValue(b, env, ints);
        Some(FPow(a, k))
    case Neg(f) =>
      var a :- ExprValue(f, env, ints);
      Some(FNeg(a))
    case Paren(f) => ExprValue(f, env, ints)
  }

  /** body at lo + ... + body at hi - 1. */
  function SumValue(x: string, lo: nat, hi: nat, body: Expr, env: Env, ints: Ints): Option<Felt>
    requires lo < hi
    decreases body, 1, hi - lo
  {
    var last :- ExprValue(body, env, ints[x := hi - 1]);
    if lo + 1 == hi then Some(last)
    else
      var before :- SumValue(x, lo, hi - 1, body, env, ints);
      Some(FAdd(before, last))
  }

  function ExprValues(es: seq<Expr>, env: Env, ints: Ints): Option<seq<Felt>> {
    if es == [] then Some([])
    else
      var v :- ExprValue(es[0], env, ints);
      var vs :- ExprValues(es[1..], env, ints);
      Some([v] + vs)
  }

  /** body at lo, ..., body at hi - 1. */
  function MapValues(x: string, lo: nat, hi: nat, body: Expr, env: Env, ints: Ints): Option<seq<Felt>>
    decreases hi - lo
  {
    if lo >= hi then Some([])
    else
      var v :- ExprValue(body, env, ints[x := lo]);
      var vs :- MapValues(x, lo + 1, hi, body, env, ints);
      Some([v] + vs)
  }

  /** An argument or a return: an array by name, or a scalar. */
  function ArgValue(e: Expr, env: Env, ints: Ints): Option<Val> {
    var a := ArrayNamed(e, env, ints);
    if a.Some? then Some(Array(a.value))
    else
      var v :- ExprValue(e, env, ints);
      Some(Single(v))
  }

  function ArgValues(es: seq<Expr>, env: Env, ints: Ints): Option<seq<Val>> {
    if es == [] then Some([])
    else
      var v :- ArgValue(es[0], env, ints);
      var vs :- ArgValues(es[1..], env, ints);
      Some([v] + vs)
  }

  function Flatten(vals: seq<Val>): seq<Felt> {
    if vals == [] then []
    else (if vals[0].Single? then [vals[0].v] else vals[0].vs) + Flatten(vals[1..])
  }

  // -- Functions ----------------------------------------------------------------------------

  /** The meaning of the table-backed functions: flattened arguments to flattened returns. */
  type Oracle = (string, seq<Felt>) -> Option<seq<Felt>>

  /** Values for n binders: one value, one array of everything, or one each. */
  function ForBinders(n: nat, vals: seq<Val>): Option<seq<Val>> {
    if n == 1 then (if |vals| == 1 then Some(vals) else Some([Array(Flatten(vals))]))
    else if n == |vals| then Some(vals)
    else None
  }

  function Singles(vs: seq<Felt>): seq<Val> {
    seq(|vs|, i requires 0 <= i < |vs| => Single(vs[i]))
  }

  /** Call results for n binders: one binder takes several returns as an array. */
  function CallBinders(n: nat, vs: seq<Felt>): Option<seq<Val>> {
    if n == 1 && |vs| > 1 then Some([Array(vs)])
    else if n == |vs| then Some(Singles(vs))
    else None
  }

  function Bind(names: seq<string>, vals: seq<Val>, env: Env): Env {
    if names == [] || vals == [] then env
    else Bind(names[1..], vals[1..], env[names[0] := vals[0]])
  }

  /** Arguments of an inline function in its own scope. */
  function LocalEnv(params: seq<Param>, args: seq<Expr>, env: Env, ints: Ints): Option<Env>
    requires |params| == |args|
  {
    if params == [] then Some(map[])
    else
      var n := |params| - 1;
      var local :- LocalEnv(params[..n], args[..n], env, ints);
      var v :- ParamValue(params[n], args[n], env, ints);
      Some(local[params[n].name := v])
  }

  function ParamValue(p: Param, arg: Expr, env: Env, ints: Ints): Option<Val> {
    match p.size
    case None =>
      var v :- ExprValue(arg, env, ints);
      Some(Single(v))
    case Some(size) =>
      var vs :- ArrayNamed(arg, env, ints);
      if |vs| == size then Some(Array(vs)) else None
  }

  /** Values of a right-hand side for n binders, and whether the assertions on the way hold. */
  function RhsValue(n: nat, v: Rhs, env: Env, ints: Ints, orc: Oracle): Option<(seq<Val>, bool)>
    decreases RhsSize(v), 2, 0
  {
    match v
    case Scalar(e) =>
      var x :- ExprValue(e, env, ints);
      if n == 1 then Some(([Single(x)], true)) else None
    case ArrayLit(es) =>
      var xs :- ExprValues(es, env, ints);
      Some(([Array(xs)], true))
    case Map(j, a, b, body) =>
      var x :- PlainName(j, map[]);
      var lo :- IndexValue(a, ints);
      var hi :- IndexValue(b, ints);
      var xs :- MapValues(x, lo, hi, body, env, ints);
      Some(([Array(xs)], true))
    case Update(a, i, e) =>
      var xs :- ArrayNamed(a, env, ints);
      var k :- IndexValue(i, ints);
      var x :- ExprValue(e, env, ints);
      if k < |xs| then Some(([Array(xs[k := x])], true)) else None
    case Splice(f, args) =>
      if |args| != |f.params| then None
      else
        var local :- LocalEnv(f.params, args, env, ints);
        var (final, ok) :- BlockValue(f.body, local, map[], orc);
        var rets :- ArgValues(f.rets, final, map[]);
        var vals :- ForBinders(n, rets);
        Some((vals, ok))
    case Activate(f, args) =>
      var xs :- ArgValues(args, env, ints);
      var rets :- orc(f, Flatten(xs));
      var vals :- CallBinders(n, rets);
      Some((vals, true))
  }

  /** The environment after a block, and whether every assertion held. */
  function BlockValue(body: seq<Stmt>, env: Env, ints: Ints, orc: Oracle): Option<(Env, bool)>
    decreases BlockSize(body), 1, 0
  {
    if body == [] then Some((env, true))
    else
      var (env', ok) :- StmtValue(body[0], env, ints, orc);
      var (env'', ok') :- BlockValue(body[1..], env', ints, orc);
      Some((env'', ok && ok'))
  }

  function StmtValue(s: Stmt, env: Env, ints: Ints, orc: Oracle): Option<(Env, bool)>
    decreases StmtSize(s), 0, 0
  {
    match s
    case Let(names, v) =>
      if names == [] then None
      else
        var (vals, ok) :- RhsValue(|names|, v, env, ints, orc);
        Some((Bind(names, vals, env), ok))
    case Assert(l, r) =>
      var a :- ExprValue(l, env, ints);
      var b :- ExprValue(r, env, ints);
      Some((env, a == b))
    case For(x, lo, hi, body) => LoopValue(x, lo, hi, body, env, ints, orc)
  }

  /** for x in lo..hi: the environment runs through the iterations. */
  function LoopValue(x: string, lo: nat, hi: nat, body: seq<Stmt>, env: Env, ints: Ints, orc: Oracle)
    : Option<(Env, bool)>
    decreases BlockSize(body), 2, hi - lo
  {
    if lo >= hi then Some((env, true))
    else
      var (env', ok) :- BlockValue(body, env, ints[x := lo], orc);
      var (env'', ok') :- LoopValue(x, lo + 1, hi, body, env', ints, orc);
      Some((env'', ok && ok'))
  }

  /** Flattened arguments bound to parameters, in order. */
  function ParamEnv(params: seq<Param>, args: seq<Felt>): Option<Env> {
    if params == [] then (if args == [] then Some(map[]) else None)
    else
      var n := |params| - 1;
      var width := if params[n].size.None? then 1 else params[n].size.value;
      if width > |args| then None
      else
        var cut := |args| - width;
        var env :- ParamEnv(params[..n], args[..cut]);
        Some(env[params[n].name := if params[n].size.None? then Single(args[cut]) else Array(args[cut..])])
  }

  /** The function itself: flattened returns, and whether its assertions hold. */
  function FnValue(f: AirFn, args: seq<Felt>, orc: Oracle): Option<(seq<Felt>, bool)> {
    var env :- ParamEnv(f.params, args);
    var (final, ok) :- BlockValue(f.body, env, map[], orc);
    var rets :- ArgValues(f.rets, final, map[]);
    Some((Flatten(rets), ok))
  }
}
