// Wiring soundness: satisfied rows whose op_def and wire bags close against the
// public side of well-formed circuits implement every arithmetic node exactly
// once, carry the canonical values, and make the claimed output correct.
module Wiring {
  import opened M31
  import opened FeltSemantics
  import opened Qm31Field
  import opened CircuitRows

  // -- The public side ------------------------------------------------------------------

  /** A recorded circuit and its claimed output wire. */
  datatype Circuit = Circuit(id: Felt, arena: Arena, output: nat, claimedNode: Felt, claimed: Qm31)

  function Count(ks: seq<nat>, k: nat): nat {
    if ks == [] then 0 else (if ks[0] == k then 1 else 0) + Count(ks[1..], k)
  }

  /** How often node id is an operand among the first n nodes. */
  function OperandUses(arena: Arena, n: nat, id: nat): nat
    requires n <= |arena|
  {
    if n == 0 then 0 else OperandUses(arena, n - 1, id) + Count(Operands(arena[n - 1].op), id)
  }

  /** Uses of a node: as an operand, plus one if it is the output. */
  function UseCount(arena: Arena, output: nat, id: nat): nat {
    OperandUses(arena, |arena|, id) + (if id == output then 1 else 0)
  }

  function Kind(op: Op): Felt {
    match op
    case Add(_, _) => ADD
    case Sub(_, _) => SUB
    case Mul(_, _) => MUL
    case Neg(_) => NEG
    case Inverse(_) => INVERSE
    case _ => 0
  }

  function Lhs(op: Op): nat {
    match op
    case Add(a, _) => a
    case Sub(a, _) => a
    case Mul(a, _) => a
    case Neg(a) => a
    case Inverse(a) => a
    case _ => 0
  }

  function Rhs(op: Op): nat {
    match op
    case Add(_, b) => b
    case Sub(_, b) => b
    case Mul(_, b) => b
    case _ => 0
  }

  /** The structure tuple of an arithmetic node. */
  function DefOf(c: Circuit, n: nat): OpDef
    requires n < |c.arena|
  {
    var op := c.arena[n].op;
    OpDef(c.id, Reduce(n), Kind(op), Reduce(Lhs(op)), Reduce(Rhs(op)))
  }

  /** The canonical wire of a node. */
  function WireOf(c: Circuit, n: nat): Wire
    requires n < |c.arena|
  {
    Wire(c.id, Reduce(n), c.arena[n].value)
  }

  /** Public structure emissions of the first n nodes. */
  function PublicDefs(c: Circuit, n: nat, d: OpDef): nat
    requires n <= |c.arena|
  {
    if n == 0 then 0
    else PublicDefs(c, n - 1, d) + (if Arithmetic(c.arena[n - 1].op) && DefOf(c, n - 1) == d then 1 else 0)
  }

  /** Public value emissions of the first n nodes: inputs and constants, once per use. */
  function PublicWires(c: Circuit, n: nat, t: Wire): nat
    requires n <= |c.arena|
  {
    if n == 0 then 0
    else
      PublicWires(c, n - 1, t)
      + (if !Arithmetic(c.arena[n - 1].op) && WireOf(c, n - 1) == t then Reduce(UseCount(c.arena, c.output, n - 1)) else 0)
  }

  function ClaimWire(c: Circuit): Wire {
    Wire(c.id, c.claimedNode, c.claimed)
  }

  function AllDefs(cs: seq<Circuit>, d: OpDef): nat {
    if cs == [] then 0 else AllDefs(cs[..|cs| - 1], d) + PublicDefs(cs[|cs| - 1], |cs[|cs| - 1].arena|, d)
  }

  function AllWires(cs: seq<Circuit>, t: Wire): nat {
    if cs == [] then 0 else AllWires(cs[..|cs| - 1], t) + PublicWires(cs[|cs| - 1], |cs[|cs| - 1].arena|, t)
  }

  /** The output claims, consumed publicly. */
  function AllClaims(cs: seq<Circuit>, t: Wire): nat {
    if cs == [] then 0 else AllClaims(cs[..|cs| - 1], t) + (if ClaimWire(cs[|cs| - 1]) == t then 1 else 0)
  }

  // -- The rows' side ----------------------------------------------------------------------

  function At<T(==)>(e: Entry<T>, t: T): nat {
    if e.tuple == t then e.multiplicity else 0
  }

  function SumAt<T(==)>(es: seq<Entry<T>>, t: T): nat {
    if es == [] then 0 else At(es[0], t) + SumAt(es[1..], t)
  }

  function Defs(rows: seq<Row>, d: OpDef): nat {
    if rows == [] then 0 else Defs(rows[..|rows| - 1], d) + At(Definition(rows[|rows| - 1]), d)
  }

  function Read(rows: seq<Row>, t: Wire): nat {
    if rows == [] then 0 else Read(rows[..|rows| - 1], t) + SumAt(Reads(rows[|rows| - 1]), t)
  }

  function Emitted(rows: seq<Row>, t: Wire): nat {
    if rows == [] then 0 else Emitted(rows[..|rows| - 1], t) + At(Emits(rows[|rows| - 1]), t)
  }

  // -- Acceptance -------------------------------------------------------------------------------

  ghost predicate DistinctIds(cs: seq<Circuit>) {
    forall i, j :: 0 <= i < j < |cs| ==> cs[i].id != cs[j].id
  }

  ghost predicate Circuits(cs: seq<Circuit>) {
    DistinctIds(cs) && forall i :: 0 <= i < |cs| ==> WellFormed(cs[i].arena) && |cs[i].arena| <= P
  }

  /** The linear table does not gate its emission by the enabler. */
  ghost predicate Gated(row: Row) {
    row.LinearRow? && !On(row) ==> row.uses == 0
  }

  ghost predicate RowsOK(rows: seq<Row>) {
    forall i :: 0 <= i < |rows| ==> Satisfied(rows[i])
  }

  ghost predicate RowsGated(rows: seq<Row>) {
    forall i :: 0 <= i < |rows| ==> Gated(rows[i])
  }

  /** What the rows that are off emit at t; only linear rows can. */
  function Stray(rows: seq<Row>, t: Wire): nat {
    if rows == [] then 0
    else Stray(rows[..|rows| - 1], t) + (if On(rows[|rows| - 1]) then 0 else At(Emits(rows[|rows| - 1]), t))
  }

  /** t is no node's canonical wire. */
  ghost predicate Foreign(cs: seq<Circuit>, t: Wire) {
    forall i, n :: 0 <= i < |cs| && 0 <= n < |cs[i].arena| ==> WireOf(cs[i], n) != t
  }

  /** At every wire that is nobody's value, the stray emissions cancel in the field. */
  ghost predicate NoStray(cs: seq<Circuit>, rows: seq<Row>) {
    forall t :: Foreign(cs, t) ==> Stray(rows, t) % P == 0
  }

  ghost predicate Balanced(cs: seq<Circuit>, rows: seq<Row>) {
    && (forall d :: (AllDefs(cs, d) - Defs(rows, d)) % P == 0)
    && (forall t :: (AllWires(cs, t) + Emitted(rows, t) - Read(rows, t) - AllClaims(cs, t)) % P == 0)
  }

  /** Everything the verifier checks, for fewer consumptions than field elements. */
  ghost predicate Accepted(cs: seq<Circuit>, rows: seq<Row>) {
    Circuits(cs) && RowsOK(rows) && Balanced(cs, rows) && 2 * |rows| + |cs| < P
  }

  // -- Counting -----------------------------------------------------------------------------------

  lemma OnOrOff(row: Row)
    requires Satisfied(row)
    ensures Definition(row).multiplicity == (if On(row) then 1 else 0)
    ensures forall k :: 0 <= k < |Reads(row)| ==> Reads(row)[k].multiplicity <= 1
  {
    hide Satisfied;
    if On(row) { OnRow(row); } else { OffRow(row); }
  }

  lemma {:induction false} DefsBounded(rows: seq<Row>, d: OpDef)
    requires RowsOK(rows)
    ensures Defs(rows, d) <= |rows|
  {
    hide Satisfied, Definition;
    if rows != [] {
      DefsBounded(rows[..|rows| - 1], d);
      OnOrOff(rows[|rows| - 1]);
    }
  }

  lemma {:induction false} ReadBounded(rows: seq<Row>, t: Wire)
    requires RowsOK(rows)
    ensures Read(rows, t) <= 2 * |rows|
  {
    hide Satisfied;
    if rows != [] {
      var last := rows[|rows| - 1];
      ReadBounded(rows[..|rows| - 1], t);
      OnOrOff(last);
      SumOfTwo(Reads(last), t);
    }
  }

  lemma SumOfTwo(es: seq<Entry<Wire>>, t: Wire)
    requires 1 <= |es| <= 2
    ensures SumAt(es, t) == At(es[0], t) + (if |es| == 2 then At(es[1], t) else 0)
  {
    if |es| == 2 { assert es[1..] == [es[1]]; }
  }

  lemma {:induction false} ClaimsBounded(cs: seq<Circuit>, t: Wire)
    ensures AllClaims(cs, t) <= |cs|
  {
    if cs != [] { ClaimsBounded(cs[..|cs| - 1], t); }
  }

  lemma {:induction false} DefCounted(rows: seq<Row>, i: nat)
    requires RowsOK(rows) && i < |rows| && On(rows[i])
    ensures Defs(rows, Definition(rows[i]).tuple) >= 1
  {
    hide Satisfied, Definition, On;
    var n := |rows| - 1;
    if i < n {
      assert rows[..n][i] == rows[i];
      DefCounted(rows[..n], i);
    } else {
      OnOrOff(rows[i]);
    }
  }

  lemma {:induction false} DefCountedTwice(rows: seq<Row>, i: nat, j: nat)
    requires RowsOK(rows) && i < j < |rows| && On(rows[i]) && On(rows[j])
    requires Definition(rows[i]).tuple == Definition(rows[j]).tuple
    ensures Defs(rows, Definition(rows[i]).tuple) >= 2
  {
    hide Satisfied, Definition, On;
    var n := |rows| - 1;
    assert rows[..n][i] == rows[i];
    if j < n {
      assert rows[..n][j] == rows[j];
      DefCountedTwice(rows[..n], i, j);
    } else {
      DefCounted(rows[..n], i);
      OnOrOff(rows[j]);
    }
  }

  /** If a structure is consumed, some row that is on consumes it. */
  lemma {:induction false} DefConsumer(rows: seq<Row>, d: OpDef)
    requires RowsOK(rows) && Defs(rows, d) >= 1
    ensures exists i :: 0 <= i < |rows| && On(rows[i]) && Definition(rows[i]).tuple == d
  {
    hide Satisfied, Definition, On;
    var n := |rows| - 1;
    OnOrOff(rows[n]);
    if Defs(rows[..n], d) >= 1 {
      DefConsumer(rows[..n], d);
      var i :| 0 <= i < n && On(rows[..n][i]) && Definition(rows[..n][i]).tuple == d;
      assert rows[i] == rows[..n][i];
    }
  }

  lemma {:induction false} ReadCounted(rows: seq<Row>, i: nat, k: nat)
    requires i < |rows| && k < |Reads(rows[i])| && Reads(rows[i])[k].multiplicity == 1
    ensures Read(rows, Reads(rows[i])[k].tuple) >= 1
  {
    hide Reads;
    var n := |rows| - 1;
    var t := Reads(rows[i])[k].tuple;
    if i < n {
      assert rows[..n][i] == rows[i];
      ReadCounted(rows[..n], i, k);
    } else {
      SumCounted(Reads(rows[i]), k);
    }
  }

  lemma {:induction false} SumCounted(es: seq<Entry<Wire>>, k: nat)
    requires k < |es| && es[k].multiplicity == 1
    ensures SumAt(es, es[k].tuple) >= 1
  {
    if k > 0 { SumCounted(es[1..], k - 1); }
  }

  lemma {:induction false} ClaimCounted(cs: seq<Circuit>, i: nat)
    requires i < |cs|
    ensures AllClaims(cs, ClaimWire(cs[i])) >= 1
  {
    var n := |cs| - 1;
    if i < n {
      assert cs[..n][i] == cs[i];
      ClaimCounted(cs[..n], i);
    }
  }

  // -- The public side, inverted -------------------------------------------------------------------

  /** Node n of circuit i is arithmetic with this structure. */
  ghost predicate IsDef(cs: seq<Circuit>, i: nat, n: nat, d: OpDef) {
    i < |cs| && n < |cs[i].arena| && Arithmetic(cs[i].arena[n].op) && DefOf(cs[i], n) == d
  }

  lemma {:induction false} DefSource(c: Circuit, k: nat, d: OpDef) returns (n: nat)
    requires k <= |c.arena| && PublicDefs(c, k, d) >= 1
    ensures n < k && Arithmetic(c.arena[n].op) && DefOf(c, n) == d
  {
    hide DefOf, Arithmetic;
    if Arithmetic(c.arena[k - 1].op) && DefOf(c, k - 1) == d {
      n := k - 1;
    } else {
      n := DefSource(c, k - 1, d);
    }
  }

  lemma {:induction false} DefOwner(cs: seq<Circuit>, d: OpDef) returns (i: nat, n: nat)
    requires AllDefs(cs, d) >= 1
    ensures IsDef(cs, i, n, d)
  {
    hide DefOf, Arithmetic;
    var last := |cs| - 1;
    if PublicDefs(cs[last], |cs[last].arena|, d) >= 1 {
      n := DefSource(cs[last], |cs[last].arena|, d);
      i := last;
    } else {
      i, n := DefOwner(cs[..last], d);
    }
  }

  lemma {:induction false} PublicDefsOnce(c: Circuit, k: nat, n: nat)
    requires k <= |c.arena| <= P && n < |c.arena| && Arithmetic(c.arena[n].op)
    ensures PublicDefs(c, k, DefOf(c, n)) == if n < k then 1 else 0
  {
    hide Arithmetic;
    if k > 0 {
      PublicDefsOnce(c, k - 1, n);
      assert Reduce(n) == n && Reduce(k - 1) == k - 1;
    }
  }

  lemma {:induction false} ForeignDefs(c: Circuit, k: nat, d: OpDef)
    requires k <= |c.arena| && c.id != d.circuit
    ensures PublicDefs(c, k, d) == 0
  {
    if k > 0 { ForeignDefs(c, k - 1, d); }
  }

  /** Each arithmetic node's structure is emitted exactly once. */
  lemma {:induction false} DefsOnce(cs: seq<Circuit>, i: nat, n: nat)
    requires DistinctIds(cs) && i < |cs| && n < |cs[i].arena| <= P && Arithmetic(cs[i].arena[n].op)
    ensures AllDefs(cs, DefOf(cs[i], n)) == 1
  {
    hide Arithmetic;
    var last := |cs| - 1;
    var d := DefOf(cs[i], n);
    if i < last {
      assert cs[..last][i] == cs[i];
      DefsOnce(cs[..last], i, n);
      ForeignDefs(cs[last], |cs[last].arena|, d);
    } else {
      PublicDefsOnce(cs[i], |cs[i].arena|, n);
      ForeignAllDefs(cs[..last], d);
    }
  }

  lemma {:induction false} ForeignAllDefs(cs: seq<Circuit>, d: OpDef)
    requires forall i :: 0 <= i < |cs| ==> cs[i].id != d.circuit
    ensures AllDefs(cs, d) == 0
  {
    if cs != [] {
      ForeignAllDefs(cs[..|cs| - 1], d);
      ForeignDefs(cs[|cs| - 1], |cs[|cs| - 1].arena|, d);
    }
  }

  lemma {:induction false} NoWires(c: Circuit, k: nat, t: Wire)
    requires k <= |c.arena| && forall n :: 0 <= n < k ==> WireOf(c, n) != t
    ensures PublicWires(c, k, t) == 0
  {
    hide WireOf, Arithmetic;
    if k > 0 { NoWires(c, k - 1, t); }
  }

  lemma {:induction false} NoAllWires(cs: seq<Circuit>, t: Wire)
    requires Foreign(cs, t)
    ensures AllWires(cs, t) == 0
  {
    hide WireOf;
    if cs != [] {
      var last := |cs| - 1;
      forall i, n | 0 <= i < last && 0 <= n < |cs[..last][i].arena|
        ensures WireOf(cs[..last][i], n) != t
      {
        assert WireOf(cs[i], n) != t;
      }
      NoAllWires(cs[..last], t);
      forall n | 0 <= n < |cs[last].arena|
        ensures WireOf(cs[last], n) != t
      {
      }
      NoWires(cs[last], |cs[last].arena|, t);
    }
  }

  // -- Soundness -----------------------------------------------------------------------------------

  lemma MustEmit(a: nat, b: nat)
    requires (a - b) % P == 0 && 1 <= b < P
    ensures a >= 1
  {
    if a == 0 { SmallMultipleIsZero(P, 0 - b); }
  }

  lemma MustRead(a: nat, b: nat)
    requires (a - b) % P == 0 && a < P && b < P
    ensures a == b
  {
    SmallMultipleIsZero(P, a - b);
  }

  /** A row that is on implements a node of some circuit. */
  lemma RowNode(cs: seq<Circuit>, rows: seq<Row>, r: nat) returns (i: nat, n: nat)
    requires Accepted(cs, rows) && r < |rows| && On(rows[r])
    ensures IsDef(cs, i, n, Definition(rows[r]).tuple)
  {
    hide Satisfied, Definition, On, Circuits, AllWires, Emitted, Read, AllClaims;
    var d := Definition(rows[r]).tuple;
    DefCounted(rows, r);
    DefsBounded(rows, d);
    MustEmit(AllDefs(cs, d), Defs(rows, d));
    i, n := DefOwner(cs, d);
  }

  /** Where no row that is on emits, only strays do. */
  lemma {:induction false} OnlyStrays(rows: seq<Row>, t: Wire)
    requires forall r :: 0 <= r < |rows| && On(rows[r]) ==> Emits(rows[r]).tuple != t
    ensures Emitted(rows, t) == Stray(rows, t)
  {
    hide On;
    if rows != [] {
      var n := |rows| - 1;
      forall r | 0 <= r < n && On(rows[..n][r])
        ensures Emits(rows[..n][r]).tuple != t
      {
        assert rows[..n][r] == rows[r];
      }
      OnlyStrays(rows[..n], t);
    }
  }

  /** Gated rows leave no strays. */
  lemma {:induction false} GatedRowsDoNotStray(rows: seq<Row>, t: Wire)
    requires RowsOK(rows) && RowsGated(rows)
    ensures Stray(rows, t) == 0
  {
    hide Satisfied, On;
    if rows != [] {
      var n := |rows| - 1;
      GatedRowsDoNotStray(rows[..n], t);
      if !On(rows[n]) {
        assert Gated(rows[n]);
        OffRow(rows[n]);
      }
    }
  }

  lemma GatedIsNoStray(cs: seq<Circuit>, rows: seq<Row>)
    requires RowsOK(rows) && RowsGated(rows)
    ensures NoStray(cs, rows)
  {
    hide RowsOK, RowsGated, Foreign;
    forall t | Foreign(cs, t)
      ensures Stray(rows, t) % P == 0
    {
      GatedRowsDoNotStray(rows, t);
    }
  }

  lemma Cancels(s: nat, b: nat)
    requires (0 + s - b) % P == 0 && s % P == 0 && b < P
    ensures b == 0
  {
    SumDivisible(P, s, s - b);
    SmallMultipleIsZero(P, b);
  }

  /** A wire that is nobody's value is consumed by nobody. */
  lemma NotConsumed(cs: seq<Circuit>, rows: seq<Row>, t: Wire)
    requires Accepted(cs, rows) && NoStray(cs, rows) && Foreign(cs, t)
    requires forall r :: 0 <= r < |rows| && On(rows[r]) ==> Emits(rows[r]).tuple != t
    ensures Read(rows, t) == 0 && AllClaims(cs, t) == 0
  {
    hide Satisfied, On, Circuits, Balanced, Foreign, AllWires, Emitted, Read, AllClaims, Stray;
    OnlyStrays(rows, t);
    NoAllWires(cs, t);
    ReadBounded(rows, t);
    ClaimsBounded(cs, t);
    WireBalance(cs, rows, t);
    assert Stray(rows, t) % P == 0;
    Cancels(Stray(rows, t), Read(rows, t) + AllClaims(cs, t));
  }

  lemma WireBalance(cs: seq<Circuit>, rows: seq<Row>, t: Wire)
    requires Balanced(cs, rows)
    ensures (AllWires(cs, t) + Emitted(rows, t) - (Read(rows, t) + AllClaims(cs, t))) % P == 0
  {
    hide AllWires, Emitted, Read, AllClaims, AllDefs, Defs;
  }

  lemma EmitsOutput(row: Row)
    ensures Emits(row).tuple == Wire(Definition(row).tuple.circuit, Definition(row).tuple.node, Output(row))
  {
  }

  lemma SameNode(cs: seq<Circuit>, i: nat, n: nat, j: nat, m: nat)
    requires Circuits(cs) && i < |cs| && n < |cs[i].arena| && j < |cs| && m < |cs[j].arena|
    requires cs[i].id == cs[j].id && Reduce(n) == Reduce(m)
    ensures i == j && n == m
  {
    hide WellFormed;
    assert Reduce(n) == n && Reduce(m) == m;
  }

  /** What a row's structure tuple says about the node. */
  lemma RowShape(cs: seq<Circuit>, row: Row, i: nat, n: nat)
    requires Circuits(cs) && Satisfied(row) && On(row) && IsDef(cs, i, n, Definition(row).tuple)
    ensures Below(cs[i].arena[n].op, n)
    ensures var op := cs[i].arena[n].op;
            match row
            case MulRow(_, _, _, cid, _, l, r, _, _, _) => op.Mul? && cid == cs[i].id && l == op.a && r == op.b
            case InvRow(_, _, cid, _, l, _, _, _) => op.Inverse? && cid == cs[i].id && l == op.a
            case LinearRow(cid, _, isAdd, isSub, isNeg, l, r, _, _, _, _, _) =>
              && cid == cs[i].id && l == Lhs(op)
              && ((isAdd == 1 && isSub == 0 && isNeg == 0 && op.Add? && r == op.b)
                  || (isAdd == 0 && isSub == 1 && isNeg == 0 && op.Sub? && r == op.b)
                  || (isAdd == 0 && isSub == 0 && isNeg == 1 && op.Neg?))
  {
    var op := cs[i].arena[n].op;
    assert WellFormed(cs[i].arena) && Below(op, n);
    hide WellFormed, Satisfied;
    if row.LinearRow? { LinearFlags(row); }
    assert Reduce(Lhs(op)) == Lhs(op) && Reduce(Rhs(op)) == Rhs(op);
  }

  /** Every row that is on outputs its node's canonical value. */
  lemma {:induction false} RowSound(cs: seq<Circuit>, rows: seq<Row>, r: nat, i: nat, n: nat)
    requires Accepted(cs, rows) && NoStray(cs, rows) && r < |rows| && On(rows[r])
    requires IsDef(cs, i, n, Definition(rows[r]).tuple)
    ensures Output(rows[r]) == cs[i].arena[n].value
    decreases n, 0
  {
    var row, op := rows[r], cs[i].arena[n].op;
    RowShape(cs, row, i, n);
    RowImplements(row);
    OnRow(row);
    hide Satisfied, Balanced, NoStray, Circuits;
    ReadSound(cs, rows, r, 0, i, Lhs(op));
    if row.MulRow? || (row.LinearRow? && row.isNeg == 0) {
      ReadSound(cs, rows, r, 1, i, Rhs(op));
    }
    NodeValue(cs, i, n);
    hide QMul, QAdd, QSub, QNeg;
    if row.InvRow? { InverseUnique(row.a, row.inv, cs[i].arena[n].value); }
  }

  lemma NodeValue(cs: seq<Circuit>, i: nat, n: nat)
    requires Circuits(cs) && i < |cs| && n < |cs[i].arena|
    ensures Below(cs[i].arena[n].op, n) && Computed(cs[i].arena, n)
  {
    assert WellFormed(cs[i].arena);
  }

  /** An operand read by a row that is on is the canonical value. */
  lemma {:induction false} ReadSound(cs: seq<Circuit>, rows: seq<Row>, r: nat, k: nat, i: nat, a: nat)
    requires Accepted(cs, rows) && NoStray(cs, rows) && r < |rows| && On(rows[r]) && i < |cs| && a < |cs[i].arena|
    requires k < |Reads(rows[r])| && Reads(rows[r])[k].multiplicity == 1
    requires Reads(rows[r])[k].tuple.circuit == cs[i].id && Reads(rows[r])[k].tuple.node == Reduce(a)
    ensures Reads(rows[r])[k].tuple.value == cs[i].arena[a].value
    decreases a, 1
  {
    var t := Reads(rows[r])[k].tuple;
    hide Satisfied, On, Reads, Definition, Emits, Output, Balanced, NoStray, WellFormed, Circuits;
    if t.value != cs[i].arena[a].value {
      forall j | 0 <= j < |rows| && On(rows[j])
        ensures Emits(rows[j]).tuple != t
      {
        EmitsOutput(rows[j]);
        var i', n' := RowNode(cs, rows, j);
        if cs[i'].id == cs[i].id && Reduce(n') == Reduce(a) {
          SameNode(cs, i', n', i, a);
          RowSound(cs, rows, j, i, a);
        }
      }
      NotCanonical(cs, i, a, t);
      ReadCounted(rows, r, k);
      NotConsumed(cs, rows, t);
      assert false;
    }
  }

  lemma NotCanonical(cs: seq<Circuit>, i: nat, a: nat, t: Wire)
    requires Circuits(cs) && i < |cs| && a < |cs[i].arena|
    requires t.circuit == cs[i].id && t.node == Reduce(a) && t.value != cs[i].arena[a].value
    ensures Foreign(cs, t)
  {
    forall j, m | 0 <= j < |cs| && 0 <= m < |cs[j].arena|
      ensures WireOf(cs[j], m) != t
    {
      if WireOf(cs[j], m) == t { SameNode(cs, j, m, i, a); }
    }
  }

  /** Exactly one row that is on implements the node. */
  ghost predicate ImplementedOnce(rows: seq<Row>, d: OpDef) {
    && (exists r :: 0 <= r < |rows| && On(rows[r]) && Definition(rows[r]).tuple == d)
    && (forall r, s :: 0 <= r < s < |rows| && On(rows[r]) && On(rows[s]) ==>
          Definition(rows[r]).tuple != d || Definition(rows[s]).tuple != d)
  }

  /** The row outputs the canonical value of the node whose structure it consumes. */
  ghost predicate Canonical(cs: seq<Circuit>, row: Row) {
    exists i: nat, n: nat :: IsDef(cs, i, n, Definition(row).tuple) && Output(row) == cs[i].arena[n].value
  }

  /**
   * Wiring soundness: exactly one row implements each arithmetic node, and every
   * row that is on carries the canonical value of the node it implements.
   */
  lemma WiringSound(cs: seq<Circuit>, rows: seq<Row>)
    requires Accepted(cs, rows) && NoStray(cs, rows)
    ensures forall i, n :: 0 <= i < |cs| && 0 <= n < |cs[i].arena| && Arithmetic(cs[i].arena[n].op) ==>
              ImplementedOnce(rows, DefOf(cs[i], n))
    ensures forall r :: 0 <= r < |rows| && On(rows[r]) ==> Canonical(cs, rows[r])
  {
    hide Satisfied, On, Definition, Output, Balanced, DefOf, Arithmetic, ImplementedOnce, NoStray;
    forall i, n | 0 <= i < |cs| && 0 <= n < |cs[i].arena| && Arithmetic(cs[i].arena[n].op)
      ensures ImplementedOnce(rows, DefOf(cs[i], n))
    {
      NodeImplementedOnce(cs, rows, i, n);
    }
    forall r | 0 <= r < |rows| && On(rows[r])
      ensures Canonical(cs, rows[r])
    {
      var i, n := RowNode(cs, rows, r);
      RowSound(cs, rows, r, i, n);
      assert Canonical(cs, rows[r]);
    }
  }

  lemma NodeImplementedOnce(cs: seq<Circuit>, rows: seq<Row>, i: nat, n: nat)
    requires Accepted(cs, rows) && i < |cs| && n < |cs[i].arena| && Arithmetic(cs[i].arena[n].op)
    ensures ImplementedOnce(rows, DefOf(cs[i], n))
  {
    hide Satisfied, On, Definition, AllWires, Emitted, Read, AllClaims, WellFormed, Arithmetic;
    var d := DefOf(cs[i], n);
    DefsOnce(cs, i, n);
    DefsBounded(rows, d);
    hide DefOf;
    MustRead(AllDefs(cs, d), Defs(rows, d));
    DefConsumer(rows, d);
    forall r, s | 0 <= r < s < |rows| && On(rows[r]) && On(rows[s])
      ensures Definition(rows[r]).tuple != d || Definition(rows[s]).tuple != d
    {
      if Definition(rows[r]).tuple == d && Definition(rows[s]).tuple == d { DefCountedTwice(rows, r, s); }
    }
  }

  /** The claimed output wire is a node of the circuit with its canonical value. */
  lemma OutputSound(cs: seq<Circuit>, rows: seq<Row>, i: nat)
    requires Accepted(cs, rows) && NoStray(cs, rows) && i < |cs|
    ensures exists n :: 0 <= n < |cs[i].arena| && cs[i].claimedNode == n && cs[i].claimed == cs[i].arena[n].value
  {
    hide Satisfied, On, Definition, Output, Balanced, NoStray, Emits;
    var t := ClaimWire(cs[i]);
    if Foreign(cs, t) {
      forall j | 0 <= j < |rows| && On(rows[j])
        ensures Emits(rows[j]).tuple != t
      {
        EmitsOutput(rows[j]);
        var i', n := RowNode(cs, rows, j);
        RowSound(cs, rows, j, i', n);
        assert WireOf(cs[i'], n) != t;
      }
      ClaimCounted(cs, i);
      NotConsumed(cs, rows, t);
      assert false;
    }
    var j, n :| 0 <= j < |cs| && 0 <= n < |cs[j].arena| && WireOf(cs[j], n) == t;
    assert j == i && n == Reduce(n);
  }

  // -- Exactly when every wire is canonical -----------------------------------------------------

  /** Every value the row reads is some node's. */
  ghost predicate ReadsCanonical(cs: seq<Circuit>, row: Row) {
    forall k :: 0 <= k < |Reads(row)| && Reads(row)[k].multiplicity == 1 ==> !Foreign(cs, Reads(row)[k].tuple)
  }

  /** Every row that is on, every wire it reads and every claimed wire is canonical. */
  ghost predicate AllCanonical(cs: seq<Circuit>, rows: seq<Row>) {
    && (forall r :: 0 <= r < |rows| && On(rows[r]) ==> Canonical(cs, rows[r]) && ReadsCanonical(cs, rows[r]))
    && (forall i :: 0 <= i < |cs| ==> !Foreign(cs, ClaimWire(cs[i])))
  }

  /** A canonical row emits its node's own wire. */
  lemma CanonicalEmits(cs: seq<Circuit>, row: Row, t: Wire)
    requires Canonical(cs, row) && Foreign(cs, t)
    ensures Emits(row).tuple != t
  {
    hide Definition, Output, Emits, Foreign, Arithmetic;
    var i: nat, n: nat :| IsDef(cs, i, n, Definition(row).tuple) && Output(row) == cs[i].arena[n].value;
    EmitsOutput(row);
    assert Emits(row).tuple == WireOf(cs[i], n);
    ForeignAt(cs, t, i, n);
  }

  lemma ForeignAt(cs: seq<Circuit>, t: Wire, i: nat, n: nat)
    requires Foreign(cs, t) && i < |cs| && n < |cs[i].arena|
    ensures WireOf(cs[i], n) != t
  {
    hide WireOf;
  }

  lemma {:induction false} NothingRead(cs: seq<Circuit>, rows: seq<Row>, t: Wire)
    requires RowsOK(rows) && Foreign(cs, t)
    requires forall r :: 0 <= r < |rows| && On(rows[r]) ==> ReadsCanonical(cs, rows[r])
    ensures Read(rows, t) == 0
  {
    hide Satisfied, On, Reads, Foreign, ReadsCanonical;
    if rows != [] {
      var n := |rows| - 1;
      forall r | 0 <= r < n && On(rows[..n][r])
        ensures ReadsCanonical(cs, rows[..n][r])
      {
        assert rows[..n][r] == rows[r];
      }
      NothingRead(cs, rows[..n], t);
      RowReadsNothing(cs, rows[n], t);
    }
  }

  lemma RowReadsNothing(cs: seq<Circuit>, row: Row, t: Wire)
    requires Satisfied(row) && Foreign(cs, t) && (On(row) ==> ReadsCanonical(cs, row))
    ensures SumAt(Reads(row), t) == 0
  {
    hide Satisfied, On, Foreign;
    OnOrOff(row);
    if !On(row) { OffRow(row); }
    forall k | 0 <= k < |Reads(row)|
      ensures At(Reads(row)[k], t) == 0
    {
    }
    SumOfTwo(Reads(row), t);
  }

  lemma {:induction false} NothingClaimed(cs: seq<Circuit>, t: Wire)
    requires forall i :: 0 <= i < |cs| ==> ClaimWire(cs[i]) != t
    ensures AllClaims(cs, t) == 0
  {
    if cs != [] {
      assert forall i :: 0 <= i < |cs| - 1 ==> cs[..|cs| - 1][i] == cs[i];
      NothingClaimed(cs[..|cs| - 1], t);
    }
  }

  lemma CanonicalNoStray(cs: seq<Circuit>, rows: seq<Row>, t: Wire)
    requires Accepted(cs, rows) && AllCanonical(cs, rows) && Foreign(cs, t)
    ensures Stray(rows, t) % P == 0
  {
    hide Satisfied, On, Circuits, Balanced, Foreign, AllWires, Emitted, Read, AllClaims, Stray, Canonical, ReadsCanonical;
    forall r | 0 <= r < |rows| && On(rows[r])
      ensures Emits(rows[r]).tuple != t
    {
      CanonicalEmits(cs, rows[r], t);
    }
    OnlyStrays(rows, t);
    NoAllWires(cs, t);
    NothingRead(cs, rows, t);
    NothingClaimed(cs, t);
    WireBalance(cs, rows, t);
  }

  /** What a row that is on reads is some node's value. */
  lemma ReadIsCanonical(cs: seq<Circuit>, rows: seq<Row>, r: nat, k: nat)
    requires Accepted(cs, rows) && NoStray(cs, rows) && r < |rows| && On(rows[r])
    requires k < |Reads(rows[r])| && Reads(rows[r])[k].multiplicity == 1
    ensures !Foreign(cs, Reads(rows[r])[k].tuple)
  {
    hide Satisfied, On, Reads, Definition, Emits, Output, Balanced, NoStray, Circuits, Foreign;
    var t := Reads(rows[r])[k].tuple;
    if Foreign(cs, t) {
      NobodyEmits(cs, rows, t);
      ReadCounted(rows, r, k);
      NotConsumed(cs, rows, t);
      assert false;
    }
  }

  lemma NobodyEmits(cs: seq<Circuit>, rows: seq<Row>, t: Wire)
    requires Accepted(cs, rows) && NoStray(cs, rows) && Foreign(cs, t)
    ensures forall j :: 0 <= j < |rows| && On(rows[j]) ==> Emits(rows[j]).tuple != t
  {
    hide Satisfied, On, Definition, Emits, Output, Balanced, NoStray, Circuits, Foreign;
    forall j | 0 <= j < |rows| && On(rows[j])
      ensures Emits(rows[j]).tuple != t
    {
      var i, n := RowNode(cs, rows, j);
      RowSound(cs, rows, j, i, n);
      assert Canonical(cs, rows[j]);
      CanonicalEmits(cs, rows[j], t);
    }
  }

  lemma ClaimIsCanonical(cs: seq<Circuit>, rows: seq<Row>, i: nat)
    requires Accepted(cs, rows) && NoStray(cs, rows) && i < |cs|
    ensures !Foreign(cs, ClaimWire(cs[i]))
  {
    hide Satisfied, On, Emits, Balanced, NoStray, Circuits, Foreign;
    var t := ClaimWire(cs[i]);
    if Foreign(cs, t) {
      NobodyEmits(cs, rows, t);
      ClaimCounted(cs, i);
      NotConsumed(cs, rows, t);
      assert false;
    }
  }

  /**
   * Without gating: rows, reads and claims are all canonical if and only if the
   * emissions of disabled rows cancel at every wire that is nobody's value.
   */
  lemma CanonicalIffNoStray(cs: seq<Circuit>, rows: seq<Row>)
    requires Accepted(cs, rows)
    ensures AllCanonical(cs, rows) <==> NoStray(cs, rows)
  {
    hide Satisfied, On, Definition, Output, Balanced, Circuits, Foreign, Canonical, Stray;
    if AllCanonical(cs, rows) {
      forall t | Foreign(cs, t)
        ensures Stray(rows, t) % P == 0
      {
        CanonicalNoStray(cs, rows, t);
      }
    }
    if NoStray(cs, rows) {
      hide NoStray;
      forall r | 0 <= r < |rows| && On(rows[r])
        ensures Canonical(cs, rows[r]) && ReadsCanonical(cs, rows[r])
      {
        WiringSound(cs, rows);
        forall k | 0 <= k < |Reads(rows[r])| && Reads(rows[r])[k].multiplicity == 1
          ensures !Foreign(cs, Reads(rows[r])[k].tuple)
        {
          ReadIsCanonical(cs, rows, r, k);
        }
      }
      forall i | 0 <= i < |cs|
        ensures !Foreign(cs, ClaimWire(cs[i]))
      {
        ClaimIsCanonical(cs, rows, i);
      }
    }
  }

  /** Gating is enough: with no uses on disabled linear rows everything is canonical. */
  lemma GatedRowsAreCanonical(cs: seq<Circuit>, rows: seq<Row>)
    requires Accepted(cs, rows) && RowsGated(rows)
    ensures AllCanonical(cs, rows)
  {
    hide AllCanonical, RowsGated, NoStray, Circuits, Balanced;
    GatedIsNoStray(cs, rows);
    CanonicalIffNoStray(cs, rows);
  }

  // -- Why disabled linear rows must carry no uses -----------------------------------------------

  const MINUS_ONE := Qm31(P - 1, 0, 0, 0)

  /** A recording on alpha = 1 and denominator inverse 1 whose output is -alpha, claiming the output 0. */
  const LYING := Circuit(0, [Node(Input, Qm31Field.ONE), Node(Input, Qm31Field.ONE), Node(Neg(0), MINUS_ONE)], 2, 2, Qm31Field.ZERO)

  /** The node's own row, which emits nothing. */
  const HONEST_ROW := LinearRow(0, 2, 0, 0, 1, 0, 0, Qm31Field.ONE, Qm31Field.ZERO, MINUS_ONE, 0, 1)

  /** A disabled row emitting the claimed output. */
  const GHOST_ROW := LinearRow(0, 2, 0, 0, 0, 0, 0, Qm31Field.ZERO, Qm31Field.ZERO, Qm31Field.ZERO, 1, 0)

  /**
   * The linear table does not gate its emission: a disabled row with uses = 1
   * makes the verifier accept -1 == 0.
   */
  lemma UngatedRowsLie()
    ensures Accepted([LYING], [HONEST_ROW, GHOST_ROW]) && !RowsGated([HONEST_ROW, GHOST_ROW])
    ensures LYING.claimed != LYING.arena[2].value
  {
    LyingWellFormed();
    LyingRowsSatisfied();
    LyingBalanced();
    assert [HONEST_ROW, GHOST_ROW][1] == GHOST_ROW && !Gated(GHOST_ROW);
    hide WellFormed, Satisfied, Gated, Balanced;
    assert RowsOK([HONEST_ROW, GHOST_ROW]) && Circuits([LYING]);
  }

  lemma LyingBalanced()
    ensures Balanced([LYING], [HONEST_ROW, GHOST_ROW])
  {
    var cs, rows := [LYING], [HONEST_ROW, GHOST_ROW];
    hide AllDefs, Defs, AllWires, Emitted, Read, AllClaims;
    forall d
      ensures (AllDefs(cs, d) - Defs(rows, d)) % P == 0
    {
      LyingDefs(d);
    }
    forall t
      ensures (AllWires(cs, t) + Emitted(rows, t) - Read(rows, t) - AllClaims(cs, t)) % P == 0
    {
      LyingWires(t);
    }
  }

  lemma LyingWellFormed()
    ensures WellFormed(LYING.arena)
  {
    assert Computed(LYING.arena, 0) && Computed(LYING.arena, 1) && Computed(LYING.arena, 2);
  }

  lemma LyingRowsSatisfied()
    ensures Satisfied(HONEST_ROW) && Satisfied(GHOST_ROW)
  {
  }

  lemma LyingDefs(d: OpDef)
    ensures AllDefs([LYING], d) == Defs([HONEST_ROW, GHOST_ROW], d)
  {
    assert [LYING][..0] == [] && [HONEST_ROW, GHOST_ROW][..1] == [HONEST_ROW] && [HONEST_ROW][..0] == [];
    assert PublicDefs(LYING, 0, d) == 0 && PublicDefs(LYING, 1, d) == 0 && PublicDefs(LYING, 2, d) == 0;
    assert DefOf(LYING, 2) == Definition(HONEST_ROW).tuple;
    assert Defs([HONEST_ROW], d) == At(Definition(HONEST_ROW), d);
  }

  lemma LyingWires(t: Wire)
    ensures AllWires([LYING], t) + Emitted([HONEST_ROW, GHOST_ROW], t)
         == Read([HONEST_ROW, GHOST_ROW], t) + AllClaims([LYING], t)
  {
    assert [LYING][..0] == [] && [HONEST_ROW, GHOST_ROW][..1] == [HONEST_ROW] && [HONEST_ROW][..0] == [];
    LyingUses();
    assert PublicWires(LYING, 0, t) == 0;
    assert PublicWires(LYING, 1, t) == if WireOf(LYING, 0) == t then 1 else 0;
    assert PublicWires(LYING, 2, t) == PublicWires(LYING, 1, t);
    assert PublicWires(LYING, 3, t) == PublicWires(LYING, 2, t);
    SumOfTwo(Reads(HONEST_ROW), t);
    SumOfTwo(Reads(GHOST_ROW), t);
    assert Read([HONEST_ROW], t) == SumAt(Reads(HONEST_ROW), t);
    assert Emitted([HONEST_ROW], t) == At(Emits(HONEST_ROW), t);
  }

  lemma LyingUses()
    ensures UseCount(LYING.arena, 2, 0) == 1 && UseCount(LYING.arena, 2, 1) == 0
  {
    var arena := LYING.arena;
    assert Count([0], 0) == 1 && Count([0], 1) == 0 by { assert [0][1..] == []; }
    forall k: nat
      ensures OperandUses(arena, 0, k) == 0 && OperandUses(arena, 1, k) == 0 && OperandUses(arena, 2, k) == 0
    {
    }
    assert OperandUses(arena, 3, 0) == 1 && OperandUses(arena, 3, 1) == 0;
  }
}
