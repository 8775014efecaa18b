// Cell names as the generated code spells them: `base` for the first use of a
// base, `base_v<k>` for the k-th.  The lowerer does not reserve the suffixed name
// it returns, so two cells share a name exactly when one base is spelled like a
// later version of another.
module CellNames {
  import opened Lowering

  function Spelled(c: Cell): string {
    if c.version == 1 then c.base else c.base + "_v" + Digits(c.version)
  }

  /** a is spelled like version k of base b. */
  ghost predicate Versioned(a: string, b: string, k: nat) {
    k >= 2 && a == b + "_v" + Digits(k)
  }

  predicate IsDigit(c: char) {
    '0' <= c <= '9'
  }

  lemma {:induction false} DigitsAreDigits(n: nat)
    ensures |Digits(n)| > 0 && forall i :: 0 <= i < |Digits(n)| ==> IsDigit(Digits(n)[i])
  {
    if n >= 10 { DigitsAreDigits(n / 10); }
  }

  lemma {:induction false} DigitsInjective(m: nat, n: nat)
    requires Digits(m) == Digits(n)
    ensures m == n
  {
    var a, b := Digits(m), Digits(n);
    if m >= 10 { DigitsAreDigits(m / 10); }
    if n >= 10 { DigitsAreDigits(n / 10); }
    if m >= 10 && n >= 10 {
      assert a[..|a| - 1] == Digits(m / 10) && b[..|b| - 1] == Digits(n / 10);
      DigitsInjective(m / 10, n / 10);
      assert a[|a| - 1] == b[|b| - 1];
    }
  }

  /** A versioned spelling ends in 'v' and then its digits. */
  lemma Ending(a: string, n: nat, s: string)
    requires s == a + "_v" + Digits(n)
    ensures var k := |s| - |Digits(n)|;
            && k >= 2 && s[k - 1] == 'v' && s[k..] == Digits(n) && s[..k - 2] == a
            && forall i :: k <= i < |s| ==> IsDigit(s[i])
  {
    DigitsAreDigits(n);
  }

  /** The version suffix of a spelling is its trailing run of digits. */
  lemma SuffixUnique(a: string, b: string, m: nat, n: nat)
    requires a + "_v" + Digits(m) == b + "_v" + Digits(n)
    ensures a == b && m == n
  {
    var s := a + "_v" + Digits(m);
    Ending(a, m, s);
    Ending(b, n, s);
    var i, j := |s| - |Digits(m)|, |s| - |Digits(n)|;
    assert !IsDigit(s[i - 1]) && !IsDigit(s[j - 1]);
    assert i == j;
    DigitsInjective(m, n);
  }

  /** Different cells with the same spelling: one base is spelled like a version of the other. */
  lemma SpellingsClash(c: Cell, d: Cell)
    requires c != d && c.version >= 1 && d.version >= 1
    ensures Spelled(c) == Spelled(d) <==>
            (d.version == 1 && Versioned(d.base, c.base, c.version)) || (c.version == 1 && Versioned(c.base, d.base, d.version))
  {
    if Spelled(c) == Spelled(d) && c.version > 1 && d.version > 1 {
      SuffixUnique(c.base, d.base, c.version, d.version);
      assert false;
    }
  }

  /** Shadowing x twice and naming a third variable x_v2 is such a clash. */
  lemma ClashExample()
    ensures Spelled(Cell("x", 2)) == Spelled(Cell("x_v2", 1))
  {
    assert Digits(2) == "2";
    assert "x" + "_v" + "2" == "x_v2";
  }
}
