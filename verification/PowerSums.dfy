/** Sums of powers y_1 * x_1^j + ... + y_n * x_n^j, which is what syndromes are. */
module PowerSums {
  import opened Fields

  function Power(F: Field, x: gf, n: nat): gf { if n == 0 then 1 else Mul(F, x, Power(F, x, n - 1)) }

  lemma {:induction false} PowerAdds(F: Field, x: gf, m: nat, n: nat)
    requires IsRing(F)
    ensures Power(F, x, m + n) == Mul(F, Power(F, x, m), Power(F, x, n))
  {
    if m == 0 {
      OneMul(F, Power(F, x, n));
    } else {
      PowerAdds(F, x, m - 1, n);
      assert MulAssoc(F, x, Power(F, x, m - 1), Power(F, x, n));
    }
  }

  lemma {:induction false} PowerNonzero(F: Field, x: gf, n: nat)
    requires IsField(F) && x != 0
    ensures Power(F, x, n) != 0
  {
    if n > 0 {
      PowerNonzero(F, x, n - 1);
      if Power(F, x, n) == 0 { NoZeroDivisors(F, x, Power(F, x, n - 1)); }
    }
  }

  datatype Term = Term(x: gf, y: gf)

  function PowerSum(F: Field, e: seq<Term>, j: nat): gf {
    if |e| == 0 then 0
    else Add(F, PowerSum(F, e[..|e| - 1], j), Mul(F, e[|e| - 1].y, Power(F, e[|e| - 1].x, j)))
  }

  ghost predicate Differ(e: seq<Term>, i: int, k: int) { 0 <= i < k < |e| ==> e[i].x != e[k].x }

  ghost predicate Distinct(e: seq<Term>) {
    && (forall i {:trigger e[i]} :: 0 <= i < |e| ==> e[i].x != 0)
    && (forall i, k {:trigger Differ(e, i, k)} :: Differ(e, i, k))
  }

  // ----- linear independence of the power sequences -----

  /** Each y times (x + z). */
  function Reduced(F: Field, e: seq<Term>, z: gf): (r: seq<Term>)
    ensures |r| == |e|
  { seq(|e|, i requires 0 <= i < |e| => Term(e[i].x, Mul(F, e[i].y, Add(F, e[i].x, z)))) }

  lemma {:induction false} ReducedSum(F: Field, e: seq<Term>, z: gf, j: nat)
    requires IsField(F)
    ensures PowerSum(F, Reduced(F, e, z), j) == Add(F, PowerSum(F, e, j + 1), Mul(F, z, PowerSum(F, e, j)))
  {
    if |e| == 0 {
      MulZero(F, z);
      AddsUp(F, 0, 0);
    } else {
      var e' := e[..|e| - 1];
      var x, y, w := e[|e| - 1].x, e[|e| - 1].y, Power(F, e[|e| - 1].x, j);
      ReducedSum(F, e', z, j);
      assert Reduced(F, e, z)[..|e| - 1] == Reduced(F, e', z);
      ReducedTerm(F, x, y, z, w);
      assert Distributes(F, z, PowerSum(F, e', j), Mul(F, y, w));
      Swap4(F, PowerSum(F, e', j + 1), Mul(F, z, PowerSum(F, e', j)), Mul(F, y, Mul(F, x, w)), Mul(F, z, Mul(F, y, w)));
    }
  }

  lemma ReducedTerm(F: Field, x: gf, y: gf, z: gf, w: gf)
    requires IsField(F)
    ensures Mul(F, Mul(F, y, Add(F, x, z)), w) == Add(F, Mul(F, y, Mul(F, x, w)), Mul(F, z, Mul(F, y, w)))
  {
    assert Distributes(F, y, x, z);
    DistributesLeft(F, Mul(F, y, x), Mul(F, y, z), w);
    assert MulAssoc(F, y, x, w) && MulAssoc(F, y, z, w);
    MulSwap(F, y, z, w);
  }

  lemma ReducedDistinct(F: Field, e: seq<Term>, z: gf)
    requires |e| > 0 && Distinct(e)
    ensures Distinct(Reduced(F, e[..|e| - 1], z)) && Distinct(e[..|e| - 1])
  {
    var r, e' := Reduced(F, e[..|e| - 1], z), e[..|e| - 1];
    forall i, k ensures Differ(r, i, k) && Differ(e', i, k) { assert Differ(e, i, k); }
  }

  /** As many consecutive sums as there are terms: if all are zero, so are the terms. */
  lemma {:induction false} Independent(F: Field, e: seq<Term>, a: nat)
    requires IsField(F) && Distinct(e)
    requires forall j :: a <= j < a + |e| ==> PowerSum(F, e, j) == 0
    ensures forall i :: 0 <= i < |e| ==> e[i].y == 0
    decreases |e|
  {
    if |e| > 0 {
      var n := |e| - 1;
      var last, e' := e[n], e[..n];
      var r := Reduced(F, e', last.x);
      forall j | a <= j < a + n ensures PowerSum(F, r, j) == 0 {
        ReducedLast(F, e, j);
      }
      ReducedDistinct(F, e, last.x);
      Independent(F, r, a);
      forall i | 0 <= i < n ensures e[i].y == 0 {
        assert r[i].y == 0 && e'[i] == e[i];
        assert Differ(e, i, n);
        NoZeroDivisors(F, e[i].y, Add(F, e[i].x, last.x));
        AddsUp(F, e[i].x, last.x);
      }
      AllZero(F, e', a);
      assert PowerSum(F, e, a) == 0;
      AddsUp(F, Mul(F, last.y, Power(F, last.x, a)), 0);
      NoZeroDivisors(F, last.y, Power(F, last.x, a));
      PowerNonzero(F, last.x, a);
    }
  }

  /** Reduction by the x of the last term takes that term away. */
  lemma ReducedLast(F: Field, e: seq<Term>, j: nat)
    requires IsField(F) && |e| > 0 && PowerSum(F, e, j) == 0 && PowerSum(F, e, j + 1) == 0
    ensures PowerSum(F, Reduced(F, e[..|e| - 1], e[|e| - 1].x), j) == 0
  {
    var e', x, y, w := e[..|e| - 1], e[|e| - 1].x, e[|e| - 1].y, Power(F, e[|e| - 1].x, j);
    ReducedSum(F, e', x, j);
    AddsUp(F, PowerSum(F, e', j), Mul(F, y, w));
    AddsUp(F, PowerSum(F, e', j + 1), Mul(F, y, Mul(F, x, w)));
    MulSwap(F, x, y, w);
    assert AddSelf(F, PowerSum(F, e', j + 1));
  }

  lemma {:induction false} AllZero(F: Field, e: seq<Term>, j: nat)
    requires IsField(F) && forall i :: 0 <= i < |e| ==> e[i].y == 0
    ensures PowerSum(F, e, j) == 0
  {
    if |e| > 0 {
      AllZero(F, e[..|e| - 1], j);
      MulZero(F, Power(F, e[|e| - 1].x, j));
      AddsUp(F, 0, 0);
    }
  }
}
