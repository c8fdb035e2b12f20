/** More errors than the code can correct: when the answer explains the syndromes all the same. */
module Overload {
  import opened Fields
  import opened Sums
  import opened Massey
  import opened PowerSums
  import opened Locators
  import opened Products
  import opened Values
  import opened Forney
  import opened Logs
  import opened Chien

  // ----- a polynomial with more roots than its degree -----

  function SumOf(F: Field, p: seq<gf>, q: seq<gf>): (r: seq<gf>)
    requires |p| == |q|
    ensures |r| == |p|
  { seq(|p|, j requires 0 <= j < |p| => Add(F, p[j], q[j])) }

  lemma {:induction false} SumValue(F: Field, p: seq<gf>, q: seq<gf>, z: gf, n: nat)
    requires IsField(F) && |p| == |q| && n <= |p|
    ensures Eval(F, SumOf(F, p, q), z, n) == Add(F, Eval(F, p, z, n), Eval(F, q, z, n))
    decreases n
  {
    if n == 0 {
      assert AddZero(F, 0);
    } else {
      var w := Power(F, z, n - 1);
      SumValue(F, p, q, z, n - 1);
      DistributesLeft(F, p[n - 1], q[n - 1], w);
      Swap4(F, Eval(F, p, z, n - 1), Eval(F, q, z, n - 1), Mul(F, p[n - 1], w), Mul(F, q[n - 1], w));
    }
  }

  function Scaled(F: Field, a: gf, d: seq<gf>): (r: seq<gf>)
    ensures |r| == |d|
  { seq(|d|, i requires 0 <= i < |d| => Mul(F, a, d[i])) }

  lemma {:induction false} QuotAdds(F: Field, p: seq<gf>, d: seq<gf>, x: gf, i: int)
    requires IsField(F) && |p| == |d|
    ensures Quot(F, SumOf(F, p, d), x, i) == Add(F, Quot(F, p, x, i), Quot(F, d, x, i))
    decreases i
  {
    assert AddZero(F, 0);
    if i >= 0 {
      QuotAdds(F, p, d, x, i - 1);
      assert Distributes(F, x, Quot(F, p, x, i - 1), Quot(F, d, x, i - 1));
      assert At(SumOf(F, p, d), i) == Add(F, At(p, i), At(d, i));
      Swap4(F, Mul(F, x, Quot(F, p, x, i - 1)), Mul(F, x, Quot(F, d, x, i - 1)), At(p, i), At(d, i));
    }
  }

  lemma {:induction false} QuotScaled(F: Field, a: gf, d: seq<gf>, x: gf, i: int)
    requires IsField(F)
    ensures Quot(F, Scaled(F, a, d), x, i) == Mul(F, a, Quot(F, d, x, i))
    decreases i
  {
    MulZero(F, a);
    if i >= 0 {
      QuotScaled(F, a, d, x, i - 1);
      MulSwap(F, x, a, Quot(F, d, x, i - 1));
      assert At(Scaled(F, a, d), i) == Mul(F, a, At(d, i));
      assert Distributes(F, a, Mul(F, x, Quot(F, d, x, i - 1)), At(d, i));
    }
  }

  /** With constant term 0: p + d is the locator, too. */
  lemma NoDifference(F: Field, p: seq<gf>, d: seq<gf>, e: seq<Term>, i: int)
    requires IsField(F) && Distinct(e) && Locates(F, p, e) && |d| == |p| && NoTermAbove(d, |e|)
      && AllRoots(F, d, e, |e|) && At(d, 0) == 0
    ensures At(d, i) == 0
  {
    var q := SumOf(F, p, d);
    forall j ensures At(q, j) == Add(F, At(p, j), At(d, j)) { assert AddZero(F, 0); }
    forall k | 0 <= k < |e| ensures Quot(F, q, e[k].x, |e|) == 0 {
      QuotAdds(F, p, d, e[k].x, |e|);
      assert AddZero(F, 0);
    }
    assert AddZero(F, 1) && AddZero(F, 0);
    assert Locates(F, q, e);
    OnlyLocator(F, p, e, i);
    OnlyLocator(F, q, e, i);
    AddsUp(F, At(p, i), At(d, i));
    assert AddSelf(F, At(p, i));
  }

  /** With another constant term: a multiple of d would be the locator, which has a higher degree. */
  lemma NoConstant(F: Field, d: seq<gf>, e: seq<Term>)
    requires IsField(F) && Distinct(e) && |e| < |d| && NoTermAbove(d, |e| - 1) && AllRoots(F, d, e, |e|)
    ensures At(d, 0) == 0
  {
    if At(d, 0) != 0 {
      var a := Inv(F, At(d, 0));
      var q := Scaled(F, a, d);
      MulZero(F, a);
      assert Inverse(F, At(d, 0)) && MulComm(F, a, At(d, 0));
      forall j ensures At(q, j) == Mul(F, a, At(d, j)) {}
      forall k | 0 <= k < |e| ensures Quot(F, q, e[k].x, |e|) == 0 { QuotScaled(F, a, d, e[k].x, |e|); }
      assert Locates(F, q, e);
      OnlyLocator(F, q, e, |e|);
      LocatorDegree(F, e);
    }
  }

  lemma Vanishes(F: Field, p: seq<gf>, d: seq<gf>, e: seq<Term>, i: int)
    requires IsField(F) && Distinct(e) && Locates(F, p, e) && |e| < |d| == |p| && NoTermAbove(d, |e| - 1)
      && AllRoots(F, d, e, |e|)
    ensures At(d, i) == 0
  {
    NoConstant(F, d, e);
    assert NoTermAbove(d, |e|);
    NoDifference(F, p, d, e, i);
  }

  // ----- the evaluator determines the syndromes -----

  /** Below j the sequences are the same: their sums differ by what is at j. */
  lemma {:induction false} FirstDifference(F: Field, p: seq<gf>, s: seq<gf>, s': seq<gf>, j: int, m: nat)
    requires IsField(F) && At(p, 0) == 1 && 1 <= m <= j && forall l {:trigger At(s, l)} :: 1 <= l < j ==>
      At(s, l) == At(s', l)
    ensures Add(F, Conv(F, p, s, j, m), Conv(F, p, s', j, m)) == Add(F, At(s, j), At(s', j))
    decreases m
  {
    var a, b := Conv(F, p, s, j, m - 1), Conv(F, p, s', j, m - 1);
    if m == 1 {
      OneMul(F, At(s, j));
      OneMul(F, At(s', j));
      AddsUp(F, At(s, j), 0);
      AddsUp(F, At(s', j), 0);
      assert a == 0 && b == 0;
    } else {
      FirstDifference(F, p, s, s', j, m - 1);
      var c := Mul(F, At(p, m - 1), At(s, j - (m - 1)));
      assert At(s, j - (m - 1)) == At(s', j - (m - 1));
      Swap4(F, a, c, b, c);
      assert AddSelf(F, c) && AddZero(F, Add(F, a, b));
    }
  }

  lemma {:induction false} OmegasDecide(F: Field, p: seq<gf>, s: seq<gf>, s': seq<gf>, r: nat, j: int)
    requires IsField(F) && At(p, 0) == 1 && forall i: nat {:trigger OmegaAt(F, p, s, i)} :: i < r ==>
      OmegaAt(F, p, s, i) == OmegaAt(F, p, s', i)
    requires 0 <= j <= r
    ensures forall l {:trigger At(s, l)} :: 1 <= l <= j ==> At(s, l) == At(s', l)
    decreases j
  {
    if j > 0 {
      OmegasDecide(F, p, s, s', r, j - 1);
      assert OmegaAt(F, p, s, j - 1) == OmegaAt(F, p, s', j - 1);
      FirstDifference(F, p, s, s', j, j);
      assert AddSelf(F, OmegaAt(F, p, s, j - 1));
      AddsUp(F, At(s, j), At(s', j));
    }
  }

  function OmegaSeq(F: Field, p: seq<gf>, s: seq<gf>, r: nat): (w: seq<gf>)
    ensures |w| == r + 1
  { seq(r + 1, i requires 0 <= i <= r => if i < r then OmegaAt(F, p, s, i) else 0) }

  /** The sequence of the power sums, after a 1. */
  function SumSeq(F: Field, e: seq<Term>, r: nat): (s: seq<gf>)
    ensures |s| == r + 1 && SumsTo(F, e, s, r)
  {
    var s := seq(r + 1, i requires 0 <= i <= r => if i == 0 then 1 else PowerSum(F, e, i));
    assert forall j {:trigger At(s, j)} :: 1 <= j <= r ==> At(s, j) == PowerSum(F, e, j);
    s
  }

  /** From the length of the register on the evaluator has no terms. */
  lemma OmegaEnds(F: Field, p: seq<gf>, n: nat, s: seq<gf>, r: nat, i: int)
    requires IsField(F) && Generates(F, p, n, s, r) && |p| == r + 1
    ensures n - 1 < i ==> At(OmegaSeq(F, p, s, r), i) == 0
  {
    if n <= i < r {
      ConvShort(F, p, s, i + 1, i + 1, r + 1);
      assert Value(F, p, s, i + 1) == 0;
    }
  }

  lemma {:induction false} EvalSame(F: Field, p: seq<gf>, q: seq<gf>, z: gf, n: nat)
    requires forall i {:trigger At(p, i)} :: 0 <= i < n ==> At(p, i) == At(q, i)
    ensures Eval(F, p, z, n) == Eval(F, q, z, n)
    decreases n
  {
    if n > 0 { EvalSame(F, p, q, z, n - 1); }
  }

  /** The evaluator at the root of a term, as the decoder uses it. */
  ghost predicate Fits(F: Field, e: seq<Term>, p: seq<gf>, W: seq<gf>, i: int, r: nat, k: int) {
    && 0 <= k < |e| && 1 <= i <= NN && e[k].x == Power(F, 2, NN - i)
    && Eval(F, W, Power(F, 2, i), r) == Mul(F, e[k].y, Odd(F, p, Power(F, 2, i), r + 1))
  }

  lemma OneMoreZero(F: Field, w: seq<gf>, z: gf, r: nat)
    requires IsField(F) && At(w, r) == 0
    ensures Eval(F, w, z, r + 1) == Eval(F, w, z, r)
  {
    MulZero(F, Power(F, z, r));
    assert AddZero(F, Eval(F, w, z, r));
  }

  lemma SumVanishes(F: Field, w: seq<gf>, v: seq<gf>, z: gf, r: nat, a: gf)
    requires IsField(F) && |w| == |v| == r + 1 && At(w, r) == 0 && At(v, r) == 0 && Eval(F, w, z, r) == a
      && Eval(F, v, z, r) == a
    ensures Eval(F, SumOf(F, w, v), z, r + 1) == 0
  {
    OneMoreZero(F, w, z, r);
    OneMoreZero(F, v, z, r);
    SumValue(F, w, v, z, r + 1);
    assert AddSelf(F, a);
  }

  /** The difference of the evaluators vanishes at every root. */
  lemma DifferenceVanishes(F: Field, e: seq<Term>, p: seq<gf>, s: seq<gf>, r: nat, W: seq<gf>, i: nat, k: int,
                           w: seq<gf>, v: seq<gf>)
    requires IsField(F) && Primitive(F, 2) && Distinct(e) && |e| <= r && p == Locator(F, e, r + 1)
      && IsOmega(F, W, p, s, r) && Fits(F, e, p, W, i, r, k)
    requires w == OmegaSeq(F, p, s, r) && v == OmegaSeq(F, p, SumSeq(F, e, r), r)
    ensures Eval(F, SumOf(F, w, v), Power(F, 2, i), r + 1) == 0
  {
    InverseOf(F, i);
    VanishesAt(F, e, p, s, r, W, Power(F, 2, i), k, w, v);
  }

  lemma VanishesAt(F: Field, e: seq<Term>, p: seq<gf>, s: seq<gf>, r: nat, W: seq<gf>, z: gf, k: int, w: seq<gf>,
                   v: seq<gf>)
    requires IsField(F) && Distinct(e) && |e| <= r && p == Locator(F, e, r + 1) && IsOmega(F, W, p, s, r)
      && Hits(F, e, z, k)
    requires Eval(F, W, z, r) == Mul(F, e[k].y, Odd(F, p, z, r + 1))
    requires w == OmegaSeq(F, p, s, r) && v == OmegaSeq(F, p, SumSeq(F, e, r), r)
    ensures Eval(F, SumOf(F, w, v), z, r + 1) == 0
  {
    TermValue(F, e, p, r, z, k);
    OmegaIsSeq(F, p, s, r, W, z);
    SumVanishes(F, w, v, z, r, Mul(F, e[k].y, Odd(F, p, z, r + 1)));
  }

  lemma TermValue(F: Field, e: seq<Term>, p: seq<gf>, r: nat, z: gf, k: int)
    requires IsField(F) && Distinct(e) && |e| <= r && p == Locator(F, e, r + 1) && Hits(F, e, z, k)
    ensures Eval(F, OmegaSeq(F, p, SumSeq(F, e, r), r), z, r) == Mul(F, e[k].y, Odd(F, p, z, r + 1))
  {
    var s' := SumSeq(F, e, r);
    var v := OmegaSeq(F, p, s', r);
    assert IsOmega(F, v, p, s', r);
    ErrorValue(F, v, p, e, s', r, z, k);
  }

  lemma OmegaIsSeq(F: Field, p: seq<gf>, s: seq<gf>, r: nat, W: seq<gf>, z: gf)
    requires IsOmega(F, W, p, s, r)
    ensures Eval(F, OmegaSeq(F, p, s, r), z, r) == Eval(F, W, z, r)
  {
    var w := OmegaSeq(F, p, s, r);
    forall i: nat {:trigger At(w, i)} | i < r ensures At(w, i) == At(W, i) { assert At(W, i) == OmegaAt(F, p, s, i); }
    EvalSame(F, w, W, z, r);
  }

  /** So the syndromes are the sums of the terms that the decoder has found. */
  lemma TermsExplain(F: Field, e: seq<Term>, p: seq<gf>, s: seq<gf>, r: nat, W: seq<gf>, roots: seq<int>)
    requires IsField(F) && Primitive(F, 2) && Distinct(e) && |e| <= r && p == Locator(F, e, r + 1) && Locates(F, p, e)
      && IsOmega(F, W, p, s, r)
    requires Generates(F, p, |e|, s, r) && |roots| == |e| && forall k {:trigger e[k]} {:trigger roots[k]} ::
      0 <= k < |e| ==> Fits(F, e, p, W, roots[k], r, k)
    ensures SumsTo(F, e, s, r)
  {
    var s' := SumSeq(F, e, r);
    var w, v := OmegaSeq(F, p, s, r), OmegaSeq(F, p, s', r);
    var d := SumOf(F, w, v);
    LocatorGenerates(F, e, r + 1, s', r);
    assert AddZero(F, 0);
    forall i ensures |e| - 1 < i ==> At(d, i) == 0 {
      OmegaEnds(F, p, |e|, s, r, i);
      OmegaEnds(F, p, |e|, s', r, i);
    }
    forall k {:trigger e[k]} | 0 <= k < |e| ensures Quot(F, d, e[k].x, |e|) == 0 {
      assert Fits(F, e, p, W, roots[k], r, k);
      DifferenceVanishes(F, e, p, s, r, W, roots[k], k, w, v);
      RootIsQuot(F, d, roots[k], |e|);
    }
    forall i: nat {:trigger OmegaAt(F, p, s, i)} | i < r ensures OmegaAt(F, p, s, i) == OmegaAt(F, p, s', i) {
      Vanishes(F, p, d, e, i);
      AddsUp(F, w[i], v[i]);
    }
    OmegasDecide(F, p, s, s', r, r);
    forall j {:trigger At(s, j)} | 1 <= j <= r
      ensures At(s, j) == PowerSum(F, e, j)
    {
      assert At(s', j) == PowerSum(F, e, j);
    }
  }
}
