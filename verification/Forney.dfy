/** What the decoder's quotient of values is. */
module Forney {
  import opened Fields
  import opened Sums
  import opened Massey
  import opened PowerSums
  import opened Locators
  import opened Products
  import opened Values

  ghost predicate Hits(F: Field, e: seq<Term>, z: gf, k: int) { 0 <= k < |e| && Mul(F, e[k].x, z) == 1 }

  lemma LocatorFactor(F: Field, e: seq<Term>, n: nat)
    requires IsField(F) && 0 < |e| <= n
    ensures var q := Locator(F, e[..|e| - 1], n + 1);
      Product(F, Locator(F, e, n + 1), e[|e| - 1].x, q) && At(q, n) == 0
  {
    LocatorProduct(F, e, n + 1);
    LocatorIs(F, e[..|e| - 1], n + 1, n);
    LocatorShape(F, e[..|e| - 1], n);
  }

  /** The locator without its last factor. */
  lemma LocatorSplit(F: Field, e: seq<Term>, z: gf, n: nat)
    requires IsField(F) && 0 < |e| <= n
    ensures var p, q, x := Locator(F, e, n + 1), Locator(F, e[..|e| - 1], n + 1), e[|e| - 1].x;
      && Eval(F, p, z, n + 1) == Mul(F, Add(F, 1, Mul(F, x, z)), Eval(F, q, z, n + 1))
      && Odd(F, p, z, n + 1) ==
        Add(F, Mul(F, Add(F, 1, Mul(F, x, z)), Odd(F, q, z, n + 1)), Mul(F, x, Eval(F, q, z, n + 1)))
  {
    var p, q, x := Locator(F, e, n + 1), Locator(F, e[..|e| - 1], n + 1), e[|e| - 1].x;
    LocatorFactor(F, e, n);
    ValueOfProduct(F, p, x, q, z, n);
    OddOfProduct(F, p, x, q, z, n);
  }

  /** The locator vanishes exactly at the inverses of the x. */
  lemma {:induction false} LocatorValue(F: Field, e: seq<Term>, z: gf, n: nat)
    requires IsField(F) && |e| <= n
    ensures Eval(F, Locator(F, e, n + 1), z, n + 1) == 0 <==> exists k :: Hits(F, e, z, k)
    decreases |e|
  {
    if |e| == 0 {
      OneOnly(F, Locator(F, e, n + 1), z, n + 1);
      OneMul(F, 1);
    } else {
      var e', x := e[..|e| - 1], e[|e| - 1].x;
      var v := Eval(F, Locator(F, e', n + 1), z, n + 1);
      LocatorValue(F, e', z, n);
      LocatorSplit(F, e, z, n);
      var f := Add(F, 1, Mul(F, x, z));
      AddsUp(F, 1, Mul(F, x, z));
      MulZero(F, f);
      MulZero(F, v);
      if Mul(F, f, v) == 0 {
        NoZeroDivisors(F, f, v);
        if f == 0 {
          assert Hits(F, e, z, |e| - 1);
        } else {
          var k :| Hits(F, e', z, k);
          assert Hits(F, e, z, k);
        }
      }
      if k :| Hits(F, e, z, k) {
        if k < |e| - 1 { assert Hits(F, e', z, k); }
      }
    }
  }

  lemma {:induction false} OneOnly(F: Field, p: seq<gf>, z: gf, n: nat)
    requires IsField(F) && n > 0 && At(p, 0) == 1 && NoTermAbove(p, 0)
    ensures Eval(F, p, z, n) == 1
  {
    if n == 1 {
      OneMul(F, 1);
      AddsUp(F, 1, 0);
      assert Eval(F, p, z, 0) == 0;
    } else {
      OneOnly(F, p, z, n - 1);
      MulZero(F, Power(F, z, n - 1));
      assert At(p, n - 1) == 0;
      assert AddZero(F, 1);
    }
  }

  /** Two terms with the same inverse are the same. */
  lemma SameHit(F: Field, x: gf, y: gf, z: gf)
    requires IsField(F) && Mul(F, x, z) == 1 && Mul(F, y, z) == 1
    ensures x == y
  {
    DistributesLeft(F, x, y, z);
    assert AddSelf(F, 1);
    NoZeroDivisors(F, Add(F, x, y), z);
    MulZero(F, x);
    OneMul(F, 1);
    AddsUp(F, x, y);
  }

  lemma OneHit(F: Field, e: seq<Term>, z: gf, i: int, k: int)
    requires IsField(F) && Distinct(e) && Hits(F, e, z, i) && Hits(F, e, z, k)
    ensures i == k
  {
    SameHit(F, e[i].x, e[k].x, z);
    assert Differ(e, i, k) && Differ(e, k, i);
  }

  /** The same for a polynomial that is the locator. */
  lemma SimpleRootOf(F: Field, p: seq<gf>, e: seq<Term>, z: gf, k: int, n: nat)
    requires IsField(F) && Distinct(e) && |e| <= n && Hits(F, e, z, k) && p == Locator(F, e, n + 1)
    ensures Odd(F, p, z, n + 1) != 0
  {
    SimpleRoot(F, e, z, k, n);
  }

  /** The roots of the locator are simple. */
  lemma {:induction false} SimpleRoot(F: Field, e: seq<Term>, z: gf, k: int, n: nat)
    requires IsField(F) && Distinct(e) && |e| <= n && Hits(F, e, z, k)
    ensures Odd(F, Locator(F, e, n + 1), z, n + 1) != 0
    decreases |e|
  {
    var m := |e| - 1;
    var e', x := e[..m], e[m].x;
    var v, o := Eval(F, Locator(F, e', n + 1), z, n + 1), Odd(F, Locator(F, e', n + 1), z, n + 1);
    LocatorSplit(F, e, z, n);
    ReducedDistinct(F, e, 0);
    LocatorValue(F, e', z, n);
    if k == m {
      if i :| Hits(F, e', z, i) { assert Hits(F, e, z, i); OneHit(F, e, z, i, m); }
      SelfHit(F, o);
      if Mul(F, x, v) == 0 { NoZeroDivisors(F, x, v); }
    } else {
      assert Hits(F, e', z, k);
      SimpleRoot(F, e', z, k, n);
      MulZero(F, x);
      var f := Add(F, 1, Mul(F, x, z));
      assert AddZero(F, Mul(F, f, o));
      if Mul(F, x, z) == 1 { assert Hits(F, e, z, m); OneHit(F, e, z, k, m); }
      AddsUp(F, 1, Mul(F, x, z));
      if Mul(F, f, o) == 0 { NoZeroDivisors(F, f, o); }
    }
  }

  /** (1 + 1) * o + v = v */
  lemma SelfHit(F: Field, o: gf)
    requires IsField(F)
    ensures forall v {:trigger Add(F, Mul(F, Add(F, 1, 1), o), v)} :: Add(F, Mul(F, Add(F, 1, 1), o), v) == v
  {
    assert AddSelf(F, 1);
    MulZero(F, o);
    forall v ensures Add(F, 0, v) == v { AddsUp(F, v, 0); }
  }

  // ----- the evaluator -----

  /** Coefficient i of lambda(z) * s(z) / z. */
  function OmegaAt(F: Field, lambda: seq<gf>, s: seq<gf>, i: nat): gf { Conv(F, lambda, s, i + 1, i + 1) }

  /** The sum of (y * x) * (p / (1 + x * z)) over the terms. */
  function QuotSum(F: Field, p: seq<gf>, e: seq<Term>, z: gf, n: nat): gf
    decreases |e|
  {
    if |e| == 0 then 0
    else
      var x, y := e[|e| - 1].x, e[|e| - 1].y;
      Add(F, QuotSum(F, p, e[..|e| - 1], z, n), Mul(F, Mul(F, y, x), Eval(F, Quotient(F, p, x), z, n)))
  }

  lemma OmegaIsSum(F: Field, p: seq<gf>, e: seq<Term>, s: seq<gf>, r: int, i: nat)
    requires IsField(F) && SumsTo(F, e, s, r) && i < r
    ensures OmegaAt(F, p, s, i) == PowerSum(F, Weighted(F, e, p, i), 0)
  {
    ConvIsSums(F, p, e, s, r, i + 1, i);
    ConvIsPowerSum(F, p, e, i + 1, i);
  }

  lemma {:induction false} QuotSumStep(F: Field, p: seq<gf>, e: seq<Term>, z: gf, n: nat)
    requires IsField(F) && n < |p|
    ensures QuotSum(F, p, e, z, n + 1) ==
      Add(F, QuotSum(F, p, e, z, n), Mul(F, PowerSum(F, Weighted(F, e, p, n), 0), Power(F, z, n)))
    decreases |e|
  {
    if |e| == 0 {
      MulZero(F, Power(F, z, n));
      AddsUp(F, 0, 0);
    } else {
      var e', x, y := e[..|e| - 1], e[|e| - 1].x, e[|e| - 1].y;
      QuotSumStep(F, p, e', z, n);
      assert Weighted(F, e, p, n)[..|e| - 1] == Weighted(F, e', p, n);
      var c, w := Quot(F, p, x, n), Power(F, z, n);
      var yx, ps := Mul(F, y, x), PowerSum(F, Weighted(F, e', p, n), 0);
      var ev := Eval(F, Quotient(F, p, x), z, n);
      assert Eval(F, Quotient(F, p, x), z, n + 1) == Add(F, ev, Mul(F, c, w));
      OneMul(F, Mul(F, yx, c));
      OneQuotTerm(F, QuotSum(F, p, e', z, n), ps, w, yx, ev, c);
    }
  }

  lemma OneQuotTerm(F: Field, q: gf, ps: gf, w: gf, yx: gf, ev: gf, c: gf)
    requires IsRing(F)
    ensures Add(F, Add(F, q, Mul(F, ps, w)), Mul(F, yx, Add(F, ev, Mul(F, c, w)))) ==
      Add(F, Add(F, q, Mul(F, yx, ev)), Mul(F, Add(F, ps, Mul(F, yx, c)), w))
  {
    DistributesLeft(F, ps, Mul(F, yx, c), w);
    assert Distributes(F, yx, ev, Mul(F, c, w)) && MulAssoc(F, yx, c, w);
    Swap4(F, q, Mul(F, ps, w), Mul(F, yx, ev), Mul(F, Mul(F, yx, c), w));
  }

  lemma {:induction false} NoQuotSum(F: Field, p: seq<gf>, e: seq<Term>, z: gf)
    requires IsField(F)
    ensures QuotSum(F, p, e, z, 0) == 0
    decreases |e|
  {
    if |e| > 0 {
      NoQuotSum(F, p, e[..|e| - 1], z);
      MulZero(F, Mul(F, e[|e| - 1].y, e[|e| - 1].x));
      AddsUp(F, 0, 0);
      assert Eval(F, Quotient(F, p, e[|e| - 1].x), z, 0) == 0;
    }
  }

  ghost predicate IsOmega(F: Field, omega: seq<gf>, p: seq<gf>, s: seq<gf>, n: nat) {
    forall i: nat {:trigger At(omega, i)} :: i < n ==> At(omega, i) == OmegaAt(F, p, s, i)
  }

  lemma OmegaValue(F: Field, omega: seq<gf>, p: seq<gf>, e: seq<Term>, s: seq<gf>, r: int, z: gf, n: nat)
    requires IsField(F) && SumsTo(F, e, s, r) && n <= r && n <= |p| && IsOmega(F, omega, p, s, n)
    ensures Eval(F, omega, z, n) == QuotSum(F, p, e, z, n)
  {
    NoQuotSum(F, p, e, z);
    assert Eval(F, omega, z, 0) == 0;
    for i := 0 to n
      invariant Eval(F, omega, z, i) == QuotSum(F, p, e, z, i)
    {
      OmegaStep(F, omega, p, e, s, r, z, i);
    }
  }

  lemma OmegaStep(F: Field, omega: seq<gf>, p: seq<gf>, e: seq<Term>, s: seq<gf>, r: int, z: gf, n: nat)
    requires IsField(F) && SumsTo(F, e, s, r) && n < r && n < |p| && At(omega, n) == OmegaAt(F, p, s, n)
    requires Eval(F, omega, z, n) == QuotSum(F, p, e, z, n)
    ensures Eval(F, omega, z, n + 1) == QuotSum(F, p, e, z, n + 1)
  {
    OmegaIsSum(F, p, e, s, r, n);
    QuotSumStep(F, p, e, z, n);
  }

  // ----- each error value -----

  /** At the root of another factor the quotient vanishes, too. */
  lemma OtherFactor(F: Field, p: seq<gf>, x: gf, q: seq<gf>, z: gf, n: nat)
    requires IsField(F) && Product(F, p, x, q) && At(q, n) == 0 && Eval(F, p, z, n + 1) == 0 && Mul(F, x, z) != 1
    ensures Eval(F, q, z, n) == 0
  {
    ValueOfProduct(F, p, x, q, z, n);
    NoZeroDivisors(F, Add(F, 1, Mul(F, x, z)), Eval(F, q, z, n));
    AddsUp(F, 1, Mul(F, x, z));
  }

  /** At the factor's own root the quotient gives the derivative. */
  lemma OwnFactor(F: Field, p: seq<gf>, x: gf, q: seq<gf>, z: gf, n: nat)
    requires IsField(F) && Product(F, p, x, q) && At(q, n) == 0 && Mul(F, x, z) == 1
    ensures Odd(F, p, z, n + 1) == Mul(F, x, Eval(F, q, z, n))
  {
    ValueOfProduct(F, p, x, q, z, n);
    OddOfProduct(F, p, x, q, z, n);
    SelfHit(F, Odd(F, q, z, n + 1));
  }

  lemma OtherQuotient(F: Field, e: seq<Term>, z: gf, k: int, i: int, n: nat)
    requires IsField(F) && Distinct(e) && Hits(F, e, z, k) && 0 <= i < |e| <= n && i != k
    ensures Eval(F, Quotient(F, Locator(F, e, n + 1), e[i].x), z, n) == 0
  {
    LocatorQuotient(F, e, i, n);
    LocatorValue(F, e, z, n);
    if Mul(F, e[i].x, z) == 1 { assert Hits(F, e, z, i); OneHit(F, e, z, i, k); }
    OtherFactor(F, Locator(F, e, n + 1), e[i].x, Quotient(F, Locator(F, e, n + 1), e[i].x), z, n);
  }

  lemma LocatorQuotient(F: Field, e: seq<Term>, i: int, n: nat)
    requires IsField(F) && 0 <= i < |e| <= n
    ensures var p := Locator(F, e, n + 1);
      Product(F, p, e[i].x, Quotient(F, p, e[i].x)) && At(Quotient(F, p, e[i].x), n) == 0
  {
    var p := Locator(F, e, n + 1);
    forall j {:trigger Quot(F, p, e[i].x, j)} | |e| <= j
      ensures Quot(F, p, e[i].x, j) == 0
    {
      LocatorRoot(F, e, n + 1, i, j);
    }
    QuotientIs(F, p, e[i].x, |e|);
  }

  /** All terms of the sum but that of z vanish. */
  lemma {:induction false} OneQuotient(F: Field, p: seq<gf>, e: seq<Term>, z: gf, k: int, n: nat, m: nat)
    requires IsField(F) && 0 <= k < |e| && m <= |e|
    requires forall i {:trigger e[i]} :: 0 <= i < |e| && i != k ==> Eval(F, Quotient(F, p, e[i].x), z, n) == 0
    ensures QuotSum(F, p, e[..m], z, n) == if m <= k then 0
      else Mul(F, Mul(F, e[k].y, e[k].x), Eval(F, Quotient(F, p, e[k].x), z, n))
    decreases m
  {
    if m > 0 {
      OneQuotient(F, p, e, z, k, n, m - 1);
      assert e[..m][..m - 1] == e[..m - 1];
      var v, q, q' := Eval(F, Quotient(F, p, e[m - 1].x), z, n), QuotSum(F, p, e[..m], z, n),
        QuotSum(F, p, e[..m - 1], z, n);
      assert q == Add(F, q', Mul(F, Mul(F, e[m - 1].y, e[m - 1].x), v));
      LastQuot(F, q, q', Mul(F, e[m - 1].y, e[m - 1].x), v);
    }
  }

  lemma LastQuot(F: Field, q: gf, q': gf, yx: gf, v: gf)
    requires IsRing(F) && q == Add(F, q', Mul(F, yx, v))
    ensures (q' == 0 ==> q == Mul(F, yx, v)) && (v == 0 ==> q == q')
  {
    AddsUp(F, Mul(F, yx, v), 0);
    MulZero(F, yx);
    assert AddZero(F, q');
  }

  /** At the inverse of x_k, the evaluator is y_k times the derivative of the locator, which is not zero. */
  lemma ErrorValue(F: Field, omega: seq<gf>, p: seq<gf>, e: seq<Term>, s: seq<gf>, r: nat, z: gf, k: int)
    requires IsField(F) && Distinct(e) && SumsTo(F, e, s, r) && |e| <= r && Hits(F, e, z, k)
    requires p == Locator(F, e, r + 1) && IsOmega(F, omega, p, s, r)
    ensures Odd(F, p, z, r + 1) != 0
    ensures Eval(F, omega, z, r) == Mul(F, e[k].y, Odd(F, p, z, r + 1))
  {
    var x := e[k].x;
    SimpleRootOf(F, p, e, z, k, r);
    assert Eval(F, omega, z, r) == QuotSum(F, p, e, z, r) by { OmegaValue(F, omega, p, e, s, r, z, r); }
    assert QuotSum(F, p, e, z, r) == Mul(F, Mul(F, e[k].y, x), Eval(F, Quotient(F, p, x), z, r)) by {
      SumAtRoot(F, e, z, k, r);
    }
    assert Odd(F, p, z, r + 1) == Mul(F, x, Eval(F, Quotient(F, p, x), z, r)) by {
      LocatorQuotient(F, e, k, r);
      OwnFactor(F, p, x, Quotient(F, p, x), z, r);
    }
    assert MulAssoc(F, e[k].y, x, Eval(F, Quotient(F, p, x), z, r));
  }

  lemma SumAtRoot(F: Field, e: seq<Term>, z: gf, k: int, r: nat)
    requires IsField(F) && Distinct(e) && |e| <= r && Hits(F, e, z, k)
    ensures var p := Locator(F, e, r + 1);
      QuotSum(F, p, e, z, r) == Mul(F, Mul(F, e[k].y, e[k].x), Eval(F, Quotient(F, p, e[k].x), z, r))
  {
    var p := Locator(F, e, r + 1);
    forall i {:trigger e[i]} | 0 <= i < |e| && i != k ensures Eval(F, Quotient(F, p, e[i].x), z, r) == 0 {
      OtherQuotient(F, e, z, k, i, r);
    }
    OneQuotient(F, p, e, z, k, r, |e|);
    assert e[..|e|] == e;
  }
}
