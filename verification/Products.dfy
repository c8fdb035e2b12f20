/** The locator as a product, and why it is the only shortest register. */
module Products {
  import opened Fields
  import opened Sums
  import opened Massey
  import opened PowerSums
  import opened Locators

  /** Coefficient i of the product of 1 + x * z over the terms. */
  function LocatorAt(F: Field, e: seq<Term>, i: int): gf
    decreases |e|
  {
    if |e| == 0 then (if i == 0 then 1 else 0)
    else Add(F, LocatorAt(F, e[..|e| - 1], i), Mul(F, e[|e| - 1].x, LocatorAt(F, e[..|e| - 1], i - 1)))
  }

  function Locator(F: Field, e: seq<Term>, n: nat): (p: seq<gf>)
    ensures |p| == n
  { seq(n, i => LocatorAt(F, e, i)) }

  lemma {:induction false} LocatorShape(F: Field, e: seq<Term>, i: int)
    requires IsField(F)
    ensures i < 0 || |e| < i ==> LocatorAt(F, e, i) == 0
    ensures i == 0 ==> LocatorAt(F, e, i) == 1
    decreases |e|
  {
    if |e| > 0 {
      var e', x := e[..|e| - 1], e[|e| - 1].x;
      LocatorShape(F, e', i);
      LocatorShape(F, e', i - 1);
      MulZero(F, x);
      AddsUp(F, LocatorAt(F, e', i), 0);
      assert AddZero(F, LocatorAt(F, e', i));
    }
  }

  lemma {:induction false} LocatorDegree(F: Field, e: seq<Term>)
    requires IsField(F) && Distinct(e)
    ensures LocatorAt(F, e, |e|) != 0
    decreases |e|
  {
    if |e| > 0 {
      var e', x := e[..|e| - 1], e[|e| - 1].x;
      ReducedDistinct(F, e, 0);
      LocatorDegree(F, e');
      LocatorShape(F, e', |e|);
      if Mul(F, x, LocatorAt(F, e', |e| - 1)) == 0 { NoZeroDivisors(F, x, LocatorAt(F, e', |e| - 1)); }
      AddsUp(F, Mul(F, x, LocatorAt(F, e', |e| - 1)), 0);
    } else {
      OneMul(F, 1);
    }
  }

  lemma LocatorIs(F: Field, e: seq<Term>, n: nat, i: int)
    requires IsField(F) && |e| < n
    ensures At(Locator(F, e, n), i) == LocatorAt(F, e, i)
  {
    LocatorShape(F, e, i);
  }

  // ----- its roots -----

  /** p = (1 + x * z) * q */
  ghost predicate Product(F: Field, p: seq<gf>, x: gf, q: seq<gf>) {
    forall i {:trigger At(p, i)} :: At(p, i) == Add(F, At(q, i), Mul(F, x, At(q, i - 1)))
  }

  lemma {:induction false} QuotProduct(F: Field, p: seq<gf>, x: gf, q: seq<gf>, z: gf, i: int)
    requires IsField(F) && Product(F, p, x, q)
    ensures Quot(F, p, z, i) == Add(F, Quot(F, q, z, i), Mul(F, x, Quot(F, q, z, i - 1)))
    decreases i
  {
    if i < 0 {
      MulZero(F, x);
      AddsUp(F, 0, 0);
    } else {
      QuotProduct(F, p, x, q, z, i - 1);
      var a, b := Quot(F, q, z, i - 1), Quot(F, q, z, i - 2);
      assert Distributes(F, z, a, Mul(F, x, b));
      MulSwap(F, z, x, b);
      Swap4(F, Mul(F, z, a), Mul(F, x, Mul(F, z, b)), At(q, i), Mul(F, x, At(q, i - 1)));
      assert Distributes(F, x, Mul(F, z, b), At(q, i - 1));
      assert Quot(F, q, z, i - 1) == if i == 0 then 0 else Add(F, Mul(F, z, b), At(q, i - 1));
      if i == 0 {
        MulZero(F, z);
        MulZero(F, x);
        AddsUp(F, 0, 0);
        assert At(q, -1) == 0;
      }
    }
  }

  lemma LocatorProduct(F: Field, e: seq<Term>, n: nat)
    requires IsField(F) && 0 < |e| < n
    ensures Product(F, Locator(F, e, n), e[|e| - 1].x, Locator(F, e[..|e| - 1], n))
  {
    var e' := e[..|e| - 1];
    forall i {:trigger At(Locator(F, e, n), i)}
      ensures At(Locator(F, e, n), i) ==
        Add(F, At(Locator(F, e', n), i), Mul(F, e[|e| - 1].x, At(Locator(F, e', n), i - 1)))
    {
      LocatorIs(F, e, n, i);
      LocatorIs(F, e', n, i);
      LocatorIs(F, e', n, i - 1);
    }
  }

  lemma {:induction false} LocatorRoot(F: Field, e: seq<Term>, n: nat, k: int, i: int)
    requires IsField(F) && 0 <= k < |e| < n && |e| <= i
    ensures Quot(F, Locator(F, e, n), e[k].x, i) == 0
    decreases |e|
  {
    var m := |e| - 1;
    var q, x, z := Locator(F, e[..m], n), e[m].x, e[k].x;
    LocatorProduct(F, e, n);
    QuotProduct(F, Locator(F, e, n), x, q, z, i);
    if k < m {
      LocatorRoot(F, e[..m], n, k, i);
      LocatorRoot(F, e[..m], n, k, i - 1);
      MulZero(F, x);
      AddsUp(F, 0, 0);
    } else {
      LocatorIs(F, e[..m], n, i);
      LocatorShape(F, e[..m], i);
      assert AddZero(F, Mul(F, z, Quot(F, q, z, i - 1)));
      assert AddSelf(F, Mul(F, z, Quot(F, q, z, i - 1)));
    }
  }

  // ----- the locator generates the power sums -----

  lemma RegisterOnSums(F: Field, p: seq<gf>, len: nat, e: seq<Term>, s: seq<gf>, r: int, j: int)
    requires IsField(F) && NoTermAbove(p, len) && len < |p| && SumsTo(F, e, s, r) && len < j <= r
    ensures Value(F, p, s, j) == PowerSum(F, Weighted(F, e, p, len), j - len - 1)
  {
    ConvShort(F, p, s, j, len + 1, |p|);
    ConvIsSums(F, p, e, s, r, j, len);
    ConvIsPowerSum(F, p, e, j, len);
  }

  lemma LocatorGenerates(F: Field, e: seq<Term>, n: nat, s: seq<gf>, r: int)
    requires IsField(F) && |e| < n && SumsTo(F, e, s, r)
    ensures Generates(F, Locator(F, e, n), |e|, s, r)
  {
    var p, len := Locator(F, e, n), |e|;
    forall i {:trigger At(p, i)} ensures (len < i ==> At(p, i) == 0) && (i == 0 ==> At(p, i) == 1) {
      LocatorIs(F, e, n, i);
      LocatorShape(F, e, i);
    }
    forall j {:trigger Value(F, p, s, j)} | len < j <= r ensures Value(F, p, s, j) == 0 {
      RegisterOnSums(F, p, len, e, s, r, j);
      forall k | 0 <= k < |e| ensures Weighted(F, e, p, len)[k].y == 0 {
        LocatorRoot(F, e, n, k, len);
        MulZero(F, Mul(F, e[k].y, e[k].x));
      }
      AllZero(F, Weighted(F, e, p, len), j - len - 1);
    }
  }

  // ----- and nothing else does, as short as that -----

  ghost predicate AllRoots(F: Field, p: seq<gf>, e: seq<Term>, n: int) {
    forall k {:trigger e[k]} :: 0 <= k < |e| ==> Quot(F, p, e[k].x, n) == 0
  }

  lemma RegisterHasRoots(F: Field, p: seq<gf>, len: nat, e: seq<Term>, s: seq<gf>, r: int)
    requires IsField(F) && Distinct(e) && (forall k {:trigger e[k]} :: 0 <= k < |e| ==> e[k].y != 0)
    requires Generates(F, p, len, s, r) && len < |p| && SumsTo(F, e, s, r) && len + |e| <= r
    ensures AllRoots(F, p, e, len)
  {
    var w := Weighted(F, e, p, len);
    forall i, k ensures Differ(w, i, k) { assert Differ(e, i, k); }
    forall j | 0 <= j < 0 + |w| ensures PowerSum(F, w, j) == 0 {
      RegisterOnSums(F, p, len, e, s, r, j + len + 1);
      assert Value(F, p, s, j + len + 1) == 0;
    }
    Independent(F, w, 0);
    forall k {:trigger e[k]} | 0 <= k < |e| ensures Quot(F, p, e[k].x, len) == 0 {
      assert w[k].y == 0;
      NoZeroDivisors(F, Mul(F, e[k].y, e[k].x), Quot(F, p, e[k].x, len));
      if Mul(F, e[k].y, e[k].x) == 0 { NoZeroDivisors(F, e[k].y, e[k].x); }
    }
  }

  /** p divided by 1 + x * z */
  function Quotient(F: Field, p: seq<gf>, x: gf): (q: seq<gf>)
    ensures |q| == |p|
  { seq(|p|, i => Quot(F, p, x, i)) }

  lemma QuotientIs(F: Field, p: seq<gf>, x: gf, n: int)
    requires IsField(F) && Root(F, p, x, n) && n <= |p|
    ensures forall i {:trigger At(Quotient(F, p, x), i)} :: At(Quotient(F, p, x), i) == Quot(F, p, x, i)
    ensures Product(F, p, x, Quotient(F, p, x))
  {
    var q := Quotient(F, p, x);
    forall i {:trigger At(q, i)} ensures At(q, i) == Quot(F, p, x, i) { assert i >= |p| ==> Quot(F, p, x, i) == 0; }
    forall i {:trigger At(p, i)} ensures At(p, i) == Add(F, At(q, i), Mul(F, x, At(q, i - 1))) {
      var xq := Mul(F, x, Quot(F, p, x, i - 1));
      assert At(q, i) == Quot(F, p, x, i) && At(q, i - 1) == Quot(F, p, x, i - 1);
      MulZero(F, x);
      AddsUp(F, 0, 0);
      assert AddComm(F, Add(F, xq, At(p, i)), xq);
      AddsUp(F, xq, At(p, i));
    }
  }

  /** Each root of p but x is a root of the quotient. */
  lemma QuotientRoot(F: Field, p: seq<gf>, x: gf, z: gf, n: nat)
    requires IsField(F) && 0 < n <= |p| && Root(F, p, x, n) && x != z && Quot(F, p, z, n) == 0
    ensures Quot(F, Quotient(F, p, x), z, n - 1) == 0
  {
    var q := Quotient(F, p, x);
    QuotientIs(F, p, x, n);
    QuotProduct(F, p, x, q, z, n);
    var a := Quot(F, q, z, n - 1);
    assert At(q, n) == 0;
    assert AddZero(F, Mul(F, z, a));
    DistributesLeft(F, z, x, a);
    NoZeroDivisors(F, Add(F, z, x), a);
    AddsUp(F, z, x);
  }

  /** A register with a root for every term. */
  ghost predicate Locates(F: Field, p: seq<gf>, e: seq<Term>) {
    At(p, 0) == 1 && |e| <= |p| && NoTermAbove(p, |e|) && AllRoots(F, p, e, |e|)
  }

  lemma QuotientRegister(F: Field, p: seq<gf>, x: gf, n: nat)
    requires IsField(F) && 0 < n <= |p| && At(p, 0) == 1 && NoTermAbove(p, n) && Quot(F, p, x, n) == 0
    ensures At(Quotient(F, p, x), 0) == 1 && NoTermAbove(Quotient(F, p, x), n - 1)
      && Product(F, p, x, Quotient(F, p, x)) && Root(F, p, x, n)
  {
    IsRoot(F, p, x, n);
    QuotientIs(F, p, x, n);
    MulZero(F, x);
    AddsUp(F, 1, 0);
    assert Quot(F, p, x, -1) == 0;
    assert At(Quotient(F, p, x), 0) == Quot(F, p, x, 0);
  }

  lemma DivideOut(F: Field, p: seq<gf>, e: seq<Term>)
    requires IsField(F) && Distinct(e) && |e| > 0 && Locates(F, p, e)
    ensures var e', x := e[..|e| - 1], e[|e| - 1].x;
      Product(F, p, x, Quotient(F, p, x)) && Locates(F, Quotient(F, p, x), e')
  {
    var n := |e|;
    var x := e[n - 1].x;
    assert Quot(F, p, e[n - 1].x, n) == 0;
    QuotientRegister(F, p, x, n);
    OtherRoots(F, p, e, Quotient(F, p, x), n);
  }

  lemma OtherRoots(F: Field, p: seq<gf>, e: seq<Term>, q: seq<gf>, n: nat)
    requires IsField(F) && Distinct(e) && |e| == n > 0 && Locates(F, p, e) && q == Quotient(F, p, e[n - 1].x)
      && |q| >= n - 1
    requires Root(F, p, e[n - 1].x, n) && At(q, 0) == 1 && NoTermAbove(q, n - 1)
    ensures Locates(F, q, e[..n - 1])
  {
    var e' := e[..n - 1];
    forall k {:trigger e'[k]} | 0 <= k < |e'| ensures Quot(F, q, e'[k].x, n - 1) == 0 {
      assert e'[k] == e[k] && Differ(e, k, n - 1);
      QuotientRoot(F, p, e[n - 1].x, e[k].x, n);
    }
  }

  lemma {:induction false} OnlyLocator(F: Field, p: seq<gf>, e: seq<Term>, i: int)
    requires IsField(F) && Distinct(e) && Locates(F, p, e)
    ensures At(p, i) == LocatorAt(F, e, i)
    decreases |e|
  {
    if |e| > 0 {
      var e', x := e[..|e| - 1], e[|e| - 1].x;
      var q := Quotient(F, p, x);
      DivideOut(F, p, e);
      ReducedDistinct(F, e, 0);
      OnlyLocator(F, q, e', i);
      OnlyLocator(F, q, e', i - 1);
      assert At(p, i) == Add(F, At(q, i), Mul(F, x, At(q, i - 1)));
    }
  }

  /** Up to half as many terms as there are sums: the shortest register is the locator. */
  lemma ShortestIsLocator(F: Field, p: seq<gf>, len: nat, e: seq<Term>, s: seq<gf>, r: int)
    requires IsField(F) && Distinct(e) && (forall k {:trigger e[k]} :: 0 <= k < |e| ==> e[k].y != 0)
    requires Generates(F, p, len, s, r) && Shortest(F, len, s, r) && SumsTo(F, e, s, r) && 2 * |e| <= r < |p|
    ensures len == |e| && forall i {:trigger At(p, i)} :: At(p, i) == LocatorAt(F, e, i)
  {
    LocatorGenerates(F, e, |p|, s, r);
    RegisterHasRoots(F, p, len, e, s, r);
    forall k {:trigger e[k]} | 0 <= k < |e| ensures Quot(F, p, e[k].x, |e|) == 0 {
      RootFrom(F, p, e[k].x, len, |e|);
    }
    forall i {:trigger At(p, i)} ensures At(p, i) == LocatorAt(F, e, i) { OnlyLocator(F, p, e, i); }
    LocatorDegree(F, e);
    assert At(p, |e|) != 0;
  }
}
