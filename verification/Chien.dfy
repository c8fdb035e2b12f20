/** The Chien search: the roots of the locator, by trying all powers of alpha. */
module Chien {
  import opened Fields
  import opened Sums
  import opened Massey
  import opened PowerSums
  import opened Locators
  import opened Products
  import opened Values
  import opened Forney
  import opened Logs
  import opened Tables
  import opened BerlekampMassey

  // ----- a polynomial has no more roots than its degree -----

  /** z^n * (p divided by 1 + x * z, coefficient n) is p at z = 1/x, up to n. */
  lemma {:induction false} QuotIsValue(F: Field, p: seq<gf>, x: gf, z: gf, n: nat)
    requires IsField(F) && Mul(F, x, z) == 1
    ensures Mul(F, Power(F, z, n), Quot(F, p, x, n)) == Eval(F, p, z, n + 1)
  {
    var w := Power(F, z, n);
    assert Distributes(F, w, Mul(F, x, Quot(F, p, x, n - 1)), At(p, n)) && MulComm(F, w, At(p, n));
    if n == 0 {
      MulZero(F, x);
      MulZero(F, w);
      assert Eval(F, p, z, 0) == 0;
    } else {
      QuotIsValue(F, p, x, z, n - 1);
      var v, q := Power(F, z, n - 1), Quot(F, p, x, n - 1);
      assert MulComm(F, z, v) && MulAssoc(F, v, z, Mul(F, x, q)) && MulAssoc(F, z, x, q) && MulComm(F, z, x);
      OneMul(F, q);
    }
  }

  /** alpha^i is a root. */
  ghost predicate RootAt(F: Field, p: seq<gf>, i: int) { 0 <= i && Eval(F, p, Power(F, 2, i), |p|) == 0 }

  ghost predicate Less(roots: seq<int>, i: int, k: int) { 0 <= i < k < |roots| ==> roots[i] < roots[k] }

  ghost predicate Increasing(roots: seq<int>) { forall i, k {:trigger Less(roots, i, k)} :: Less(roots, i, k) }

  ghost predicate AreRoots(F: Field, p: seq<gf>, roots: seq<int>) {
    Increasing(roots) && forall k {:trigger roots[k]} :: 0 <= k < |roots| ==>
      1 <= roots[k] <= NN && RootAt(F, p, roots[k])
  }

  function Inverses(F: Field, roots: seq<int>): (e: seq<Term>)
    requires forall k {:trigger roots[k]} :: 0 <= k < |roots| ==> 1 <= roots[k] <= NN
    ensures |e| == |roots|
  { seq(|roots|, k requires 0 <= k < |roots| => Term(Power(F, 2, NN - roots[k]), 1)) }

  lemma InverseOf(F: Field, i: nat)
    requires IsField(F) && Primitive(F, 2) && i <= NN
    ensures Mul(F, Power(F, 2, NN - i), Power(F, 2, i)) == 1
  {
    PowerAdds(F, 2, NN - i, i);
  }

  lemma RootIsQuot(F: Field, p: seq<gf>, i: nat, deg: nat)
    requires IsField(F) && Primitive(F, 2) && 1 <= i <= NN && RootAt(F, p, i) && NoTermAbove(p, deg) && deg < |p|
    ensures Quot(F, p, Power(F, 2, NN - i), deg) == 0
  {
    var x, z, n := Power(F, 2, NN - i), Power(F, 2, i), |p| - 1;
    InverseOf(F, i);
    QuotIsValue(F, p, x, z, n);
    PowersNonzero(F, 2, i);
    PowerNonzero(F, z, n);
    NoZeroDivisors(F, Power(F, z, n), Quot(F, p, x, n));
    PowersNonzero(F, 2, NN - i);
    QuotTop(F, p, x, deg, n);
  }

  /** Above the degree the quotient only grows by factors x. */
  lemma {:induction false} QuotTop(F: Field, p: seq<gf>, x: gf, deg: nat, n: nat)
    requires IsField(F) && NoTermAbove(p, deg) && deg <= n && x != 0 && Quot(F, p, x, n) == 0
    ensures Quot(F, p, x, deg) == 0
    decreases n
  {
    if deg < n {
      assert At(p, n) == 0 && AddZero(F, Mul(F, x, Quot(F, p, x, n - 1)));
      NoZeroDivisors(F, x, Quot(F, p, x, n - 1));
      QuotTop(F, p, x, deg, n - 1);
    }
  }

  lemma InversesDistinct(F: Field, roots: seq<int>)
    requires IsField(F) && Primitive(F, 2) && Increasing(roots)
    requires forall k {:trigger roots[k]} :: 0 <= k < |roots| ==> 1 <= roots[k] <= NN
    ensures Distinct(Inverses(F, roots))
  {
    var e := Inverses(F, roots);
    forall i {:trigger e[i]} | 0 <= i < |e| ensures e[i].x != 0 { PowersNonzero(F, 2, NN - roots[i]); }
    forall i, k ensures Differ(e, i, k) {
      if 0 <= i < k < |e| && e[i].x == e[k].x { assert Less(roots, i, k); Cancel(F, 2, NN - roots[k], NN - roots[i]); }
    }
  }

  /** With as many roots as the degree says, the polynomial is the product over them. */
  lemma ProductOfRoots(F: Field, p: seq<gf>, roots: seq<int>)
    requires IsField(F) && Primitive(F, 2) && At(p, 0) == 1 && NoTermAbove(p, |roots|) && |roots| < |p|
      && AreRoots(F, p, roots)
    ensures Distinct(Inverses(F, roots)) && p == Locator(F, Inverses(F, roots), |p|)
  {
    var e := Inverses(F, roots);
    InversesDistinct(F, roots);
    forall k {:trigger e[k]} | 0 <= k < |e| ensures Quot(F, p, e[k].x, |e|) == 0 { RootIsQuot(F, p, roots[k], |e|); }
    assert Locates(F, p, e);
    forall j | 0 <= j < |p| ensures p[j] == Locator(F, e, |p|)[j] {
      OnlyLocator(F, p, e, j);
      assert At(p, j) == LocatorAt(F, e, j);
    }
  }

  /** And there are no others. */
  lemma NoMoreRoots(F: Field, p: seq<gf>, roots: seq<int>, i: nat)
    requires IsField(F) && Primitive(F, 2) && At(p, 0) == 1 && NoTermAbove(p, |roots|) && |roots| < |p|
    requires AreRoots(F, p, roots) && 1 <= i <= NN && RootAt(F, p, i)
    ensures i in roots
  {
    var e, z := Inverses(F, roots), Power(F, 2, i);
    ProductOfRoots(F, p, roots);
    var k := HitAt(F, p, e, z);
    SameInverse(F, roots[k], i);
  }

  lemma HitAt(F: Field, p: seq<gf>, e: seq<Term>, z: gf) returns (k: int)
    requires IsField(F) && |p| > 0 && p == Locator(F, e, |p|) && |e| < |p| && Eval(F, p, z, |p|) == 0
    ensures Hits(F, e, z, k)
  {
    LocatorValue(F, e, z, |p| - 1);
    k :| Hits(F, e, z, k);
  }

  lemma SameInverse(F: Field, j: nat, i: nat)
    requires IsField(F) && Primitive(F, 2) && 1 <= i <= NN && 1 <= j <= NN
    requires Mul(F, Power(F, 2, NN - j), Power(F, 2, i)) == 1
    ensures i == j
  {
    InverseOf(F, j);
    assert MulComm(F, Power(F, 2, NN - j), Power(F, 2, i)) && MulComm(F, Power(F, 2, NN - j), Power(F, 2, j));
    SameHit(F, Power(F, 2, i), Power(F, 2, j), Power(F, 2, NN - j));
    Period(F, 2, i);
    Period(F, 2, j);
    if i % NN <= j % NN { Cancel(F, 2, i % NN, j % NN); } else { Cancel(F, 2, j % NN, i % NN); }
  }

  // ----- the search -----

  /** Convert lambda to index form and compute its degree. */
  method ToIndexForm(F: Field, indexOf: array<gf>, lambda: array<gf>) returns (deg: int)
    requires IsField(F) && Primitive(F, 2) && LogTable(F, indexOf[..]) && lambda != indexOf && lambda.Length >= 1
    modifies lambda
    ensures LogsOf(F, lambda[..], old(lambda[..]), 0)
    ensures 0 <= deg < lambda.Length && NoTermAbove(old(lambda[..]), deg) && (deg > 0 ==> old(lambda[..])[deg] != 0)
  {
    ghost var p := lambda[..];
    deg := 0;
    for i := 0 to lambda.Length
      invariant LogTable(F, indexOf[..]) && 0 <= deg < lambda.Length
      invariant forall k {:trigger lambda[k]} :: 0 <= k < lambda.Length ==>
        lambda[k] == if k < i then Log(F, 2, p[k]) else p[k]
      invariant (forall k {:trigger p[k]} :: deg < k < i ==> p[k] == 0) && (deg > 0 ==> p[deg] != 0)
    {
      assert indexOf[..][p[i]] == Log(F, 2, p[i]);
      lambda[i] := indexOf[lambda[i]];
      if lambda[i] != A0 {
        deg := i;
      }
    }
  }

  /** Coefficient j, times the j-th power of alpha^i. */
  function Moved(F: Field, c: gf, i: nat, j: nat): gf { Mul(F, c, Power(F, Power(F, 2, i), j)) }

  /** reg[j] has moved to alpha^i. */
  ghost predicate RegAt(F: Field, reg: seq<gf>, p: seq<gf>, j: int, i: nat)
    requires IsField(F) && Primitive(F, 2)
  { 0 <= j < |p| && |reg| == |p| && reg[j] == Log(F, 2, Moved(F, p[j], i, j)) }

  ghost predicate RegsAt(F: Field, reg: seq<gf>, p: seq<gf>, deg: int, i: nat)
    requires IsField(F) && Primitive(F, 2)
  { forall j {:trigger RegAt(F, reg, p, j, i)} :: 1 <= j <= deg ==> RegAt(F, reg, p, j, i) }

  lemma RegStart(F: Field, c: gf, j: nat)
    requires IsField(F)
    ensures Moved(F, c, 0, j) == c
  {
    PowerOne(F, j);
    OneMul(F, c);
  }

  /** Adding j to the logarithm takes coefficient j to the next power. */
  lemma RegStep(F: Field, c: gf, i: nat, j: nat)
    requires IsField(F) && Primitive(F, 2)
    ensures Moved(F, c, i, j) == 0 ==> Moved(F, c, i + 1, j) == 0
    ensures Moved(F, c, i, j) != 0 ==> Log(F, 2, Moved(F, c, i + 1, j)) == (Log(F, 2, Moved(F, c, i, j)) + j) % NN
  {
    var v, w := Moved(F, c, i, j), Power(F, 2, j);
    PowerPower(F, 2, i, j);
    PowerPower(F, 2, i + 1, j);
    assert (i + 1) * j == i * j + j;
    PowerAdds(F, 2, i * j, j);
    assert MulAssoc(F, c, Power(F, Power(F, 2, i), j), w);
    if v == 0 {
      MulZero(F, w);
    } else {
      var k := Log(F, 2, v);
      PowerAdds(F, 2, k, j);
      LogIs(F, 2, k + j);
    }
  }

  /** One register: move it on, and add its value. */
  method NextTerm(F: Field, alphaTo: array<gf>, r: gf, j: nat, q: gf, ghost c: gf, ghost i: nat)
    returns (r': gf, q': gf)
    requires IsField(F) && Primitive(F, 2) && Antilogs(F, alphaTo[..]) && r == Log(F, 2, Moved(F, c, i, j))
    ensures r' == Log(F, 2, Moved(F, c, i + 1, j))
    ensures q' == if Moved(F, c, i + 1, j) == 0 then q else Add(F, q, Moved(F, c, i + 1, j))
  {
    RegStep(F, c, i, j);
    r', q' := r, q;
    if r != A0 {
      r' := Modnn(r as int + j);
      q' := Add(F, q, alphaTo[r']);
    }
  }

  /** Move the registers on to alpha^(i+1), and evaluate there. */
  method NextValue(F: Field, alphaTo: array<gf>, reg: array<gf>, deg: int, ghost p: seq<gf>, ghost i: nat)
    returns (q: gf)
    requires IsField(F) && Primitive(F, 2) && Antilogs(F, alphaTo[..]) && reg != alphaTo && reg.Length == |p|
      && 0 <= deg < |p|
    requires At(p, 0) == 1 && NoTermAbove(p, deg) && RegsAt(F, reg[..], p, deg, i)
    modifies reg
    ensures RegsAt(F, reg[..], p, deg, i + 1)
    ensures q == Eval(F, p, Power(F, 2, i + 1), |p|)
  {
    ghost var was := reg[..];
    q := 1;
    var j := deg;
    while j > 0
      invariant 0 <= j <= deg && Antilogs(F, alphaTo[..])
      invariant Moving(F, reg[..], was, p, deg, i, j, q)
    {
      q := NextReg(F, alphaTo, reg, deg, j, q, was, p, i);
      j := j - 1;
    }
    AllMoved(F, reg[..], was, p, deg, i, q);
  }

  /** The registers above j have moved on, and their values are in q. */
  ghost predicate Moving(F: Field, reg: seq<gf>, was: seq<gf>, p: seq<gf>, deg: int, i: nat, j: int, q: gf)
    requires IsField(F) && Primitive(F, 2)
  {
    && |reg| == |was| == |p| && 0 <= j <= deg < |p| && SumTo(F, p, Power(F, 2, i + 1), q, j, deg)
    && (forall k {:trigger reg[k]} :: 0 <= k <= j ==> reg[k] == was[k])
    && (forall k {:trigger reg[k]} :: j < k <= deg ==> reg[k] == Log(F, 2, Moved(F, p[k], i + 1, k)))
  }

  method NextReg(F: Field, alphaTo: array<gf>, reg: array<gf>, deg: int, j: nat, q: gf, ghost was: seq<gf>,
                 ghost p: seq<gf>, ghost i: nat)
    returns (q': gf)
    requires IsField(F) && Primitive(F, 2) && Antilogs(F, alphaTo[..]) && reg != alphaTo && 0 < j
    requires Moving(F, reg[..], was, p, deg, i, j, q) && RegsAt(F, was, p, deg, i)
    modifies reg
    ensures Moving(F, reg[..], was, p, deg, i, j - 1, q')
  {
    assert RegAt(F, was, p, j, i);
    assert reg[..][j] == was[j];
    SumOn(F, p, Power(F, 2, i + 1), q, j, deg, i);
    ghost var now := reg[..];
    reg[j], q' := NextTerm(F, alphaTo, reg[j], j, q, p[j], i);
    assert reg[..] == now[j := reg[j]];
  }

  lemma AllMoved(F: Field, reg: seq<gf>, was: seq<gf>, p: seq<gf>, deg: int, i: nat, q: gf)
    requires IsField(F) && Primitive(F, 2) && At(p, 0) == 1 && NoTermAbove(p, deg)
      && Moving(F, reg, was, p, deg, i, 0, q)
    ensures RegsAt(F, reg, p, deg, i + 1) && q == Eval(F, p, Power(F, 2, i + 1), |p|)
  {
    AllAdded(F, p, Power(F, 2, i + 1), q, deg);
    RegsMoved(F, reg, p, deg, i + 1);
  }

  /** q and the terms of degree up to j are 1 and all terms up to `deg`. */
  ghost predicate SumTo(F: Field, p: seq<gf>, z: gf, q: gf, j: nat, deg: nat) {
    Add(F, q, Eval(F, p, z, j + 1)) == Add(F, 1, Eval(F, p, z, deg + 1))
  }

  lemma SumOn(F: Field, p: seq<gf>, z: gf, q: gf, j: nat, deg: nat, i: nat)
    requires IsField(F) && 0 < j < |p| && z == Power(F, 2, i + 1) && SumTo(F, p, z, q, j, deg)
    ensures var t := Moved(F, p[j], i + 1, j); SumTo(F, p, z, if t == 0 then q else Add(F, q, t), j - 1, deg)
  {
    AddTerm(F, q, Eval(F, p, z, j), Moved(F, p[j], i + 1, j));
  }

  lemma RegsMoved(F: Field, reg: seq<gf>, p: seq<gf>, deg: int, i: nat)
    requires IsField(F) && Primitive(F, 2) && |reg| == |p| && deg < |p|
    requires forall k {:trigger reg[k]} :: 0 < k <= deg ==> reg[k] == Log(F, 2, Moved(F, p[k], i, k))
    ensures RegsAt(F, reg, p, deg, i)
  {}

  /** q + (v + t) = (q + t) + v */
  lemma AddTerm(F: Field, q: gf, v: gf, t: gf)
    requires IsField(F)
    ensures Add(F, Add(F, q, t), v) == Add(F, q, Add(F, v, t)) && (t == 0 ==> Add(F, q, v) == Add(F, q, Add(F, v, t)))
  {
    assert AddAssoc(F, q, t, v) && AddComm(F, t, v) && AddZero(F, v);
  }

  lemma AllAdded(F: Field, p: seq<gf>, z: gf, q: gf, deg: nat)
    requires IsField(F) && At(p, 0) == 1 && NoTermAbove(p, deg) && deg < |p|
    requires Add(F, q, Eval(F, p, z, 1)) == Add(F, 1, Eval(F, p, z, deg + 1))
    ensures q == Eval(F, p, z, |p|)
  {
    OneMul(F, 1);
    AddsUp(F, 1, 0);
    assert Eval(F, p, z, 0) == 0 && Eval(F, p, z, 1) == 1;
    var v := Eval(F, p, z, deg + 1);
    assert AddComm(F, 1, v);
    AddsUp(F, 1, q);
    AddsUp(F, 1, v);
    EvalShort(F, p, z, deg + 1, |p|);
  }

  lemma {:induction false} EvalShort(F: Field, p: seq<gf>, z: gf, n: nat, m: nat)
    requires IsField(F) && n <= m && forall i {:trigger At(p, i)} :: n <= i ==> At(p, i) == 0
    ensures Eval(F, p, z, m) == Eval(F, p, z, n)
    decreases m
  {
    if n < m {
      EvalShort(F, p, z, n, m - 1);
      MulZero(F, Power(F, z, m - 1));
      assert AddZero(F, Eval(F, p, z, m - 1));
    }
  }

  /** All roots below `i` have been found. */
  ghost predicate Found(F: Field, p: seq<gf>, roots: seq<int>, i: int) {
    forall x {:trigger RootAt(F, p, x)} :: 1 <= x < i && RootAt(F, p, x) ==> x in roots
  }

  ghost predicate Below(roots: seq<int>, i: int) { forall k {:trigger roots[k]} :: 0 <= k < |roots| ==> roots[k] < i }

  lemma OneMore(F: Field, p: seq<gf>, roots: seq<int>, i: int)
    requires AreRoots(F, p, roots) && Below(roots, i) && Found(F, p, roots, i) && 1 <= i <= NN && RootAt(F, p, i)
    ensures AreRoots(F, p, roots + [i]) && Below(roots + [i], i + 1) && Found(F, p, roots + [i], i + 1)
  {
    var r := roots + [i];
    forall j, k ensures Less(r, j, k) { assert Less(roots, j, k); }
    forall x {:trigger RootAt(F, p, x)} | 1 <= x < i + 1 && RootAt(F, p, x) ensures x in r { assert i == r[|roots|]; }
  }

  lemma AllFound(F: Field, p: seq<gf>, roots: seq<int>, i: int)
    requires IsField(F) && Primitive(F, 2) && At(p, 0) == 1 && NoTermAbove(p, |roots|) && |roots| < |p|
      && AreRoots(F, p, roots)
    ensures Found(F, p, roots, NN + 1)
  {
    forall x {:trigger RootAt(F, p, x)} | 1 <= x < NN + 1 && RootAt(F, p, x)
      ensures x in roots
    {
      NoMoreRoots(F, p, roots, x);
    }
  }

  method StartReg(F: Field, lambda: array<gf>, ghost p: seq<gf>) returns (reg: array<gf>)
    requires IsField(F) && Primitive(F, 2) && LogsOf(F, lambda[..], p, 0) && |p| >= 1
    ensures fresh(reg) && reg.Length == |p| && RegsAt(F, reg[..], p, |p| - 1, 0)
  {
    reg := new gf[lambda.Length](_ => 0);
    for j := 1 to lambda.Length
      invariant forall k {:trigger reg[k]} :: 1 <= k < j ==> reg[k] == lambda[k]
    {
      reg[j] := lambda[j];
    }
    forall j {:trigger RegAt(F, reg[..], p, j, 0)} | 1 <= j < |p| ensures RegAt(F, reg[..], p, j, 0) {
      RegStart(F, p[j], j);
      assert reg[..][j] == reg[j] == lambda[j] == lambda[..][j];
    }
  }

  /** The search has come to `i`. */
  ghost predicate Searched(F: Field, p: seq<gf>, roots: seq<int>, locs: seq<int>, i: int) {
    && AreRoots(F, p, roots) && Below(roots, i) && Found(F, p, roots, i)
    && |locs| == |roots| && forall k {:trigger locs[k]} :: 0 <= k < |locs| ==> locs[k] == NN - roots[k]
  }

  /** No root at i, or one more root. */
  lemma SearchedOn(F: Field, p: seq<gf>, roots: seq<int>, locs: seq<int>, i: int)
    requires Searched(F, p, roots, locs, i) && 1 <= i <= NN
    ensures RootAt(F, p, i) ==> Searched(F, p, roots + [i], locs + [NN - i], i + 1)
    ensures !RootAt(F, p, i) ==> Searched(F, p, roots, locs, i + 1)
  {
    if RootAt(F, p, i) {
      OneMore(F, p, roots, i);
      var l := locs + [NN - i];
      forall k {:trigger l[k]} | 0 <= k < |l|
        ensures l[k] == NN - (roots + [i])[k]
      {
        if k < |locs| { assert l[k] == locs[k]; }
      }
    }
  }

  lemma NoRootOfOne(F: Field, p: seq<gf>, i: nat)
    requires IsField(F) && At(p, 0) == 1 && NoTermAbove(p, 0) && |p| > 0
    ensures !RootAt(F, p, i)
  {
    OneOnly(F, p, Power(F, 2, i), |p|);
  }

  method Record(root: array<int>, loc: array<int>, count: nat, i: int, k: int)
    requires root != loc && root.Length == loc.Length && count < root.Length
    modifies root, loc
    ensures root[..count + 1] == old(root[..count]) + [i] && loc[..count + 1] == old(loc[..count]) + [k]
  {
    root[count] := i;
    loc[count] := k;
  }

  /** The exponents of the roots among the powers of alpha, and the positions they stand for. */
  method FindRoots(F: Field, alphaTo: array<gf>, lambda: array<gf>, deg: int, root: array<int>, loc: array<int>,
                   ghost p: seq<gf>)
    returns (count: int)
    requires IsField(F) && Primitive(F, 2) && Antilogs(F, alphaTo[..]) && LogsOf(F, lambda[..], p, 0)
    requires At(p, 0) == 1 && NoTermAbove(p, deg) && 0 <= deg < |p| && root.Length == loc.Length == |p| - 1
      && root != loc
    modifies root, loc
    ensures 0 <= count <= deg && Searched(F, p, root[..count], loc[..count], NN + 1)
  {
    var reg := StartReg(F, lambda, p);
    count := 0;
    var i, k := 1, NN - 1;
    while i <= NN
      invariant 1 <= i <= NN + 1 && Antilogs(F, alphaTo[..]) && 0 <= count <= root.Length
      invariant Searching(F, reg[..], p, deg, root[..count], loc[..count], i, k)
    {
      var q;
      q, count := TryRoot(F, alphaTo, reg, deg, root, loc, count, i, k, p);
      if q == 0 && count == deg {
        FoundAll(F, p, root[..count], loc[..count], i + 1);
        return;
      }
      i := i + 1;
      k := Modnn(NN + k - 1);
    }
  }

  /** The state of the search before `i` is looked at; `k` is the place that it stands for. */
  ghost predicate Searching(F: Field, reg: seq<gf>, p: seq<gf>, deg: int, roots: seq<int>, locs: seq<int>, i: int,
                            k: int)
    requires IsField(F) && Primitive(F, 2)
  {
    && 1 <= i && k == (if i <= NN then NN - i else NN - 1) && |roots| <= deg && (|roots| < deg || deg == 0)
    && RegsAt(F, reg, p, deg, i - 1) && Searched(F, p, roots, locs, i)
  }

  method TryRoot(F: Field, alphaTo: array<gf>, reg: array<gf>, deg: int, root: array<int>, loc: array<int>, count: nat,
                 i: int, k: int, ghost p: seq<gf>)
    returns (q: gf, count': nat)
    requires IsField(F) && Primitive(F, 2) && Antilogs(F, alphaTo[..]) && reg != alphaTo && reg.Length == |p|
      && 0 <= deg < |p|
    requires At(p, 0) == 1 && NoTermAbove(p, deg) && 1 <= i <= NN && count <= root.Length
    requires root != loc && root.Length == loc.Length == |p| - 1
    requires Searching(F, reg[..], p, deg, root[..count], loc[..count], i, k)
    modifies reg, root, loc
    ensures count' <= deg && Searched(F, p, root[..count'], loc[..count'], i + 1)
    ensures q != 0 || count' < deg ==>
      Searching(F, reg[..], p, deg, root[..count'], loc[..count'], i + 1, if i < NN then k - 1 else NN - 1)
  {
    q := NextValue(F, alphaTo, reg, deg, p, i - 1);
    if deg == 0 && q == 0 { NoRootOfOne(F, p, i); }
    count' := RecordRoot(F, root, loc, count, q == 0, i, k, p);
  }

  /** What the search does at i. */
  method RecordRoot(ghost F: Field, root: array<int>, loc: array<int>, count: nat, isRoot: bool, i: int, k: int,
                    ghost p: seq<gf>)
    returns (count': nat)
    requires root != loc && root.Length == loc.Length && 1 <= i <= NN && count <= root.Length
      && (isRoot ==> count < root.Length && k == NN - i)
    requires Searched(F, p, root[..count], loc[..count], i) && (isRoot <==> RootAt(F, p, i))
    modifies root, loc
    ensures count' == (if isRoot then count + 1 else count) && Searched(F, p, root[..count'], loc[..count'], i + 1)
  {
    SearchedOn(F, p, root[..count], loc[..count], i);
    count' := count;
    if isRoot {
      Record(root, loc, count, i, k);
      count' := count + 1;
    }
  }

  lemma FoundAll(F: Field, p: seq<gf>, roots: seq<int>, locs: seq<int>, i: int)
    requires IsField(F) && Primitive(F, 2) && At(p, 0) == 1 && NoTermAbove(p, |roots|) && |roots| < |p|
      && Searched(F, p, roots, locs, i) && i <= NN + 1
    ensures Searched(F, p, roots, locs, NN + 1)
  {
    AllFound(F, p, roots, i);
    AllBelow(roots);
  }

  lemma AllBelow(roots: seq<int>)
    ensures (forall k {:trigger roots[k]} :: 0 <= k < |roots| ==> 1 <= roots[k] <= NN) ==> Below(roots, NN + 1)
  {}
}
