/** The encoder's side: for every pattern of errors there is a register that it leaves. */
module Registers {
  import opened Fields
  import opened Sums
  import opened Massey
  import opened PowerSums
  import opened Values
  import opened Overload
  import opened Logs
  import opened ErrorPatterns
  import opened Syndromes
  import opened Decoder

  // ----- the generator polynomial -----

  function RootCoefficient(F: Field, p: seq<gf>, root: gf, k: nat): gf { Add(F, At(p, k - 1), Mul(F, root, At(p, k))) }

  /** (x + root) * p */
  function TimesRoot(F: Field, p: seq<gf>, root: gf): (q: seq<gf>)
    ensures |q| == |p| + 1
  { seq(|p| + 1, k requires 0 <= k <= |p| => RootCoefficient(F, p, root, k)) }

  /** The monic polynomial with the roots beta_1 to beta_n. */
  ghost function Generator(F: Field, c: Code, n: nat): (g: seq<gf>)
    requires c.b0 > 0
    ensures |g| == n + 1
  { if n == 0 then [1] else TimesRoot(F, Generator(F, c, n - 1), Beta(F, c, n)) }

  lemma {:induction false} GeneratorMonic(F: Field, c: Code, n: nat)
    requires IsField(F) && c.b0 > 0
    ensures Generator(F, c, n)[n] == 1
  {
    if n > 0 {
      GeneratorMonic(F, c, n - 1);
      StaysMonic(F, Generator(F, c, n - 1), Beta(F, c, n));
    }
  }

  lemma StaysMonic(F: Field, p: seq<gf>, root: gf)
    requires IsField(F) && |p| > 0 && p[|p| - 1] == 1
    ensures TimesRoot(F, p, root)[|p|] == 1
  {
    MulZero(F, root);
    assert AddZero(F, 1);
  }

  /** z * p(z) + root * p(z), coefficient by coefficient. */
  lemma {:induction false} TimesRootValue(F: Field, p: seq<gf>, root: gf, z: gf, m: nat)
    requires IsField(F) && m <= |p|
    ensures Eval(F, TimesRoot(F, p, root), z, m + 1) ==
      Add(F, Mul(F, z, Eval(F, p, z, m)), Mul(F, root, Eval(F, p, z, m + 1)))
    decreases m
  {
    if m == 0 {
      RootTerm(F, p, root, 0, Power(F, z, 0));
      assert Distributes(F, root, Eval(F, p, z, 0), Mul(F, At(p, 0), Power(F, z, 0)));
      NoTermsYet(F, p, TimesRoot(F, p, root), root, z, Power(F, z, 0));
    } else {
      TimesRootValue(F, p, root, z, m - 1);
      TimesRootStep(F, p, root, z, m, Power(F, z, m));
    }
  }

  lemma TimesRootStep(F: Field, p: seq<gf>, root: gf, z: gf, m: nat, w: gf)
    requires IsField(F) && 0 < m <= |p| && w == Power(F, z, m)
    requires Eval(F, TimesRoot(F, p, root), z, m) ==
      Add(F, Mul(F, z, Eval(F, p, z, m - 1)), Mul(F, root, Eval(F, p, z, m)))
    ensures Eval(F, TimesRoot(F, p, root), z, m + 1) ==
      Add(F, Mul(F, z, Eval(F, p, z, m)), Mul(F, root, Eval(F, p, z, m + 1)))
  {
    RootTerm(F, p, root, m, w);
    TimesZ(F, p, z, m);
    OneMoreClock(F, Mul(F, z, Eval(F, p, z, m - 1)), root, Eval(F, p, z, m), Mul(F, At(p, m - 1), w),
                 Mul(F, At(p, m), w));
  }

  lemma RootTerm(F: Field, p: seq<gf>, root: gf, m: nat, w: gf)
    requires IsField(F) && m <= |p|
    ensures Mul(F, At(TimesRoot(F, p, root), m), w) ==
      Add(F, Mul(F, At(p, m - 1), w), Mul(F, root, Mul(F, At(p, m), w)))
  {
    DistributesLeft(F, At(p, m - 1), Mul(F, root, At(p, m)), w);
    assert MulAssoc(F, root, At(p, m), w);
  }

  lemma NoTermsYet(F: Field, p: seq<gf>, q: seq<gf>, root: gf, z: gf, w: gf)
    requires IsField(F) && w == Power(F, z, 0)
      && Mul(F, At(q, 0), w) == Add(F, Mul(F, At(p, -1), w), Mul(F, root, Mul(F, At(p, 0), w)))
    ensures Eval(F, q, z, 1) == Add(F, Mul(F, z, Eval(F, p, z, 0)), Mul(F, root, Eval(F, p, z, 1)))
  {
    MulZero(F, z);
    MulZero(F, w);
    assert Eval(F, p, z, 0) == 0 && Eval(F, q, z, 0) == 0;
    AddsUp(F, Mul(F, At(p, 0), w), 0);
    AddsUp(F, Mul(F, At(q, 0), w), 0);
    AddsUp(F, Mul(F, root, Mul(F, At(p, 0), w)), 0);
  }

  lemma TimesZ(F: Field, p: seq<gf>, z: gf, m: nat)
    requires IsField(F) && m > 0
    ensures Mul(F, z, Eval(F, p, z, m)) == Add(F, Mul(F, z, Eval(F, p, z, m - 1)), Mul(F, At(p, m - 1), Power(F, z, m)))
  {
    assert Distributes(F, z, Eval(F, p, z, m - 1), Mul(F, At(p, m - 1), Power(F, z, m - 1)));
    MulSwap(F, z, At(p, m - 1), Power(F, z, m - 1));
  }

  /** (z + root) * p(z) */
  lemma TimesRootIs(F: Field, p: seq<gf>, root: gf, z: gf)
    requires IsField(F)
    ensures Eval(F, TimesRoot(F, p, root), z, |p| + 1) == Mul(F, Add(F, z, root), Eval(F, p, z, |p|))
  {
    var v := Eval(F, p, z, |p|);
    TimesRootValue(F, p, root, z, |p|);
    MulZero(F, Power(F, z, |p|));
    assert AddZero(F, v);
    DistributesLeft(F, z, root, v);
  }

  lemma {:induction false} GeneratorVanishes(F: Field, c: Code, n: nat, i: nat)
    requires IsField(F) && c.b0 > 0 && 1 <= i <= n
    ensures Eval(F, Generator(F, c, n), Beta(F, c, i), n + 1) == 0
    decreases n
  {
    var z, p, root := Beta(F, c, i), Generator(F, c, n - 1), Beta(F, c, n);
    if i < n { GeneratorVanishes(F, c, n - 1, i); }
    assert |p| == n && Generator(F, c, n) == TimesRoot(F, p, root);
    FactorVanishes(F, p, root, z);
  }

  lemma FactorVanishes(F: Field, p: seq<gf>, root: gf, z: gf)
    requires IsField(F) && (z == root || Eval(F, p, z, |p|) == 0)
    ensures Eval(F, TimesRoot(F, p, root), z, |p| + 1) == 0
  {
    TimesRootIs(F, p, root, z);
    assert AddSelf(F, z);
    MulZero(F, Eval(F, p, z, |p|));
    MulZero(F, Add(F, z, root));
  }

  // ----- v * x^m modulo the generator -----

  function ClockedAt(F: Field, bb: seq<gf>, g: seq<gf>, j: nat): gf
    requires |bb| > 0
  { Add(F, At(bb, j - 1), Mul(F, At(g, j), bb[|bb| - 1])) }

  /** x * bb modulo g */
  function Clocked(F: Field, bb: seq<gf>, g: seq<gf>): (r: seq<gf>)
    requires |bb| > 0
    ensures |r| == |bb|
  { seq(|bb|, j requires 0 <= j < |bb| => ClockedAt(F, bb, g, j)) }

  function ShiftedIn(F: Field, g: seq<gf>, n: nat, v: gf, m: nat): (r: seq<gf>)
    requires n > 0
    ensures |r| == n
  { if m == 0 then seq(n, j => if j == 0 then v else 0) else Clocked(F, ShiftedIn(F, g, n, v, m - 1), g) }

  lemma {:induction false} ClockedValue(F: Field, bb: seq<gf>, g: seq<gf>, z: gf, m: nat)
    requires IsField(F) && 0 < m <= |bb|
    ensures Eval(F, Clocked(F, bb, g), z, m) ==
      Add(F, Mul(F, z, Eval(F, bb, z, m - 1)), Mul(F, bb[|bb| - 1], Eval(F, g, z, m)))
    decreases m
  {
    var top, w := bb[|bb| - 1], Power(F, z, m - 1);
    ClockedTerm(F, bb, g, m, w);
    if m == 1 {
      assert Distributes(F, top, Eval(F, g, z, m - 1), Mul(F, At(g, m - 1), w));
      NoClockYet(F, bb, g, z, w);
    } else {
      ClockedValue(F, bb, g, z, m - 1);
      TimesZ(F, bb, z, m - 1);
      OneMoreClock(F, Mul(F, z, Eval(F, bb, z, m - 2)), top, Eval(F, g, z, m - 1), Mul(F, At(bb, m - 2), w),
                   Mul(F, At(g, m - 1), w));
    }
  }

  lemma OneMoreClock(F: Field, a: gf, top: gf, v: gf, b: gf, c: gf)
    requires IsField(F)
    ensures Add(F, Add(F, a, Mul(F, top, v)), Add(F, b, Mul(F, top, c))) ==
      Add(F, Add(F, a, b), Mul(F, top, Add(F, v, c)))
  {
    assert Distributes(F, top, v, c);
    Swap4(F, a, Mul(F, top, v), b, Mul(F, top, c));
  }

  lemma ClockedTerm(F: Field, bb: seq<gf>, g: seq<gf>, m: nat, w: gf)
    requires IsField(F) && 0 < m <= |bb|
    ensures Mul(F, At(Clocked(F, bb, g), m - 1), w) ==
      Add(F, Mul(F, At(bb, m - 2), w), Mul(F, bb[|bb| - 1], Mul(F, At(g, m - 1), w)))
  {
    var top := bb[|bb| - 1];
    DistributesLeft(F, At(bb, m - 2), Mul(F, At(g, m - 1), top), w);
    assert MulComm(F, At(g, m - 1), top) && MulAssoc(F, top, At(g, m - 1), w);
  }

  lemma NoClockYet(F: Field, bb: seq<gf>, g: seq<gf>, z: gf, w: gf)
    requires IsField(F) && |bb| > 0 && w == Power(F, z, 0)
    requires Mul(F, At(Clocked(F, bb, g), 0), w) ==
      Add(F, Mul(F, At(bb, -1), w), Mul(F, bb[|bb| - 1], Mul(F, At(g, 0), w)))
    ensures Eval(F, Clocked(F, bb, g), z, 1) ==
      Add(F, Mul(F, z, Eval(F, bb, z, 0)), Mul(F, bb[|bb| - 1], Eval(F, g, z, 1)))
  {
    var q, top := Clocked(F, bb, g), bb[|bb| - 1];
    MulZero(F, z);
    MulZero(F, w);
    assert Eval(F, bb, z, 0) == 0 && Eval(F, q, z, 0) == 0 && Eval(F, g, z, 0) == 0;
    AddsUp(F, Mul(F, At(g, 0), w), 0);
    AddsUp(F, Mul(F, At(q, 0), w), 0);
    AddsUp(F, Mul(F, top, Mul(F, At(g, 0), w)), 0);
  }

  /** At a root of the generator, a clock multiplies by the root. */
  lemma ClockedAtRoot(F: Field, bb: seq<gf>, g: seq<gf>, z: gf)
    requires IsField(F) && |bb| > 0 && |g| == |bb| + 1 && g[|bb|] == 1 && Eval(F, g, z, |bb| + 1) == 0
    ensures Eval(F, Clocked(F, bb, g), z, |bb|) == Mul(F, z, Eval(F, bb, z, |bb|))
  {
    var n := |bb|;
    ClockedValue(F, bb, g, z, n);
    TimesZ(F, bb, z, n);
    OneMul(F, Power(F, z, n));
    AddsUp(F, Eval(F, g, z, n), Power(F, z, n));
    assert Eval(F, g, z, n) == Power(F, z, n);
  }

  lemma {:induction false} FirstOnly(F: Field, p: seq<gf>, z: gf, n: nat)
    requires IsField(F) && 0 < n <= |p| && forall j {:trigger p[j]} :: 0 < j < |p| ==> p[j] == 0
    ensures Eval(F, p, z, n) == p[0]
    decreases n
  {
    if n == 1 {
      OneMul(F, p[0]);
      AddsUp(F, 0, p[0]);
      assert AddComm(F, 0, p[0]) && AddZero(F, p[0]);
      assert Eval(F, p, z, 0) == 0 && Power(F, z, 0) == 1;
    } else {
      FirstOnly(F, p, z, n - 1);
      MulZero(F, Power(F, z, n - 1));
      assert AddZero(F, p[0]);
    }
  }

  lemma {:induction false} ShiftedInValue(F: Field, g: seq<gf>, n: nat, v: gf, m: nat, z: gf)
    requires IsField(F) && n > 0 && |g| == n + 1 && g[n] == 1 && Eval(F, g, z, n + 1) == 0
    ensures Eval(F, ShiftedIn(F, g, n, v, m), z, n) == Mul(F, v, Power(F, z, m))
    decreases m
  {
    if m == 0 {
      FirstOnly(F, ShiftedIn(F, g, n, v, 0), z, n);
      OneMul(F, v);
    } else {
      ShiftedInValue(F, g, n, v, m - 1, z);
      ClockedAtRoot(F, ShiftedIn(F, g, n, v, m - 1), g, z);
      MulSwap(F, z, v, Power(F, z, m - 1));
    }
  }

  // ----- all errors together -----

  /** The register that these errors leave. */
  ghost function RegisterOf(F: Field, c: Code, errs: seq<Error>, n: nat): (bb: seq<gf>)
    requires IsCode(c) && n > 0
    ensures |bb| == n
  {
    if |errs| == 0 then seq(n, j => 0) else
      var e := errs[|errs| - 1];
      SumOf(F, RegisterOf(F, c, errs[..|errs| - 1], n), Added(F, c, e, n))
  }

  /** What one error adds to the register. */
  ghost function Added(F: Field, c: Code, e: Error, n: nat): (bb: seq<gf>)
    requires IsCode(c) && n > 0
    ensures |bb| == n
  { ShiftedIn(F, Generator(F, c, n), n, e.val, e.pos + 2 * (NN - c.kk)) }

  lemma AddedValue(F: Field, c: Code, e: Error, n: nat, i: nat)
    requires IsField(F) && IsCode(c) && 1 <= i <= n
    ensures Eval(F, Added(F, c, e, n), Beta(F, c, i), n) ==
      Mul(F, e.val, Power(F, Beta(F, c, i), e.pos + 2 * (NN - c.kk)))
  {
    AddedFrom(F, c, Generator(F, c, n), Added(F, c, e, n), n, i, e.val, e.pos + 2 * (NN - c.kk));
  }

  lemma AddedFrom(F: Field, c: Code, g: seq<gf>, bb: seq<gf>, n: nat, i: nat, v: gf, m: nat)
    requires IsField(F) && c.b0 > 0 && 1 <= i <= n && g == Generator(F, c, n) && bb == ShiftedIn(F, g, n, v, m)
    ensures Eval(F, bb, Beta(F, c, i), n) == Mul(F, v, Power(F, Beta(F, c, i), m))
  {
    GeneratorIs(F, c, g, n, i);
    AddedThrough(F, g, n, v, m, Beta(F, c, i));
  }

  lemma GeneratorIs(F: Field, c: Code, g: seq<gf>, n: nat, i: nat)
    requires IsField(F) && c.b0 > 0 && 1 <= i <= n && g == Generator(F, c, n)
    ensures |g| == n + 1 && g[n] == 1 && Eval(F, g, Beta(F, c, i), n + 1) == 0
  {
    GeneratorMonic(F, c, n);
    GeneratorVanishes(F, c, n, i);
  }

  lemma AddedThrough(F: Field, g: seq<gf>, n: nat, v: gf, m: nat, z: gf)
    requires IsField(F) && n > 0 && |g| == n + 1 && g[n] == 1 && Eval(F, g, z, n + 1) == 0
    ensures Eval(F, ShiftedIn(F, g, n, v, m), z, n) == Mul(F, v, Power(F, z, m))
  {
    ShiftedInValue(F, g, n, v, m, z);
  }

  /** Before the multiplication that the syndromes undo. */
  lemma {:induction false} RegisterValue(F: Field, c: Code, errs: seq<Error>, n: nat, i: nat)
    requires IsField(F) && IsCode(c) && 1 <= i <= n
    ensures Eval(F, RegisterOf(F, c, errs, n), Beta(F, c, i), n) ==
      Mul(F, ErrorAt(F, errs, Beta(F, c, i)), Power(F, Beta(F, c, i), 2 * (NN - c.kk)))
    decreases |errs|
  {
    var z, shift := Beta(F, c, i), 2 * (NN - c.kk);
    if |errs| == 0 {
      MulZero(F, Power(F, z, shift));
      FirstOnly(F, RegisterOf(F, c, errs, n), z, n);
    } else {
      var e, rest := errs[|errs| - 1], errs[..|errs| - 1];
      RegisterValue(F, c, rest, n, i);
      AddedValue(F, c, e, n, i);
      OneErrorMore(F, RegisterOf(F, c, rest, n), Added(F, c, e, n), e, z, shift, ErrorAt(F, rest, z));
    }
  }

  lemma OneErrorMore(F: Field, bb: seq<gf>, more: seq<gf>, e: Error, z: gf, shift: nat, v: gf)
    requires IsField(F) && |bb| == |more| && Eval(F, bb, z, |bb|) == Mul(F, v, Power(F, z, shift))
    requires Eval(F, more, z, |bb|) == Mul(F, e.val, Power(F, z, e.pos + shift))
    ensures Eval(F, SumOf(F, bb, more), z, |bb|) ==
      Mul(F, Add(F, v, Mul(F, e.val, Power(F, z, e.pos))), Power(F, z, shift))
  {
    var w := Power(F, z, shift);
    SumValue(F, bb, more, z, |bb|);
    PowerAdds(F, z, e.pos, shift);
    assert MulAssoc(F, e.val, Power(F, z, e.pos), w);
    DistributesLeft(F, v, Mul(F, e.val, Power(F, z, e.pos)), w);
  }

  /** alpha^e has period NN, too. */
  lemma PeriodOfPower(F: Field, e: nat, k: nat, m: nat)
    requires IsField(F) && Primitive(F, 2) && m + k == 2 * NN
    ensures k * e >= 0 && Mul(F, Power(F, Power(F, 2, e), m), Power(F, 2, k * e)) == 1
  {
    var z := Power(F, 2, e);
    PowerPower(F, 2, e, k);
    assert e * k == k * e;
    PowerAdds(F, z, m, k);
    PowerPower(F, 2, e, m + k);
    PowerPower(F, 2, 2 * NN, e);
    assert e * (m + k) == (2 * NN) * e;
    PowerAdds(F, 2, NN, NN);
    OneMul(F, 1);
    PowerOne(F, e);
  }

  lemma RegisterSyndrome(F: Field, c: Code, errs: seq<Error>, n: nat, i: nat)
    requires IsField(F) && Primitive(F, 2) && IsCode(c) && 1 <= i <= n
    ensures SyndromeAt(F, c, RegisterOf(F, c, errs, n), i) == ErrorAt(F, errs, Beta(F, c, i))
  {
    RegisterValue(F, c, errs, n, i);
    BetaPeriod(F, c, i);
    TimesOne(F, ErrorAt(F, errs, Beta(F, c, i)), Power(F, Beta(F, c, i), 2 * (NN - c.kk)),
             Power(F, 2, FeedbackShift(c, i)));
  }

  lemma BetaPeriod(F: Field, c: Code, i: nat)
    requires IsField(F) && Primitive(F, 2) && IsCode(c) && i >= 1
    ensures Mul(F, Power(F, Beta(F, c, i), 2 * (NN - c.kk)), Power(F, 2, FeedbackShift(c, i))) == 1
  {
    PeriodOfPower(F, c.b0 + i - 1, 2 * c.kk, 2 * (NN - c.kk));
  }

  lemma TimesOne(F: Field, v: gf, a: gf, b: gf)
    requires IsField(F) && Mul(F, a, b) == 1
    ensures Mul(F, Mul(F, v, a), b) == v
  {
    assert MulAssoc(F, v, a, b);
    OneMul(F, v);
  }

  /** Every pattern of errors is explained by some register. */
  lemma EveryPatternExplained(F: Field, c: Code, errs: seq<Error>, n: nat)
    requires IsField(F) && Primitive(F, 2) && IsCode(c) && n > 0 && IsPattern(errs)
    ensures Explains(F, c, RegisterOf(F, c, errs, n), errs)
  {
    forall i: nat {:trigger SyndromeAt(F, c, RegisterOf(F, c, errs, n), i)} | 1 <= i <= n
      ensures SyndromeAt(F, c, RegisterOf(F, c, errs, n), i) == ErrorAt(F, errs, Beta(F, c, i))
    {
      RegisterSyndrome(F, c, errs, n, i);
    }
  }

  // ----- a register that looks like no errors -----

  lemma BetasDistinct(F: Field, c: Code, i: nat, j: nat)
    requires IsField(F) && Primitive(F, 2) && c.b0 > 0 && 1 <= i < j && j - i < NN
    ensures Beta(F, c, i) != Beta(F, c, j)
  {
    var a, d := c.b0 + i - 1, j - i;
    var x, y := Power(F, 2, a), Power(F, 2, d);
    PowerAdds(F, 2, a, d);
    PowersNonzero(F, 2, a);
    if Mul(F, x, y) == x {
      assert Distributes(F, x, y, 1);
      OneMul(F, x);
      assert AddSelf(F, x);
      NoZeroDivisors(F, x, Add(F, y, 1));
      AddsUp(F, y, 1);
    }
  }

  lemma {:induction false} NotVanishing(F: Field, c: Code, n: nat, z: gf)
    requires IsField(F) && c.b0 > 0 && forall i: nat {:trigger Beta(F, c, i)} :: 1 <= i <= n ==> z != Beta(F, c, i)
    ensures Eval(F, Generator(F, c, n), z, n + 1) != 0
  {
    if n == 0 {
      FirstOnly(F, [1], z, 1);
    } else {
      NotVanishing(F, c, n - 1, z);
      var g := Generator(F, c, n - 1);
      assert |g| == n && Generator(F, c, n) == TimesRoot(F, g, Beta(F, c, n));
      FactorStays(F, g, Beta(F, c, n), z);
    }
  }

  lemma FactorStays(F: Field, p: seq<gf>, root: gf, z: gf)
    requires IsField(F) && z != root && Eval(F, p, z, |p|) != 0
    ensures Eval(F, TimesRoot(F, p, root), z, |p| + 1) != 0
  {
    TimesRootIs(F, p, root, z);
    AddsUp(F, z, root);
    if Mul(F, Add(F, z, root), Eval(F, p, z, |p|)) == 0 { NoZeroDivisors(F, Add(F, z, root), Eval(F, p, z, |p|)); }
  }

  /** Only the first syndrome is not 0. */
  ghost predicate FirstSyndromeOnly(F: Field, c: Code, bb: seq<gf>)
    requires c.b0 > 0
  {
    |bb| >= 2 && SyndromeAt(F, c, bb, 1) != 0 && forall i: nat {:trigger SyndromeAt(F, c, bb, i)} :: 2 <= i <= |bb| ==>
      SyndromeAt(F, c, bb, i) == 0
  }

  /** There is such a register: the product of x + beta_i over the others. */
  lemma FirstSyndromeRegister(F: Field, c: Code, n: nat) returns (bb: seq<gf>)
    requires IsField(F) && Primitive(F, 2) && IsCode(c) && 2 <= n < NN
    ensures |bb| == n && FirstSyndromeOnly(F, c, bb)
  {
    var c' := Code(c.b0 + 1, c.kk);
    bb := Generator(F, c', n - 1);
    forall i: nat {:trigger Beta(F, c', i)} | 1 <= i <= n - 1 ensures Beta(F, c, 1) != Beta(F, c', i) {
      BetasDistinct(F, c, 1, i + 1);
    }
    NotVanishing(F, c', n - 1, Beta(F, c, 1));
    FirstNonzero(F, c, bb);
    OthersVanish(F, c, c', n, bb);
  }

  lemma OthersVanish(F: Field, c: Code, c': Code, n: nat, bb: seq<gf>)
    requires IsField(F) && IsCode(c) && 2 <= n && c' == Code(c.b0 + 1, c.kk) && bb == Generator(F, c', n - 1)
    ensures forall i: nat {:trigger SyndromeAt(F, c, bb, i)} :: 2 <= i <= n ==> SyndromeAt(F, c, bb, i) == 0
  {
    forall i: nat {:trigger SyndromeAt(F, c, bb, i)} | 2 <= i <= n ensures SyndromeAt(F, c, bb, i) == 0 {
      OtherVanishes(F, c, c', n, bb, i);
    }
  }

  lemma OtherVanishes(F: Field, c: Code, c': Code, n: nat, bb: seq<gf>, i: nat)
    requires IsField(F) && IsCode(c) && 2 <= i <= n && c' == Code(c.b0 + 1, c.kk) && bb == Generator(F, c', n - 1)
    ensures SyndromeAt(F, c, bb, i) == 0
  {
    assert Beta(F, c', i - 1) == Beta(F, c, i);
    GeneratorVanishes(F, c', n - 1, i - 1);
    SyndromeVanishes(F, c, bb, i);
  }

  lemma SyndromeVanishes(F: Field, c: Code, bb: seq<gf>, i: nat)
    requires IsField(F) && IsCode(c) && Eval(F, bb, Beta(F, c, i), |bb|) == 0
    ensures SyndromeAt(F, c, bb, i) == 0
  {
    MulZero(F, Power(F, 2, FeedbackShift(c, i)));
  }

  lemma FirstNonzero(F: Field, c: Code, bb: seq<gf>)
    requires IsField(F) && Primitive(F, 2) && IsCode(c) && Eval(F, bb, Beta(F, c, 1), |bb|) != 0
    ensures SyndromeAt(F, c, bb, 1) != 0
  {
    var e := FeedbackShift(c, 1);
    PowersNonzero(F, 2, e);
    if SyndromeAt(F, c, bb, 1) == 0 { NoZeroDivisors(F, Eval(F, bb, Beta(F, c, 1), |bb|), Power(F, 2, e)); }
  }

  /** The decoder takes it for a word without errors: lambda is 1, though the register has length 1. */
  lemma TakenForNone(F: Field, c: Code, bb: seq<gf>, count: int, el: nat, p: seq<gf>)
    requires IsField(F) && IsCode(c) && FirstSyndromeOnly(F, c, bb) && IsLambda(F, c, bb, count, el, p) && count >= -1
    ensures el == 1 && count == 0
  {
    var s, one: seq<gf> := SyndromeSeq(F, c, bb), [1];
    assert At(s, 1) == SyndromeAt(F, c, bb, 1) && At(s, 2) == SyndromeAt(F, c, bb, 2);
    forall j {:trigger Value(F, one, s, j)} | 1 < j <= |bb| ensures Value(F, one, s, j) == 0 {
      assert At(s, j) == SyndromeAt(F, c, bb, j);
      OneMul(F, 0);
      assert AddZero(F, 0) && Conv(F, one, s, j, 0) == 0;
    }
    assert Generates(F, one, 1, s, |bb|);
    if el == 0 { ValueOfConstant(F, p, s); }
    ValueOfLinear(F, p, s);
    NoZeroDivisors(F, At(p, 1), At(s, 1));
  }

  lemma ValueOfConstant(F: Field, p: seq<gf>, s: seq<gf>)
    requires IsField(F) && At(p, 0) == 1 && NoTermAbove(p, 0)
    ensures Value(F, p, s, 1) == At(s, 1)
  {
    ConvShort(F, p, s, 1, 1, |p|);
    OneMul(F, At(s, 1));
    AddsUp(F, At(s, 1), 0);
    assert Conv(F, p, s, 1, 0) == 0;
  }

  lemma ValueOfLinear(F: Field, p: seq<gf>, s: seq<gf>)
    requires IsField(F) && At(p, 0) == 1 && NoTermAbove(p, 1) && At(s, 2) == 0
    ensures Value(F, p, s, 2) == Mul(F, At(p, 1), At(s, 1))
  {
    if |p| >= 2 {
      ConvShort(F, p, s, 2, 2, |p|);
    } else {
      MulZero(F, At(s, 1));
    }
    OneMul(F, 0);
    AddsUp(F, Mul(F, At(p, 1), At(s, 1)), 0);
    assert AddZero(F, 0) && Conv(F, p, s, 2, 0) == 0 && Conv(F, p, s, 2, 1) == 0;
  }
}
