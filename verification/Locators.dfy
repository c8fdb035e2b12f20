/** The error locator: the product of the polynomials 1 + x_i * z over the terms of a power sum. */
module Locators {
  import opened Fields
  import opened Sums
  import opened Massey
  import opened PowerSums

  // ----- dividing by 1 + x*z -----

  /** Coefficient i of p / (1 + x * z). */
  function Quot(F: Field, p: seq<gf>, x: gf, i: int): gf
    decreases i
  { if i < 0 then 0 else Add(F, Mul(F, x, Quot(F, p, x, i - 1)), At(p, i)) }

  /** 1/x is a root of p, which has no term above n. */
  ghost predicate Root(F: Field, p: seq<gf>, x: gf, n: int) {
    forall i {:trigger Quot(F, p, x, i)} :: n <= i ==> Quot(F, p, x, i) == 0
  }

  lemma {:induction false} RootFrom(F: Field, p: seq<gf>, x: gf, n: int, i: int)
    requires IsField(F) && NoTermAbove(p, n) && Quot(F, p, x, n) == 0 && 0 <= n <= i
    ensures Quot(F, p, x, i) == 0
    decreases i
  {
    if i > n {
      RootFrom(F, p, x, n, i - 1);
      MulZero(F, x);
      AddsUp(F, 0, 0);
      assert At(p, i) == 0;
    }
  }

  lemma IsRoot(F: Field, p: seq<gf>, x: gf, n: int)
    requires IsField(F) && NoTermAbove(p, n) && Quot(F, p, x, n) == 0 && 0 <= n
    ensures Root(F, p, x, n)
  {
    forall i {:trigger Quot(F, p, x, i)} | n <= i ensures Quot(F, p, x, i) == 0 { RootFrom(F, p, x, n, i); }
  }

  // ----- a register applied to a power sum -----

  /** s_1 to s_r are the power sums of `e`. */
  ghost predicate SumsTo(F: Field, e: seq<Term>, s: seq<gf>, r: int) {
    forall j {:trigger At(s, j)} :: 1 <= j <= r ==> At(s, j) == PowerSum(F, e, j)
  }

  /** y * x * (p at 1/x) * x^n */
  function Weighted(F: Field, e: seq<Term>, p: seq<gf>, n: nat): (r: seq<Term>)
    ensures |r| == |e|
  { seq(|e|, i requires 0 <= i < |e| => Term(e[i].x, Mul(F, Mul(F, e[i].y, e[i].x), Quot(F, p, e[i].x, n)))) }

  /** The sum of p_i * (power sum at j - i) for i up to n. */
  function ConvSums(F: Field, p: seq<gf>, e: seq<Term>, j: int, n: nat): gf
    requires n < j
  {
    var last := Mul(F, At(p, n), PowerSum(F, e, j - n));
    if n == 0 then last else Add(F, ConvSums(F, p, e, j, n - 1), last)
  }

  lemma {:induction false} ConvIsSums(F: Field, p: seq<gf>, e: seq<Term>, s: seq<gf>, r: int, j: int, n: nat)
    requires IsField(F) && SumsTo(F, e, s, r) && n < j <= r
    ensures Conv(F, p, s, j, n + 1) == ConvSums(F, p, e, j, n)
  {
    assert At(s, j - n) == PowerSum(F, e, j - n);
    if n == 0 {
      AddsUp(F, Mul(F, At(p, 0), At(s, j)), 0);
      assert Conv(F, p, s, j, 0) == 0;
    } else {
      ConvIsSums(F, p, e, s, r, j, n - 1);
    }
  }

  /** What the last term of the power sum contributes. */
  function LastPart(F: Field, p: seq<gf>, x: gf, y: gf, j: int, n: nat): gf
    requires n < j
  { Mul(F, Mul(F, Mul(F, y, x), Quot(F, p, x, n)), Power(F, x, j - n - 1)) }

  lemma {:induction false} ConvSumsTerm(F: Field, p: seq<gf>, e: seq<Term>, j: int, n: nat)
    requires IsField(F) && n < j && |e| > 0
    ensures ConvSums(F, p, e, j, n) ==
      Add(F, ConvSums(F, p, e[..|e| - 1], j, n), LastPart(F, p, e[|e| - 1].x, e[|e| - 1].y, j, n))
  {
    var e', x, y := e[..|e| - 1], e[|e| - 1].x, e[|e| - 1].y;
    var w := Power(F, x, j - n);
    var c := At(p, n);
    assert Mul(F, c, PowerSum(F, e, j - n)) == Add(F, Mul(F, c, PowerSum(F, e', j - n)), Mul(F, c, Mul(F, y, w))) by {
      assert Distributes(F, c, PowerSum(F, e', j - n), Mul(F, y, w));
    }
    LastPartStep(F, p, x, y, j, n);
    if n > 0 {
      ConvSumsTerm(F, p, e, j, n - 1);
      Swap4(F, ConvSums(F, p, e', j, n - 1), LastPart(F, p, x, y, j, n - 1), Mul(F, c, PowerSum(F, e', j - n)),
            Mul(F, c, Mul(F, y, w)));
    }
  }

  lemma LastPartStep(F: Field, p: seq<gf>, x: gf, y: gf, j: int, n: nat)
    requires IsField(F) && n < j
    ensures var term := Mul(F, At(p, n), Mul(F, y, Power(F, x, j - n)));
      LastPart(F, p, x, y, j, n) == if n == 0 then term else Add(F, LastPart(F, p, x, y, j, n - 1), term)
  {
    TermStep(F, At(p, n), x, y, Quot(F, p, x, n - 1), Power(F, x, j - n - 1));
    if n == 0 {
      MulZero(F, x);
      MulZero(F, Mul(F, y, x));
      MulZero(F, Power(F, x, j));
      AddsUp(F, At(p, 0), 0);
      AddsUp(F, Mul(F, At(p, 0), Mul(F, y, Power(F, x, j))), 0);
    }
  }

  /** y * x * (x * q + c) * v = y * x * q * (x * v) + c * (y * (x * v)) */
  lemma TermStep(F: Field, c: gf, x: gf, y: gf, q: gf, v: gf)
    requires IsField(F)
    ensures Mul(F, Mul(F, Mul(F, y, x), Add(F, Mul(F, x, q), c)), v) ==
      Add(F, Mul(F, Mul(F, Mul(F, y, x), q), Mul(F, x, v)), Mul(F, c, Mul(F, y, Mul(F, x, v))))
  {
    var yx := Mul(F, y, x);
    assert Distributes(F, yx, Mul(F, x, q), c);
    DistributesLeft(F, Mul(F, yx, Mul(F, x, q)), Mul(F, yx, c), v);
    assert MulComm(F, x, q) && MulAssoc(F, yx, q, x) && MulAssoc(F, Mul(F, yx, q), x, v);
    assert MulComm(F, yx, c) && MulAssoc(F, c, yx, v) && MulAssoc(F, y, x, v);
  }

  lemma {:induction false} ConvIsPowerSum(F: Field, p: seq<gf>, e: seq<Term>, j: int, n: nat)
    requires IsField(F) && n < j
    ensures ConvSums(F, p, e, j, n) == PowerSum(F, Weighted(F, e, p, n), j - n - 1)
    decreases |e|
  {
    if |e| == 0 {
      NoSums(F, p, e, j, n);
    } else {
      ConvSumsTerm(F, p, e, j, n);
      ConvIsPowerSum(F, p, e[..|e| - 1], j, n);
      assert Weighted(F, e, p, n)[..|e| - 1] == Weighted(F, e[..|e| - 1], p, n);
    }
  }

  lemma {:induction false} NoSums(F: Field, p: seq<gf>, e: seq<Term>, j: int, n: nat)
    requires IsField(F) && n < j && |e| == 0
    ensures ConvSums(F, p, e, j, n) == 0
  {
    MulZero(F, At(p, n));
    assert PowerSum(F, e, j - n) == 0;
    if n > 0 {
      NoSums(F, p, e, j, n - 1);
      AddsUp(F, 0, 0);
    }
  }
}
