/** Sequences of symbols as polynomials, and their sums of products. */
module Sums {
  import opened Fields

  function At(p: seq<gf>, i: int): gf { if 0 <= i < |p| then p[i] else 0 }

  /** The sum of p_i * s_(j-i) for i below n. */
  function Conv(F: Field, p: seq<gf>, s: seq<gf>, j: int, n: nat): gf
  { if n == 0 then 0 else Add(F, Conv(F, p, s, j, n - 1), Mul(F, At(p, n - 1), At(s, j - (n - 1)))) }

  /** t = p + d * x * b */
  ghost predicate Combined(F: Field, t: seq<gf>, p: seq<gf>, d: gf, b: seq<gf>) {
    At(t, 0) == At(p, 0) && forall i {:trigger At(t, i)} :: 1 <= i ==>
      At(t, i) == Add(F, At(p, i), Mul(F, d, At(b, i - 1)))
  }

  lemma {:induction false} ConvCombined(F: Field, t: seq<gf>, p: seq<gf>, d: gf, b: seq<gf>, s: seq<gf>, j: int, n: nat)
    requires IsField(F) && Combined(F, t, p, d, b)
    ensures Conv(F, t, s, j, n + 1) == Add(F, Conv(F, p, s, j, n + 1), Mul(F, d, Conv(F, b, s, j - 1, n)))
  {
    if n == 0 {
      MulZero(F, d);
      assert AddZero(F, Conv(F, p, s, j, 1));
      assert Conv(F, t, s, j, 0) == 0 == Conv(F, p, s, j, 0);
    } else {
      ConvCombined(F, t, p, d, b, s, j, n - 1);
      var x, y, z := At(p, n), At(b, n - 1), At(s, j - n);
      DistributesLeft(F, x, Mul(F, d, y), z);
      assert MulAssoc(F, d, y, z);
      assert Distributes(F, d, Conv(F, b, s, j - 1, n - 1), Mul(F, y, z));
      Swap4(F, Conv(F, p, s, j, n), Mul(F, d, Conv(F, b, s, j - 1, n - 1)), Mul(F, x, z), Mul(F, d, Mul(F, y, z)));
      assert j - 1 - (n - 1) == j - n;
    }
  }

  /** b' = c * b */
  lemma {:induction false} ConvScaled(F: Field, b': seq<gf>, c: gf, b: seq<gf>, s: seq<gf>, j: int, n: nat)
    requires IsField(F) && forall i {:trigger At(b', i)} :: 0 <= i < n ==> At(b', i) == Mul(F, c, At(b, i))
    ensures Conv(F, b', s, j, n) == Mul(F, c, Conv(F, b, s, j, n))
  {
    if n == 0 {
      MulZero(F, c);
    } else {
      ConvScaled(F, b', c, b, s, j, n - 1);
      assert MulAssoc(F, c, At(b, n - 1), At(s, j - (n - 1)));
      assert Distributes(F, c, Conv(F, b, s, j, n - 1), Mul(F, At(b, n - 1), At(s, j - (n - 1))));
    }
  }

  /** b' = x * b */
  lemma {:induction false} ConvShifted(F: Field, b': seq<gf>, b: seq<gf>, s: seq<gf>, j: int, n: nat)
    requires IsField(F) && At(b', 0) == 0 && forall i {:trigger At(b', i)} :: 1 <= i <= n ==> At(b', i) == At(b, i - 1)
    ensures Conv(F, b', s, j, n + 1) == Conv(F, b, s, j - 1, n)
  {
    if n == 0 {
      MulZero(F, At(s, j));
      assert AddSelf(F, 0);
      assert Conv(F, b', s, j, 0) == 0;
    } else {
      ConvShifted(F, b', b, s, j, n - 1);
      assert j - 1 - (n - 1) == j - n;
    }
  }

  /** Coefficients that are zero do not matter. */
  lemma {:induction false} ConvShort(F: Field, p: seq<gf>, s: seq<gf>, j: int, n: nat, m: nat)
    requires IsField(F) && n <= m && forall i {:trigger At(p, i)} :: n <= i < m ==> At(p, i) == 0
    ensures Conv(F, p, s, j, m) == Conv(F, p, s, j, n)
    decreases m
  {
    if n < m {
      ConvShort(F, p, s, j, n, m - 1);
      MulZero(F, At(s, j - (m - 1)));
      assert AddZero(F, Conv(F, p, s, j, m - 1));
    }
  }

  // ----- double sums -----

  /** The sum of c_i * (the sum of p_k * s_(j-i-k) for k below m) for i below n. */
  function Conv2(F: Field, c: seq<gf>, p: seq<gf>, s: seq<gf>, j: int, n: nat, m: nat): gf
  { if n == 0 then 0 else Add(F, Conv2(F, c, p, s, j, n - 1, m), Mul(F, At(c, n - 1), Conv(F, p, s, j - (n - 1), m))) }

  lemma {:induction false} Conv2Swap(F: Field, c: seq<gf>, p: seq<gf>, s: seq<gf>, j: int, n: nat, m: nat)
    requires IsField(F)
    ensures Conv2(F, c, p, s, j, n, m) == Conv2(F, p, c, s, j, m, n)
  {
    if n == 0 {
      Conv2Empty(F, p, c, s, j, m);
    } else {
      Conv2Swap(F, c, p, s, j, n - 1, m);
      Conv2Last(F, p, c, s, j, m, n);
    }
  }

  lemma {:induction false} Conv2Empty(F: Field, p: seq<gf>, c: seq<gf>, s: seq<gf>, j: int, m: nat)
    requires IsField(F)
    ensures Conv2(F, p, c, s, j, m, 0) == 0
  {
    if m > 0 {
      Conv2Empty(F, p, c, s, j, m - 1);
      MulZero(F, At(p, m - 1));
      assert AddSelf(F, 0);
    }
  }

  /** The last term of the inner sums, by itself. */
  lemma {:induction false} Conv2Last(F: Field, p: seq<gf>, c: seq<gf>, s: seq<gf>, j: int, m: nat, n: nat)
    requires IsField(F) && n > 0
    ensures Conv2(F, p, c, s, j, m, n) ==
      Add(F, Conv2(F, p, c, s, j, m, n - 1), Mul(F, At(c, n - 1), Conv(F, p, s, j - (n - 1), m)))
  {
    if m == 0 {
      MulZero(F, At(c, n - 1));
      assert AddSelf(F, 0);
    } else {
      Conv2Last(F, p, c, s, j, m - 1, n);
      var k := m - 1;
      var x, y, z := At(p, k), At(c, n - 1), At(s, j - k - (n - 1));
      assert j - (n - 1) - k == j - k - (n - 1);
      assert Distributes(F, x, Conv(F, c, s, j - k, n - 1), Mul(F, y, z));
      assert Distributes(F, y, Conv(F, p, s, j - (n - 1), k), Mul(F, x, z));
      MulSwap(F, x, y, z);
      Swap4(F, Conv2(F, p, c, s, j, k, n - 1), Mul(F, y, Conv(F, p, s, j - (n - 1), k)),
            Mul(F, x, Conv(F, c, s, j - k, n - 1)), Mul(F, x, Mul(F, y, z)));
    }
  }

  /** Only the first term is not zero. */
  lemma {:induction false} Conv2First(F: Field, c: seq<gf>, p: seq<gf>, s: seq<gf>, j: int, n: nat, m: nat)
    requires IsField(F) && n > 0
    requires forall i {:trigger At(c, i)} :: 1 <= i < n ==> At(c, i) == 0 || Conv(F, p, s, j - i, m) == 0
    ensures Conv2(F, c, p, s, j, n, m) == Mul(F, At(c, 0), Conv(F, p, s, j, m))
  {
    if n == 1 {
      AddsUp(F, Mul(F, At(c, 0), Conv(F, p, s, j, m)), 0);
      assert Conv2(F, c, p, s, j, 0, m) == 0;
    } else {
      Conv2First(F, c, p, s, j, n - 1, m);
      MulZero(F, At(c, n - 1));
      MulZero(F, Conv(F, p, s, j - (n - 1), m));
      assert AddZero(F, Conv2(F, c, p, s, j, n - 1, m));
    }
  }
}
