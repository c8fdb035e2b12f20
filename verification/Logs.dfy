/** Powers of an element of order NN, and logarithms. */
module Logs {
  import opened Fields
  import opened PowerSums

  /** The powers of `alpha` below NN are all different. */
  ghost predicate Primitive(F: Field, alpha: gf) {
    Power(F, alpha, NN) == 1 && forall k: nat {:trigger Power(F, alpha, k)} :: 0 < k < NN ==> Power(F, alpha, k) != 1
  }

  lemma {:induction false} Period(F: Field, alpha: gf, k: nat)
    requires IsRing(F) && Power(F, alpha, NN) == 1
    ensures Power(F, alpha, k) == Power(F, alpha, k % NN)
  {
    if k >= NN {
      Period(F, alpha, k - NN);
      PowerAdds(F, alpha, NN, k - NN);
      OneMul(F, Power(F, alpha, k - NN));
      assert (k - NN) % NN == k % NN;
    }
  }

  lemma Cancel(F: Field, alpha: gf, i: nat, j: nat)
    requires IsRing(F) && Primitive(F, alpha) && i <= j < NN && Power(F, alpha, i) == Power(F, alpha, j)
    ensures i == j
  {
    var a, b := Power(F, alpha, i), Power(F, alpha, j - i);
    PowerAdds(F, alpha, i, j - i);
    PowerAdds(F, alpha, NN - i, i);
    var c := Power(F, alpha, NN - i);
    assert MulAssoc(F, c, a, b);
    OneMul(F, b);
  }

  lemma PowersNonzero(F: Field, alpha: gf, k: nat)
    requires IsRing(F) && Primitive(F, alpha)
    ensures Power(F, alpha, k) != 0
  {
    Period(F, alpha, k);
    var i := k % NN;
    PowerAdds(F, alpha, i, NN - i);
    MulZero(F, Power(F, alpha, NN - i));
  }

  // ----- every element but 0 is a power -----

  ghost function Range(n: nat): set<int> { if n == 0 then {} else Range(n - 1) + {n} }

  lemma {:induction false} RangeSize(n: nat)
    ensures |Range(n)| == n && forall x {:trigger x in Range(n)} :: x in Range(n) <==> 1 <= x <= n
  {
    if n > 0 { RangeSize(n - 1); }
  }

  ghost function Powers(F: Field, alpha: gf, n: nat): set<int> {
    if n == 0 then {} else Powers(F, alpha, n - 1) + {Power(F, alpha, n - 1)}
  }

  ghost predicate IsPower(F: Field, alpha: gf, n: nat, x: int) {
    1 <= x <= NN && exists k: nat {:trigger Power(F, alpha, k)} :: k < n && Power(F, alpha, k) == x
  }

  lemma {:induction false} PowersAre(F: Field, alpha: gf, n: nat, x: int)
    requires IsRing(F) && Primitive(F, alpha) && x in Powers(F, alpha, n)
    ensures IsPower(F, alpha, n, x)
    decreases n
  {
    if x == Power(F, alpha, n - 1) {
      PowersNonzero(F, alpha, n - 1);
    } else {
      PowersAre(F, alpha, n - 1, x);
    }
  }

  lemma {:induction false} PowersSize(F: Field, alpha: gf, n: nat)
    requires IsRing(F) && Primitive(F, alpha) && n <= NN
    ensures |Powers(F, alpha, n)| == n
    decreases n
  {
    if n > 0 {
      PowersSize(F, alpha, n - 1);
      NewPower(F, alpha, n - 1);
    }
  }

  lemma NewPower(F: Field, alpha: gf, n: nat)
    requires IsRing(F) && Primitive(F, alpha) && n < NN
    ensures Power(F, alpha, n) !in Powers(F, alpha, n)
  {
    if Power(F, alpha, n) in Powers(F, alpha, n) {
      PowersAre(F, alpha, n, Power(F, alpha, n));
      var k: nat :| k < n && Power(F, alpha, k) == Power(F, alpha, n);
      Cancel(F, alpha, k, n);
    }
  }

  lemma SameSize(a: set<int>, b: set<int>)
    requires a <= b && |a| == |b|
    ensures a == b
  {
    assert b == a + (b - a);
    assert |b - a| == 0;
  }

  lemma LogExists(F: Field, alpha: gf, a: gf)
    requires IsRing(F) && Primitive(F, alpha) && a != 0
    ensures exists k: nat :: k < NN && Power(F, alpha, k) == a
  {
    PowersSize(F, alpha, NN);
    RangeSize(NN);
    forall x | x in Powers(F, alpha, NN) ensures x in Range(NN) { PowersAre(F, alpha, NN, x); }
    SameSize(Powers(F, alpha, NN), Range(NN));
    assert a in Range(NN);
    PowersAre(F, alpha, NN, a);
  }

  /** The exponent of `a`; that of 0, which is none, is NN. */
  ghost function Log(F: Field, alpha: gf, a: gf): (k: nat)
    requires IsRing(F) && Primitive(F, alpha)
    ensures if a == 0 then k == NN else k < NN && Power(F, alpha, k) == a
  {
    if a == 0 then NN else
      LogExists(F, alpha, a);
      var k: nat :| k < NN && Power(F, alpha, k) == a; k
  }

  lemma LogIs(F: Field, alpha: gf, k: nat)
    requires IsRing(F) && Primitive(F, alpha)
    ensures Log(F, alpha, Power(F, alpha, k)) == k % NN
  {
    PowersNonzero(F, alpha, k);
    Period(F, alpha, k);
    var l := Log(F, alpha, Power(F, alpha, k));
    if l <= k % NN { Cancel(F, alpha, l, k % NN); } else { Cancel(F, alpha, k % NN, l); }
  }

  /** Multiplying is adding exponents. */
  lemma LogMul(F: Field, alpha: gf, a: gf, b: gf)
    requires IsRing(F) && Primitive(F, alpha) && a != 0 && b != 0
    ensures Power(F, alpha, (Log(F, alpha, a) + Log(F, alpha, b)) % NN) == Mul(F, a, b) != 0
  {
    PowerAdds(F, alpha, Log(F, alpha, a), Log(F, alpha, b));
    Period(F, alpha, Log(F, alpha, a) + Log(F, alpha, b));
    PowersNonzero(F, alpha, Log(F, alpha, a) + Log(F, alpha, b));
  }

  /** A ring with such an element is a field. */
  lemma RingIsField(F: Field, alpha: gf)
    requires IsRing(F) && Primitive(F, alpha)
    ensures IsField(F)
  {
    forall a {:trigger Inverse(F, a)} ensures Inverse(F, a) {
      if a != 0 {
        var k := Log(F, alpha, a);
        PowerAdds(F, alpha, k, NN - k);
        assert Mul(F, a, Power(F, alpha, NN - k)) == 1;
      }
    }
  }

  /** Inverses are unique. */
  lemma InverseIs(F: Field, a: gf, b: gf)
    requires IsField(F) && Mul(F, a, b) == 1
    ensures a != 0 && Inv(F, a) == b
  {
    MulZero(F, b);
    var i := Inv(F, a);
    assert Inverse(F, a) && MulComm(F, a, i) && MulAssoc(F, i, a, b);
    OneMul(F, b);
    OneMul(F, i);
  }

  // ----- periods -----

  lemma {:induction false} PowerPower(F: Field, x: gf, m: nat, n: nat)
    requires IsRing(F)
    ensures m * n >= 0 && Power(F, x, m * n) == Power(F, Power(F, x, m), n)
  {
    if n > 0 {
      PowerPower(F, x, m, n - 1);
      assert m * n == m + m * (n - 1);
      PowerAdds(F, x, m, m * (n - 1));
    }
  }

  lemma {:induction false} PowerOne(F: Field, n: nat)
    requires IsRing(F)
    ensures Power(F, 1, n) == 1
  {
    if n > 0 {
      PowerOne(F, n - 1);
      OneMul(F, 1);
    }
  }

  /** The greatest common divisor of two periods is a period. */
  lemma {:induction false} CommonPeriod(F: Field, x: gf, i: nat, j: nat) returns (d: nat, u: nat, v: nat)
    requires IsRing(F) && Power(F, x, i) == 1 && Power(F, x, j) == 1 && i > 0
    ensures d > 0 && i == u * d && j == v * d && Power(F, x, d) == 1
    decreases i + j
  {
    if j == 0 {
      d, u, v := i, 1, 0;
    } else if i <= j {
      PowerAdds(F, x, i, j - i);
      OneMul(F, Power(F, x, j - i));
      d, u, v := CommonPeriod(F, x, i, j - i);
      v := v + u;
    } else {
      PowerAdds(F, x, j, i - j);
      OneMul(F, Power(F, x, i - j));
      d, u, v := CommonPeriod(F, x, i - j, j);
      u := u + v;
    }
  }

  /** To tell the order, the maximal proper divisors of NN = 3 * 11 * 31 are enough. */
  lemma OrderIsFull(F: Field, x: gf, k: nat)
    requires IsRing(F) && Power(F, x, NN) == 1 && Power(F, x, 341) != 1 && Power(F, x, 93) != 1 && Power(F, x, 33) != 1
    requires 0 < k < NN
    ensures Power(F, x, k) != 1
  {
    if Power(F, x, k) == 1 {
      var d, u, v := CommonPeriod(F, x, k, NN);
      assert d <= k by { Multiple(d, u); }
      Divisors(d, v);
      var n := if 341 % d == 0 then 341 else if 93 % d == 0 then 93 else 33;
      var m := n / d;
      assert n == d * m;
      PowerPower(F, x, d, m);
      PowerOne(F, m);
    }
  }

  lemma Multiple(d: nat, u: nat)
    requires d * u > 0
    ensures d <= d * u
  {}

  lemma Divisors(d: nat, v: nat)
    requires v * d == NN && d < NN
    ensures d > 0 && (341 % d == 0 || 93 % d == 0 || 33 % d == 0)
  {
    if d <= 31 {
      SmallFactor(d, v);
    } else {
      if v >= 32 { Multiple32(d, v); }
      SmallFactor(v, d);
    }
  }

  lemma Multiple32(d: nat, v: nat)
    requires d >= 32 && v >= 32
    ensures v * d > NN
  {
    assert v * d == 32 * d + (v - 32) * d;
  }

  lemma SmallFactor(d: nat, v: nat)
    requires d * v == NN && d <= 31
    ensures (d == 1 && v == 1023) || (d == 3 && v == 341) || (d == 11 && v == 93) || (d == 31 && v == 33)
  {
    if d <= 15 {
      assert d == 1 || d == 2 || d == 3 || d == 4 || d == 5 || d == 6 || d == 7 || d == 8 || d == 9 || d == 10
        || d == 11 || d == 12 || d == 13 || d == 14 || d == 15;
    } else {
      assert d == 16 || d == 17 || d == 18 || d == 19 || d == 20 || d == 21 || d == 22 || d == 23 || d == 24 || d == 25
        || d == 26 || d == 27 || d == 28 || d == 29 || d == 30 || d == 31;
    }
  }
}
