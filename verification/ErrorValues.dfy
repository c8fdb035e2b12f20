/** The value of the error at each root of the locator, by Forney's formula. */
module ErrorValues {
  import opened Fields
  import opened Sums
  import opened Massey
  import opened PowerSums
  import opened Values
  import opened Logs
  import opened Tables
  import opened BerlekampMassey
  import opened Chien
  import opened Syndromes

  // ----- the numerator -----

  /** `all` is what there will be in `num` when the terms below j have been added, too. */
  ghost predicate PendingValue(F: Field, w: seq<gf>, z: gf, j: nat, num: gf, all: gf) {
    Add(F, num, Eval(F, w, z, j)) == all
  }

  lemma ValueTerm(F: Field, w: seq<gf>, z: gf, j: nat, num: gf, all: gf)
    requires IsField(F) && PendingValue(F, w, z, j + 1, num, all)
    ensures PendingValue(F, w, z, j, Add(F, num, Mul(F, At(w, j), Power(F, z, j))), all)
    ensures At(w, j) == 0 ==> PendingValue(F, w, z, j, num, all)
  {
    AddTerm(F, num, Eval(F, w, z, j), Mul(F, At(w, j), Power(F, z, j)));
    MulZero(F, Power(F, z, j));
  }

  /** omega at alpha^x */
  method EvalAt(F: Field, alphaTo: array<gf>, omega: array<gf>, degOmega: nat, x: nat, ghost W: seq<gf>, ghost r: nat)
    returns (num: gf)
    requires IsField(F) && Primitive(F, 2) && Antilogs(F, alphaTo[..]) && LogsOf(F, omega[..], W, 0)
    requires degOmega < r && degOmega < omega.Length && NoTermAbove(W, degOmega)
    ensures num == Eval(F, W, Power(F, 2, x), r)
  {
    ghost var z := Power(F, 2, x);
    ghost var all := Eval(F, W, z, degOmega + 1);
    var i := degOmega + 1;
    num := 0;
    AddsUp(F, all, 0);
    while i > 0
      invariant 0 <= i <= degOmega + 1 && PendingValue(F, W, z, i, num, all)
    {
      i := i - 1;
      num := AddTermAt(F, alphaTo, omega, i, x, num, W, all);
    }
    assert AddZero(F, num);
    EvalShort(F, W, z, degOmega + 1, r);
  }

  method AddTermAt(F: Field, alphaTo: array<gf>, omega: array<gf>, i: nat, x: nat, num: gf, ghost W: seq<gf>,
                   ghost all: gf)
    returns (num': gf)
    requires IsField(F) && Primitive(F, 2) && Antilogs(F, alphaTo[..]) && LogsOf(F, omega[..], W, 0)
    requires i < omega.Length && PendingValue(F, W, Power(F, 2, x), i + 1, num, all)
    ensures PendingValue(F, W, Power(F, 2, x), i, num', all)
  {
    assert omega[..][i] == Log(F, 2, W[i]);
    ValueTerm(F, W, Power(F, 2, x), i, num, all);
    num' := num;
    if omega[i] != A0 {
      SyndromeTerm(F, W[i], x, i);
      var a := Antilog(alphaTo, omega[i] as int + x * i, F);
      num' := Add(F, num, a);
    }
  }

  // ----- the denominator -----

  ghost predicate PendingOdd(F: Field, p: seq<gf>, z: gf, j: nat, den: gf, all: gf) {
    Add(F, den, Odd(F, p, z, j)) == all
  }

  lemma OddTerm(F: Field, p: seq<gf>, z: gf, j: nat, den: gf, all: gf)
    requires IsField(F) && j % 2 == 0 && PendingOdd(F, p, z, j + 2, den, all)
    ensures PendingOdd(F, p, z, j, Add(F, den, Mul(F, At(p, j + 1), Power(F, z, j))), all)
    ensures At(p, j + 1) == 0 ==> PendingOdd(F, p, z, j, den, all)
  {
    assert Odd(F, p, z, j + 1) == Odd(F, p, z, j);
    AddTerm(F, den, Odd(F, p, z, j), Mul(F, At(p, j + 1), Power(F, z, j)));
    MulZero(F, Power(F, z, j));
  }

  lemma {:induction false} OddTail(F: Field, p: seq<gf>, z: gf, n: nat, m: nat)
    requires IsField(F) && n <= m && forall i {:trigger At(p, i)} :: n <= i < m && i % 2 == 1 ==> At(p, i) == 0
    ensures Odd(F, p, z, m) == Odd(F, p, z, n)
    decreases m
  {
    if n < m {
      OddTail(F, p, z, n, m - 1);
      if m % 2 == 0 {
        MulZero(F, Power(F, z, m - 2));
        assert AddZero(F, Odd(F, p, z, m - 1));
      }
    }
  }

  /** The formal derivative of lambda at alpha^x: lambda[i+1] for i even is its coefficient i. */
  method OddAt(F: Field, alphaTo: array<gf>, lambda: array<gf>, deg: nat, x: nat, ghost p: seq<gf>, ghost r: nat)
    returns (den: gf)
    requires IsField(F) && Primitive(F, 2) && Antilogs(F, alphaTo[..]) && LogsOf(F, lambda[..], p, 0)
    requires deg < lambda.Length == r + 1 && r >= 1 && NoTermAbove(p, deg)
    ensures den == Odd(F, p, Power(F, 2, x), r + 1)
  {
    ghost var z := Power(F, 2, x);
    var least := if deg < lambda.Length - 2 then deg else lambda.Length - 2;
    var m := least - least % 2;
    ghost var all := Odd(F, p, z, m + 2);
    var i := m + 2;
    den := 0;
    AddsUp(F, all, 0);
    while i >= 2
      invariant 0 <= i <= m + 2 && i % 2 == 0 && PendingOdd(F, p, z, i, den, all)
    {
      i := i - 2;
      den := AddOddAt(F, alphaTo, lambda, i, x, den, p, all);
    }
    OddEnd(F, p, z, m, deg, r, den);
  }

  /** The odd coefficients above m + 1 are zero, or there are none. */
  lemma OddEnd(F: Field, p: seq<gf>, z: gf, m: nat, deg: nat, r: nat, den: gf)
    requires IsField(F) && NoTermAbove(p, deg) && deg <= r && r >= 1 && m % 2 == 0
      && PendingOdd(F, p, z, 0, den, Odd(F, p, z, m + 2))
    requires var least := if deg < r - 1 then deg else r - 1; least - 1 <= m <= least
    ensures den == Odd(F, p, z, r + 1)
  {
    assert AddZero(F, den);
    assert Odd(F, p, z, 0) == 0;
    OddTail(F, p, z, m + 2, r + 1);
  }

  method AddOddAt(F: Field, alphaTo: array<gf>, lambda: array<gf>, i: nat, x: nat, den: gf, ghost p: seq<gf>,
                  ghost all: gf)
    returns (den': gf)
    requires IsField(F) && Primitive(F, 2) && Antilogs(F, alphaTo[..]) && LogsOf(F, lambda[..], p, 0)
    requires i + 1 < lambda.Length && i % 2 == 0 && PendingOdd(F, p, Power(F, 2, x), i + 2, den, all)
    ensures PendingOdd(F, p, Power(F, 2, x), i, den', all)
  {
    assert lambda[..][i + 1] == Log(F, 2, p[i + 1]);
    OddTerm(F, p, Power(F, 2, x), i, den, all);
    den' := den;
    if lambda[i + 1] != A0 {
      SyndromeTerm(F, p[i + 1], x, i);
      var a := Antilog(alphaTo, lambda[i + 1] as int + x * i, F);
      den' := Add(F, den, a);
    }
  }
}
