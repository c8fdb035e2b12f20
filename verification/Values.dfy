/** Values of polynomials: where the locator vanishes, and Forney's quotient. */
module Values {
  import opened Fields
  import opened Sums
  import opened PowerSums
  import opened Products

  /** The sum of p_i * z^i for i below n. */
  function Eval(F: Field, p: seq<gf>, z: gf, n: nat): gf
  { if n == 0 then 0 else Add(F, Eval(F, p, z, n - 1), Mul(F, At(p, n - 1), Power(F, z, n - 1))) }

  /** The sum of p_i * z^(i-1) for odd i below n: the formal derivative. */
  function Odd(F: Field, p: seq<gf>, z: gf, n: nat): gf {
    if n == 0 then 0
    else if n % 2 == 1 then Odd(F, p, z, n - 1)
    else Add(F, Odd(F, p, z, n - 1), Mul(F, At(p, n - 1), Power(F, z, n - 2)))
  }

  lemma {:induction false} EvalProduct(F: Field, p: seq<gf>, x: gf, q: seq<gf>, z: gf, n: nat)
    requires IsField(F) && Product(F, p, x, q)
    ensures Eval(F, p, z, n + 1) == Add(F, Eval(F, q, z, n + 1), Mul(F, Mul(F, x, z), Eval(F, q, z, n)))
  {
    var xz := Mul(F, x, z);
    assert At(p, n) == Add(F, At(q, n), Mul(F, x, At(q, n - 1)));
    DistributesLeft(F, At(q, n), Mul(F, x, At(q, n - 1)), Power(F, z, n));
    if n == 0 {
      MulZero(F, xz);
      MulZero(F, x);
      AddsUp(F, At(q, 0), 0);
      assert AddZero(F, At(q, 0)) && AddZero(F, Eval(F, q, z, 1));
      assert Eval(F, p, z, 0) == 0 && Eval(F, q, z, 0) == 0;
    } else {
      EvalProduct(F, p, x, q, z, n - 1);
      var c, w := At(q, n - 1), Power(F, z, n - 1);
      ProductTerm(F, x, c, z, w);
      assert Distributes(F, xz, Eval(F, q, z, n - 1), Mul(F, c, w));
      Swap4(F, Eval(F, q, z, n), Mul(F, xz, Eval(F, q, z, n - 1)), Mul(F, At(q, n), Power(F, z, n)),
            Mul(F, xz, Mul(F, c, w)));
    }
  }

  lemma ProductTerm(F: Field, x: gf, c: gf, z: gf, w: gf)
    requires IsField(F)
    ensures Mul(F, Mul(F, x, c), Mul(F, z, w)) == Mul(F, Mul(F, x, z), Mul(F, c, w))
  {
    assert MulAssoc(F, x, c, Mul(F, z, w)) && MulAssoc(F, x, z, Mul(F, c, w));
    MulSwap(F, c, z, w);
  }

  /** If the last coefficient of q is zero: the product rule for values. */
  lemma ValueOfProduct(F: Field, p: seq<gf>, x: gf, q: seq<gf>, z: gf, n: nat)
    requires IsField(F) && Product(F, p, x, q) && At(q, n) == 0
    ensures Eval(F, q, z, n + 1) == Eval(F, q, z, n)
    ensures Eval(F, p, z, n + 1) == Mul(F, Add(F, 1, Mul(F, x, z)), Eval(F, q, z, n + 1))
  {
    EvalProduct(F, p, x, q, z, n);
    MulZero(F, Power(F, z, n));
    assert AddZero(F, Eval(F, q, z, n));
    OnePlus(F, Mul(F, x, z), Eval(F, q, z, n));
  }

  /** p' = (1 + xz) q' + x q, as far as the terms below n + 1. */
  ghost predicate OddRule(F: Field, p: seq<gf>, x: gf, q: seq<gf>, z: gf, n: nat) {
    Odd(F, p, z, n + 1) ==
      Add(F, Add(F, Odd(F, q, z, n + 1), Mul(F, Mul(F, x, z), Odd(F, q, z, n))), Mul(F, x, Eval(F, q, z, n)))
  }

  /** And for derivatives. */
  lemma {:induction false} OddProduct(F: Field, p: seq<gf>, x: gf, q: seq<gf>, z: gf, n: nat)
    requires IsField(F) && Product(F, p, x, q)
    ensures OddRule(F, p, x, q, z, n)
  {
    if n == 0 {
      OddProductNone(F, x, z);
    } else {
      OddProduct(F, p, x, q, z, n - 1);
      OddProductStep(F, p, x, q, z, n);
    }
  }

  lemma OddProductNone(F: Field, x: gf, z: gf)
    requires IsField(F)
    ensures Add(F, Add(F, 0, Mul(F, Mul(F, x, z), 0)), Mul(F, x, 0)) == 0
  {
    MulZero(F, x);
    MulZero(F, Mul(F, x, z));
    AddsUp(F, 0, 0);
  }

  /** x * q_(n-1) * z^(n-1) is added twice if n - 1 is odd, and once otherwise. */
  lemma OddProductStep(F: Field, p: seq<gf>, x: gf, q: seq<gf>, z: gf, n: nat)
    requires IsField(F) && Product(F, p, x, q) && n > 0
    requires OddRule(F, p, x, q, z, n - 1)
    ensures OddRule(F, p, x, q, z, n)
  {
    var c, w := At(q, n - 1), Power(F, z, n - 1);
    var xz, o, v := Mul(F, x, z), Odd(F, q, z, n - 1), Eval(F, q, z, n - 1);
    assert Distributes(F, x, v, Mul(F, c, w));
    assert MulAssoc(F, x, c, w);
    if n % 2 == 1 {
      assert At(p, n) == Add(F, At(q, n), Mul(F, x, c));
      DistributesLeft(F, At(q, n), Mul(F, x, c), w);
      FourTerms(F, Odd(F, q, z, n), Mul(F, xz, o), Mul(F, x, v), Mul(F, At(q, n), w), Mul(F, x, Mul(F, c, w)));
    } else {
      var u := Power(F, z, n - 2);
      assert Distributes(F, xz, o, Mul(F, c, u));
      ProductTerm(F, x, z, c, u);
      ProductTerm(F, x, c, z, u);
      SameTwice(F, Odd(F, q, z, n), Mul(F, xz, o), Mul(F, x, v), Mul(F, x, Mul(F, c, w)));
    }
  }

  /** ((a + b) + c) + (d + g) = ((a + d) + b) + (c + g) */
  lemma FourTerms(F: Field, a: gf, b: gf, c: gf, d: gf, g: gf)
    requires IsField(F)
    ensures Add(F, Add(F, Add(F, a, b), c), Add(F, d, g)) == Add(F, Add(F, Add(F, a, d), b), Add(F, c, g))
  {
    Swap4(F, Add(F, a, b), c, d, g);
    assert AddAssoc(F, a, b, d) && AddComm(F, b, d) && AddAssoc(F, a, d, b);
  }

  /** (a + b) + c = (a + (b + g)) + (c + g) */
  lemma SameTwice(F: Field, a: gf, b: gf, c: gf, g: gf)
    requires IsField(F)
    ensures Add(F, Add(F, a, b), c) == Add(F, Add(F, a, Add(F, b, g)), Add(F, c, g))
  {
    assert AddAssoc(F, a, b, g);
    Swap4(F, Add(F, a, b), g, c, g);
    assert AddSelf(F, g) && AddZero(F, Add(F, Add(F, a, b), c));
  }

  /** The product rule for derivatives. */
  lemma OddOfProduct(F: Field, p: seq<gf>, x: gf, q: seq<gf>, z: gf, n: nat)
    requires IsField(F) && Product(F, p, x, q) && At(q, n) == 0
    ensures Odd(F, p, z, n + 1) ==
      Add(F, Mul(F, Add(F, 1, Mul(F, x, z)), Odd(F, q, z, n + 1)), Mul(F, x, Eval(F, q, z, n + 1)))
  {
    OddProduct(F, p, x, q, z, n);
    OddShort(F, q, z, n);
    OnePlus(F, Mul(F, x, z), Odd(F, q, z, n));
  }

  lemma OnePlus(F: Field, c: gf, o: gf)
    requires IsField(F)
    ensures Add(F, o, Mul(F, c, o)) == Mul(F, Add(F, 1, c), o)
  {
    DistributesLeft(F, 1, c, o);
    OneMul(F, o);
  }

  lemma OddShort(F: Field, q: seq<gf>, z: gf, m: nat)
    requires IsField(F) && At(q, m) == 0
    ensures Odd(F, q, z, m + 1) == Odd(F, q, z, m) && Eval(F, q, z, m + 1) == Eval(F, q, z, m)
  {
    MulZero(F, Power(F, z, m));
    assert AddZero(F, Eval(F, q, z, m));
    if m % 2 == 1 {
      MulZero(F, Power(F, z, m - 1));
      assert AddZero(F, Odd(F, q, z, m));
    }
  }
}
