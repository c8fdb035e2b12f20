/** The log and antilog tables of the field, and reduction modulo NN. */
module Tables {
  import opened Bits
  import opened Fields
  import opened PowerSums
  import opened Logs
  import opened Gf

  const A0 := NN      // the logarithm of 0

  /** Compute x % NN without a slow divide. */
  method Modnn(x: int) returns (r: int)
    requires 0 <= x
    ensures r == x % NN
  {
    r := x;
    while r >= NN
      invariant 0 <= r && r % NN == x % NN
      decreases r
    {
      r := r - NN;
      FoldIs(r);
      r := r / 1024 + r % 1024;     // (x >> MM) + (x & NN)
    }
  }

  lemma FoldIs(r: int)
    requires 0 <= r
    ensures 0 <= r / 1024 + r % 1024 <= r && (r / 1024 + r % 1024) % NN == r % NN == (r + NN) % NN
  {
    assert r == (r / 1024 + r % 1024) + NN * (r / 1024);
    Multiples(r / 1024 + r % 1024, r / 1024);
    Multiples(r, 1);
  }

  lemma {:induction false} Multiples(a: int, n: nat)
    requires 0 <= a
    ensures (a + NN * n) % NN == a % NN
    decreases n
  {
    if n > 0 {
      Multiples(a, n - 1);
      var b := a + NN * (n - 1);
      assert a + NN * n == b + NN && (b + NN) % NN == b % NN;
    }
  }

  // ----- the tables -----

  /** The tables are right: antilogs, and logs. */
  ghost predicate Antilogs(F: Field, alphaTo: seq<gf>) {
    |alphaTo| == NN + 1 && alphaTo[NN] == 0 && forall i: nat {:trigger Power(F, 2, i)} :: i < NN ==>
      alphaTo[i] == Power(F, 2, i)
  }

  ghost predicate LogTable(F: Field, indexOf: seq<gf>)
    requires IsRing(F) && Primitive(F, 2)
  {
    |indexOf| == NN + 1 && forall a: gf {:trigger indexOf[a]} :: indexOf[a] == Log(F, 2, a)
  }

  /** Multiplication by 2 in F is multiplication by z modulo z^10 + p(z). */
  ghost predicate Over(F: Field, p: gf) {
    IsRing(F) && forall a: gf {:trigger Mul(F, 2, a)} :: Mul(F, 2, a) == Xtime(p, a)
  }

  /** The bits of the modulus below n. */
  function LowBits(pp: seq<int>, n: nat): gf
    requires n <= MM && n <= |pp|
  {
    if n == 0 then 0 else
      Pow2Symbol(n - 1);
      if pp[n - 1] != 0 then Sum(LowBits(pp, n - 1), Pow2(n - 1)) else LowBits(pp, n - 1)
  }

  lemma Pow2Symbol(i: nat)
    requires i < MM
    ensures Pow2(i) <= 512 && (i < 9 ==> Pow2(i) < 512) && (i == 9 ==> Pow2(i) == 512)
  {
    Pow2Monotone(i, 9);
    Shift9(1, 9);
    if i < 9 { Pow2Monotone(i + 1, 9); }
  }

  lemma {:induction false} SmallPower(F: Field, p: gf, i: nat)
    requires Over(F, p) && i < MM
    ensures Pow2(i) < 1024 && Power(F, 2, i) == Pow2(i)
  {
    Pow2Symbol(i);
    if i > 0 {
      SmallPower(F, p, i - 1);
      XtimeShift(p, i - 1);
      ShiftDouble(0, i - 1);
      ShiftDouble(0, i);
    }
  }

  lemma TenthPower(F: Field, p: gf)
    requires Over(F, p)
    ensures Power(F, 2, MM) == p
  {
    SmallPower(F, p, 9);
    Pow2Symbol(9);
    XorZero(p);
  }

  /** What the loop computes for the next power. */
  lemma NextPower(p: gf, a: gf)
    ensures Xor(a, 512) == if a >= 512 then a - 512 else a + 512
    ensures Xtime(p, a) == if a >= 512 then Sum(p, 2 * (a - 512)) else 2 * a
  {
    XorHigh(a, 512);
    XorZero(Low(a));
    assert Low(512) == 0 && High(512) == 1;
    XorZero(2 * Low(a));
    XorComm(p, 2 * Low(a));
  }

  /** The powers below n, and their logs, are in the tables. */
  ghost predicate Filled(F: Field, alphaTo: seq<gf>, indexOf: seq<gf>, n: nat) {
    && |alphaTo| == |indexOf| == NN + 1
    && (forall i: nat {:trigger Power(F, 2, i)} :: i < n && i < NN ==>
        alphaTo[i] == Power(F, 2, i) && indexOf[Power(F, 2, i)] == i)
  }

  /** One more power. */
  lemma Fill(F: Field, alphaTo: seq<gf>, indexOf: seq<gf>, alphaTo': seq<gf>, indexOf': seq<gf>, n: nat, a: gf)
    requires IsRing(F) && Primitive(F, 2) && Filled(F, alphaTo, indexOf, n) && n < NN && a == Power(F, 2, n)
    requires |alphaTo'| == |indexOf'| == NN + 1 && alphaTo'[n] == a && indexOf' == indexOf[a := n]
    requires forall i {:trigger alphaTo'[i]} :: 0 <= i < n ==> alphaTo'[i] == alphaTo[i]
    ensures Filled(F, alphaTo', indexOf', n + 1)
  {
    forall i: nat {:trigger Power(F, 2, i)} | i < n + 1 && i < NN
      ensures alphaTo'[i] == Power(F, 2, i) && indexOf'[Power(F, 2, i)] == i
    {
      if i < n && Power(F, 2, i) == a { Cancel(F, 2, i, n); }
    }
  }

  lemma AllFilled(F: Field, alphaTo: seq<gf>, indexOf: seq<gf>)
    requires IsRing(F) && Primitive(F, 2) && Filled(F, alphaTo, indexOf, NN) && alphaTo[NN] == 0 && indexOf[0] == A0
    ensures Antilogs(F, alphaTo) && LogTable(F, indexOf)
  {
    forall a: gf {:trigger indexOf[a]} ensures indexOf[a] == Log(F, 2, a) {
      var k := Log(F, 2, a);
      assert a != 0 ==> Power(F, 2, k) == a;
    }
  }

  /** generate_gf */
  method GenerateGf(pp: seq<int>, alphaTo: array<gf>, indexOf: array<gf>, ghost F: Field)
    requires |pp| == MM + 1 && alphaTo.Length == indexOf.Length == NN + 1 && alphaTo != indexOf
    requires Over(F, LowBits(pp, MM)) && Primitive(F, 2)
    modifies alphaTo, indexOf
    ensures Antilogs(F, alphaTo[..]) && LogTable(F, indexOf[..])
  {
    var mask := FirstPowers(pp, alphaTo, indexOf, F);
    ghost var p := LowBits(pp, MM);
    ghost var was := (alphaTo[..], indexOf[..]);
    TenthPower(F, p);
    indexOf[alphaTo[MM]] := MM;
    Fill(F, was.0, was.1, alphaTo[..], indexOf[..], MM, p);
    mask := mask / 2;
    OtherPowers(mask, alphaTo, indexOf, F, p);
    was := (alphaTo[..], indexOf[..]);
    indexOf[0] := A0;
    alphaTo[NN] := 0;
    Finish(F, was.0, was.1, alphaTo[..], indexOf[..]);
  }

  lemma Finish(F: Field, alphaTo: seq<gf>, indexOf: seq<gf>, alphaTo': seq<gf>, indexOf': seq<gf>)
    requires IsRing(F) && Primitive(F, 2) && Filled(F, alphaTo, indexOf, NN)
    requires alphaTo' == alphaTo[NN := 0] && indexOf' == indexOf[0 := A0]
    ensures Antilogs(F, alphaTo') && LogTable(F, indexOf')
  {
    forall i: nat {:trigger Power(F, 2, i)} | i < NN
      ensures alphaTo'[i] == Power(F, 2, i) && indexOf'[Power(F, 2, i)] == i
    {
      PowersNonzero(F, 2, i);
    }
    AllFilled(F, alphaTo', indexOf');
  }

  /** The powers below MM, and power MM, which is p. */
  method FirstPowers(pp: seq<int>, alphaTo: array<gf>, indexOf: array<gf>, ghost F: Field) returns (mask: int)
    requires |pp| == MM + 1 && alphaTo.Length == indexOf.Length == NN + 1 && alphaTo != indexOf
    requires Over(F, LowBits(pp, MM)) && Primitive(F, 2)
    modifies alphaTo, indexOf
    ensures Filled(F, alphaTo[..], indexOf[..], MM) && alphaTo[MM] == LowBits(pp, MM) && mask == 1024
  {
    mask := 1;
    alphaTo[MM] := 0;
    for i := 0 to MM
      invariant mask == Pow2(i) && alphaTo[MM] == LowBits(pp, i)
      invariant Filled(F, alphaTo[..], indexOf[..], i)
    {
      FirstPower(pp, alphaTo, indexOf, F, i, mask);
      mask := 2 * mask;
    }
    assert Pow2(10) == 1024;
  }

  method FirstPower(pp: seq<int>, alphaTo: array<gf>, indexOf: array<gf>, ghost F: Field, i: nat, mask: int)
    requires |pp| == MM + 1 && i < MM && alphaTo.Length == indexOf.Length == NN + 1 && alphaTo != indexOf
    requires Over(F, LowBits(pp, MM)) && Primitive(F, 2) && mask == Pow2(i) && alphaTo[MM] == LowBits(pp, i)
    requires Filled(F, alphaTo[..], indexOf[..], i)
    modifies alphaTo, indexOf
    ensures Filled(F, alphaTo[..], indexOf[..], i + 1) && alphaTo[MM] == LowBits(pp, i + 1)
  {
    SmallPower(F, LowBits(pp, MM), i);
    Pow2Symbol(i);
    ghost var was := (alphaTo[..], indexOf[..]);
    alphaTo[i] := mask;
    indexOf[alphaTo[i]] := i;
    if pp[i] != 0 {
      alphaTo[MM] := Sum(alphaTo[MM], mask);
    }
    Fill(F, was.0, was.1, alphaTo[..], indexOf[..], i, Pow2(i));
  }

  /** The powers above MM: each is twice the one before, reduced. */
  method OtherPowers(mask: int, alphaTo: array<gf>, indexOf: array<gf>, ghost F: Field, ghost p: gf)
    requires alphaTo.Length == indexOf.Length == NN + 1 && alphaTo != indexOf && mask == 512
    requires Over(F, p) && Primitive(F, 2) && Filled(F, alphaTo[..], indexOf[..], MM + 1) && alphaTo[MM] == p
    modifies alphaTo, indexOf
    ensures Filled(F, alphaTo[..], indexOf[..], NN)
  {
    for i := MM + 1 to NN
      invariant Filled(F, alphaTo[..], indexOf[..], i) && alphaTo[MM] == p
    {
      ghost var was := (alphaTo[..], indexOf[..]);
      var last := alphaTo[i - 1];
      assert last == Power(F, 2, i - 1);
      NextPower(p, last);
      alphaTo[i] := if last >= mask then Sum(alphaTo[MM], 2 * Xor(last, mask)) else 2 * last;
      ghost var a := alphaTo[i];
      indexOf[alphaTo[i]] := i;
      Fill(F, was.0, was.1, alphaTo[..], indexOf[..], i, a);
    }
  }

  // ----- what the tables are good for -----

  /** The tables are inverse to each other. */
  lemma TablesInverse(F: Field, alphaTo: seq<gf>, indexOf: seq<gf>, a: gf, i: nat)
    requires IsRing(F) && Primitive(F, 2) && Antilogs(F, alphaTo) && LogTable(F, indexOf)
    ensures alphaTo[indexOf[a]] == a
    ensures i < NN ==> indexOf[alphaTo[i]] == i
  {
    assert indexOf[a] == Log(F, 2, a);
    if i < NN {
      assert alphaTo[i] == Power(F, 2, i);
      LogIs(F, 2, i);
    }
  }

  /** Adding logarithms multiplies. */
  lemma TableMul(F: Field, alphaTo: seq<gf>, indexOf: seq<gf>, a: gf, b: gf)
    requires IsRing(F) && Primitive(F, 2) && Antilogs(F, alphaTo) && LogTable(F, indexOf) && a != 0 && b != 0
    ensures alphaTo[(indexOf[a] as int + indexOf[b]) % NN] == Mul(F, a, b)
  {
    assert indexOf[a] == Log(F, 2, a) && indexOf[b] == Log(F, 2, b);
    LogMul(F, 2, a, b);
  }

  /** In the field of symbols that is the product of the polynomials. */
  lemma TableProduct(p: gf, alphaTo: seq<gf>, indexOf: seq<gf>, a: gf, b: gf)
    requires IsRing(Symbols(p)) && Primitive(Symbols(p), 2) && Antilogs(Symbols(p), alphaTo)
      && LogTable(Symbols(p), indexOf) && a != 0 && b != 0
    ensures alphaTo[(indexOf[a] as int + indexOf[b]) % NN] == Product(p, a, b)
  {
    TableMul(Symbols(p), alphaTo, indexOf, a, b);
  }
}
