/** The ring of polynomials over GF(2) of degree below 10, as the bits of a symbol, modulo
    z^10 + p(z), where the low bits `p` of the modulus are the parameter of everything here. */
module Gf {
  import opened Bits
  import opened Fields

  // ----- exclusive or -----

  function Bit(b: bool): nat { if b then 1 else 0 }

  /** Bitwise exclusive or. */
  function Xor(a: nat, b: nat): nat
    decreases a + b
  { if a == 0 && b == 0 then 0 else Bit(a % 2 != b % 2) + 2 * Xor(a / 2, b / 2) }

  lemma XorHalves(a: nat, b: nat)
    ensures Xor(a, b) % 2 == Bit(a % 2 != b % 2) && Xor(a, b) / 2 == Xor(a / 2, b / 2)
  {}

  lemma {:induction false} XorComm(a: nat, b: nat)
    ensures Xor(a, b) == Xor(b, a)
    decreases a + b
  {
    if a + b > 0 { XorComm(a / 2, b / 2); }
  }

  lemma {:induction false} XorAssoc(a: nat, b: nat, c: nat)
    ensures Xor(Xor(a, b), c) == Xor(a, Xor(b, c))
    decreases a + b + c
  {
    if a + b + c > 0 {
      XorAssoc(a / 2, b / 2, c / 2);
      XorHalves(a, b);
      XorHalves(b, c);
      XorSplit(Xor(a, b), c);
      XorSplit(a, Xor(b, c));
    }
  }

  lemma XorSplit(a: nat, b: nat)
    ensures Xor(a, b) == Bit(a % 2 != b % 2) + 2 * Xor(a / 2, b / 2)
  {}

  lemma {:induction false} XorZero(a: nat)
    ensures Xor(a, 0) == a && Xor(0, a) == a && Xor(a, a) == 0
  {
    if a > 0 { XorZero(a / 2); }
  }

  lemma {:induction false} XorBound(a: nat, b: nat, n: nat)
    requires a < Pow2(n) && b < Pow2(n)
    ensures Xor(a, b) < Pow2(n)
    decreases n
  {
    if n > 0 { XorBound(a / 2, b / 2, n - 1); }
  }

  lemma XorSwap4(a: nat, b: nat, c: nat, d: nat)
    ensures Xor(Xor(a, b), Xor(c, d)) == Xor(Xor(a, c), Xor(b, d))
  {
    XorAssoc(a, b, Xor(c, d));
    XorAssoc(b, c, d);
    XorComm(b, c);
    XorAssoc(c, b, d);
    XorAssoc(a, c, Xor(b, d));
  }

  // ----- the top bit of a symbol -----

  lemma {:induction false} ShiftDouble(h: nat, n: nat)
    ensures Up(2 * h, n) == 2 * Up(h, n) && Up(0, n) == 0 && Up(1, n) == Pow2(n)
  {
    if n > 0 { ShiftDouble(h, n - 1); }
  }

  lemma SameLowBits(x: nat, y: nat, a: nat, b: nat)
    requires x % 2 == a % 2 && y % 2 == b % 2
    ensures Xor(x, y) - 2 * Xor(x / 2, y / 2) == Xor(a, b) - 2 * Xor(a / 2, b / 2)
  {
    XorSplit(x, y);
    XorSplit(a, b);
  }

  /** The upper bits and the lower `n` bits are treated apart. */
  lemma {:induction false} XorParts(h: nat, a: nat, g: nat, b: nat, n: nat)
    requires a < Pow2(n) && b < Pow2(n)
    ensures Xor(Up(h, n) + a, Up(g, n) + b) == Up(Xor(h, g), n) + Xor(a, b)
    decreases n
  {
    if n > 0 {
      XorParts(h, a / 2, g, b / 2, n - 1);
      UpHalf(h, a, n);
      UpHalf(g, b, n);
      SameLowBits(Up(h, n) + a, Up(g, n) + b, a, b);
      assert Up(Xor(h, g), n) == 2 * Up(Xor(h, g), n - 1);
    } else {
      XorZero(0);
    }
  }

  lemma Shift9(h: nat, n: nat)
    requires n == 9
    ensures Up(h, n) == 512 * h && Pow2(n) == 512
  {
    assert Up(h, n - 8) == 2 * h && Up(h, n - 6) == 4 * Up(h, n - 8) && Up(h, n - 4) == 4 * Up(h, n - 6);
    assert Up(h, n - 2) == 4 * Up(h, n - 4) && Up(h, n) == 4 * Up(h, n - 2);
    Pow2Of9(n);
  }

  lemma Pow2Of9(n: nat)
    requires n == 9
    ensures Pow2(n) == 512
  {
    assert Pow2(n - 8) == 2 && Pow2(n - 6) == 4 * Pow2(n - 8) && Pow2(n - 4) == 4 * Pow2(n - 6);
    assert Pow2(n - 2) == 4 * Pow2(n - 4) && Pow2(n) == 4 * Pow2(n - 2);
  }

  function High(a: gf): nat { a / 512 }
  function Low(a: gf): nat { a % 512 }

  lemma XorHigh(a: gf, b: gf)
    ensures Xor(a, b) < 1024
    ensures Xor(a, b) / 512 == Bit(High(a) != High(b)) && Xor(a, b) % 512 == Xor(Low(a), Low(b))
  {
    assert a == 512 * High(a) + Low(a) && b == 512 * High(b) + Low(b);
    XorHalf(High(a), Low(a), High(b), Low(b), Bit(High(a) != High(b)), 9);
    Parts(Xor(a, b), Bit(High(a) != High(b)), Xor(Low(a), Low(b)));
  }

  lemma XorHalf(h: nat, u: nat, g: nat, v: nat, both: nat, n: nat)
    requires u < 512 && v < 512 && h <= 1 && g <= 1 && both == Bit(h != g) && n == 9
    ensures Xor(512 * h + u, 512 * g + v) == 512 * both + Xor(u, v) && Xor(u, v) < 512
  {
    Shift9(h, n);
    Shift9(g, n);
    Shift9(both, n);
    OneBit(h, g);
    XorBothParts(h, u, g, v, n, 512 * h, 512 * g, 512 * both);
  }

  lemma XorBothParts(h: nat, u: nat, g: nat, v: nat, n: nat, high: nat, high': nat, both: nat)
    requires u < Pow2(n) && v < Pow2(n) && high == Up(h, n) && high' == Up(g, n) && both == Up(Xor(h, g), n)
    ensures Xor(high + u, high' + v) == both + Xor(u, v) && Xor(u, v) < Pow2(n)
  {
    XorParts(h, u, g, v, n);
    XorBound(u, v, n);
  }

  lemma Parts(x: nat, h: nat, l: nat)
    requires x == 512 * h + l && l < 512
    ensures x / 512 == h && x % 512 == l
  {}

  lemma OneBit(h: nat, g: nat)
    requires h <= 1 && g <= 1
    ensures Xor(h, g) == Bit(h != g)
  {
    XorZero(0);
    XorSplit(h, g);
  }

  // ----- products -----

  /** Exclusive or of symbols. */
  function Sum(a: gf, b: gf): (c: gf)
    ensures c == Xor(a, b)
  {
    XorHigh(a, b);
    Xor(a, b)
  }

  function If(c: bool, a: gf): gf { if c then a else 0 }

  /** Multiplication by z, which is alpha. */
  function Xtime(p: gf, a: gf): gf { Sum(2 * Low(a), If(High(a) == 1, p)) }

  /** The product of the polynomials `b`, of `n` bits, and `a`, by shifting and adding. */
  function Act(p: gf, b: gf, a: gf, n: nat): gf
    decreases n
  { if n == 0 then 0 else Sum(If(b % 2 == 1, a), Act(p, b / 2, Xtime(p, a), n - 1)) }

  function Product(p: gf, a: gf, b: gf): gf { Act(p, b, a, MM) }

  lemma {:induction false} XorDouble(a: nat, b: nat)
    ensures Xor(2 * a, 2 * b) == 2 * Xor(a, b)
  {
    XorSplit(2 * a, 2 * b);
  }

  lemma SumSwap4(a: gf, b: gf, c: gf, d: gf)
    ensures Sum(Sum(a, b), Sum(c, d)) == Sum(Sum(a, c), Sum(b, d))
  {
    XorSwap4(a, b, c, d);
  }

  lemma SumIf(c: bool, d: bool, a: gf)
    ensures If(c != d, a) == Sum(If(c, a), If(d, a))
  {
    XorZero(a);
    XorZero(0);
  }

  lemma XtimeAdd(p: gf, a: gf, b: gf)
    ensures Xtime(p, Sum(a, b)) == Sum(Xtime(p, a), Xtime(p, b))
  {
    XorHigh(a, b);
    XorDouble(Low(a), Low(b));
    assert 2 * Low(Sum(a, b)) == Sum(2 * Low(a), 2 * Low(b));
    SumIf(High(a) == 1, High(b) == 1, p);
    SumSwap4(2 * Low(a), 2 * Low(b), If(High(a) == 1, p), If(High(b) == 1, p));
  }

  lemma {:induction false} ActAdd(p: gf, b: gf, x: gf, y: gf, n: nat)
    ensures Act(p, b, Sum(x, y), n) == Sum(Act(p, b, x, n), Act(p, b, y, n))
    decreases n
  {
    if n == 0 {
      XorZero(0);
    } else {
      XtimeAdd(p, x, y);
      ActAdd(p, b / 2, Xtime(p, x), Xtime(p, y), n - 1);
      var odd := b % 2 == 1;
      XorZero(0);
      SumSwap4(If(odd, x), If(odd, y), Act(p, b / 2, Xtime(p, x), n - 1), Act(p, b / 2, Xtime(p, y), n - 1));
    }
  }

  lemma {:induction false} ActZero(p: gf, b: gf, n: nat)
    ensures Act(p, b, 0, n) == 0 && Xtime(p, 0) == 0
    decreases n
  {
    XorZero(0);
    if n > 0 { ActZero(p, b / 2, n - 1); }
  }

  lemma {:induction false} ActXtime(p: gf, b: gf, a: gf, n: nat)
    ensures Act(p, b, Xtime(p, a), n) == Xtime(p, Act(p, b, a, n))
    decreases n
  {
    ActZero(p, 0, 0);
    if n > 0 {
      ActXtime(p, b / 2, Xtime(p, a), n - 1);
      XtimeAdd(p, If(b % 2 == 1, a), Act(p, b / 2, Xtime(p, a), n - 1));
    }
  }

  /** Multiplications commute. */
  lemma {:induction false} ActAct(p: gf, b: gf, c: gf, a: gf, n: nat, m: nat)
    ensures Act(p, b, Act(p, c, a, m), n) == Act(p, c, Act(p, b, a, n), m)
    decreases n
  {
    ActZero(p, c, m);
    if n > 0 {
      ActXtime(p, c, a, m);
      ActAct(p, b / 2, c, Xtime(p, a), n - 1, m);
      ActAdd(p, c, If(b % 2 == 1, a), Act(p, b / 2, Xtime(p, a), n - 1), m);
    }
  }

  /** The lowest bit and the others. */
  lemma BitsUpApart(b: nat, k: nat)
    ensures Xor(Up(b % 2, k), Up(b / 2, k + 1)) == Up(b, k) && Up(b % 2, k) == if b % 2 == 1 then Up(1, k) else 0
  {
    var low, half := b % 2, b / 2;
    XorParts(low, 0, 2 * half, 0, k);
    ShiftDouble(half, k);
    ShiftDouble(0, k);
    XorZero(0);
    LowBit(b);
  }

  /** A symbol is the sum of its bits. */
  lemma {:induction false} ActShift(p: gf, b: gf, k: nat, n: nat)
    requires k + n == MM && n > 0 && b < Pow2(n)
    ensures Up(1, k) < 1024 && Act(p, b, Up(1, k), n) == Up(b, k)
    decreases n
  {
    BitsUpApart(b, k);
    if n > 1 {
      XtimeShift(p, k);
      ActShift(p, b / 2, k + 1, n - 1);
    } else {
      ShiftDouble(0, k);
      ShiftDouble(0, k + 1);
      ShortUp(k, 10);
    }
  }

  lemma ShortUp(k: nat, n: nat)
    requires k < n
    ensures Up(1, k) == Pow2(k) < Pow2(n) && (n == 9 ==> Pow2(n) == 512) && (n == 10 ==> Pow2(n) == 1024)
  {
    ShiftDouble(0, k);
    Pow2Monotone(k + 1, n);
    Shift9(1, 9);
  }

  lemma LowBit(b: nat)
    ensures Xor(b % 2, 2 * (b / 2)) == b
  {
    XorSplit(b % 2, 2 * (b / 2));
    XorZero(b / 2);
  }

  lemma XtimeSmall(p: gf, a: gf)
    requires a < 512
    ensures Xtime(p, a) == 2 * a
  {
    XorZero(2 * a);
  }

  lemma XtimeShift(p: gf, k: nat)
    requires k < 9
    ensures Up(1, k) < 512 && Xtime(p, Up(1, k)) == Up(1, k + 1)
  {
    ShortUp(k, 9);
    XtimeSmall(p, Up(1, k));
  }

  lemma ActOne(p: gf, b: gf)
    ensures Act(p, b, 1, MM) == b
  {
    assert Pow2(10) == 1024;
    ActShift(p, b, 0, MM);
  }

  // ----- the laws -----

  lemma ProductComm(p: gf, a: gf, b: gf)
    ensures Product(p, a, b) == Product(p, b, a)
  {
    ActOne(p, a);
    ActOne(p, b);
    ActAct(p, b, a, 1, MM, MM);
  }

  lemma ProductAssoc(p: gf, a: gf, b: gf, c: gf)
    ensures Product(p, Product(p, a, b), c) == Product(p, a, Product(p, b, c))
  {
    ProductComm(p, a, b);
    ProductComm(p, a, Product(p, b, c));
    ActAct(p, c, a, b, MM, MM);
  }

  lemma ProductAdd(p: gf, a: gf, b: gf, c: gf)
    ensures Product(p, a, Sum(b, c)) == Sum(Product(p, a, b), Product(p, a, c))
  {
    ProductComm(p, a, b);
    ProductComm(p, a, c);
    ProductComm(p, a, Sum(b, c));
    ActAdd(p, a, b, c, MM);
  }

  lemma ProductOne(p: gf, a: gf)
    ensures Product(p, a, 1) == a
  {
    ActOne(p, a);
    ProductComm(p, a, 1);
  }

  /** Multiplication by 2 is by z. */
  lemma ProductTwo(p: gf, a: gf)
    ensures Product(p, 2, a) == Xtime(p, a)
  {
    ProductComm(p, a, 2);
    assert Act(p, 2, a, 10) == Sum(0, Act(p, 1, Xtime(p, a), 9));
    assert Act(p, 1, Xtime(p, a), 9) == Sum(Xtime(p, a), Act(p, 0, Xtime(p, Xtime(p, a)), 8));
    ActNothing(p, Xtime(p, Xtime(p, a)), 8);
    XorZero(Xtime(p, a));
  }

  lemma {:induction false} ActNothing(p: gf, a: gf, n: nat)
    ensures Act(p, 0, a, n) == 0
    decreases n
  {
    XorZero(0);
    if n > 0 { ActNothing(p, Xtime(p, a), n - 1); }
  }

  /** The symbols as a ring. */
  function Symbols(p: gf): Field { Field((a: gf, b: gf) => Sum(a, b), (a: gf, b: gf) => Product(p, a, b)) }

  lemma SymbolsAre(p: gf)
    ensures IsRing(Symbols(p))
    ensures forall a: gf, b: gf {:trigger Add(Symbols(p), a, b)} :: Add(Symbols(p), a, b) == Xor(a, b)
    ensures forall a: gf {:trigger Mul(Symbols(p), 2, a)} :: Mul(Symbols(p), 2, a) == Xtime(p, a)
  {
    var F := Symbols(p);
    forall a: gf, b: gf, c: gf {:trigger AddAssoc(F, a, b, c)} ensures AddAssoc(F, a, b, c) { XorAssoc(a, b, c); }
    forall a: gf, b: gf {:trigger AddComm(F, a, b)} ensures AddComm(F, a, b) { XorComm(a, b); }
    forall a: gf ensures AddZero(F, a) && AddSelf(F, a) { XorZero(a); }
    forall a: gf, b: gf {:trigger MulComm(F, a, b)} ensures MulComm(F, a, b) { ProductComm(p, a, b); }
    forall a: gf, b: gf, c: gf {:trigger MulAssoc(F, a, b, c)}
      ensures MulAssoc(F, a, b, c)
    {
      ProductAssoc(p, a, b, c);
    }
    forall a: gf {:trigger MulOne(F, a)} ensures MulOne(F, a) { ProductOne(p, a); }
    forall a: gf, b: gf, c: gf {:trigger Distributes(F, a, b, c)}
      ensures Distributes(F, a, b, c)
    {
      ProductAdd(p, a, b, c);
    }
    forall a: gf ensures Mul(F, 2, a) == Xtime(p, a) { ProductTwo(p, a); }
  }
}
