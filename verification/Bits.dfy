/** The bits of a number; powers of two. */
module Bits {
  function Pow2(n: nat): (r: nat)
    ensures r > 0
  { if n == 0 then 1 else 2 * Pow2(n - 1) }

  /** x >> n */
  function Down(x: nat, n: nat): nat { if n == 0 then x else Down(x / 2, n - 1) }

  /** x << n */
  function Up(x: nat, n: nat): nat { if n == 0 then x else 2 * Up(x, n - 1) }

  lemma {:induction false} Pow2Monotone(k: nat, j: nat)
    requires k <= j
    ensures Pow2(k) <= Pow2(j)
  {
    if k < j { Pow2Monotone(k, j - 1); }
  }

  /** Bit i of x, from the least significant. */
  predicate BitOf(x: nat, i: nat) { if i == 0 then x % 2 == 1 else BitOf(x / 2, i - 1) }

  lemma {:induction false} BitsDown(x: nat, n: nat, i: nat)
    ensures x / Pow2(n) >= 0 && (BitOf(x / Pow2(n), i) <==> BitOf(x, i + n))
    decreases n
  {
    if n > 0 {
      BitsDown(x / 2, n - 1, i);
      HalveFirst(x, Pow2(n - 1));
    }
  }

  lemma HalveFirst(x: nat, d: nat)
    requires d > 0
    ensures x / 2 / d == x / (2 * d)
  {
    var q := x / 2 / d;
    var r := x / 2 % d;
    assert x / 2 == d * q + r;
    assert x == (2 * d) * q + (2 * r + x % 2);
    RemainderIs(x, 2 * d, q, 2 * r + x % 2);
  }

  lemma {:induction false} RemainderIs(x: int, d: int, q: int, r: int)
    requires d > 0 && 0 <= r < d && x == d * q + r
    ensures x % d == r && x / d == q
  {
    var p, s := x / d, x % d;
    assert x == d * p + s;
    SameQuotient(d, q, r, p, s);
  }

  lemma SameQuotient(d: int, q: int, r: int, p: int, s: int)
    requires 0 <= r < d && 0 <= s < d && d * q + r == d * p + s
    ensures p == q && r == s
  {
    if p != q { Multiple(d, if p < q then q - p else p - q); }
  }

  lemma Multiple(d: int, n: int)
    requires d > 0 && n >= 1
    ensures d * n >= d
  {}

  lemma {:induction false} BitsUp(x: nat, n: nat, i: nat)
    ensures x * Pow2(n) >= 0 && (BitOf(x * Pow2(n), i) <==> i >= n && BitOf(x, i - n))
    decreases n
  {
    if n > 0 {
      assert x * Pow2(n) == 2 * (x * Pow2(n - 1));
      if i > 0 { BitsUp(x, n - 1, i - 1); }
    }
  }

  lemma HalfRemainder(x: nat, d: nat)
    requires d > 0
    ensures x % (2 * d) == 2 * (x / 2 % d) + x % 2
  {
    var q := x / 2 / d;
    assert x / 2 == d * q + x / 2 % d;
    assert x == 2 * d * q + (2 * (x / 2 % d) + x % 2);
    RemainderIs(x, 2 * d, q, 2 * (x / 2 % d) + x % 2);
  }

  lemma {:induction false} NoHighBits(x: nat, n: nat, i: nat)
    requires x < Pow2(n) && n <= i
    ensures !BitOf(x, i)
    decreases i
  {
    if i > 0 { NoHighBits(x / 2, if n > 0 then n - 1 else 0, i - 1); }
  }

  /** x & ((1 << n) - 1), for a two's complement number of any length. */
  function Lowest(x: int, n: nat): nat
    decreases n
  { if n == 0 then 0 else x % 2 + 2 * Lowest(x / 2, n - 1) }

  lemma {:induction false} BitOfLow(x: nat, n: nat, i: nat)
    ensures BitOf(Lowest(x, n), i) <==> i < n && BitOf(x, i)
    decreases n
  {
    if n == 0 {
      NoHighBits(0, 0, i);
    } else {
      LowestHalf(x, n);
      if i > 0 { BitOfLow(x / 2, n - 1, i - 1); }
    }
  }

  lemma LowestHalf(x: int, n: nat)
    requires n > 0
    ensures Lowest(x, n) / 2 == Lowest(x / 2, n - 1) && Lowest(x, n) % 2 == x % 2
  {}

  lemma {:induction false} LowestAre(x: nat, n: nat)
    ensures Lowest(x, n) == x % Pow2(n)
    decreases n
  {
    if n > 0 {
      LowestAre(x / 2, n - 1);
      HalfRemainder(x, Pow2(n - 1));
    }
  }

  /** Bitwise and. */
  function And(a: nat, b: nat): (r: nat)
  { if a == 0 || b == 0 then 0 else (if a % 2 == 1 && b % 2 == 1 then 1 else 0) + 2 * And(a / 2, b / 2) }

  lemma {:induction false} MaskKeepsAll(x: nat, n: nat)
    requires x < Pow2(n)
    ensures And(x, Pow2(n) - 1) == x
  {
    if x > 0 {
      var half := Pow2(n - 1);
      assert Pow2(n) == 2 * half;
      MaskKeepsAll(x / 2, n - 1);
    }
  }

  lemma AndHalf(x: nat, y: nat)
    ensures And(x, y) / 2 == And(x / 2, y / 2) && (And(x, y) % 2 == 1 <==> x % 2 == 1 && y % 2 == 1)
  {}

  lemma {:induction false} UpIs(x: nat, n: nat)
    ensures Up(x, n) == x * Pow2(n)
  {
    if n > 0 {
      UpIs(x, n - 1);
      assert x * Pow2(n) == 2 * (x * Pow2(n - 1));
    }
  }

  lemma UpHalf(h: nat, l: nat, n: nat)
    requires n > 0
    ensures (Up(h, n) + l) / 2 == Up(h, n - 1) + l / 2 && (Up(h, n) + l) % 2 == l % 2
  {}

  /** The upper bits and the lower n bits are treated apart. */
  lemma {:induction false} AndParts(h: nat, l: nat, g: nat, m: nat, n: nat)
    requires l < Pow2(n) && m < Pow2(n)
    ensures And(Up(h, n) + l, Up(g, n) + m) == Up(And(h, g), n) + And(l, m)
    decreases n
  {
    if n > 0 {
      AndParts(h, l / 2, g, m / 2, n - 1);
      UpHalf(h, l, n);
      UpHalf(g, m, n);
      SameLowBit(Up(h, n) + l, Up(g, n) + m, l, m);
      assert Up(And(h, g), n) == 2 * Up(And(h, g), n - 1);
    } else {
      AndHalf(0, 0);
    }
  }

  lemma SameLowBit(x: nat, y: nat, l: nat, m: nat)
    requires x % 2 == l % 2 && y % 2 == m % 2
    ensures And(x, y) - 2 * And(x / 2, y / 2) == And(l, m) - 2 * And(l / 2, m / 2)
  {
    AndHalf(x, y);
    AndHalf(l, m);
  }
}
