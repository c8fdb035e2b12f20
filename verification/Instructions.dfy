/** 32-bit instruction words: fields, and opcodes under a mask. */
module Instructions {
  import opened Bits

  /** x | y */
  function Or(x: nat, y: nat): nat
    decreases x + y
  { if x == 0 && y == 0 then 0 else (if x % 2 == 1 || y % 2 == 1 then 1 else 0) + 2 * Or(x / 2, y / 2) }

  /** The field of a word: (x >> shift) & ((1 << bits) - 1). */
  function Extract(x: nat, shift: nat, bits: nat): nat { Lowest(Down(x, shift), bits) }

  /** A value in its field: (v & ((1 << bits) - 1)) << shift. */
  function Place(v: int, shift: nat, bits: nat): nat { Up(Lowest(v, bits), shift) }

  // ----- their bits -----

  lemma {:induction false} BitOfDown(x: nat, n: nat, i: nat)
    ensures BitOf(Down(x, n), i) <==> BitOf(x, i + n)
    decreases n
  {
    if n > 0 { BitOfDown(x / 2, n - 1, i); }
  }

  lemma {:induction false} BitOfUp(x: nat, n: nat, i: nat)
    ensures BitOf(Up(x, n), i) <==> i >= n && BitOf(x, i - n)
    decreases n
  {
    if n > 0 && i > 0 { BitOfUp(x, n - 1, i - 1); }
  }

  lemma {:induction false} BitOfOr(x: nat, y: nat, i: nat)
    ensures BitOf(Or(x, y), i) <==> BitOf(x, i) || BitOf(y, i)
    decreases i
  {
    if i > 0 {
      BitOfOr(x / 2, y / 2, i - 1);
      OrHalf(x, y);
    } else {
      OrHalf(x, y);
    }
  }

  lemma OrHalf(x: nat, y: nat)
    ensures Or(x, y) / 2 == Or(x / 2, y / 2) && (Or(x, y) % 2 == 1 <==> x % 2 == 1 || y % 2 == 1)
  {}

  lemma {:induction false} BitOfAnd(x: nat, y: nat, i: nat)
    ensures BitOf(And(x, y), i) <==> BitOf(x, i) && BitOf(y, i)
    decreases i
  {
    AndHalf(x, y);
    if i > 0 { BitOfAnd(x / 2, y / 2, i - 1); }
  }

  lemma BitOfExtract(x: nat, shift: nat, bits: nat, i: nat)
    ensures BitOf(Extract(x, shift, bits), i) <==> i < bits && BitOf(x, i + shift)
  {
    BitOfLow(Down(x, shift), bits, i);
    BitOfDown(x, shift, i);
  }

  lemma BitOfPlace(v: int, shift: nat, bits: nat, i: nat)
    ensures BitOf(Place(v, shift, bits), i) <==> shift <= i < shift + bits && BitOf(Lowest(v, bits), i - shift)
  {
    BitOfUp(Lowest(v, bits), shift, i);
    if i >= shift + bits { LowFits(v, bits, i - shift); }
  }

  lemma {:induction false} LowFits(v: int, n: nat, i: nat)
    requires i >= n
    ensures !BitOf(Lowest(v, n), i)
    decreases n
  {
    if n == 0 {
      NoHighBits(0, 0, i);
    } else {
      LowFits(v / 2, n - 1, i - 1);
      assert Lowest(v, n) / 2 == Lowest(v / 2, n - 1);
    }
  }

  /** Numbers with the same bits are the same. */
  ghost predicate SameBits(x: nat, y: nat) { forall i: nat {:trigger BitOf(x, i)} :: BitOf(x, i) <==> BitOf(y, i) }

  lemma {:induction false} BitsDecide(x: nat, y: nat)
    requires SameBits(x, y)
    ensures x == y
    decreases x + y
  {
    assert BitOf(x, 0) <==> BitOf(y, 0);
    if x + y > 0 {
      forall i: nat
        ensures BitOf(x / 2, i) <==> BitOf(y / 2, i)
      {
        assert BitOf(x, i + 1) <==> BitOf(y, i + 1);
      }
      BitsDecide(x / 2, y / 2);
    }
  }

  // ----- fields -----

  /** Fields that have no bit in common. */
  predicate Apart(shift: nat, bits: nat, shift': nat, bits': nat) { shift + bits <= shift' || shift' + bits' <= shift }

  /** A value goes into an empty field... */
  lemma PlacedIsExtracted(x: nat, v: int, shift: nat, bits: nat)
    requires Extract(x, shift, bits) == 0
    ensures Extract(Or(x, Place(v, shift, bits)), shift, bits) == Lowest(v, bits)
  {
    var y := Or(x, Place(v, shift, bits));
    forall i: nat
      ensures BitOf(Extract(y, shift, bits), i) <==> BitOf(Lowest(v, bits), i)
    {
      BitOfExtract(y, shift, bits, i);
      BitOfExtract(x, shift, bits, i);
      BitOfOr(x, Place(v, shift, bits), i + shift);
      BitOfPlace(v, shift, bits, i + shift);
      NoHighBits(0, 0, i);
      if i >= bits { LowFits(v, bits, i); }
    }
    BitsDecide(Extract(y, shift, bits), Lowest(v, bits));
  }

  /** ... and leaves other fields alone... */
  lemma OthersKept(x: nat, v: int, shift: nat, bits: nat, shift': nat, bits': nat)
    requires Apart(shift, bits, shift', bits')
    ensures Extract(Or(x, Place(v, shift, bits)), shift', bits') == Extract(x, shift', bits')
  {
    var y := Or(x, Place(v, shift, bits));
    forall i: nat
      ensures BitOf(Extract(y, shift', bits'), i) <==> BitOf(Extract(x, shift', bits'), i)
    {
      BitOfExtract(y, shift', bits', i);
      BitOfExtract(x, shift', bits', i);
      BitOfOr(x, Place(v, shift, bits), i + shift');
      BitOfPlace(v, shift, bits, i + shift');
    }
    BitsDecide(Extract(y, shift', bits'), Extract(x, shift', bits'));
  }

  /** ... and the bits under the mask. */
  lemma MaskKept(x: nat, v: int, shift: nat, bits: nat, mask: nat)
    requires Extract(mask, shift, bits) == 0
    ensures And(Or(x, Place(v, shift, bits)), mask) == And(x, mask)
  {
    var p := Place(v, shift, bits);
    forall i: nat
      ensures BitOf(And(Or(x, p), mask), i) <==> BitOf(And(x, mask), i)
    {
      BitOfAnd(Or(x, p), mask, i);
      BitOfAnd(x, mask, i);
      BitOfOr(x, p, i);
      BitOfPlace(v, shift, bits, i);
      if shift <= i < shift + bits {
        BitOfExtract(mask, shift, bits, i - shift);
        NoHighBits(0, 0, i - shift);
      }
    }
    BitsDecide(And(Or(x, p), mask), And(x, mask));
  }

  /** Numbers without a common bit: their bits are those of the sum. */
  lemma {:induction false} OrIsSum(x: nat, y: nat)
    requires forall i: nat {:trigger BitOf(x, i)} :: !(BitOf(x, i) && BitOf(y, i))
    ensures Or(x, y) == x + y
    decreases x + y
  {
    assert !(BitOf(x, 0) && BitOf(y, 0));
    if x + y > 0 {
      forall i: nat {:trigger BitOf(x / 2, i)} ensures !(BitOf(x / 2, i) && BitOf(y / 2, i)) {
        assert !(BitOf(x, i + 1) && BitOf(y, i + 1));
      }
      OrIsSum(x / 2, y / 2);
    }
  }

  /** A value that goes into an empty field is added, times a power of two. */
  lemma PlacedIsAdded(x: nat, v: int, shift: nat, bits: nat)
    requires Extract(x, shift, bits) == 0
    ensures Or(x, Place(v, shift, bits)) == x + Lowest(v, bits) * Pow2(shift)
  {
    var p := Place(v, shift, bits);
    forall i: nat {:trigger BitOf(x, i)} ensures !(BitOf(x, i) && BitOf(p, i)) {
      BitOfPlace(v, shift, bits, i);
      if shift <= i < shift + bits {
        BitOfExtract(x, shift, bits, i - shift);
        NoHighBits(0, 0, i - shift);
      }
    }
    OrIsSum(x, p);
    UpIs(Lowest(v, bits), shift);
  }

  /** A word under a mask has nothing in a field that is not under the mask. */
  lemma NothingOutside(x: nat, mask: nat, shift: nat, bits: nat)
    requires And(x, mask) == x && Extract(mask, shift, bits) == 0
    ensures Extract(x, shift, bits) == 0
  {
    forall i: nat
      ensures BitOf(Extract(x, shift, bits), i) <==> BitOf(0, i)
    {
      BitOfExtract(x, shift, bits, i);
      BitOfExtract(mask, shift, bits, i);
      BitOfAnd(x, mask, i + shift);
      NoHighBits(0, 0, i);
    }
    BitsDecide(Extract(x, shift, bits), 0);
  }

  // ----- small numbers in fields -----

  lemma {:induction false} LowBound(x: int, n: nat)
    ensures Lowest(x, n) < Pow2(n)
    decreases n
  {
    if n > 0 { LowBound(x / 2, n - 1); }
  }

  /** A number that fits is itself, a negative one with its sign bits taken off. */
  lemma {:induction false} LowIs(x: int, n: nat)
    requires -(Pow2(n) as int) <= x < Pow2(n)
    ensures Lowest(x, n) == if x < 0 then x + Pow2(n) else x
    decreases n
  {
    if n > 0 { LowIs(x / 2, n - 1); }
  }

  lemma {:induction false} TopBit(x: nat, n: nat)
    requires x < Pow2(n + 1)
    ensures BitOf(x, n) <==> x >= Pow2(n)
    decreases n
  {
    if n > 0 { TopBit(x / 2, n - 1); }
  }

  lemma {:induction false} OrBound(x: nat, y: nat, n: nat)
    requires x < Pow2(n) && y < Pow2(n)
    ensures Or(x, y) < Pow2(n)
    decreases n
  {
    if n > 0 { OrBound(x / 2, y / 2, n - 1); }
  }

  lemma {:induction false} UpBound(x: nat, n: nat, b: nat)
    requires x < Pow2(b)
    ensures Up(x, n) < Pow2(b + n)
    decreases n
  {
    if n > 0 { UpBound(x, n - 1, b); }
  }

  lemma PlaceBound(v: int, shift: nat, bits: nat, n: nat)
    requires shift + bits <= n
    ensures Place(v, shift, bits) < Pow2(n)
  {
    LowBound(v, bits);
    UpBound(Lowest(v, bits), shift, bits);
    Pow2Monotone(bits + shift, n);
  }
}
