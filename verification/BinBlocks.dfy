/** `binblocks`: a 32-bit word with one bit for every four bins, set whenever one of them is
    not empty. */
module BinBlocks {
  import opened Bits
  import opened Bins

  const BINBLOCKWIDTH := 4
  const WORD := 0x1_0000_0000

  /** w | (1 << k) */
  function SetBit(w: nat, k: nat): nat { if k == 0 then w - w % 2 + 1 else 2 * SetBit(w / 2, k - 1) + w % 2 }

  /** w & ~(1 << k) */
  function ClearBit(w: nat, k: nat): nat { if k == 0 then w - w % 2 else 2 * ClearBit(w / 2, k - 1) + w % 2 }

  /** idx2binblock */
  function BlockBit(i: nat): nat { Pow2(i / BINBLOCKWIDTH) }

  ghost predicate Marked(bb: nat, i: int) { 0 <= i && BitOf(bb, i / BINBLOCKWIDTH) }

  ghost predicate InRange(f: Free) { forall c {:trigger f[c]} :: c in f ==> 1 <= f[c].bin < NAV }

  /** The bit of every bin in use is set; the bit of an empty bin may be set, too. */
  ghost predicate Marks(bb: nat, f: Free) {
    && bb < WORD && InRange(f)
    && (forall c {:trigger Marked(bb, f[c].bin)} :: c in f && f[c].bin != LR ==> Marked(bb, f[c].bin))
  }

  // ----- single bits -----

  lemma {:induction false} SetBitIs(w: nat, k: nat, j: nat)
    ensures BitOf(SetBit(w, k), j) <==> j == k || BitOf(w, j)
  {
    if k > 0 && j > 0 { SetBitIs(w / 2, k - 1, j - 1); }
  }

  lemma {:induction false} ClearBitIs(w: nat, k: nat, j: nat)
    ensures BitOf(ClearBit(w, k), j) <==> j != k && BitOf(w, j)
  {
    if k > 0 && j > 0 { ClearBitIs(w / 2, k - 1, j - 1); }
  }

  lemma {:induction false} SetBitBound(w: nat, k: nat, n: nat)
    requires k < n && w < Pow2(n)
    ensures SetBit(w, k) < Pow2(n) && ClearBit(w, k) <= w
  {
    if k > 0 { SetBitBound(w / 2, k - 1, n - 1); }
    else { assert w < 2 * Pow2(n - 1); }
  }

  lemma {:induction false} ClearBitBound(w: nat, k: nat)
    ensures ClearBit(w, k) <= w
  {
    if k > 0 { ClearBitBound(w / 2, k - 1); }
  }

  lemma WordIsPow2()
    ensures Pow2(32) == WORD
  {
    assert Pow2(8) == 256;
    assert Pow2(16) == 65536;
    assert Pow2(24) == 0x100_0000;
  }

  /** A clear bit not above the word can be skipped: the next one is not above it either. */
  lemma {:induction false} SkipClear(w: nat, k: nat)
    requires Pow2(k) <= w && !BitOf(w, k)
    ensures Pow2(k + 1) <= w
  {
    if k > 0 { SkipClear(w / 2, k - 1); }
  }

  // ----- the marks of all chunks -----

  lemma MarkKeeps(bb: nat, f: Free, i: int)
    requires Marks(bb, f) && 0 <= i < NAV
    ensures Marks(SetBit(bb, i / 4), f) && Marked(SetBit(bb, i / 4), i)
  {
    var bb' := SetBit(bb, i / 4);
    WordIsPow2();
    SetBitBound(bb, i / 4, 32);
    SetBitIs(bb, i / 4, i / 4);
    forall c | c in f && f[c].bin != LR ensures Marked(bb', f[c].bin) {
      assert Marked(bb, f[c].bin);
      SetBitIs(bb, i / 4, f[c].bin / 4);
    }
  }

  lemma ClearKeeps(bb: nat, f: Free, i: int)
    requires Marks(bb, f) && 0 <= i < NAV
    requires forall c {:trigger f[c]} :: c in f && f[c].bin != LR ==> f[c].bin / 4 != i / 4
    ensures Marks(ClearBit(bb, i / 4), f)
  {
    var bb' := ClearBit(bb, i / 4);
    ClearBitBound(bb, i / 4);
    forall c | c in f && f[c].bin != LR ensures Marked(bb', f[c].bin) {
      assert Marked(bb, f[c].bin);
      ClearBitIs(bb, i / 4, f[c].bin / 4);
    }
  }

  /** No bit from block `i` on is set: every chunk with a bin is in a lower block. */
  lemma AllBelow(bb: nat, f: Free, i: int, c: int)
    requires Marks(bb, f) && 0 <= i && BlockBit(i) > bb && c in f && f[c].bin != LR
    ensures f[c].bin < i
  {
    assert Marked(bb, f[c].bin);
    if i <= f[c].bin { NoHighBits(bb, i / 4, f[c].bin / 4); }
  }

  /** A clear block bit: no chunk has its bin in that block. */
  lemma NotInClear(bb: nat, f: Free, i: int, c: int)
    requires Marks(bb, f) && 0 <= i && !BitOf(bb, i / 4) && c in f && f[c].bin != LR
    ensures f[c].bin / 4 != i / 4
  {
    assert Marked(bb, f[c].bin);
  }

  lemma MarksInsert(bb: nat, f: Free, p: int, s: Slot)
    requires Marks(bb, f) && 1 <= s.bin < NAV && Marked(bb, s.bin)
    ensures Marks(bb, f[p := s])
  {
    var f' := f[p := s];
    forall c | c in f' && f'[c].bin != LR ensures Marked(bb, f'[c].bin) {
      if c != p { assert Marked(bb, f[c].bin); }
    }
  }

  lemma MarksFewer(bb: nat, f: Free, f': Free)
    requires Marks(bb, f)
    requires forall c {:trigger f'[c]} :: c in f' ==> f'[c].bin == LR || (c in f && f'[c] == f[c])
    ensures Marks(bb, f')
  {
    forall c | c in f' && f'[c].bin != LR ensures Marked(bb, f'[c].bin) { assert Marked(bb, f[c].bin); }
  }
}
