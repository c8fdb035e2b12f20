/** memalign: a block on a stricter boundary, cut out of a larger one. */
module Aligning {
  import opened Bits
  import opened Chunks
  import opened Bins
  import opened BinBlocks
  import opened HeapSteps
  import opened Extending
  import opened TopServing
  import opened Freeing
  import opened Stretches
  import opened Requests

  // ----- rounding up to a power of two with masks -----

  /** The mask 2^n - 2^k, which is -2^k in n bits, takes off the remainder by 2^k. */
  lemma {:induction false} MaskTakesRemainder(x: nat, n: nat, k: nat)
    requires k <= n && x < Pow2(n)
    ensures Pow2(k) <= Pow2(n) && And(x, Pow2(n) - Pow2(k)) == x - x % Pow2(k)
  {
    Pow2Monotone(k, n);
    if k == 0 {
      MaskKeepsAll(x, n);
    } else {
      var high, low, h := Pow2(n - 1), Pow2(k - 1), x / 2;
      assert Pow2(n) == 2 * high && Pow2(k) == 2 * low;
      MaskTakesRemainder(h, n - 1, k - 1);
      MaskStep(x, h, high - low, low, h % low);
      assert 2 * (high - low) == Pow2(n) - Pow2(k);
    }
  }

  lemma MaskStep(x: nat, h: nat, mask: nat, low: nat, r: int)
    requires h == x / 2 && 0 < low && r == h % low && And(h, mask) == h - r
    ensures And(x, 2 * mask) == x - x % (2 * low)
  {
    assert x % (2 * low) == 2 * r + x % 2 by { HalfRemainder(x, low); }
    assert And(x, 2 * mask) == 2 * (h - r) by { AndEven(x, mask); }
  }

  lemma AndEven(x: nat, mask: nat)
    ensures And(x, 2 * mask) == 2 * And(x / 2, mask)
  {}

  // ----- the aligned spot -----

  /** The chunk from which an aligned block starts, with either no leader or room for a chunk before it. */
  function AlignedSpot(p: int, alignment: int): int
    requires 0 < alignment < ULONG && 0 <= p
  {
    var brk := And((p + 8 + alignment - 1) % ULONG, ULONG - alignment) - 8;
    if brk - p < MINSIZE then brk + alignment else brk
  }

  lemma RoundedUp(m: int, d: int)
    requires 0 <= m && d > 0 && m % d != 0
    ensures m + d - 1 - (m + d - 1) % d == m - m % d + d
    ensures (m - m % d + d) % d == 0 && (m - m % d + d + d) % d == 0
  {
    var q, r := m / d, m % d;
    assert m == d * q + r;
    assert d * (q + 1) == d * q + d && d * (q + 2) == d * q + d + d;
    RemainderIs(m + d - 1, d, q + 1, r - 1);
    RemainderIs(m - r + d, d, q + 1, 0);
    RemainderIs(m - r + d + d, d, q + 2, 0);
  }

  lemma Associative(a: int, b: int, n: int)
    ensures a * b * n == a * (b * n)
  {}

  lemma MultipleOf8(x: int, k: nat)
    requires 3 <= k && x % Pow2(k) == 0
    ensures x % 8 == 0
  {
    var c, n := Pow2(k - 3), x / Pow2(k);
    assert Pow2(k) == 2 * Pow2(k - 1) && Pow2(k - 1) == 2 * Pow2(k - 2) && Pow2(k - 2) == 2 * c;
    Associative(8, c, n);
    assert x == 8 * (c * n);
    EightTimes(c * n);
  }

  lemma EightTimes(n: int)
    ensures 8 * n % 8 == 0
  {}

  /** Before the leader is found too small. */
  lemma FirstSpot(p: int, k: nat)
    requires 0 <= p < 0x8000_0000 - 8 && p % 8 == 0 && 4 <= k <= 31 && (p + 8) % Pow2(k) != 0
    ensures 16 <= Pow2(k) <= 0x8000_0000
    ensures var d := Pow2(k); var first := p + 8 - (p + 8) % d + d;
      And((p + 8 + d - 1) % ULONG, ULONG - d) == first && first % d == 0 && (first + d) % d == 0
  {
    Alignments(k);
    RoundedUp(p + 8, Pow2(k));
    Masked(p + 8 + Pow2(k) - 1, k, Pow2(k));
  }

  lemma Masked(x: int, k: nat, d: nat)
    requires 0 <= x < ULONG && k <= 31 && d == Pow2(k)
    ensures d <= ULONG && And(x % ULONG, ULONG - d) == x - x % d
  {
    Pow2At31();
    MaskTakesRemainder(x, 32, k);
    Small(x);
  }

  lemma Small(x: int)
    requires 0 <= x < ULONG
    ensures x % ULONG == x
  {}

  lemma Alignments(k: nat)
    requires 4 <= k <= 31
    ensures 16 <= Pow2(k) <= 0x8000_0000
  {
    Pow2At31();
    Pow2Monotone(k, 31);
    Pow2Monotone(4, k);
  }

  lemma Pow2At31()
    ensures Pow2(31) == 0x8000_0000 && Pow2(32) == ULONG
  {
    WordIsPow2();
    assert Pow2(32) == 2 * Pow2(31);
  }

  /** A leader is at least MINSIZE and at most MINSIZE - 8 more than the alignment. */
  lemma SpotIs(p: int, k: nat)
    requires 0 <= p < 0x8000_0000 - 8 && p % 8 == 0 && 4 <= k <= 31 && (p + 8) % Pow2(k) != 0
    ensures 0 < Pow2(k) < ULONG
    ensures var q := AlignedSpot(p, Pow2(k));
      (q + 8) % Pow2(k) == 0 && q % 8 == 0 && p + MINSIZE <= q <= p + Pow2(k) + 8
  {
    FirstSpot(p, k);
    var d := Pow2(k);
    var first := p + 8 - (p + 8) % d + d;
    MultipleOf8(first, k);
    var q := AlignedSpot(p, d);
    SpotFrom(p, d, first, (p + 8) % d);
    SpotMultiple(q, k);
  }

  lemma SpotMultiple(q: int, k: nat)
    requires 3 <= k && (q + 8) % Pow2(k) == 0
    ensures q % 8 == 0
  {
    MultipleOf8(q + 8, k);
    Less8(q + 8);
  }

  lemma Less8(x: int)
    requires x % 8 == 0
    ensures (x - 8) % 8 == 0
  {}

  lemma SpotFrom(p: int, d: int, first: int, r: int)
    requires 0 <= p && p % 8 == 0 && 16 <= d < ULONG && 1 <= r < d && first == p + 8 - r + d && first % 8 == 0
    requires And((p + 8 + d - 1) % ULONG, ULONG - d) == first
    ensures var q := AlignedSpot(p, d);
      (q + 8 == first || q + 8 == first + d) && p + MINSIZE <= q <= p + d + 8
  {
    Steps8(p, first);
  }

  lemma Steps8(a: int, b: int)
    requires a % 8 == 0 && b % 8 == 0 && a + 8 < b
    ensures a + 16 <= b
  {}

  // ----- giving back leader and tail -----

  /** Chunk `v`, large enough, has been allocated for the request; make an aligned one of it. */
  method GiveBackLeader(m: Mem, lim: Limits, bb: nat, g: Globals, v: int, q: int, nb: int, ghost t: Tile, ghost f: Free,
                        ghost base: int)
    returns (m': Mem, bb': nat, g': Globals, ghost t': Tile, ghost f': Free)
    requires Consistent(m, lim, bb, g, t, f, base) && v in LiveIn(t, f, g.top) && v in t
    requires q % 8 == 0 && v + MINSIZE <= q <= Next(t, v) - nb && MINSIZE <= nb
    ensures Consistent(m', lim, bb', g', t', f', base) && g'.sbrkBase == g.sbrkBase
    ensures q !in LiveIn(t, f, g.top) && LiveIn(t', f', g'.top) == LiveIn(t, f, g.top) - {v} + {q}
    ensures Kept(m, m', t, t', LiveIn(t, f, g.top) - {v})
    ensures q in t' && nb <= t'[q]
  {
    ghost var e := Next(t, v);
    BlockAlone(m, lim, bb, g, t, f, base, v);
    CarveStep(m, m, m, lim, bb, g, t, f, f, base, v, q, e, {v});
    var size := ChunkSize(m, v);
    var m1 := CarvedMem(m, v, q, v + size);
    ghost var r := Retile(t, v, q, e);
    m', bb', g', t', f' := Deallocate(m1, lim, bb, g, v, r, f, base);
    LeaderGone(m, m1, m', t, r, f, t', f', base, g.top, g'.top, v, q, e);
  }

  lemma LeaderGone(m: Mem, m1: Mem, m': Mem, t: Tile, r: Tile, f: Free, t': Tile, f': Free, base: int, top: int,
                   top': int, v: int, q: int, e: int)
    requires Tiling(t, base, |m|) && v in LiveIn(t, f, top) && v in t && v + MINSIZE <= q < e == Next(t, v)
      && |m1| == |m|
    requires r == Retile(t, v, q, e) && Tiling(t', base, |m'|)
    requires LiveIn(r, f, top) == LiveIn(t, f, top) - {v} + {v} + {q} && Kept(m, m1, t, r, LiveIn(t, f, top) - {v})
    requires LiveIn(t', f', top') == LiveIn(r, f, top) - {v} && Kept(m1, m', r, t', LiveIn(r, f, top) - {v})
    ensures q !in LiveIn(t, f, top) && LiveIn(t', f', top') == LiveIn(t, f, top) - {v} + {q}
    ensures Kept(m, m', t, t', LiveIn(t, f, top) - {v})
    ensures q in t' && t'[q] == e - q
  {
    var live := LiveIn(t, f, top);
    if q in t { NoTileInside(t, base, |m|, v, q); }
    assert q in LiveIn(r, f, top) - {v};
    KeptSubset(m1, m', r, t', LiveIn(r, f, top) - {v}, live - {v});
    KeptShrinking(m, m1, m', t, f, base, top, r, t', live - {v});
  }

  /** Keep size `nb` of block `p`. */
  method GiveBackTail(m: Mem, lim: Limits, bb: nat, g: Globals, p: int, nb: int, ghost t: Tile, ghost f: Free,
                      ghost base: int)
    returns (m': Mem, bb': nat, g': Globals, ghost t': Tile, ghost f': Free)
    requires Consistent(m, lim, bb, g, t, f, base) && p in LiveIn(t, f, g.top) && p in t && MINSIZE <= nb <= t[p]
      && nb % 8 == 0
    ensures Consistent(m', lim, bb', g', t', f', base) && g'.sbrkBase == g.sbrkBase
    ensures LiveIn(t', f', g'.top) == LiveIn(t, f, g.top) && Kept(m, m', t, t', LiveIn(t, f, g.top) - {p})
    ensures p in t' && nb <= t'[p] < nb + MINSIZE
  {
    BlockAlone(m, lim, bb, g, t, f, base, p);
    var size := ChunkSize(m, p);
    assert p + size == Next(t, p);
    assert LiveIn(t, f, g.top) - {p} + {p} == LiveIn(t, f, g.top);
    if size - nb >= MINSIZE {
      m', bb', g', t', f' := CarveTwo(m, m, m, lim, bb, g, p, size, nb, t, f, f, base, {p});
    } else {
      m', bb', g', t', f' := m, bb, g, t, f;
    }
  }

  /** The size that is allocated to find an aligned block of size `nb` in it. */
  function PaddedSize(nb: int, alignment: int): int
    requires 0 <= nb + alignment + MINSIZE < ULONG
  { Request2Size(nb + alignment + MINSIZE) }

  /** It has room for the block, wherever the spot is. */
  lemma PaddingSuffices(nb: int, k: nat, p: int)
    requires MINSIZE <= nb && nb % 8 == 0 && 4 <= k <= 31 && nb + Pow2(k) + MINSIZE <= MAX_REQUEST
    requires 0 <= p < 0x8000_0000 - 8 && p % 8 == 0 && (p + 8) % Pow2(k) != 0
    ensures 0 < Pow2(k) < ULONG && AlignedSpot(p, Pow2(k)) + nb <= p + PaddedSize(nb, Pow2(k))
  {
    SpotIs(p, k);
    SizeSuffices(nb + Pow2(k) + MINSIZE);
  }

  /** memalign, for a chunk of size `nb` and an alignment above that of malloc. */
  method AllocateAligned(m: Mem, lim: Limits, bb: nat, g: Globals, alignment: int, ghost k: nat, nb: int, ghost t: Tile,
                         ghost f: Free, ghost base: int)
    returns (p: int, m': Mem, bb': nat, g': Globals, ghost t': Tile, ghost f': Free, ghost base': int)
    requires Consistent(m, lim, bb, g, t, f, base) && MINSIZE <= nb && nb % 8 == 0
    requires 4 <= k <= 31 && alignment == Pow2(k) && nb + alignment + MINSIZE <= MAX_REQUEST
    requires Sane(lim) && Answered(m, lim, g, t, f, PaddedSize(nb, alignment))
    ensures var padded := PaddedSize(nb, alignment); Serves(m, lim, g, t, f, padded) ==>
      Consistent(m', lim, bb', g', t', f', base')
        && AlignedIn(m, m', lim, g, g', t, f, t', f', alignment, nb, padded, p)
    ensures !Serves(m, lim, g, t, f, PaddedSize(nb, alignment)) ==> p == 0 && !Sound(m', lim, bb', g')
  {
    SizeIsChunk(nb + alignment + MINSIZE);
    var padded := PaddedSize(nb, alignment);
    assert IsSize(padded);
    var m1, bb1, g1;
    ghost var t1, f1;
    p, m1, bb1, g1, t1, f1, base' := Allocate(m, lim, bb, g, padded, t, f, base);
    if p == 0 {
      m', bb', g', t', f' := m1, bb1, g1, t1, f1;
      return;
    }
    ghost var v := p;
    p, m', bb', g', t', f' := CutOut(m1, lim, bb1, g1, alignment, k, p, nb, t1, f1, base');
    CutOutOfNew(m, m1, m', g, g1, g', t, f, t1, f1, t', f', padded, v, p);
  }

  /** An aligned chunk has been allocated, or none because nothing can serve the padded size. */
  ghost predicate AlignedIn(m: Mem, m': Mem, lim: Limits, g: Globals, g': Globals, t: Tile, f: Free, t': Tile, f': Free,
                            alignment: int, nb: int, padded: int, p: int)
    requires 0 < alignment
  {
    && (p == 0 <==> Exhausted(m, lim, g, t, f, padded))
    && (p == 0 ==> LiveIn(t', f', g'.top) == LiveIn(t, f, g.top))
    && Kept(m, m', t, t', LiveIn(t, f, g.top))
    && (p != 0 ==> p !in LiveIn(t, f, g.top) && LiveIn(t', f', g'.top) == LiveIn(t, f, g.top) + {p})
    && (p != 0 ==> (p + 8) % alignment == 0 && p in t' && nb <= t'[p] < nb + MINSIZE)
  }

  lemma CutOutOfNew(m: Mem, m1: Mem, m': Mem, g: Globals, g1: Globals, g': Globals, t: Tile, f: Free, t1: Tile,
                    f1: Free, t': Tile, f': Free, padded: int, v: int, p: int)
    requires Allocated(m, m1, g, g1, t, f, t1, f1, padded, v) && |m| <= |m1|
    requires p == v || p !in LiveIn(t1, f1, g1.top)
    requires LiveIn(t', f', g'.top) == LiveIn(t1, f1, g1.top) - {v} + {p}
      && Kept(m1, m', t1, t', LiveIn(t1, f1, g1.top) - {v})
    ensures p !in LiveIn(t, f, g.top) && LiveIn(t', f', g'.top) == LiveIn(t, f, g.top) + {p}
    ensures Kept(m, m', t, t', LiveIn(t, f, g.top))
  {
    assert LiveIn(t1, f1, g1.top) - {v} == LiveIn(t, f, g.top);
    KeptTrans(m, m1, m', t, t1, t', LiveIn(t, f, g.top));
  }

  /** An aligned block of size `nb` out of block `v`, the rest of which is freed. */
  method CutOut(m: Mem, lim: Limits, bb: nat, g: Globals, alignment: int, ghost k: nat, v: int, nb: int, ghost t: Tile,
                ghost f: Free, ghost base: int)
    returns (p: int, m': Mem, bb': nat, g': Globals, ghost t': Tile, ghost f': Free)
    requires Consistent(m, lim, bb, g, t, f, base) && v in LiveIn(t, f, g.top) && v in t && MINSIZE <= nb && nb % 8 == 0
    requires 4 <= k <= 31 && alignment == Pow2(k) && nb + alignment + MINSIZE <= MAX_REQUEST
      && PaddedSize(nb, alignment) <= t[v]
    ensures Consistent(m', lim, bb', g', t', f', base) && g'.sbrkBase == g.sbrkBase
    ensures p == v || p !in LiveIn(t, f, g.top)
    ensures LiveIn(t', f', g'.top) == LiveIn(t, f, g.top) - {v} + {p} && Kept(m, m', t, t', LiveIn(t, f, g.top) - {v})
    ensures (p + 8) % alignment == 0 && p in t' && nb <= t'[p] < nb + MINSIZE && p != 0
  {
    BlockAlone(m, lim, bb, g, t, f, base, v);
    SizeSuffices(nb + alignment + MINSIZE);
    if (v + 8) % alignment == 0 {
      p := v;
      m', bb', g', t', f' := GiveBackTail(m, lim, bb, g, v, nb, t, f, base);
    } else {
      SpotFits(m, lim, bb, g, t, f, base, v, nb, k);
      p := AlignedSpot(v, alignment);
      m', bb', g', t', f' := GiveBackBoth(m, lim, bb, g, v, p, nb, t, f, base);
    }
  }

  /** What is before `p` in block `v`, and what is over after it. */
  method GiveBackBoth(m: Mem, lim: Limits, bb: nat, g: Globals, v: int, p: int, nb: int, ghost t: Tile, ghost f: Free,
                      ghost base: int)
    returns (m': Mem, bb': nat, g': Globals, ghost t': Tile, ghost f': Free)
    requires Consistent(m, lim, bb, g, t, f, base) && v in LiveIn(t, f, g.top) && v in t && MINSIZE <= nb && nb % 8 == 0
    requires p % 8 == 0 && v + MINSIZE <= p <= Next(t, v) - nb
    ensures Consistent(m', lim, bb', g', t', f', base) && g'.sbrkBase == g.sbrkBase && p !in LiveIn(t, f, g.top)
    ensures LiveIn(t', f', g'.top) == LiveIn(t, f, g.top) - {v} + {p} && Kept(m, m', t, t', LiveIn(t, f, g.top) - {v})
    ensures p in t' && nb <= t'[p] < nb + MINSIZE
  {
    var m1, bb1, g1;
    ghost var t1, f1;
    m1, bb1, g1, t1, f1 := GiveBackLeader(m, lim, bb, g, v, p, nb, t, f, base);
    m', bb', g', t', f' := GiveBackTail(m1, lim, bb1, g1, p, nb, t1, f1, base);
    LeaderAndTail(m, m1, m', lim, bb1, g, g1, t, f, t1, f1, t', base, v, p);
  }

  lemma LeaderAndTail(m: Mem, m1: Mem, m': Mem, lim: Limits, bb1: nat, g: Globals, g1: Globals, t: Tile, f: Free,
                      t1: Tile, f1: Free, t': Tile, base: int, v: int, q: int)
    requires Consistent(m1, lim, bb1, g1, t1, f1, base) && q !in LiveIn(t, f, g.top)
    requires LiveIn(t1, f1, g1.top) == LiveIn(t, f, g.top) - {v} + {q} && Kept(m, m1, t, t1, LiveIn(t, f, g.top) - {v})
    requires Kept(m1, m', t1, t', LiveIn(t1, f1, g1.top) - {q})
    ensures Kept(m, m', t, t', LiveIn(t, f, g.top) - {v})
  {
    var s := LiveIn(t, f, g.top) - {v};
    assert LiveIn(t1, f1, g1.top) - {q} == s;
    KeptAcross(m, m1, m', lim, bb1, g1, t, t1, f1, base, t', s);
  }

  lemma SpotFits(m: Mem, lim: Limits, bb: nat, g: Globals, t: Tile, f: Free, base: int, p: int, nb: int, k: nat)
    requires Consistent(m, lim, bb, g, t, f, base) && p in LiveIn(t, f, g.top) && p in t && MINSIZE <= nb && nb % 8 == 0
    requires 4 <= k <= 31 && nb + Pow2(k) + MINSIZE <= MAX_REQUEST && PaddedSize(nb, Pow2(k)) <= t[p]
      && (p + 8) % Pow2(k) != 0
    ensures 0 < Pow2(k) < ULONG && 0 <= p
    ensures var q := AlignedSpot(p, Pow2(k));
      (q + 8) % Pow2(k) == 0 && q % 8 == 0 && p + MINSIZE <= q <= Next(t, p) - nb
  {
    BlockAlone(m, lim, bb, g, t, f, base, p);
    SpotIs(p, k);
    PaddingSuffices(nb, k, p);
  }
}
