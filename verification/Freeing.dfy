/** free: consolidation with the top chunk or with free neighbours. */
module Freeing {
  import opened Chunks
  import opened Bins
  import opened BinBlocks
  import opened HeapSteps
  import opened HeapFree
  import opened Extending
  import opened TopServing

  /** Chunk `p` is no longer in use; everything else in use is as it was. */
  ghost predicate Deallocated(m: Mem, m': Mem, g: Globals, g': Globals, t: Tile, f: Free, t': Tile, f': Free, p: int) {
    && LiveIn(t', f', g'.top) == LiveIn(t, f, g.top) - {p}
    && Kept(m, m', t, t', LiveIn(t, f, g.top) - {p})
  }

  lemma LiveReady(m: Mem, lim: Limits, bb: nat, g: Globals, t: Tile, f: Free, base: int, p: int)
    requires Consistent(m, lim, bb, g, t, f, base) && p in LiveIn(t, f, g.top)
    ensures Ready(m, lim, g, t, f, base) && Marks(bb, f) && Used(t, f, g.top, p) && g.sbrkBase != NO_BASE && g.top in t
  {
    ConsistentUsable(m, lim, bb, g, t, f, base);
  }

  lemma EndsBelow(m: Mem, lim: Limits, bb: nat, g: Globals, t: Tile, f: Free, base: int, p: int)
    requires Consistent(m, lim, bb, g, t, f, base) && p in LiveIn(t, f, g.top)
    ensures p in t && 0 <= p && p + t[p] + 4 <= |m| && ARENA <= p && p % 8 == 0 && t[p] % 8 == 0 && MINSIZE <= t[p]
  {
    LiveReady(m, lim, bb, g, t, f, base, p);
    UsedChunk(m, t, f, base, g.top, p);
  }

  lemma KeptAcross(m: Mem, m1: Mem, m2: Mem, lim: Limits, bb: nat, g: Globals, t: Tile, t1: Tile, f1: Free, base: int,
                   t2: Tile, s: set<int>)
    requires Kept(m, m1, t, t1, s) && Kept(m1, m2, t1, t2, s) && Consistent(m1, lim, bb, g, t1, f1, base)
      && s <= LiveIn(t1, f1, g.top)
    ensures Kept(m, m2, t, t2, s)
  {
    forall w {:trigger w in s} | w in s ensures w in t && w in t2 && t2[w] == t[w] && SameBlock(m, m2, w, t[w]) {
      EndsBelow(m1, lim, bb, g, t1, f1, base, w);
      assert SameBlock(m, m1, w, t[w]) && SameBlock(m1, m2, w, t1[w]);
    }
  }

  /** Merge `p`, and the free chunk before it, into the top chunk. */
  method JoinTop(m: Mem, lim: Limits, bb: nat, g: Globals, p: int, ghost t: Tile, ghost f: Free, ghost base: int)
    returns (m': Mem, g': Globals, sz: int, ghost t': Tile, ghost f': Free)
    requires Ready(m, lim, g, t, f, base) && Marks(bb, f) && Used(t, f, g.top, p) && Next(t, p) == g.top
    ensures Ready(m', lim, g', t', f', base) && Marks(bb, f') && |m'| == |m|
    ensures AddrOk(m, p) && g'.top == MergeStart(m, p) && f' == f - {g'.top}
    ensures g'.sbrkBase == g.sbrkBase && g'.top in t' && sz == t'[g'.top] == |m| - g'.top
      && LiveIn(t', f', g'.top) == LiveIn(t, f, g.top) - {p}
    ensures Kept(m, m', t, t', LiveIn(t, f, g.top) - {p})
  {
    SizeOf(m, t, f, base, g.top, p);
    JoinRange(m, t, f, base, g.top, p, MergeStart(m, p));
    sz := Head(m, p) - Head(m, p) % 2 + ChunkSize(m, g.top);
    var m1, p1, prevsz;
    m1, p1, prevsz, f' := DetachBefore(m, p, t, f, base, g.top);
    sz := sz + prevsz;
    JoinedTop(m, m1, t, f, f', base, g.top, p, p1);
    m' := SetHead(m1, p1, sz + 1);
    g' := g.(top := p1);
    t' := Retile(t, p1, |m|, |m|);
    MarksFewer(bb, f, f');
    JoinedLive(t, f, p, g.top);
  }

  /** Take the chunk before off its list, if it is free. */
  method DetachBefore(m: Mem, p: int, ghost t: Tile, ghost f: Free, ghost base: int, ghost top: int)
    returns (m1: Mem, q: int, prevsz: int, ghost f1: Free)
    requires Shape(m, t, f, base, top) && Used(t, f, top, p) && AddrOk(m, p)
    ensures q == MergeStart(m, p) && prevsz == p - q && f1 == f - {q} && LinkWords(m, m1, f.Keys) && Lists(m1, f1)
  {
    m1, q, prevsz, f1 := m, p, 0, f;
    if Head(m, p) % 2 == 0 {
      BackChunk(m, t, f, base, top, p);
      prevsz := Foot(m, p);
      q := p - prevsz;
      UnlinkAll(m, f, q);
      m1 := UnlinkMem(m, q);
      f1 := f - {q};
    }
  }

  lemma SizeOf(m: Mem, t: Tile, f: Free, base: int, top: int, p: int)
    requires Shape(m, t, f, base, top) && Used(t, f, top, p)
    ensures AddrOk(m, p) && Head(m, p) - Head(m, p) % 2 == t[p]
  {
    UsedChunk(m, t, f, base, top, p);
    Flag(Head(m, p), t[p]);
  }

  lemma JoinedLive(t: Tile, f: Free, p: int, top: int)
    ensures t.Keys - f.Keys - {p, top} == LiveIn(t, f, top) - {p}
  {}

  lemma KeptShrinking(m: Mem, m1: Mem, m2: Mem, t: Tile, f: Free, base: int, top: int, t1: Tile, t2: Tile, s: set<int>)
    requires Kept(m, m1, t, t1, s) && Kept(m1, m2, t1, t2, s) && |m| == |m1| && Tiling(t2, base, |m2|)
    ensures Kept(m, m2, t, t2, s)
  {
    forall w {:trigger w in s} | w in s ensures w in t && w in t2 && t2[w] == t[w] && SameBlock(m, m2, w, t[w]) {
      assert SameBlock(m, m1, w, t[w]) && SameBlock(m1, m2, w, t1[w]);
    }
  }

  /** malloc_trim */
  method TrimTop(m: Mem, lim: Limits, bb: nat, g: Globals, pad: int, ghost t: Tile, ghost f: Free, ghost base: int)
    returns (released: bool, m': Mem, g': Globals, ghost t': Tile)
    requires Ready(m, lim, g, t, f, base) && Marks(bb, f) && 0 <= pad < ULONG
    ensures g.top in t && g' == g.(sbrkedMem := g'.sbrkedMem)
    ensures TrimSafe(t[g.top], pad) ==> Trimmed(m, m', lim, g, g', t, t', f, base, pad, released)
    ensures !TrimSafe(t[g.top], pad) ==> released && !Sound(m', lim, bb, g')
    ensures pad < 0x8000_0000 ==> TrimSafe(t[g.top], pad)
  {
    TopChunk(m, t, f, base, g.top);
    TrimSafeIf(t[g.top], pad);
    var sbrkedMem;
    released, m', sbrkedMem, t' := Trim(m, lim, pad, g.top, g.sbrkBase, g.sbrkedMem, t, f, base);
    g' := g.(sbrkedMem := sbrkedMem);
    if TrimSafe(t[g.top], pad) {
      TopChunk(m', t', f, base, g.top);
    } else if |m'| < g.top + MINSIZE {
      NoTopBehind(m', lim, bb, g');
    } else {
      OtherBase(m', lim, bb, g');
    }
  }

  /** Pages have been given back from the end of top, or nothing has changed. A pad is left if it is one. */
  ghost predicate Trimmed(m: Mem, m': Mem, lim: Limits, g: Globals, g': Globals, t: Tile, t': Tile, f: Free, base: int,
                          pad: int, released: bool) {
    && Ready(m', lim, g', t', f, base) && |m'| <= |m|
    && LiveIn(t', f, g'.top) == LiveIn(t, f, g.top) && Kept(m, m', t, t', LiveIn(t, f, g.top))
    && g.top in t && g.top in t' && t'[g.top] == t[g.top] + (|m'| - |m|)
    && (if released then |m'| <= |m| - PAGESZ else m' == m && t' == t && g' == g)
    && (pad < 0x8000_0000 ==> t'[g.top] <= pad + MINSIZE + PAGESZ && (released ==> pad + MINSIZE <= t'[g.top]))
  }

  /** The top chunk takes in chunk `p` and the free one before it. If it has reached the threshold, it is trimmed, so
      that no more than the padding and a page are left. */
  ghost predicate JoinedTo(m: Mem, m': Mem, lim: Limits, g': Globals, t': Tile, f: Free, f': Free, p: int) {
    && AddrOk(m, p) && g'.top == MergeStart(m, p) && f' == f - {g'.top}
    && g'.top in t' && t'[g'.top] == |m'| - g'.top && |m'| <= |m|
    && (if |m| - g'.top < lim.trimThreshold then |m'| == |m| else t'[g'.top] <= lim.topPad + MINSIZE + PAGESZ)
    && (|m'| < |m| ==> lim.topPad + MINSIZE <= t'[g'.top])
  }

  /** The chunks and bins after chunk `p` has been freed. */
  ghost predicate GivenBack(m: Mem, m': Mem, lim: Limits, g: Globals, g': Globals, t: Tile, f: Free, t': Tile, f': Free,
                            p: int) {
    && p in t
    && (if Next(t, p) == g.top then JoinedTo(m, m', lim, g', t', f, f', p)
        else |m'| == |m| && g' == g && MergedAround(m, t, f, t', f', p))
  }

  /** The case of a block that borders the top chunk. */
  method DeallocateLast(m: Mem, lim: Limits, bb: nat, g: Globals, p: int, ghost t: Tile, ghost f: Free, ghost base: int)
    returns (m': Mem, g': Globals, ghost t': Tile, ghost f': Free)
    requires Ready(m, lim, g, t, f, base) && Marks(bb, f) && Used(t, f, g.top, p) && Next(t, p) == g.top
    ensures Ready(m', lim, g', t', f', base) && Marks(bb, f') && |m'| <= |m| && g'.sbrkBase == g.sbrkBase
    ensures Deallocated(m, m', g, g', t, f, t', f', p) && JoinedTo(m, m', lim, g', t', f, f', p)
  {
    var sz;
    m', g', sz, t', f' := JoinTop(m, lim, bb, g, p, t, f, base);
    if sz >= lim.trimThreshold {
      ghost var m1, t1 := m', t';
      var released;
      released, m', g', t' := TrimTop(m', lim, bb, g', lim.topPad, t', f', base);
      KeptShrinking(m, m1, m', t, f', base, g'.top, t1, t', LiveIn(t, f, g.top) - {p});
    }
  }

  method Deallocate(m: Mem, lim: Limits, bb: nat, g: Globals, p: int, ghost t: Tile, ghost f: Free, ghost base: int)
    returns (m': Mem, bb': nat, g': Globals, ghost t': Tile, ghost f': Free)
    requires Consistent(m, lim, bb, g, t, f, base) && p in LiveIn(t, f, g.top)
    ensures Consistent(m', lim, bb', g', t', f', base) && g'.sbrkBase == g.sbrkBase != NO_BASE
    ensures Deallocated(m, m', g, g', t, f, t', f', p)
    ensures GivenBack(m, m', lim, g, g', t, f, t', f', p)
  {
    LiveReady(m, lim, bb, g, t, f, base, p);
    SizeOf(m, t, f, base, g.top, p);
    var hd := Head(m, p);
    var next := p + (hd - hd % 2);
    assert next == Next(t, p);
    if next == g.top {
      m', g', t', f' := DeallocateLast(m, lim, bb, g, p, t, f, base);
      bb' := bb;
    } else {
      m', bb', t', f' := Release(m, bb, p, t, f, base, g.top);
      g' := g;
      JoinedLive(t, f, p, g.top);
    }
  }
}
