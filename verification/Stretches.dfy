/** Stretches of chunks around a block in use, and what may be done with them. */
module Stretches {
  import opened Chunks
  import opened Bins
  import opened BinBlocks
  import opened HeapSteps
  import opened HeapFree
  import opened Extending
  import opened TopServing
  import opened Freeing
  import opened Recutting

  // ----- contents -----

  /** Word `k` of the memory from address `a` on. */
  ghost function Word(m: Mem, a: int, k: int): int { if 0 <= a + 4 * k < |m| then m[a + 4 * k] else 0 }

  ghost predicate SameWords(m: Mem, a: int, m': Mem, a': int, n: int) {
    forall k {:trigger Word(m', a', k)} :: 0 <= k < n ==> Word(m', a', k) == Word(m, a, k)
  }

  /** MALLOC_COPY: word by word, upwards; the ranges may overlap if the destination is below. */
  method Copy(m: Mem, dst: int, src: int, bytes: int) returns (m': Mem)
    requires 0 <= bytes && bytes % 4 == 0 && 0 <= dst && dst + bytes <= |m| && 0 <= src && src + bytes <= |m|
    requires dst <= src || src + bytes <= dst
    ensures |m'| == |m| && forall x {:trigger m'[x]} :: 0 <= x < |m| && m'[x] != m[x] ==> dst <= x < dst + bytes
    ensures SameWords(m, src, m', dst, bytes / 4)
  {
    var k := 0;
    m' := m;
    while k < bytes / 4
      invariant 0 <= k <= bytes / 4 && |m'| == |m|
      invariant forall x {:trigger m'[x]} :: 0 <= x < |m| && m'[x] != m[x] ==> dst <= x < dst + 4 * k
      invariant SameWords(m, src, m', dst, k)
    {
      ghost var was := m';
      assert m'[src + 4 * k] == m[src + 4 * k];
      m' := m'[dst + 4 * k := m'[src + 4 * k]];
      forall j {:trigger Word(m', dst, j)} | 0 <= j < k + 1 ensures Word(m', dst, j) == Word(m, src, j) {
        assert j < k ==> Word(was, dst, j) == Word(m, src, j);
      }
      k := k + 1;
    }
  }

  // ----- a stretch around a block: the free chunk before it, or not; the one after it, or not -----

  ghost predicate Stretch(m: Mem, t: Tile, f: Free, base: int, top: int, p: int, q: int, e: int) {
    && Shape(m, t, f, base, top) && Used(t, f, top, p)
    && (q == p || (q in f && q in t && Next(t, q) == p))
    && (e == Next(t, p) || (e == |m| && Next(t, p) == top)
        || (Next(t, p) in f && Next(t, p) in t && e == Next(t, Next(t, p))))
  }

  ghost function Outside(t: Tile, f: Free, p: int, q: int, e: int): Free
    requires p in t
  { f - (if q == p then {} else {q}) - (if e == Next(t, p) then {} else {Next(t, p)}) }

  lemma StretchHas(m: Mem, t: Tile, f: Free, base: int, top: int, p: int, q: int, e: int)
    requires Stretch(m, t, f, base, top, p, q, e)
    ensures q in t && q <= p && Next(t, p) <= e && (e in t || (e == |m| && Next(t, p) == top))
      && (e == |m| <==> e !in t)
    ensures e % 8 == 0 && ARENA <= q && AddrOk(m, q) && Next(t, p) in t && t[p] % 8 == 0
  {
    UsedChunk(m, t, f, base, top, p);
    assert t[q] > 0 && t[p] > 0 && t[Next(t, p)] > 0 && t[top] > 0;
    if Next(t, p) in f { FreeChunk(m, t, f, base, top, Next(t, p)); }
    EndAligned(t, base, |m|, p);
    if e in t { assert t[e] > 0; }
  }

  lemma StretchWithin(m: Mem, t: Tile, f: Free, base: int, top: int, p: int, q: int, e: int, x: int)
    requires Stretch(m, t, f, base, top, p, q, e) && x in t
    ensures q <= x < e <==> x == q || x == p || (x == Next(t, p) && e != Next(t, p))
  {
    StretchHas(m, t, f, base, top, p, q, e);
    var next := Next(t, p);
    assert t[x] > 0 && t[q] > 0 && t[p] > 0 && t[next] > 0;
    assert q < x ==> Ends(t, q, x);
    assert p < x ==> Ends(t, p, x);
    assert next < x ==> Ends(t, next, x);
    assert x < q ==> Ends(t, x, q);
    assert x < p ==> Ends(t, x, p);
  }

  lemma StretchRecut(m: Mem, t: Tile, f: Free, base: int, top: int, p: int, q: int, cut: int, e: int)
    requires Stretch(m, t, f, base, top, p, q, e) && q + MINSIZE <= cut <= e && cut % 8 == 0
    requires if cut == e then e != |m| else cut + MINSIZE <= e
    ensures CanRecut(m, t, f, Outside(t, f, p, q, e), base, top, q, cut, e)
  {
    StretchHas(m, t, f, base, top, p, q, e);
    var f1 := Outside(t, f, p, q, e);
    forall c {:trigger c in f1} ensures c in f1 <==> c in f && (c < q || e <= c) {
      if c in f.Keys { StretchWithin(m, t, f, base, top, p, q, e, c); }
    }
  }

  lemma StretchLive(m: Mem, t: Tile, f: Free, base: int, top: int, p: int, q: int, e: int)
    requires Stretch(m, t, f, base, top, p, q, e)
    ensures InUseWithin(t, f, top, q, e, {p})
  {
    StretchHas(m, t, f, base, top, p, q, e);
    var s := {p};
    forall x {:trigger x in s} ensures x in s <==> x in LiveIn(t, f, top) && q <= x < e {
      if x in t { StretchWithin(m, t, f, base, top, p, q, e, x); }
    }
  }

  /** A block alone. */
  lemma BlockAlone(m: Mem, lim: Limits, bb: nat, g: Globals, t: Tile, f: Free, base: int, p: int)
    requires Consistent(m, lim, bb, g, t, f, base) && p in LiveIn(t, f, g.top)
    ensures p in t && Carving(m, m, m, lim, bb, g, t, f, f, base, p, Next(t, p), {p})
    ensures AddrOk(m, p) && ChunkSize(m, p) == t[p] && p >= ARENA && Next(t, p) <= |m|
  {
    LiveReady(m, lim, bb, g, t, f, base, p);
    StretchAlone(m, t, f, base, g.top, p);
  }

  lemma StretchAlone(m: Mem, t: Tile, f: Free, base: int, top: int, p: int)
    requires Shape(m, t, f, base, top) && Used(t, f, top, p)
    ensures CanRecut(m, t, f, f, base, top, p, Next(t, p), Next(t, p)) && InUseWithin(t, f, top, p, Next(t, p), {p})
    ensures Prepared(m, m, m, f, f, p, Next(t, p))
    ensures AddrOk(m, p) && ChunkSize(m, p) == t[p] && p >= ARENA && Next(t, p) <= |m|
  {
    UsedChunk(m, t, f, base, top, p);
    var e := Next(t, p);
    assert Stretch(m, t, f, base, top, p, p, e);
    StretchHas(m, t, f, base, top, p, p, e);
    StretchRecut(m, t, f, base, top, p, p, e, e);
    StretchLive(m, t, f, base, top, p, p, e);
    NoneTaken(t, f, p);
    Flag(Head(m, p), t[p]);
  }

  lemma NoneTaken(t: Tile, f: Free, p: int)
    requires p in t
    ensures Outside(t, f, p, p, Next(t, p)) == f
  {}

  // ----- the end of every way to grow in place, and of shrinking -----

  /** Memory `m1` is `m` with the free chunks of the stretch taken off their lists; in `m2`
      the contents of the block may have been moved. */
  ghost predicate Prepared(m: Mem, m1: Mem, m2: Mem, f: Free, f1: Free, q: int, e: int) {
    && LinkWords(m, m1, f.Keys) && Lists(m1, f1)
    && |m2| == |m1| && (forall x {:trigger m2[x]} :: 0 <= x < |m1| && m2[x] != m1[x] ==> q + 8 <= x < e + 4)
  }

  lemma PreparedHeads(m: Mem, m1: Mem, m2: Mem, t: Tile, f: Free, f1: Free, base: int, q: int, e: int)
    requires Prepared(m, m1, m2, f, f1, q, e) && Tiling(t, base, |m|) && HeadersAddr(m, t) && f.Keys <= t.Keys
    requires q in t && e % 8 == 0 && q + 8 <= e
    ensures AddrOk(m, q) && Head(m2, q) == Head(m, q)
    ensures e in t ==> AddrOk(m, e) && Head(m2, e) == Head(m, e)
  {
    assert t[q] > 0;
    LinkWordsKeepHeader(m, m1, t, base, |m|, f.Keys, q);
    if e in t { LinkWordsKeepHeader(m, m1, t, base, |m|, f.Keys, e); }
  }

  /** set_head_size */
  function SetHeadSize(m: Mem, p: int, size: int): (r: Mem)
    requires AddrOk(m, p)
    ensures |r| == |m|
  { SetHead(m, p, Head(m, p) % 2 + size) }

  /** set_inuse_bit_at_offset */
  function SetInuse(m: Mem, e: int): (r: Mem)
    requires AddrOk(m, e)
    ensures |r| == |m|
  { SetHead(m, e, Head(m, e) - Head(m, e) % 2 + 1) }

  /** The stores after label `split`. */
  function CarvedMem(m2: Mem, q: int, cut: int, e: int): (r: Mem)
    requires AddrOk(m2, q) && AddrOk(m2, e) && AddrOk(m2, cut)
    ensures |r| == |m2|
  {
    if cut < e then SetInuse(SetHead(SetHeadSize(m2, q, cut - q), cut, e - cut + 1), e)
    else SetInuse(SetHeadSize(m2, q, e - q), e)
  }

  /** The words that a carving may write. */
  ghost predicate HeadWords(m2: Mem, m3: Mem, q: int, cut: int, e: int) {
    |m3| == |m2| && forall x {:trigger m3[x]} :: 0 <= x < |m2| && m3[x] != m2[x] ==>
      x == q + 4 || x == cut + 4 || x == e + 4
  }

  lemma CarvedWords(m2: Mem, q: int, cut: int, e: int)
    requires AddrOk(m2, q) && AddrOk(m2, cut) && AddrOk(m2, e)
    ensures HeadWords(m2, CarvedMem(m2, q, cut, e), q, cut, e)
  {
    var m3 := SetHeadSize(m2, q, cut - q);
    var m4 := SetHead(m3, cut, e - cut + 1);
    assert m3 == m2[q + 4 := m3[q + 4]] && m4 == m3[cut + 4 := m4[cut + 4]];
    assert SetInuse(m3, e) == m3[e + 4 := SetInuse(m3, e)[e + 4]];
    assert SetInuse(m4, e) == m4[e + 4 := SetInuse(m4, e)[e + 4]];
  }

  lemma CarvedLocal(m2: Mem, m3: Mem, q: int, cut: int, e: int)
    requires HeadWords(m2, m3, q, cut, e) && q + 16 <= cut <= e
    ensures Local(m2, m3, q, e) && SameBlock(m2, m3, q, cut - q)
  {}

  lemma CarvedHeads(m: Mem, m2: Mem, t: Tile, q: int, cut: int, e: int)
    requires q in t && e in t && AddrOk(m, q) && AddrOk(m2, q) && AddrOk(m2, e) && AddrOk(m2, cut) && |m2| == |m|
    requires Head(m2, q) == Head(m, q) && (Head(m, q) == t[q] || Head(m, q) == t[q] + 1) && t[q] % 8 == 0
    requires (Head(m2, e) == t[e] || Head(m2, e) == t[e] + 1) && t[e] % 8 == 0
    requires q + 16 <= cut <= e
    ensures Headed(m, CarvedMem(m2, q, cut, e), t, q, cut, e)
  {
    Flag(Head(m2, q), t[q]);
    Flag(Head(m2, e), t[e]);
    var m3 := SetHeadSize(m2, q, cut - q);
    assert Head(m3, q) == Head(m, q) - t[q] + (cut - q) && Head(m3, e) == Head(m2, e);
    if cut < e {
      var m4 := SetHead(m3, cut, e - cut + 1);
      assert Head(m4, q) == Head(m3, q) && Head(m4, e) == Head(m2, e);
    }
  }


  lemma Carved(m: Mem, m1: Mem, m2: Mem, t: Tile, f: Free, f1: Free, base: int, top: int, q: int, cut: int, e: int)
    requires CanRecut(m, t, f, f1, base, top, q, cut, e) && Prepared(m, m1, m2, f, f1, q, e) && e in t
    ensures AddrOk(m2, q) && AddrOk(m2, cut) && AddrOk(m2, e)
    ensures Recut(m, m1, CarvedMem(m2, q, cut, e), t, f, f1, base, top, q, cut, e)
    ensures SameBlock(m2, CarvedMem(m2, q, cut, e), q, cut - q)
  {
    RecutAligned(t, base, |m|, q, cut, e);
    assert t[q] > 0 && t[e] > 0;
    PreparedHeads(m, m1, m2, t, f, f1, base, q, e);
    HeaderOf(m, t, f.Keys, top, q);
    HeaderOf(m, t, f.Keys, top, e);
    CarvedHeads(m, m2, t, q, cut, e);
    CarvedWords(m2, q, cut, e);
    CarvedLocal(m2, CarvedMem(m2, q, cut, e), q, cut, e);
  }

  /** The stretch [q, e) has become one block in use, possibly with another one after it. */
  ghost predicate Carving(m: Mem, m1: Mem, m2: Mem, lim: Limits, bb: nat, g: Globals, t: Tile, f: Free, f1: Free,
                          base: int, q: int, e: int, s: set<int>)
  {
    && Ready(m, lim, g, t, f, base) && Marks(bb, f) && g.sbrkBase != NO_BASE
    && CanRecut(m, t, f, f1, base, g.top, q, e, e) && Prepared(m, m1, m2, f, f1, q, e)
      && InUseWithin(t, f, g.top, q, e, s)
  }

  lemma CarveStep(m: Mem, m1: Mem, m2: Mem, lim: Limits, bb: nat, g: Globals, t: Tile, f: Free, f1: Free, base: int,
                  q: int, cut: int, e: int, s: set<int>)
    requires Carving(m, m1, m2, lim, bb, g, t, f, f1, base, q, e, s)
    requires q + MINSIZE <= cut <= e && cut % 8 == 0 && (cut < e ==> cut + MINSIZE <= e)
    ensures e in t && AddrOk(m2, q) && AddrOk(m2, cut) && AddrOk(m2, e)
    ensures var m3, r := CarvedMem(m2, q, cut, e), Retile(t, q, cut, e);
      && Ready(m3, lim, g, r, f1, base) && Marks(bb, f1)
      && Kept(m, m3, t, r, LiveIn(t, f, g.top) - s) && SameBlock(m2, m3, q, cut - q)
      && LiveIn(r, f1, g.top) == LiveIn(t, f, g.top) - s + {q} + (if cut < e then {cut} else {})
      && q in r && r[q] == cut - q && (cut < e ==> cut in r)
  {
    assert CanRecut(m, t, f, f1, base, g.top, q, cut, e);
    RecutTop(t, base, |m|, g.top, q, e);
    Carved(m, m1, m2, t, f, f1, base, g.top, q, cut, e);
    var live := LiveIn(t, f, g.top) - s;
    forall w {:trigger w in live} | w in live
      ensures w in t && w !in f && (w < q || e <= w)
    {
      assert w in s <==> q <= w < e;
    }
    Recutted(m, m1, CarvedMem(m2, q, cut, e), t, f, f1, base, g.top, q, cut, e, live);
    RecutLive(m, t, f, f1, base, g.top, q, cut, e, s);
    MarksFewer(bb, f, f1);
  }

  /** What is left of the stretch after the block can be freed. */
  lemma CarvedLive(t: Tile, f: Free, top: int, q: int, cut: int, e: int, s: set<int>)
    requires InUseWithin(t, f, top, q, e, s) && q < cut < e
    ensures (LiveIn(t, f, top) - s + {q} + {cut}) - {cut} == LiveIn(t, f, top) - s + {q}
  {
    assert cut in s <==> cut in LiveIn(t, f, top);
  }

  method Carve(ghost m: Mem, ghost m1: Mem, m2: Mem, lim: Limits, bb: nat, g: Globals, q: int, newsize: int, nb: int,
               ghost t: Tile, ghost f: Free, ghost f1: Free, ghost base: int, ghost s: set<int>)
    returns (m': Mem, bb': nat, g': Globals, ghost t': Tile, ghost f': Free)
    requires Carving(m, m1, m2, lim, bb, g, t, f, f1, base, q, q + newsize, s) && MINSIZE <= nb <= newsize
      && nb % 8 == 0
    ensures Consistent(m', lim, bb', g', t', f', base) && g'.sbrkBase == g.sbrkBase
    ensures LiveIn(t', f', g'.top) == LiveIn(t, f, g.top) - s + {q} && Kept(m, m', t, t', LiveIn(t, f, g.top) - s)
    ensures q in t' && nb <= t'[q] < nb + MINSIZE && SameBlock(m2, m', q, t'[q])
  {
    ghost var e := q + newsize;
    StretchEnds(m, t, f, f1, base, g.top, q, e);
    if newsize - nb >= MINSIZE {
      m', bb', g', t', f' := CarveTwo(m, m1, m2, lim, bb, g, q, newsize, nb, t, f, f1, base, s);
    } else {
      CarveStep(m, m1, m2, lim, bb, g, t, f, f1, base, q, e, e, s);
      m' := CarvedMem(m2, q, q + newsize, q + newsize);
      bb', g', t', f' := bb, g, Retile(t, q, e, e), f1;
    }
  }

  /** The rest of the stretch becomes a block that is freed at once. */
  method CarveTwo(ghost m: Mem, ghost m1: Mem, m2: Mem, lim: Limits, bb: nat, g: Globals, q: int, newsize: int, nb: int,
                  ghost t: Tile, ghost f: Free, ghost f1: Free, ghost base: int, ghost s: set<int>)
    returns (m': Mem, bb': nat, g': Globals, ghost t': Tile, ghost f': Free)
    requires Carving(m, m1, m2, lim, bb, g, t, f, f1, base, q, q + newsize, s) && MINSIZE <= nb <= newsize - MINSIZE
      && nb % 8 == 0
    ensures Consistent(m', lim, bb', g', t', f', base) && g'.sbrkBase == g.sbrkBase
    ensures LiveIn(t', f', g'.top) == LiveIn(t, f, g.top) - s + {q} && Kept(m, m', t, t', LiveIn(t, f, g.top) - s)
    ensures q in t' && t'[q] == nb && SameBlock(m2, m', q, t'[q])
  {
    var cut := q + nb;
    ghost var e := q + newsize;
    StretchEnds(m, t, f, f1, base, g.top, q, e);
    CarveStep(m, m1, m2, lim, bb, g, t, f, f1, base, q, cut, e, s);
    CarvedLive(t, f, g.top, q, cut, e, s);
    var m3 := CarvedMem(m2, q, cut, q + newsize);
    ghost var r := Retile(t, q, cut, e);
    m', bb', g', t', f' := Deallocate(m3, lim, bb, g, cut, r, f1, base);
    CarvedKept(m, m2, m3, m', t, r, t', f', base, g'.top, LiveIn(t, f, g.top) - s, q);
  }

  lemma StretchEnds(m: Mem, t: Tile, f: Free, f1: Free, base: int, top: int, q: int, e: int)
    requires CanRecut(m, t, f, f1, base, top, q, e, e)
    ensures q % 8 == 0 && e % 8 == 0
  {
    assert t[q] > 0;
  }

  lemma CarvedKept(m: Mem, m2: Mem, m3: Mem, m': Mem, t: Tile, r: Tile, t': Tile, f': Free, base: int, top: int,
                   s: set<int>, q: int)
    requires |m3| == |m| == |m2| && Tiling(t', base, |m'|)
    requires Kept(m, m3, t, r, s) && Kept(m3, m', r, t', s + {q}) && q in r && SameBlock(m2, m3, q, r[q])
    ensures Kept(m, m', t, t', s) && q in t' && t'[q] == r[q] && SameBlock(m2, m', q, t'[q])
  {
    assert q in s + {q};
    forall w {:trigger w in s} | w in s ensures w in t && w in t' && t'[w] == t[w] && SameBlock(m, m', w, t[w]) {
      assert w in s + {q};
      assert SameBlock(m, m3, w, t[w]) && SameBlock(m3, m', w, r[w]);
    }
  }

  // ----- what the user does with a block -----

  /** Only words of the block in chunk `p` differ. */
  ghost predicate UserWrites(m: Mem, m': Mem, t: Tile, p: int)
    requires p in t
  {
    |m'| == |m| && forall x {:trigger m'[x]} :: 0 <= x < |m| && m'[x] != m[x] ==> p + 8 <= x < Next(t, p) + 4
  }

  /** Whatever is written into a block in use, the heap does not notice; nor do other blocks. */
  lemma Written(m: Mem, m': Mem, t: Tile, f: Free, base: int, top: int, p: int)
    requires Shape(m, t, f, base, top) && Used(t, f, top, p) && UserWrites(m, m', t, p)
    ensures Shape(m', t, f, base, top) && Kept(m, m', t, t, LiveIn(t, f, top) - {p})
  {
    var e := Next(t, p);
    UsedChunk(m, t, f, base, top, p);
    RetileSame(t, base, |m|, p);
    assert Stretch(m, t, f, base, top, p, p, e);
    StretchHas(m, t, f, base, top, p, p, e);
    StretchRecut(m, t, f, base, top, p, p, e, e);
    assert Outside(t, f, p, p, e) == f;
    var s := LiveIn(t, f, top) - {p};
    forall w {:trigger w in s} | w in s
      ensures w in t && w !in f && (w < p || e <= w)
    {
      StretchWithin(m, t, f, base, top, p, p, e, w);
    }
    RecutTop(t, base, |m|, top, p, e);
    Recutted(m, m, m', t, f, f, base, top, p, e, e, s);
  }
}
