/** How realloc extends a block where it is: into the top chunk, forward, or backward. */
module Growing {
  import opened Chunks
  import opened Bins
  import opened BinBlocks
  import opened HeapSteps
  import opened HeapFree
  import opened Extending
  import opened TopServing
  import opened Freeing
  import opened Recutting
  import opened Stretches

  // ----- into the top chunk -----

  /** The stores that make [q, cut) a block and [cut, end) the top chunk. */
  function IntoTopMem(m2: Mem, q: int, cut: int): (r: Mem)
    requires AddrOk(m2, q) && AddrOk(m2, cut)
    ensures |r| == |m2|
  { SetHeadSize(SetHead(m2, cut, |m2| - cut + 1), q, cut - q) }

  lemma IntoTopWords(m2: Mem, q: int, cut: int)
    requires AddrOk(m2, q) && AddrOk(m2, cut) && q + 16 <= cut
    ensures Local(m2, IntoTopMem(m2, q, cut), q, |m2|) && SameBlock(m2, IntoTopMem(m2, q, cut), q, cut - q)
    ensures Head(IntoTopMem(m2, q, cut), cut) == |m2| - cut + 1
    ensures Head(IntoTopMem(m2, q, cut), q) == Head(m2, q) % 2 + (cut - q)
  {}

  lemma IntoTop(m: Mem, m1: Mem, m2: Mem, t: Tile, f: Free, f1: Free, base: int, top: int, q: int, cut: int)
    requires CanRecut(m, t, f, f1, base, top, q, cut, |m|) && Prepared(m, m1, m2, f, f1, q, |m|)
    ensures AddrOk(m2, q) && AddrOk(m2, cut)
    ensures Recut(m, m1, IntoTopMem(m2, q, cut), t, f, f1, base, top, q, cut, |m|)
    ensures SameBlock(m2, IntoTopMem(m2, q, cut), q, cut - q)
  {
    RecutAligned(t, base, |m|, q, cut, |m|);
    assert t[q] > 0;
    PreparedHeads(m, m1, m2, t, f, f1, base, q, |m|);
    HeaderOf(m, t, f.Keys, top, q);
    Flag(Head(m2, q), t[q]);
    IntoTopWords(m2, q, cut);
  }

  lemma TopTaken(m: Mem, m1: Mem, m2: Mem, t: Tile, f: Free, f1: Free, base: int, top: int, q: int, cut: int,
                 s: set<int>)
    requires CanRecut(m, t, f, f1, base, top, q, cut, |m|) && cut < |m| && Prepared(m, m1, m2, f, f1, q, |m|)
      && InUseWithin(t, f, top, q, |m|, s)
    ensures AddrOk(m2, q) && AddrOk(m2, cut) && Shape(IntoTopMem(m2, q, cut), Retile(t, q, cut, |m|), f1, base, cut)
    ensures Kept(m, IntoTopMem(m2, q, cut), t, Retile(t, q, cut, |m|), LiveIn(t, f, top) - s)
    ensures SameBlock(m2, IntoTopMem(m2, q, cut), q, cut - q) && |m2| == |m|
  {
    var live := LiveIn(t, f, top) - s;
    IntoTop(m, m1, m2, t, f, f1, base, top, q, cut);
    forall w {:trigger w in live} | w in live
      ensures w in t && w !in f && (w < q || |m| <= w)
    {
      assert w in s <==> q <= w < |m|;
    }
    Recutted(m, m1, IntoTopMem(m2, q, cut), t, f, f1, base, top, q, cut, |m|, live);
  }

  /** Use the front of the stretch [q, end), the rest of which becomes the top chunk. */
  method TakeTop(ghost m: Mem, ghost m1: Mem, m2: Mem, lim: Limits, bb: nat, g: Globals, q: int, nb: int, ghost t: Tile,
                 ghost f: Free, ghost f1: Free, ghost base: int, ghost s: set<int>)
    returns (m': Mem, g': Globals, ghost t': Tile)
    requires Ready(m, lim, g, t, f, base) && Marks(bb, f) && g.sbrkBase != NO_BASE
    requires CanRecut(m, t, f, f1, base, g.top, q, q + nb, |m|) && q + nb < |m|
    requires Prepared(m, m1, m2, f, f1, q, |m|) && InUseWithin(t, f, g.top, q, |m|, s)
    ensures Consistent(m', lim, bb, g', t', f1, base) && g'.sbrkBase == g.sbrkBase
    ensures LiveIn(t', f1, g'.top) == LiveIn(t, f, g.top) - s + {q} && Kept(m, m', t, t', LiveIn(t, f, g.top) - s)
    ensures q in t' && t'[q] == nb && SameBlock(m2, m', q, t'[q])
  {
    var cut := q + nb;
    TopTaken(m, m1, m2, t, f, f1, base, g.top, q, cut, s);
    RecutLive(m, t, f, f1, base, g.top, q, cut, |m|, s);
    MarksFewer(bb, f, f1);
    m' := SetHeadSize(SetHead(m2, cut, |m2| - cut + 1), q, nb);
    g' := g.(top := cut);
    t' := Retile(t, q, cut, |m|);
  }

  // ----- what realloc promises -----

  function Min(a: int, b: int): int { if a < b then a else b }

  /** The block of `p`, with its contents, has become that of `r`; nothing else in use has changed. */
  ghost predicate Reallocated(m: Mem, m': Mem, g: Globals, g': Globals, t: Tile, f: Free, t': Tile, f': Free, nb: int,
                              p: int, r: int) {
    && p in t && r in t' && nb <= t'[r] < nb + MINSIZE
    && LiveIn(t', f', g'.top) == LiveIn(t, f, g.top) - {p} + {r}
    && Kept(m, m', t, t', LiveIn(t, f, g.top) - {p})
    && SameWords(m, p + 8, m', r + 8, (Min(t[p], t'[r]) - 4) / 4)
  }

  lemma LinkedBlock(m: Mem, m1: Mem, t: Tile, f: Free, base: int, top: int, p: int)
    requires Shape(m, t, f, base, top) && Used(t, f, top, p) && LinkWords(m, m1, f.Keys)
    ensures SameBlock(m, m1, p, t[p])
  {
    LiveKept(m, m1, t, f.Keys, base, |m|, base, base, p);
  }

  lemma BlockWords(m: Mem, m1: Mem, m': Mem, a: int, s: int, b: int, s': int, moved: Mem)
    requires 0 <= a && a + s + 4 <= |m| && 0 <= b && b + s' + 4 <= |m'| && |m| <= |m1| == |moved|
    requires b + Min(s, s') + 4 <= |moved|
    requires SameBlock(m, m1, a, s) && SameWords(m1, a + 8, moved, b + 8, (s - 4) / 4) && SameBlock(moved, m', b, s')
    ensures SameWords(m, a + 8, m', b + 8, (Min(s, s') - 4) / 4)
  {
    forall k {:trigger Word(m', b + 8, k)} | 0 <= k < (Min(s, s') - 4) / 4
      ensures Word(m', b + 8, k) == Word(m, a + 8, k)
    {
      assert Word(moved, b + 8, k) == Word(m1, a + 8, k);
      assert m1[a + 8 + 4 * k] == m[a + 8 + 4 * k];
      assert m'[b + 8 + 4 * k] == moved[b + 8 + 4 * k];
    }
  }

  lemma SameWordsSame(m: Mem, a: int, n: int)
    ensures SameWords(m, a, m, a, n)
  {}

  // ----- forward -----

  /** The test for room in the top chunk, on longs. */
  function TopRoom(room: int, nb: int): bool
    requires 0 <= room < ULONG && 0 <= nb < ULONG
  { ToLong(room) >= ToLong((nb + MINSIZE) % ULONG) }

  /** It tells whether there is room, or the padded size plus MINSIZE is no long. */
  lemma TopRoomIs(room: int, nb: int)
    requires 0 <= room < 0x8000_0000 && MINSIZE <= nb < 0x8000_0000
    ensures TopRoom(room, nb) <==> room >= nb + MINSIZE || nb + MINSIZE >= 0x8000_0000
  {}

  /** The test for room in the top chunk is right, or not made. */
  ghost predicate RoomTested(t: Tile, top: int, p: int, nb: int)
    requires p in t
  { nb + MINSIZE < 0x8000_0000 || Next(t, p) != top }

  /** If not, it is passed without the room, and top is put behind the end of memory, as realloc sets it: at p + nb. */
  lemma RoomNotTested(m: Mem, t: Tile, f: Free, base: int, top: int, p: int, nb: int)
    requires Shape(m, t, f, base, top) && Used(t, f, top, p) && |m| < 0x8000_0000 && MINSIZE <= nb < 0x8000_0000
      && !RoomTested(t, top, p, nb)
    ensures top in t && 0 <= t[p] + t[top] < 0x8000_0000 && TopRoom(t[p] + t[top], nb) && t[p] < nb
    ensures !ForwardRoom(t, f, top, p, nb, 0) && |m| < p + nb
  {
    UsedChunk(m, t, f, base, top, p);
    TopChunk(m, t, f, base, top);
    TopRoomIs(t[p] + t[top], nb);
  }

  /** What realloc does then: it keeps the block, with a size that ends behind the end of memory, and top there. */
  method PastTheEnd(m: Mem, lim: Limits, bb: nat, g: Globals, p: int, nb: int, ghost t: Tile, ghost f: Free,
                    ghost base: int)
    returns (m': Mem, g': Globals)
    requires Ready(m, lim, g, t, f, base) && Used(t, f, g.top, p) && MINSIZE <= nb < 0x8000_0000 && nb % 8 == 0
      && !RoomTested(t, g.top, p, nb)
    ensures AddrOk(m', p) && ChunkSize(m', p) == nb && g' == g.(top := p + nb) && |m'| == |m| < g'.top
      && !Sound(m', lim, bb, g')
  {
    RoomNotTested(m, t, f, base, g.top, p, nb);
    UsedChunk(m, t, f, base, g.top, p);
    Flag(Head(m, p), t[p]);
    m' := SetHeadSize(m, p, nb);
    g' := g.(top := p + nb);                       // its header is written outside the region
    NoTopBehind(m', lim, bb, g');
  }

  /** The chunk that follows leaves room enough; the top chunk must keep a chunk of its own. */
  ghost predicate ForwardRoom(t: Tile, f: Free, top: int, p: int, nb: int, back: int)
    requires p in t
  {
    var next := Next(t, p);
    next in t && if next == top then back + t[p] + t[next] >= nb + MINSIZE else next in f && back + t[p] + t[next] >= nb
  }

  method GrowForward(m: Mem, lim: Limits, bb: nat, g: Globals, p: int, oldsize: int, nb: int, ghost t: Tile,
                     ghost f: Free, ghost base: int)
    returns (grown: bool, m': Mem, bb': nat, g': Globals, ghost t': Tile, ghost f': Free)
    requires Ready(m, lim, g, t, f, base) && Marks(bb, f) && g.sbrkBase != NO_BASE && Used(t, f, g.top, p)
    requires t[p] == oldsize < nb && MINSIZE <= nb < 0x8000_0000 && RoomTested(t, g.top, p, nb) && nb % 8 == 0
    ensures grown <==> ForwardRoom(t, f, g.top, p, nb, 0)
    ensures grown ==>
      Consistent(m', lim, bb', g', t', f', base) && g'.sbrkBase == g.sbrkBase
      && Reallocated(m, m', g, g', t, f, t', f', nb, p, p)
  {
    m', bb', g', t', f', grown := m, bb, g, t, f, false;
    UsedChunk(m, t, f, base, g.top, p);
    var next := p + oldsize;
    assert next == Next(t, p);
    var nextsize := ChunkSize(m, next);
    if next == g.top {
      TopChunk(m, t, f, base, g.top);
      TopRoomIs(oldsize + nextsize, nb);
      if TopRoom(oldsize + nextsize, nb) {
        m', bb', g', t', f' := ForwardIntoTop(m, lim, bb, g, p, nb, t, f, base);
        grown := true;
      }
    } else {
      ForwardBit(m, t, f, base, g.top, next);
      if Head(m, next + nextsize) % 2 == 0 && oldsize + nextsize >= nb {
        m', bb', g', t', f' := ForwardIntoNext(m, lim, bb, g, p, next, oldsize + nextsize, nb, t, f, base);
        grown := true;
      }
    }
  }

  lemma UpToTheEnd(m: Mem, t: Tile, f: Free, base: int, top: int, p: int, nb: int)
    requires Shape(m, t, f, base, top) && Used(t, f, top, p) && Next(t, p) == top && top in t
    requires t[p] < nb && MINSIZE <= nb && nb % 8 == 0 && t[p] + t[top] >= nb + MINSIZE
    ensures CanRecut(m, t, f, f, base, top, p, p + nb, |m|) && p + nb < |m|
    ensures Prepared(m, m, m, f, f, p, |m|) && InUseWithin(t, f, top, p, |m|, {p})
  {
    TopChunk(m, t, f, base, top);
    assert p + nb + MINSIZE <= |m|;
    StretchToEnd(m, t, f, base, top, p, p + nb);
  }

  lemma StretchToEnd(m: Mem, t: Tile, f: Free, base: int, top: int, p: int, cut: int)
    requires Shape(m, t, f, base, top) && Used(t, f, top, p) && Next(t, p) == top && p + MINSIZE <= cut <= |m| - MINSIZE
      && cut % 8 == 0
    ensures CanRecut(m, t, f, f, base, top, p, cut, |m|) && Prepared(m, m, m, f, f, p, |m|)
      && InUseWithin(t, f, top, p, |m|, {p})
  {
    assert Stretch(m, t, f, base, top, p, p, |m|);
    StretchHas(m, t, f, base, top, p, p, |m|);
    StretchRecut(m, t, f, base, top, p, p, cut, |m|);
    StretchLive(m, t, f, base, top, p, p, |m|);
    NothingTaken(t, f, p, top, |m|);
  }

  lemma NothingTaken(t: Tile, f: Free, p: int, top: int, e: int)
    requires p in t && Next(t, p) == top && top !in f
    ensures Outside(t, f, p, p, e) == f
  {}

  method ForwardIntoTop(m: Mem, lim: Limits, bb: nat, g: Globals, p: int, nb: int, ghost t: Tile, ghost f: Free,
                        ghost base: int)
    returns (m': Mem, bb': nat, g': Globals, ghost t': Tile, ghost f': Free)
    requires Ready(m, lim, g, t, f, base) && Marks(bb, f) && g.sbrkBase != NO_BASE && Used(t, f, g.top, p)
      && Next(t, p) == g.top
    requires g.top in t && t[p] < nb && MINSIZE <= nb && nb % 8 == 0 && t[p] + t[g.top] >= nb + MINSIZE
    ensures Consistent(m', lim, bb', g', t', f', base) && g'.sbrkBase == g.sbrkBase
      && Reallocated(m, m', g, g', t, f, t', f', nb, p, p)
  {
    UpToTheEnd(m, t, f, base, g.top, p, nb);
    m', g', t' := TakeTop(m, m, m, lim, bb, g, p, nb, t, f, f, base, {p});
    bb', f' := bb, f;
    Grown(m, m, m, m', lim, bb, bb', g, g', t, f, t', f', base, nb, p, p);
  }

  /** A block that has been extended, and perhaps moved down, keeps its contents. */
  lemma Grown(m: Mem, m1: Mem, m2: Mem, m': Mem, lim: Limits, bb: nat, bb': nat, g: Globals, g': Globals, t: Tile,
              f: Free, t': Tile, f': Free, base: int, nb: int, p: int, r: int)
    requires Consistent(m, lim, bb, g, t, f, base) && p in LiveIn(t, f, g.top) && LinkWords(m, m1, f.Keys) && r <= p
      && |m2| == |m|
    requires p in t && SameWords(m1, p + 8, m2, r + 8, (t[p] - 4) / 4)
    requires Consistent(m', lim, bb', g', t', f', base) && LiveIn(t', f', g'.top) == LiveIn(t, f, g.top) - {p} + {r}
    requires r in t' && nb <= t'[r] < nb + MINSIZE && SameBlock(m2, m', r, t'[r])
    requires Kept(m, m', t, t', LiveIn(t, f, g.top) - {p})
    ensures Reallocated(m, m', g, g', t, f, t', f', nb, p, r)
  {
    EndsBelow(m, lim, bb, g, t, f, base, p);
    EndsBelow(m', lim, bb', g', t', f', base, r);
    LiveReady(m, lim, bb, g, t, f, base, p);
    LinkedBlock(m, m1, t, f, base, g.top, p);
    BlockWords(m, m1, m', p, t[p], r, t'[r], m2);
  }

  method ForwardIntoNext(m: Mem, lim: Limits, bb: nat, g: Globals, p: int, next: int, newsize: int, nb: int,
                         ghost t: Tile, ghost f: Free, ghost base: int)
    returns (m': Mem, bb': nat, g': Globals, ghost t': Tile, ghost f': Free)
    requires Ready(m, lim, g, t, f, base) && Marks(bb, f) && g.sbrkBase != NO_BASE && Used(t, f, g.top, p)
      && Next(t, p) == next
    requires next in f && next in t && newsize == t[p] + t[next] && MINSIZE <= nb <= newsize && nb % 8 == 0
    ensures Consistent(m', lim, bb', g', t', f', base) && g'.sbrkBase == g.sbrkBase
      && Reallocated(m, m', g, g', t, f, t', f', nb, p, p)
  {
    UnlinkAll(m, f, next);
    var m1 := UnlinkMem(m, next);
    ghost var e, f1 := Next(t, next), f - {next};
    FreeChunk(m, t, f, base, g.top, next);
    assert Stretch(m, t, f, base, g.top, p, p, e);
    StretchHas(m, t, f, base, g.top, p, p, e);
    StretchRecut(m, t, f, base, g.top, p, p, e, e);
    StretchLive(m, t, f, base, g.top, p, p, e);
    assert Outside(t, f, p, p, e) == f1;
    m', bb', g', t', f' := Carve(m, m1, m1, lim, bb, g, p, newsize, nb, t, f, f1, base, {p});
    Grown(m, m1, m1, m', lim, bb, bb', g, g', t, f, t', f', base, nb, p, p);
  }

  // ----- backward -----

  /** The block's words are copied down to the chunk `q` before it. */
  method ShiftDown(ghost m: Mem, m1: Mem, p: int, q: int, oldsize: int, ghost f: Free, ghost f1: Free, ghost e: int)
    returns (m2: Mem)
    requires 0 <= q <= p && 8 <= oldsize && oldsize % 8 == 0 && p + oldsize + 4 <= |m1| && q + oldsize <= e
    requires LinkWords(m, m1, f.Keys) && Lists(m1, f1)
    ensures Prepared(m, m1, m2, f, f1, q, e) && SameWords(m1, p + 8, m2, q + 8, (oldsize - 4) / 4)
  {
    m2 := Copy(m1, q + 8, p + 8, oldsize - 4);
  }

  method BackwardIntoTop(m: Mem, lim: Limits, bb: nat, g: Globals, p: int, prev: int, oldsize: int, nb: int,
                         ghost t: Tile, ghost f: Free, ghost base: int)
    returns (m': Mem, bb': nat, g': Globals, ghost t': Tile, ghost f': Free)
    requires Ready(m, lim, g, t, f, base) && Marks(bb, f) && g.sbrkBase != NO_BASE && Used(t, f, g.top, p)
      && Next(t, p) == g.top
    requires prev in f && prev in t && Next(t, prev) == p && oldsize == t[p]
    requires g.top in t && MINSIZE <= nb && nb % 8 == 0 && t[prev] + t[p] + t[g.top] >= nb + MINSIZE
    ensures Consistent(m', lim, bb', g', t', f', base) && g'.sbrkBase == g.sbrkBase
      && Reallocated(m, m', g, g', t, f, t', f', nb, p, prev)
  {
    ghost var e, f1 := |m|, f - {prev};
    TopChunk(m, t, f, base, g.top);
    FreeChunk(m, t, f, base, g.top, prev);
    UsedChunk(m, t, f, base, g.top, p);
    UnlinkAll(m, f, prev);
    var m1 := UnlinkMem(m, prev);
    assert Stretch(m, t, f, base, g.top, p, prev, e);
    StretchHas(m, t, f, base, g.top, p, prev, e);
    StretchRecut(m, t, f, base, g.top, p, prev, prev + nb, e);
    StretchLive(m, t, f, base, g.top, p, prev, e);
    assert Outside(t, f, p, prev, e) == f1;
    var m2 := ShiftDown(m, m1, p, prev, oldsize, f, f1, e);
    m', g', t' := TakeTop(m, m1, m2, lim, bb, g, prev, nb, t, f, f1, base, {p});
    bb', f' := bb, f1;
    Grown(m, m1, m2, m', lim, bb, bb', g, g', t, f, t', f', base, nb, p, prev);
  }

  /** The free chunks before and after `p` are taken off their lists. */
  method UnlinkAround(m: Mem, ghost p: int, prev: int, next: int, ghost t: Tile, ghost f: Free, ghost base: int,
                      ghost top: int, ghost e: int)
    returns (m1: Mem)
    requires Shape(m, t, f, base, top) && Used(t, f, top, p) && prev in f && prev in t && Next(t, prev) == p
    requires if next == 0 then e == Next(t, p) else next == Next(t, p) && next in f && next in t && e == Next(t, next)
    ensures LinkWords(m, m1, f.Keys) && Lists(m1, Outside(t, f, p, prev, e)) && |m1| == |m|
  {
    m1 := m;
    ghost var f0 := f;
    assert t[prev] > 0 && t[p] > 0;
    if next != 0 {
      FreeChunk(m, t, f, base, top, next);
      UnlinkAll(m, f, next);
      m1 := UnlinkMem(m, next);
      f0 := f - {next};
    }
    UnlinkAll(m1, f0, prev);
    m1 := UnlinkMem(m1, prev);
    assert f0 - {prev} == Outside(t, f, p, prev, e);
  }

  /** The stretch from the chunk before `p` to `e`. */
  lemma FromPrev(m: Mem, t: Tile, f: Free, base: int, top: int, p: int, prev: int, e: int)
    requires Shape(m, t, f, base, top) && Used(t, f, top, p) && prev in f && prev in t && Next(t, prev) == p
    requires e == Next(t, p) || (Next(t, p) in f && Next(t, p) in t && e == Next(t, Next(t, p)))
    ensures CanRecut(m, t, f, Outside(t, f, p, prev, e), base, top, prev, e, e) && InUseWithin(t, f, top, prev, e, {p})
    ensures e in t && Next(t, p) <= e && ARENA <= prev && AddrOk(m, prev) && Next(t, p) in t && t[p] % 8 == 0
      && e % 8 == 0
  {
    assert Stretch(m, t, f, base, top, p, prev, e);
    StretchHas(m, t, f, base, top, p, prev, e);
    UsedChunk(m, t, f, base, top, p);
    if Next(t, p) in f { FreeChunk(m, t, f, base, top, Next(t, p)); }
    StretchRecut(m, t, f, base, top, p, prev, e, e);
    StretchLive(m, t, f, base, top, p, prev, e);
  }

  /** Into the free chunk before, and if `next` is not 0, the free chunk after. */
  method BackwardIntoPrev(m: Mem, lim: Limits, bb: nat, g: Globals, p: int, prev: int, next: int, oldsize: int,
                          newsize: int, nb: int, ghost t: Tile, ghost f: Free, ghost base: int)
    returns (m': Mem, bb': nat, g': Globals, ghost t': Tile, ghost f': Free)
    requires Ready(m, lim, g, t, f, base) && Marks(bb, f) && g.sbrkBase != NO_BASE && Used(t, f, g.top, p)
    requires prev in f && prev in t && Next(t, prev) == p && oldsize == t[p]
    requires next != 0 ==> next == Next(t, p) && next in f && next in t
    requires newsize == t[prev] + t[p] + (if next == 0 then 0 else t[next]) && MINSIZE <= nb <= newsize && nb % 8 == 0
    ensures Consistent(m', lim, bb', g', t', f', base) && g'.sbrkBase == g.sbrkBase
      && Reallocated(m, m', g, g', t, f, t', f', nb, p, prev)
  {
    ghost var e := if next == 0 then Next(t, p) else Next(t, next);
    ghost var f1 := Outside(t, f, p, prev, e);
    var m1 := UnlinkAround(m, p, prev, next, t, f, base, g.top, e);
    FromPrev(m, t, f, base, g.top, p, prev, e);
    var m2 := ShiftDown(m, m1, p, prev, oldsize, f, f1, e);
    m', bb', g', t', f' := Carve(m, m1, m2, lim, bb, g, prev, newsize, nb, t, f, f1, base, {p});
    Grown(m, m1, m2, m', lim, bb, bb', g, g', t, f, t', f', base, nb, p, prev);
  }

  /** The free chunk before, together with one after or alone, leaves room enough. */
  ghost predicate BackwardRoom(m: Mem, t: Tile, f: Free, top: int, p: int, nb: int)
    requires p in t && AddrOk(m, p)
  {
    !PrevInuse(m, p) && (ForwardRoom(t, f, top, p, nb, Foot(m, p)) || Foot(m, p) + t[p] >= nb)
  }

  /** The free chunk before a block whose P bit is clear. */
  lemma ChunkBefore(m: Mem, lim: Limits, g: Globals, p: int, t: Tile, f: Free, base: int)
    requires Ready(m, lim, g, t, f, base) && Used(t, f, g.top, p) && AddrOk(m, p) && Head(m, p) % 2 == 0
    ensures var prev := p - Foot(m, p);
      prev in f && prev in t && Next(t, prev) == p && Foot(m, p) == t[prev] && AddrOk(m, prev)
        && ChunkSize(m, prev) == t[prev] && prev >= ARENA
  {
    BackChunk(m, t, f, base, g.top, p);
    FreeChunk(m, t, f, base, g.top, p - Foot(m, p));
  }

  /** The chunk after it; and before `top` there is room for less than 2^31 bytes. */
  lemma ChunkAfter(m: Mem, lim: Limits, g: Globals, p: int, t: Tile, f: Free, base: int)
    requires Ready(m, lim, g, t, f, base) && Used(t, f, g.top, p)
    ensures var next := Next(t, p);
      && next in t && AddrOk(m, next) && ChunkSize(m, next) == t[next] && t[next] > 0
      && (next == g.top ==> next + t[next] < 0x8000_0000)
      && (next != g.top ==> AddrOk(m, next + t[next]) && (Head(m, next + t[next]) % 2 == 0 <==> next in f))
  {
    UsedChunk(m, t, f, base, g.top, p);
    var next := Next(t, p);
    assert t[next] > 0;
    if next == g.top {
      TopChunk(m, t, f, base, g.top);
    } else {
      ForwardBit(m, t, f, base, g.top, next);
    }
  }

  method GrowBackward(m: Mem, lim: Limits, bb: nat, g: Globals, p: int, oldsize: int, nb: int, ghost t: Tile,
                      ghost f: Free, ghost base: int)
    returns (r: int, m': Mem, bb': nat, g': Globals, ghost t': Tile, ghost f': Free)
    requires Ready(m, lim, g, t, f, base) && Marks(bb, f) && g.sbrkBase != NO_BASE && Used(t, f, g.top, p)
    requires t[p] == oldsize < nb && MINSIZE <= nb < 0x8000_0000 && RoomTested(t, g.top, p, nb) && nb % 8 == 0
      && AddrOk(m, p)
    ensures r != 0 <==> BackwardRoom(m, t, f, g.top, p, nb)
    ensures r != 0 ==> r == p - Foot(m, p)
    ensures r != 0 ==>
      Consistent(m', lim, bb', g', t', f', base) && g'.sbrkBase == g.sbrkBase
      && Reallocated(m, m', g, g', t, f, t', f', nb, p, r)
  {
    r, m', bb', g', t', f' := 0, m, bb, g, t, f;
    if Head(m, p) % 2 == 1 {
      return;
    }
    ChunkBefore(m, lim, g, p, t, f, base);
    ChunkAfter(m, lim, g, p, t, f, base);
    var prev := p - Foot(m, p);
    var prevsize := ChunkSize(m, prev);
    var next := p + oldsize;
    assert next == Next(t, p);
    assert t[p] > 0;
    var nextsize := ChunkSize(m, next);
    if next == g.top {
      TopRoomIs(nextsize + prevsize + oldsize, nb);
      if TopRoom(nextsize + prevsize + oldsize, nb) {
        m', bb', g', t', f' := BackwardIntoTop(m, lim, bb, g, p, prev, oldsize, nb, t, f, base);
        r := prev;
        return;
      }
    } else {
      if Head(m, next + nextsize) % 2 == 0 && nextsize + prevsize + oldsize >= nb {
        m', bb', g', t', f' :=
          BackwardIntoPrev(m, lim, bb, g, p, prev, next, oldsize, nextsize + prevsize + oldsize, nb, t, f, base);
        r := prev;
        return;
      }
    }
    if prevsize + oldsize >= nb {
      m', bb', g', t', f' := BackwardIntoPrev(m, lim, bb, g, p, prev, 0, oldsize, prevsize + oldsize, nb, t, f, base);
      r := prev;
    }
  }
}
