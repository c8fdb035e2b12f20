/** What the stores of each operation do to the heap invariant. */
module HeapSteps {
  import opened Chunks
  import opened Bins
  import opened Search

  /** The heap invariant of an arena that has been set up. */
  ghost predicate Shape(m: Mem, t: Tile, f: Free, base: int, top: int) {
    && Tiling(t, base, |m|) && TopLast(t, top, |m|)
    && Headers(m, t, f.Keys, top)
    && Lists(m, f) && Binned(t, f)
  }

  lemma CommitHeaders(m: Mem, m': Mem, t: Tile, f: Free, f': Free, base: int, top: int, q: int, cut: int, e: int,
                      lastFree: bool)
    requires Shape(m, t, f, base, top) && |m'| == |m| && CanRetile(t, base, |m|, q, cut, e)
    requires Rewritten(m, m', t, q, cut, e, lastFree) && FreeAfter(t, f.Keys, f'.Keys, q, cut, e, lastFree)
    requires Consolidated(m, t, f.Keys, NewTop(top, |m|, q, cut, e), |m|, q, cut, e, lastFree)
    requires Lists(m', f') && Binned(Retile(t, q, cut, e), f')
    ensures Shape(m', Retile(t, q, cut, e), f', base, NewTop(top, |m|, q, cut, e))
  {
    RewrittenTiling(t, base, |m|, top, q, cut, e);
    RewrittenHeaders(m, m', t, f.Keys, f'.Keys, base, |m|, top, q, cut, e, lastFree);
  }

  /** The live blocks `s` are where and what they were. */
  ghost predicate Kept(m: Mem, m': Mem, t: Tile, t': Tile, s: set<int>) {
    forall w {:trigger w in s} :: w in s ==> w in t && w in t' && t'[w] == t[w] && SameBlock(m, m', w, t[w])
  }

  lemma CommitKept(m: Mem, m': Mem, t: Tile, f: Free, base: int, top: int, q: int, cut: int, e: int, s: set<int>)
    requires Shape(m, t, f, base, top) && |m'| == |m| && CanRetile(t, base, |m|, q, cut, e)
    requires Confined(m, m', f.Keys, q, e)
    requires forall w {:trigger w in s} :: w in s ==> w in t && w !in f && (w < q || e <= w)
    ensures Kept(m, m', t, Retile(t, q, cut, e), s)
  {
    forall w {:trigger w in s} | w in s ensures SameBlock(m, m', w, t[w]) {
      LiveKept(m, m', t, f.Keys, base, |m|, q, e, w);
    }
  }

  lemma HeadersKept(m: Mem, m': Mem, t: Tile, base: int, end: int, f: set<int>)
    requires Tiling(t, base, end) && HeadersAddr(m, t) && LinkWords(m, m', f) && f <= t.Keys
    ensures forall h {:trigger Head(m', h)} {:trigger Foot(m', h)} :: h in t ==>
      AddrOk(m, h) && Head(m', h) == Head(m, h) && Foot(m', h) == Foot(m, h)
  {
    forall h {:trigger Head(m', h)} {:trigger Foot(m', h)} | h in t
      ensures AddrOk(m, h) && Head(m', h) == Head(m, h) && Foot(m', h) == Foot(m, h)
    {
      LinkWordsKeepHeader(m, m', t, base, end, f, h);
    }
  }

  lemma RetileSame(t: Tile, base: int, end: int, v: int)
    requires Tiling(t, base, end) && v in t
    ensures Retile(t, v, Next(t, v), Next(t, v)) == t
  {
    assert t[v] > 0;
    forall h | h in t ensures h == v || h < v || Next(t, v) <= h { assert v < h ==> Ends(t, v, h); }
  }

  /** A free chunk follows a chunk in use, and precedes one other than `top`. */
  lemma FreeChunk(m: Mem, t: Tile, f: Free, base: int, top: int, v: int)
    requires Shape(m, t, f, base, top) && v in f
    ensures v in t && v != top && t[v] % 8 == 0 && MINSIZE <= t[v] && AddrOk(m, v) && ARENA <= v
      && Head(m, v) == t[v] + 1
    ensures Next(t, v) in t && Next(t, v) !in f && Next(t, v) != top && AddrOk(m, Next(t, v)) && ARENA <= Next(t, v)
    ensures Head(m, Next(t, v)) == t[Next(t, v)] && t[Next(t, v)] % 8 == 0 && Next(t, v) < |m|
    ensures CanRetile(t, base, |m|, v, Next(t, v), Next(t, v))
  {
    FreeOf(m, t, f.Keys, top, v);
    HeaderOf(m, t, f.Keys, top, v);
    assert t[v] > 0 && t[Next(t, v)] > 0;
    if Head(m, v) == t[v] {
      FreeOf(m, t, f.Keys, top, v - Foot(m, v));
    }
  }

  lemma CanRead(m: Mem, t: Tile, f: Free, base: int, top: int)
    requires Shape(m, t, f, base, top)
    ensures Readable(m, t, f)
  {
    forall c | c in f
      ensures AddrOk(m, c) && c in t && t[c] % 8 == 0 && (Head(m, c) == t[c] || Head(m, c) == t[c] + 1)
    {
      FreeChunk(m, t, f, base, top, c);
    }
  }

  lemma NotWithin(t: Tile, f: Free, base: int, end: int, v: int)
    requires Tiling(t, base, end) && v in t && v in f
    ensures forall w {:trigger w in t.Keys - f.Keys} :: w in t.Keys - f.Keys ==>
      w in t && w !in f && (w < v || Next(t, v) <= w)
    ensures forall x {:trigger x in f} :: x in f && x in t && v <= x < Next(t, v) ==> x == v
  {
    forall w | w in t ensures w < v || Next(t, v) <= w || w == v { assert v < w ==> Ends(t, v, w); }
  }

  // ----- taking a free chunk whole -----

  function TakenMem(m1: Mem, e: int): Mem requires AddrOk(m1, e) {
    SetHead(m1, e, Head(m1, e) - Head(m1, e) % 2 + 1)
  }

  lemma Taken(m: Mem, m1: Mem, t: Tile, f: Free, base: int, top: int, v: int)
    requires Shape(m, t, f, base, top) && v in f
    requires LinkWords(m, m1, f.Keys) && Lists(m1, f - {v})
    ensures v in t && AddrOk(m1, Next(t, v))
    ensures Shape(TakenMem(m1, Next(t, v)), t, f - {v}, base, top)
    ensures Kept(m, TakenMem(m1, Next(t, v)), t, t, t.Keys - f.Keys)
  {
    FreeChunk(m, t, f, base, top, v);
    var e := Next(t, v);
    var m2 := TakenMem(m1, e);
    TakenLists(m1, t, f, base, e, v);
    RetileSame(t, base, |m|, v);
    BinnedShrinks(t, f, t, f - {v});
    TakenRewritten(m, m1, t, f, base, top, v);
    TakenConfined(m, m1, f, v, e);
    CommitHeaders(m, m2, t, f, f - {v}, base, top, v, e, e, false);
    NotWithin(t, f, base, |m|, v);
    CommitKept(m, m2, t, f, base, top, v, e, e, t.Keys - f.Keys);
  }

  lemma TakenLists(m1: Mem, t: Tile, f: Free, base: int, e: int, v: int)
    requires Tiling(t, base, |m1|) && f.Keys <= t.Keys && Lists(m1, f - {v})
    requires e in t && AddrOk(m1, e) && ARENA <= e
    ensures Lists(TakenMem(m1, e), f - {v})
  {
    SetHeadKeepsLists(m1, e, Head(m1, e) - Head(m1, e) % 2 + 1, t, base, |m1|, f - {v});
  }

  lemma TakenRewritten(m: Mem, m1: Mem, t: Tile, f: Free, base: int, top: int, v: int)
    requires Shape(m, t, f, base, top) && v in f && v in t
    requires LinkWords(m, m1, f.Keys)
    ensures AddrOk(m1, Next(t, v))
    ensures Rewritten(m, TakenMem(m1, Next(t, v)), t, v, Next(t, v), Next(t, v), false)
  {
    FreeChunk(m, t, f, base, top, v);
    HeadersKept(m, m1, t, base, |m|, f.Keys);
    RetileSame(t, base, |m|, v);
    WholeRewritten(m, m1, t, v);
  }

  lemma WholeRewritten(m: Mem, m1: Mem, t: Tile, v: int)
    requires HeadersAddr(m, t) && |m1| == |m| && v in t && Next(t, v) in t && AddrOk(m, v) && AddrOk(m1, Next(t, v))
    requires Retile(t, v, Next(t, v), Next(t, v)) == t
    requires Head(m1, Next(t, v)) == t[Next(t, v)] && t[Next(t, v)] % 8 == 0 && t[v] >= MINSIZE
    requires forall h {:trigger Head(m1, h)} {:trigger Foot(m1, h)} :: h in t ==>
      AddrOk(m, h) && Head(m1, h) == Head(m, h) && Foot(m1, h) == Foot(m, h)
    ensures Rewritten(m, TakenMem(m1, Next(t, v)), t, v, Next(t, v), Next(t, v), false)
  {}

  lemma TakenConfined(m: Mem, m1: Mem, f: Free, v: int, e: int)
    requires LinkWords(m, m1, f.Keys) && AddrOk(m1, e) && v <= e
    ensures Confined(m, TakenMem(m1, e), f.Keys, v, e)
  {}

  // ----- splitting a free chunk: its first bytes are used, the rest stays free -----

  function SplitMem(m3: Mem, cut: int, e: int): (r: Mem)
    requires AddrOk(m3, cut) && AddrOk(m3, e)
    ensures |r| == |m3|
  { SetFoot(SetHead(m3, cut, e - cut + 1), e, e - cut) }

  ghost predicate CanSplit(m: Mem, t: Tile, f: Free, base: int, top: int, v: int, cut: int) {
    && Shape(m, t, f, base, top) && v in f && v in t
    && v + MINSIZE <= cut <= Next(t, v) - MINSIZE && cut % 8 == 0
  }

  lemma SplitFits(m: Mem, t: Tile, f: Free, base: int, top: int, v: int, nb: int)
    requires Shape(m, t, f, base, top) && v in f && v in t && MINSIZE <= nb <= t[v] - MINSIZE && nb % 8 == 0
    ensures CanSplit(m, t, f, base, top, v, v + nb)
  {
    FreeChunk(m, t, f, base, top, v);
  }

  lemma SplitTiles(m: Mem, t: Tile, f: Free, base: int, top: int, v: int, cut: int)
    requires CanSplit(m, t, f, base, top, v, cut)
    ensures var e := Next(t, v); var r := Retile(t, v, cut, e);
      && CanRetile(t, base, |m|, v, cut, e) && Tiling(r, base, |m|) && HeadersAddr(m, r)
      && AddrOk(m, cut) && ARENA <= cut && cut !in t && cut !in f && cut in r && v in r && e in r && r[v] == cut - v
        && r[cut] == e - cut
      && f.Keys + {cut} <= r.Keys
      && FreeAfter(t, f.Keys, f.Keys - {v} + {cut}, v, cut, e, true)
  {
    FreeChunk(m, t, f, base, top, v);
    var e := Next(t, v);
    RetileTiling(t, base, |m|, v, cut, e);
    assert t[v] > 0 && t[e] > 0;
    if cut in t { NoTileInside(t, base, |m|, v, cut); }
    NotWithin(t, f, base, |m|, v);
  }

  lemma SplitRewritten(m: Mem, m1: Mem, m3: Mem, t: Tile, f: Free, base: int, top: int, v: int, cut: int)
    requires CanSplit(m, t, f, base, top, v, cut)
    requires AddrOk(m, v) && m1 == SetHead(m, v, cut - v + 1) && LinkWords(m1, m3, f.Keys + {cut})
    ensures AddrOk(m3, cut) && AddrOk(m3, Next(t, v))
    ensures Rewritten(m, SplitMem(m3, cut, Next(t, v)), t, v, cut, Next(t, v), true)
  {
    FreeChunk(m, t, f, base, top, v);
    SplitTiles(m, t, f, base, top, v, cut);
    HeadersKept(m1, m3, Retile(t, v, cut, Next(t, v)), base, |m|, f.Keys + {cut});
    SplitHeads(m, m1, m3, t, v, cut);
  }

  lemma SplitHeads(m: Mem, m1: Mem, m3: Mem, t: Tile, v: int, cut: int)
    requires HeadersAddr(m, t) && v in t && Next(t, v) in t && v < cut < Next(t, v)
      && HeadersAddr(m, Retile(t, v, cut, Next(t, v)))
    requires AddrOk(m, v) && Head(m, v) == t[v] + 1 && m1 == SetHead(m, v, cut - v + 1) && |m3| == |m|
    requires AddrOk(m, cut) && AddrOk(m, Next(t, v)) && Head(m, Next(t, v)) == t[Next(t, v)]
    requires forall h {:trigger Head(m3, h)} {:trigger Foot(m3, h)} :: h in Retile(t, v, cut, Next(t, v)) ==>
      AddrOk(m1, h) && Head(m3, h) == Head(m1, h) && Foot(m3, h) == Foot(m1, h)
    ensures Rewritten(m, SplitMem(m3, cut, Next(t, v)), t, v, cut, Next(t, v), true)
  {
    var e := Next(t, v);
    forall h | h in t && (h < v || e < h)
      ensures AddrOk(m, h) && Head(SplitMem(m3, cut, e), h) == Head(m, h) && Foot(SplitMem(m3, cut, e), h) == Foot(m, h)
    {
      assert h in Retile(t, v, cut, e) && About(t[h]);
    }
  }

  lemma SplitConfined(m: Mem, m1: Mem, m3: Mem, f: Free, v: int, cut: int, e: int)
    requires AddrOk(m, v) && m1 == SetHead(m, v, cut - v + 1) && LinkWords(m1, m3, f.Keys + {cut})
    requires AddrOk(m3, cut) && AddrOk(m3, e) && v + 16 <= cut <= e - 16
    ensures Confined(m, SplitMem(m3, cut, e), f.Keys, v, e)
  {}

  lemma SplitLists(m3: Mem, t: Tile, base: int, cut: int, e: int, f: Free)
    requires Tiling(t, base, |m3|) && Lists(m3, f) && f.Keys <= t.Keys
    requires cut in t && e in t && AddrOk(m3, cut) && AddrOk(m3, e) && ARENA <= cut && ARENA <= e
    ensures Lists(SplitMem(m3, cut, e), f)
  {
    SetHeadKeepsLists(m3, cut, e - cut + 1, t, base, |m3|, f);
    SetFootKeepsLists(SetHead(m3, cut, e - cut + 1), e, e - cut, t, base, |m3|, f);
  }

  lemma SplitBinned(t: Tile, f: Free, f2: Free, v: int, cut: int, e: int, r: real)
    requires Binned(t, f) && v in f && cut !in f && f2.Keys == f.Keys - {v}
      && (forall c {:trigger f2[c]} :: c in f2 ==> f2[c] == f[c])
    requires v < cut <= e - MINSIZE && NoRemainder(f2)
    requires forall c {:trigger c in f2} :: c in f2 ==> c < v || e <= c
    ensures Binned(Retile(t, v, cut, e), f2[cut := Slot(LR, r)])
  {
    BinnedShrinks(t, f, Retile(t, v, cut, e), f2);
    BinnedRemainder(Retile(t, v, cut, e), f2, cut, r);
  }

  lemma Split(m: Mem, m1: Mem, m3: Mem, t: Tile, f: Free, f': Free, base: int, top: int, v: int, cut: int)
    requires CanSplit(m, t, f, base, top, v, cut)
    requires AddrOk(m, v) && m1 == SetHead(m, v, cut - v + 1) && LinkWords(m1, m3, f.Keys + {cut})
    requires f'.Keys == f.Keys - {v} + {cut} && Lists(m3, f') && Binned(Retile(t, v, cut, Next(t, v)), f')
    ensures AddrOk(m3, cut) && AddrOk(m3, Next(t, v))
    ensures Shape(SplitMem(m3, cut, Next(t, v)), Retile(t, v, cut, Next(t, v)), f', base, top)
    ensures Kept(m, SplitMem(m3, cut, Next(t, v)), t, Retile(t, v, cut, Next(t, v)), t.Keys - f.Keys)
  {
    var e := Next(t, v);
    FreeChunk(m, t, f, base, top, v);
    SplitTiles(m, t, f, base, top, v, cut);
    SplitRewritten(m, m1, m3, t, f, base, top, v, cut);
    SplitConfined(m, m1, m3, f, v, cut, e);
    SplitLists(m3, Retile(t, v, cut, e), base, cut, e, f');
    CommitHeaders(m, SplitMem(m3, cut, e), t, f, f', base, top, v, cut, e, true);
    NotWithin(t, f, base, |m|, v);
    CommitKept(m, SplitMem(m3, cut, e), t, f, base, top, v, cut, e, t.Keys - f.Keys);
  }

  lemma SplitStart(m: Mem, t: Tile, f: Free, base: int, top: int, v: int, cut: int)
    requires CanSplit(m, t, f, base, top, v, cut)
    ensures AddrOk(m, v) && ChunkSize(m, v) == t[v]
    ensures AddrOk(m, cut) && ARENA <= cut && cut !in f
    ensures Lists(SetHead(m, v, cut - v + 1), f)
  {
    assert AddrOk(m, v) && ARENA <= v && ChunkSize(m, v) == t[v] by {
      FreeChunk(m, t, f, base, top, v);
      Flag(Head(m, v), t[v]);
    }
    assert AddrOk(m, cut) && ARENA <= cut && cut !in f by { SplitTiles(m, t, f, base, top, v, cut); }
    HeadKeepsLists(m, t, f, base, top, v, cut - v + 1);
  }

  lemma HeadKeepsLists(m: Mem, t: Tile, f: Free, base: int, top: int, v: int, x: int)
    requires Shape(m, t, f, base, top) && v in t && AddrOk(m, v) && ARENA <= v
    ensures Lists(SetHead(m, v, x), f)
  {
    SetHeadKeepsLists(m, v, x, t, base, |m|, f);
  }

  lemma SplitEnd(m: Mem, m1: Mem, m3: Mem, t: Tile, f: Free, f': Free, base: int, top: int, v: int, cut: int)
    requires CanSplit(m, t, f, base, top, v, cut)
    requires AddrOk(m, v) && m1 == SetHead(m, v, cut - v + 1) && LinkWords(m1, m3, f.Keys + {cut})
    requires f' == (f - {v})[cut := Slot(LR, 0.0)] && Lists(m3, f')
    requires f[v].bin == LR || NoRemainder(f)
    ensures AddrOk(m3, cut) && AddrOk(m3, Next(t, v))
    ensures Shape(SplitMem(m3, cut, Next(t, v)), Retile(t, v, cut, Next(t, v)), f', base, top)
    ensures Kept(m, SplitMem(m3, cut, Next(t, v)), t, Retile(t, v, cut, Next(t, v)), t.Keys - f.Keys)
  {
    SplitTiles(m, t, f, base, top, v, cut);
    SplitSlots(f, v);
    NotWithin(t, f, base, |m|, v);
    SplitBinned(t, f, f - {v}, v, cut, Next(t, v), 0.0);
    Split(m, m1, m3, t, f, f', base, top, v, cut);
  }

  function SplitAllMem(m: Mem, v: int, cut: int, e: int, binned: bool): (r: Mem)
    requires AddrOk(m, v) && AddrOk(m, cut) && AddrOk(m, e) && AddrOk(m, BinAt(LR))
    requires binned ==> AddrOk(m, Fd(SetHead(m, v, cut - v + 1), v)) && AddrOk(m, Bk(SetHead(m, v, cut - v + 1), v))
    ensures |r| == |m|
  {
    var m1 := SetHead(m, v, cut - v + 1);
    var m2 := if binned then UnlinkMem(m1, v) else m1;
    SplitMem(LinkRemainderMem(m2, cut), cut, e)
  }

  lemma SplitAll(m: Mem, t: Tile, f: Free, base: int, top: int, v: int, cut: int, binned: bool)
    requires CanSplit(m, t, f, base, top, v, cut)
    requires if binned then NoRemainder(f) else f[v].bin == LR
    ensures AddrOk(m, v) && AddrOk(m, cut) && AddrOk(m, Next(t, v)) && AddrOk(m, BinAt(LR)) && ChunkSize(m, v) == t[v]
    ensures binned ==> AddrOk(m, Fd(SetHead(m, v, cut - v + 1), v)) && AddrOk(m, Bk(SetHead(m, v, cut - v + 1), v))
    ensures Shape(SplitAllMem(m, v, cut, Next(t, v), binned), Retile(t, v, cut, Next(t, v)),
        (f - {v})[cut := Slot(LR, 0.0)], base, top)
    ensures Kept(m, SplitAllMem(m, v, cut, Next(t, v), binned), t, Retile(t, v, cut, Next(t, v)), t.Keys - f.Keys)
  {
    SplitStart(m, t, f, base, top, v, cut);
    var m1 := SetHead(m, v, cut - v + 1);
    SplitSlots(f, v);
    var f2 := if binned then f - {v} else f;
    var m2 := m1;
    if binned {
      UnlinkAll(m1, f, v);
      m2 := UnlinkMem(m1, v);
    }
    LinkRemainder(m2, f2, cut);
    var m3 := LinkRemainderMem(m2, cut);
    assert LinkWords(m1, m3, f.Keys + {cut});
    SplitEnd(m, m1, m3, t, f, (f - {v})[cut := Slot(LR, 0.0)], base, top, v, cut);
  }

  // ----- neighbours -----

  lemma SameEnd(t: Tile, base: int, end: int, a: int, b: int)
    requires Tiling(t, base, end) && a in t && b in t && Next(t, a) == Next(t, b)
    ensures a == b
  {
    assert t[a] > 0 && t[b] > 0;
    assert a < b ==> Ends(t, a, b);
    assert b < a ==> Ends(t, b, a);
  }

  lemma NotLast(t: Tile, base: int, end: int, top: int, a: int)
    requires Tiling(t, base, end) && TopLast(t, top, end) && a in t && a != top
    ensures Next(t, a) in t
  {
    if Next(t, a) !in t {
      assert Next(t, a) == end;
      SameEnd(t, base, end, a, top);
    }
  }

  /** A chunk in use. */
  lemma UsedChunk(m: Mem, t: Tile, f: Free, base: int, top: int, p: int)
    requires Shape(m, t, f, base, top) && p in t && p !in f && p != top
    ensures AddrOk(m, p) && ARENA <= p && t[p] % 8 == 0 && MINSIZE <= t[p] && p % 8 == 0
    ensures Head(m, p) == t[p] || Head(m, p) == t[p] + 1
    ensures Next(t, p) in t && AddrOk(m, Next(t, p)) && ARENA <= Next(t, p) && ChunkSize(m, Next(t, p)) == t[Next(t, p)]
    ensures Head(m, Next(t, p)) == t[Next(t, p)] + 1
  {
    NotLast(t, base, |m|, top, p);
    HeaderOf(m, t, f.Keys, top, p);
    HeaderOf(m, t, f.Keys, top, Next(t, p));
    assert t[p] > 0 && t[Next(t, p)] > 0;
    if Head(m, Next(t, p)) == t[Next(t, p)] {
      SameEnd(t, base, |m|, p, Next(t, p) - Foot(m, Next(t, p)));
    }
    Flag(Head(m, Next(t, p)), t[Next(t, p)]);
  }

  /** A clear P bit leads to the free chunk before. */
  lemma BackChunk(m: Mem, t: Tile, f: Free, base: int, top: int, p: int)
    requires Shape(m, t, f, base, top) && p in t && AddrOk(m, p) && Head(m, p) % 2 == 0
    ensures var c := p - Foot(m, p); c in f && c in t && t[c] == Foot(m, p) && Next(t, c) == p && c < p
  {
    HeaderOf(m, t, f.Keys, top, p);
    assert t[p] > 0;
    assert t[p - Foot(m, p)] > 0;
  }

  /** The P bit after a chunk tells whether it is free. */
  lemma ForwardBit(m: Mem, t: Tile, f: Free, base: int, top: int, n: int)
    requires Shape(m, t, f, base, top) && n in t && n != top
    ensures Next(t, n) in t && AddrOk(m, Next(t, n)) && (Head(m, Next(t, n)) % 2 == 0 <==> n in f)
  {
    NotLast(t, base, |m|, top, n);
    var e := Next(t, n);
    HeaderOf(m, t, f.Keys, top, e);
    assert t[e] > 0;
    if n in f {
      FreeOf(m, t, f.Keys, top, n);
    } else if Head(m, e) == t[e] {
      BackChunk(m, t, f, base, top, e);
      SameEnd(t, base, |m|, n, e - Foot(m, e));
    }
  }

  // ----- moving chunks between lists -----

  lemma SameHeaders(m: Mem, m1: Mem, t: Tile, f: set<int>, top: int)
    requires Headers(m, t, f, top) && |m1| == |m|
    requires forall h {:trigger Head(m1, h)} {:trigger Foot(m1, h)} :: h in t ==>
      AddrOk(m, h) && Head(m1, h) == Head(m, h) && Foot(m1, h) == Foot(m, h)
    ensures Headers(m1, t, f, top)
  {
    forall h | h in t ensures AddrOk(m1, h) && ARENA <= h && HeaderAt(m1, t, f, h) {
      HeaderOf(m, t, f, top, h);
    }
    forall c | c in f ensures FreeAt(m1, t, f, top, c) {
      FreeOf(m, t, f, top, c);
    }
  }

  lemma Relinked(m: Mem, m1: Mem, t: Tile, f: Free, f1: Free, base: int, top: int)
    requires Shape(m, t, f, base, top) && LinkWords(m, m1, f.Keys) && f1.Keys == f.Keys
    requires Lists(m1, f1) && Binned(t, f1)
    ensures Shape(m1, t, f1, base, top)
    ensures Kept(m, m1, t, t, t.Keys - f.Keys)
  {
    HeadersKept(m, m1, t, base, |m|, f.Keys);
    SameHeaders(m, m1, t, f.Keys, top);
    forall w {:trigger w in t.Keys - f.Keys} | w in t.Keys - f.Keys ensures SameBlock(m, m1, w, t[w]) {
      assert t[w] > 0;
      LiveKept(m, m1, t, f.Keys, base, |m|, base, base, w);
    }
  }

  // ----- the top chunk -----

  lemma TopChunk(m: Mem, t: Tile, f: Free, base: int, top: int)
    requires Shape(m, t, f, base, top)
    ensures top in t && top !in f && AddrOk(m, top) && ARENA <= top && Head(m, top) == t[top] + 1
    ensures t[top] % 8 == 0 && MINSIZE <= t[top] && ChunkSize(m, top) == t[top] && top + t[top] == |m| && base <= top
      && top % 8 == 0
  {
    HeaderOf(m, t, f.Keys, top, top);
    assert t[top] > 0;
    if top in f { FreeOf(m, t, f.Keys, top, top); }
    if Head(m, top) == t[top] { BackChunk(m, t, f, base, top, top); }
    Flag(Head(m, top), t[top]);
  }

  function TopSplitMem(m: Mem, top: int, nb: int, size: int): (r: Mem)
    requires AddrOk(m, top) && AddrOk(m, top + nb)
    ensures |r| == |m|
  { SetHead(SetHead(m, top, nb + 1), top + nb, size - nb + 1) }

  lemma TopSplit(m: Mem, t: Tile, f: Free, base: int, top: int, nb: int)
    requires Shape(m, t, f, base, top) && top in t && MINSIZE <= nb <= t[top] - MINSIZE && nb % 8 == 0
    ensures AddrOk(m, top) && AddrOk(m, top + nb)
    ensures Shape(TopSplitMem(m, top, nb, t[top]), Retile(t, top, top + nb, |m|), f, base, top + nb)
    ensures Kept(m, TopSplitMem(m, top, nb, t[top]), t, Retile(t, top, top + nb, |m|), t.Keys - f.Keys - {top})
  {
    TopChunk(m, t, f, base, top);
    var m' := TopSplitMem(m, top, nb, t[top]);
    TopSplitTiles(t, f, base, |m|, top, nb);
    assert Lists(m', f) by { TopSplitLists(m, t, f, base, top, nb); }
    TopSplitRewritten(m, t, base, top, nb);
    BinnedShrinks(t, f, Retile(t, top, top + nb, |m|), f);
    CommitHeaders(m, m', t, f, f, base, top, top, top + nb, |m|, false);
    CommitKept(m, m', t, f, base, top, top, top + nb, |m|, t.Keys - f.Keys - {top});
  }

  lemma TopSplitTiles(t: Tile, f: Free, base: int, end: int, top: int, nb: int)
    requires Tiling(t, base, end) && TopLast(t, top, end) && MINSIZE <= nb <= t[top] - MINSIZE && nb % 8 == 0
    requires f.Keys <= t.Keys && top !in f
    ensures CanRetile(t, base, end, top, top + nb, end)
    ensures FreeAfter(t, f.Keys, f.Keys, top, top + nb, end, false)
    ensures forall w {:trigger w in t.Keys - f.Keys - {top}} :: w in t.Keys - f.Keys - {top} ==>
      w in t && w !in f && (w < top || end <= w)
    ensures forall c {:trigger f[c]} :: c in f ==>
      c in Retile(t, top, top + nb, end) && Retile(t, top, top + nb, end)[c] == t[c]
  {
    forall w | w in t ensures w <= top { AtMostTop(t, base, end, top, w); }
    assert t[top] > 0;
  }

  lemma AtMostTop(t: Tile, base: int, end: int, top: int, w: int)
    requires Tiling(t, base, end) && TopLast(t, top, end) && w in t
    ensures w <= top
  {
    assert t[w] > 0;
    assert top < w ==> Ends(t, top, w);
  }

  lemma TopSplitLists(m: Mem, t: Tile, f: Free, base: int, top: int, nb: int)
    requires Shape(m, t, f, base, top) && top in t && MINSIZE <= nb <= t[top] - MINSIZE && nb % 8 == 0
    ensures AddrOk(m, top) && AddrOk(m, top + nb)
    ensures Lists(TopSplitMem(m, top, nb, t[top]), f)
  {
    TopChunk(m, t, f, base, top);
    CutAddr(m, top, t[top], nb);
    var r := Retile(t, top, top + nb, |m|);
    FreeBelowTop(t, f, base, |m|, top, nb);
    TwoHeads(m, t, r, f, base, top, nb + 1, top + nb, t[top] - nb + 1);
  }

  lemma CutAddr(m: Mem, top: int, size: int, nb: int)
    requires 0 <= top && top % 8 == 0 && top + size == |m| && nb % 8 == 0 && MINSIZE <= nb <= size - MINSIZE
    ensures AddrOk(m, top + nb)
  {}

  lemma FreeBelowTop(t: Tile, f: Free, base: int, end: int, top: int, nb: int)
    requires Tiling(t, base, end) && TopLast(t, top, end) && MINSIZE <= nb <= t[top] - MINSIZE && nb % 8 == 0
      && f.Keys <= t.Keys && top !in f
    ensures var r := Retile(t, top, top + nb, end); Tiling(r, base, end) && f.Keys <= r.Keys && top + nb in r
  {
    TopSplitTiles(t, f, base, end, top, nb);
    RetileTiling(t, base, end, top, top + nb, end);
    var r := Retile(t, top, top + nb, end);
    assert forall c {:trigger c in f.Keys} :: c in f.Keys ==> About(f[c]) && c in r;
  }

  lemma TwoHeads(m: Mem, t: Tile, r: Tile, f: Free, base: int, p: int, x: int, q: int, y: int)
    requires Tiling(t, base, |m|) && Tiling(r, base, |m|) && f.Keys <= t.Keys && f.Keys <= r.Keys && Lists(m, f)
    requires p in t && q in r && AddrOk(m, p) && AddrOk(m, q) && ARENA <= p && ARENA <= q
    ensures Lists(SetHead(SetHead(m, p, x), q, y), f)
  {
    SetHeadKeepsLists(m, p, x, t, base, |m|, f);
    SetHeadKeepsLists(SetHead(m, p, x), q, y, r, base, |m|, f);
  }

  lemma TopSplitRewritten(m: Mem, t: Tile, base: int, top: int, nb: int)
    requires Tiling(t, base, |m|) && TopLast(t, top, |m|) && HeadersAddr(m, t) && MINSIZE <= nb <= t[top] - MINSIZE
      && nb % 8 == 0
    requires AddrOk(m, top) && AddrOk(m, top + nb) && Head(m, top) == t[top] + 1 && ARENA <= top
    ensures Rewritten(m, TopSplitMem(m, top, nb, t[top]), t, top, top + nb, |m|, false)
    ensures Confined(m, TopSplitMem(m, top, nb, t[top]), {}, top, |m|)
  {
    forall h | h in t ensures h <= top { assert t[h] > 0; assert top < h ==> Ends(t, top, h); }
    var m' := TopSplitMem(m, top, nb, t[top]);
    forall h | h in t && h < top ensures AddrOk(m, h) && Head(m', h) == Head(m, h) && Foot(m', h) == Foot(m, h) {
      assert t[h] > 0;
    }
    assert |m| !in t;
  }
}
