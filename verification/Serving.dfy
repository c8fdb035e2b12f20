/** The part of malloc that serves a request from the free chunks. */
module Serving {
  import opened Chunks
  import opened Bins
  import opened BinBlocks
  import opened Search
  import opened HeapSteps

  ghost predicate Searchable(m: Mem, t: Tile, f: Free) {
    Lists(m, f) && Readable(m, t, f) && Binned(t, f)
  }

  lemma ReadableAt(m: Mem, t: Tile, f: Free, c: int)
    requires Placed(m, f) && Readable(m, t, f) && c in f
    ensures AddrOk(m, c) && c in t && t[c] % 8 == 0 && ChunkSize(m, c) == t[c]
  {
    assert f[c].bin >= 1;
    SizeRead(m, t, f, c);
  }

  // ----- step 1: the bin of the request -----

  ghost predicate SearchedFirst(i: int, nb: int) {
    0 <= nb && (i == BinIndex(nb) || (nb < 504 && i == BinIndex(nb) + 1))
  }

  /** A best fit in the bins searched first, of which nothing would be left over. */
  ghost predicate ExactFit(t: Tile, f: Free, nb: int, v: int) {
    BestFit(t, f, v, nb) && t[v] < nb + MINSIZE && SearchedFirst(f[v].bin, nb)
  }

  /** The bins searched first hold no chunk that would leave less than a chunk over. */
  ghost predicate NoExact(t: Tile, f: Free, nb: int) {
    forall c {:trigger f[c]} :: c in f && c in t && f[c].bin != LR && SearchedFirst(f[c].bin, nb) ==>
      !(nb <= t[c] < nb + MINSIZE)
  }

  lemma LastOf(m: Mem, f: Free, i: int)
    requires Lists(m, f) && 2 <= i < NAV
    ensures AddrOk(m, BinAt(i))
    ensures if Bk(m, BinAt(i)) == BinAt(i) then NoneIn(f, i, i + 1)
      else Bk(m, BinAt(i)) in f && f[Bk(m, BinAt(i))].bin == i && LastInBin(f, Bk(m, BinAt(i)))
  {
    forall c {:trigger f[c]} | c in f && f[c].bin == i ensures UpTo(f, c, Bk(m, BinAt(i))) {}
  }

  /** No chunk of its bin is nearer to the end. */
  ghost predicate LastInBin(f: Free, v: int) {
    forall c {:trigger f[c]} :: c in f && v in f && f[c].bin == f[v].bin ==> f[c].rank <= f[v].rank
  }

  lemma SmallSize(m: Mem, t: Tile, f: Free, c: int, sz: int)
    requires Searchable(m, t, f) && MINSIZE <= sz < 512 && sz % 8 == 0 && c in f && f[c].bin == BinIndex(sz)
    ensures c in t && t[c] == sz
  {
    BinIndexRange(sz);
    ReadableAt(m, t, f, c);
    SmallBinUniform(t, f, c, sz);
  }

  /** Two small bins: chunks of size `nb`, or else of size `nb` + 8. */
  method SearchSmall(m: Mem, nb: int, ghost t: Tile, ghost f: Free) returns (victim: int, idx: int)
    requires Searchable(m, t, f) && MINSIZE <= nb < 504 && nb % 8 == 0
    ensures victim != 0 ==> ExactFit(t, f, nb, victim)
    ensures victim == 0 ==> ScanFrom(t, f, idx, nb) && NoExact(t, f, nb)
  {
    idx := nb / 8;
    victim := Bk(m, BinAt(idx));
    LastOf(m, f, idx);
    if victim != BinAt(idx) {
      SmallSize(m, t, f, victim, nb);
      SmallIsBest(m, t, f, nb, victim);
      VictimNotNull(m, f, victim);
      return;
    }
    victim := Bk(m, BinAt(idx + 1));
    LastOf(m, f, idx + 1);
    if victim != BinAt(idx + 1) {
      SmallSize(m, t, f, victim, nb + 8);
      NextIsBest(m, t, f, nb, victim);
      VictimNotNull(m, f, victim);
      return;
    }
    SmallEmpty(m, t, f, nb);
    victim, idx := 0, idx + 2;
  }

  lemma SmallIsBest(m: Mem, t: Tile, f: Free, nb: int, v: int)
    requires Searchable(m, t, f) && v in f && f[v].bin != LR && v in t && t[v] == nb && LastInBin(f, v)
    ensures BestFit(t, f, v, nb)
  {}

  lemma NextIsBest(m: Mem, t: Tile, f: Free, nb: int, v: int)
    requires Searchable(m, t, f) && MINSIZE <= nb < 504 && nb % 8 == 0
    requires v in f && f[v].bin != LR && v in t && t[v] == nb + 8 && NoneIn(f, nb / 8, nb / 8 + 1) && LastInBin(f, v)
    ensures BestFit(t, f, v, nb)
  {
    forall c {:trigger f[c]} | c in f && c in t && f[c].bin != LR && nb <= t[c] ensures t[v] <= t[c] {
      ReadableAt(m, t, f, c);
      assert RightBin(f[c].bin, t[c]);
    }
  }

  lemma SmallEmpty(m: Mem, t: Tile, f: Free, nb: int)
    requires Searchable(m, t, f) && MINSIZE <= nb < 504 && nb % 8 == 0
    requires NoneIn(f, nb / 8, nb / 8 + 1) && NoneIn(f, nb / 8 + 1, nb / 8 + 2)
    ensures ScanFrom(t, f, nb / 8 + 2, nb) && NoExact(t, f, nb)
  {
    BelowOwnBin(t, f, nb);
  }

  /** The own bin of a larger request, from its small end. */
  method SearchLarge(m: Mem, nb: int, ghost t: Tile, ghost f: Free) returns (victim: int, idx: int)
    requires Searchable(m, t, f) && 504 <= nb && nb % 8 == 0
    ensures victim != 0 ==> ExactFit(t, f, nb, victim)
    ensures victim == 0 ==> ScanFrom(t, f, idx, nb) && NoExact(t, f, nb)
  {
    idx := BinIndex(nb);
    LargeRange(nb);
    BelowOwnBin(t, f, nb);
    victim := FindInBin(m, idx, nb, t, f);
    FoundIsBest(t, f, idx, nb, victim);
    if victim != BinAt(idx) {
      ReadableAt(m, t, f, victim);
      VictimNotNull(m, f, victim);
      if ChunkSize(m, victim) - nb >= MINSIZE {
        TooBig(t, f, nb, victim);
        victim := 0;        // rescanned after the last remainder has been tried
      }
      return;
    }
    NothingInOwnBin(t, f, nb);
    victim, idx := 0, idx + 1;
  }

  lemma LargeRange(nb: int)
    requires 504 <= nb
    ensures 63 <= BinIndex(nb) <= 126
  {}

  lemma TooBig(t: Tile, f: Free, nb: int, v: int)
    requires Binned(t, f) && 504 <= nb && FoundIn(t, f, BinIndex(nb), nb, v) && v != BinAt(BinIndex(nb))
      && nb + MINSIZE <= t[v]
    ensures ScanFrom(t, f, BinIndex(nb), nb) && NoExact(t, f, nb)
  {
    LargeRange(nb);
    BelowOwnBin(t, f, nb);
    assert f[v].bin == BinIndex(nb);
  }

  lemma NothingInOwnBin(t: Tile, f: Free, nb: int)
    requires Binned(t, f) && 504 <= nb && FoundIn(t, f, BinIndex(nb), nb, BinAt(BinIndex(nb)))
      && TooSmallBelow(t, f, BinIndex(nb) + 1, nb)
    ensures ScanFrom(t, f, BinIndex(nb) + 1, nb) && NoExact(t, f, nb)
  {
    LargeRange(nb);
  }

  // ----- what serving a request means -----

  /** Before the first extension there is nothing at all. */
  ghost predicate Usable(m: Mem, t: Tile, f: Free, base: int, top: int) {
    if t == map[] then f == map[] && Lists(m, f) else Shape(m, t, f, base, top)
  }

  lemma UsableSearch(m: Mem, t: Tile, f: Free, base: int, top: int)
    requires Usable(m, t, f, base, top)
    ensures Searchable(m, t, f) && OneRemainder(f) && (t == map[] || Shape(m, t, f, base, top))
  {
    if t != map[] { CanRead(m, t, f, base, top); }
  }

  /** Chunk `v` now is in use, with room for the request; nothing else in use has changed. */
  ghost predicate Granted(m: Mem, m': Mem, t: Tile, f: Free, t': Tile, f': Free, nb: int, v: int) {
    && v in t' && nb <= t'[v] < nb + MINSIZE
    && v !in t.Keys - f.Keys && t'.Keys - f'.Keys == (t.Keys - f.Keys) + {v}
    && Kept(m, m', t, t', t.Keys - f.Keys)
  }

  /** Chunk `v`, if it was free, has been taken for size `nb`. If a chunk is left over, it is the last remainder. */
  ghost predicate CutFor(t: Tile, f: Free, t': Tile, f': Free, nb: int, v: int) {
    v in f && v in t ==>
      if nb + MINSIZE <= t[v] then
        && t' == Retile(t, v, v + nb, Next(t, v)) && f'.Keys == f.Keys - {v} + {v + nb}
        && v + nb in f' && f'[v + nb].bin == LR
      else t' == t && f'.Keys == f.Keys - {v}
  }

  ghost predicate SameSlots(f: Free, f': Free) { forall c {:trigger f'[c]} :: c in f' && c in f ==> f'[c] == f[c] }

  /** Free chunks keep their places in the bins, but for a last remainder that has been tried and not used: that goes
      to its bin. */
  ghost predicate KeepsPlaces(t: Tile, f: Free, f': Free, nb: int) {
    forall c {:trigger f'[c]} :: c in f' && c in f && c in t ==>
      if f[c].bin == LR && NoExact(t, f, nb) then InFront(t, f, t[c], f'[c]) else f'[c] == f[c]
  }

  /** The chunks and bins after chunk `v`, free or the top chunk, has been taken for size `nb`. */
  ghost predicate Rebinned(t: Tile, f: Free, t': Tile, f': Free, nb: int, v: int) {
    CutFor(t, f, t', f', nb, v) && KeepsPlaces(t, f, f', nb) && (v !in f ==> f'.Keys == f.Keys)
  }

  lemma GrantWhole(t: Tile, f: Free, v: int)
    requires v in f && v in t
    ensures t.Keys - (f - {v}).Keys == (t.Keys - f.Keys) + {v}
  {}

  lemma GrantSplit(m: Mem, t: Tile, f: Free, base: int, top: int, v: int, cut: int)
    requires CanSplit(m, t, f, base, top, v, cut)
    ensures var r, g := Retile(t, v, cut, Next(t, v)), (f - {v})[cut := Slot(LR, 0.0)];
      v in r && r[v] == cut - v && r.Keys - g.Keys == (t.Keys - f.Keys) + {v}
      && SameSlots(f, g) && CutFor(t, f, r, g, cut - v, v)
  {
    SplitTiles(m, t, f, base, top, v, cut);
    NotWithin(t, f, base, |m|, v);
    var r, g := Retile(t, v, cut, Next(t, v)), (f - {v})[cut := Slot(LR, 0.0)];
    forall w ensures w in r.Keys - g.Keys <==> w in (t.Keys - f.Keys) + {v} {
      if w in t.Keys - f.Keys { assert w < v || Next(t, v) <= w; }
      if w in f && w in t { assert v <= w < Next(t, v) ==> w == v; }
    }
  }

  /** Use the free chunk `v`, whole or split. */
  method Use(m: Mem, bb: nat, v: int, nb: int, binned: bool, ghost t: Tile, ghost f: Free, ghost base: int,
             ghost top: int)
    returns (m': Mem, ghost t': Tile, ghost f': Free)
    requires Shape(m, t, f, base, top) && Marks(bb, f) && v in f && v in t && nb <= t[v] && MINSIZE <= nb && nb % 8 == 0
    requires if binned then NoRemainder(f) else f[v].bin == LR && nb + MINSIZE <= t[v]
    ensures |m'| == |m| && Shape(m', t', f', base, top) && Marks(bb, f') && Granted(m, m', t, f, t', f', nb, v)
    ensures CutFor(t, f, t', f', nb, v) && SameSlots(f, f')
  {
    FreeChunk(m, t, f, base, top, v);
    Flag(Head(m, v), t[v]);
    var size := ChunkSize(m, v);
    ghost var e := Next(t, v);
    assert v + size == e;
    if size - nb >= MINSIZE {
      m', t', f' := UseFront(m, bb, v, size, nb, binned, t, f, base, top);
    } else {
      m', t', f' := UseWhole(m, bb, v, size, t, f, base, top);
    }
  }

  /** Use the front of chunk `v`; the rest becomes the last remainder. */
  method UseFront(m: Mem, bb: nat, v: int, size: int, nb: int, binned: bool, ghost t: Tile, ghost f: Free,
                  ghost base: int, ghost top: int)
    returns (m': Mem, ghost t': Tile, ghost f': Free)
    requires Shape(m, t, f, base, top) && Marks(bb, f) && v in f && v in t && size == t[v]
      && MINSIZE <= nb <= size - MINSIZE && nb % 8 == 0
    requires if binned then NoRemainder(f) else f[v].bin == LR
    ensures |m'| == |m| && Shape(m', t', f', base, top) && Marks(bb, f') && Granted(m, m', t, f, t', f', nb, v)
    ensures CutFor(t, f, t', f', nb, v) && SameSlots(f, f')
  {
    ghost var e := Next(t, v);
    assert e == v + size;
    SplitFits(m, t, f, base, top, v, nb);
    SplitAll(m, t, f, base, top, v, v + nb, binned);
    GrantSplit(m, t, f, base, top, v, v + nb);
    m' := SplitAllMem(m, v, v + nb, v + size, binned);
    t' := Retile(t, v, v + nb, e);
    f' := (f - {v})[v + nb := Slot(LR, 0.0)];
    MarksFewer(bb, f, f');
  }

  /** Use the chunk `v` whole: unlink it, set the P bit of the next chunk. */
  method UseWhole(m: Mem, bb: nat, v: int, size: int, ghost t: Tile, ghost f: Free, ghost base: int, ghost top: int)
    returns (m': Mem, ghost t': Tile, ghost f': Free)
    requires Shape(m, t, f, base, top) && Marks(bb, f) && v in f && v in t && size == t[v]
    ensures |m'| == |m| && Shape(m', t', f', base, top) && Marks(bb, f')
    ensures t' == t && f' == f - {v} && Kept(m, m', t, t', t.Keys - f.Keys)
    ensures t'.Keys - f'.Keys == (t.Keys - f.Keys) + {v}
  {
    UnlinkAll(m, f, v);
    var m1 := UnlinkMem(m, v);
    ghost var e := Next(t, v);
    assert v + size == e;
    Taken(m, m1, t, f, base, top, v);
    m' := TakenMem(m1, v + size);
    t', f' := t, f - {v};
    MarksFewer(bb, f, f');
    GrantWhole(t, f, v);
  }

  // ----- step 2: the last remainder -----

  /** The last remainder, too small, has been put into its bin. */
  ghost predicate Demoted(t: Tile, f: Free, f': Free, nb: int) {
    && f'.Keys == f.Keys && NoRemainder(f')
    && (forall c {:trigger f'[c]} :: c in f' ==> c in f && (f[c].bin != LR ==> f'[c] == f[c]))
    && (forall c {:trigger f'[c]} :: c in f' && c in f && c in t && f[c].bin == LR ==> InFront(t, f, t[c], f'[c]))
    && (forall c {:trigger f[c]} :: c in f && f[c].bin == LR && c in t ==> t[c] < nb)
  }

  lemma NothingDemoted(m: Mem, t: Tile, f: Free, nb: int)
    requires Lists(m, f) && OneRemainder(f)
    ensures AddrOk(m, BinAt(LR)) && (Fd(m, BinAt(LR)) == BinAt(LR) ==> Demoted(t, f, f, nb))
  {
    RemainderList(m, f);
  }

  method TryRemainder(m: Mem, bb: nat, nb: int, ghost t: Tile, ghost f: Free, ghost base: int, ghost top: int)
    returns (victim: int, m': Mem, bb': nat, ghost t': Tile, ghost f': Free)
    requires Usable(m, t, f, base, top) && Marks(bb, f) && MINSIZE <= nb && nb % 8 == 0
    ensures |m'| == |m| && Usable(m', t', f', base, top) && Marks(bb', f')
    ensures victim != 0 ==>
      IsLR(f, victim) && victim in t && nb <= t[victim] && t' != map[] && Granted(m, m', t, f, t', f', nb, victim)
      && CutFor(t, f, t', f', nb, victim) && SameSlots(f, f')
    ensures victim == 0 ==> t' == t && Demoted(t, f, f', nb) && Kept(m, m', t, t, t.Keys - f.Keys)
    ensures t == map[] ==> victim == 0 && bb' == bb
  {
    UsableSearch(m, t, f, base, top);
    m', bb', t', f' := m, bb, t, f;
    NothingDemoted(m, t, f, nb);
    victim := Fd(m, BinAt(LR));
    if victim == BinAt(LR) {
      victim := 0;
      return;
    }
    RemainderList(m, f);
    ReadableAt(m, t, f, victim);
    VictimNotNull(m, f, victim);
    var size := ChunkSize(m, victim);
    if size - nb >= MINSIZE {
      m', t', f' := Use(m, bb, victim, nb, false, t, f, base, top);
    } else if size - nb >= 0 {
      m', t', f' := ExhaustRemainder(m, bb, victim, size, t, f, base, top);
    } else {
      m', bb', f' := DemoteRemainder(m, bb, victim, size, nb, t, f, base, top);
      victim := 0;
    }
  }

  method ExhaustRemainder(m: Mem, bb: nat, v: int, size: int, ghost t: Tile, ghost f: Free, ghost base: int,
                          ghost top: int)
    returns (m': Mem, ghost t': Tile, ghost f': Free)
    requires Shape(m, t, f, base, top) && Marks(bb, f) && IsLR(f, v) && v in t && size == t[v]
    ensures |m'| == |m| && Shape(m', t', f', base, top) && Marks(bb, f')
    ensures t' == t && f' == f - {v} && Kept(m, m', t, t', t.Keys - f.Keys)
    ensures t'.Keys - f'.Keys == (t.Keys - f.Keys) + {v}
  {
    ClearRemainder(m, f);
    var m1 := ClearRemainderMem(m);
    ghost var e := Next(t, v);
    assert v + size == e;
    SplitSlots(f, v);
    Taken(m, m1, t, f, base, top, v);
    m' := TakenMem(m1, v + size);
    t', f' := t, f - {v};
    MarksFewer(bb, f, f');
    GrantWhole(t, f, v);
  }

  method DemoteRemainder(m: Mem, bb: nat, v: int, size: int, nb: int, ghost t: Tile, ghost f: Free, ghost base: int,
                         ghost top: int)
    returns (m': Mem, bb': nat, ghost f': Free)
    requires Shape(m, t, f, base, top) && Marks(bb, f) && IsLR(f, v) && v in t && size == t[v] < nb
    ensures |m'| == |m| && Shape(m', t, f', base, top) && Marks(bb', f')
    ensures Demoted(t, f, f', nb) && Kept(m, m', t, t, t.Keys - f.Keys)
  {
    ClearRemainder(m, f);
    var m1 := ClearRemainderMem(m);
    ghost var f1 := f - {v};
    SplitSlots(f, v);
    DemoteStart(m, m1, bb, t, f, base, top, v);
    m', bb', f' := Frontlink(m1, bb, v, size, t, f1);
    DemoteWords(m, m1, m', f, f1, v);
    Relinked(m, m', t, f, f', base, top);
    DemoteDone(t, f, f1, f', nb, v, size);
  }

  lemma DemoteStart(m: Mem, m1: Mem, bb: nat, t: Tile, f: Free, base: int, top: int, v: int)
    requires Shape(m, t, f, base, top) && Marks(bb, f) && v in f && v in t
    requires LinkWords(m, m1, f.Keys) && Lists(m1, f - {v})
    ensures CanFrontlink(m1, bb, t, f - {v}, v)
  {
    var f1 := f - {v};
    FreeChunk(m, t, f, base, top, v);
    HeadersKept(m, m1, t, base, |m|, f.Keys);
    CanRead(m, t, f, base, top);
    forall c | c in f1
      ensures AddrOk(m1, c) && c in t && t[c] % 8 == 0 && (Head(m1, c) == t[c] || Head(m1, c) == t[c] + 1)
    {
      assert c in f;
      ReadableAt(m, t, f, c);
      assert Head(m1, c) == Head(m, c);
    }
    BinnedShrinks(t, f, t, f1);
    MarksFewer(bb, f, f1);
  }

  lemma DemoteWords(m: Mem, m1: Mem, m': Mem, f: Free, f1: Free, v: int)
    requires v in f && f1 == f - {v} && LinkWords(m, m1, f.Keys) && LinkWords(m1, m', f1.Keys + {v})
    ensures LinkWords(m, m', f.Keys)
  {
    assert f1.Keys + {v} == f.Keys;
  }

  lemma DemoteDone(t: Tile, f: Free, f1: Free, f': Free, nb: int, v: int, size: int)
    requires v in f && IsLR(f, v) && OneRemainder(f) && f1 == f - {v} && NoRemainder(f1) && v in t && t[v] < nb
    requires v in f' && f' == f1[v := f'[v]] && 2 <= f'[v].bin && InFront(t, f1, t[v], f'[v])
    ensures Demoted(t, f, f', nb)
  {
    forall c {:trigger f'[c]} | c in f' ensures c in f && (f[c].bin != LR ==> f'[c] == f[c]) && f'[c].bin != LR {
      if c != v { assert f'[c] == f1[c] && f1[c] == f[c]; }
    }
    forall c {:trigger f[c]} | c in f && f[c].bin == LR && c in t ensures t[c] < nb { assert IsLR(f, c) && IsLR(f, v); }
    assert f'.Keys == f.Keys;
  }

  // ----- all of it -----

  /** The chunk that is used: the smallest one in the bins that is large enough, or the last
      remainder, which is tried before chunks that would have to be split. */
  ghost predicate WellChosen(t: Tile, f: Free, nb: int, v: int) {
    && v in f && v in t && nb <= t[v]
    && (if f[v].bin == LR then NoExact(t, f, nb) else BestFit(t, f, v, nb))
  }

  ghost predicate NothingFits(t: Tile, f: Free, nb: int) {
    forall c {:trigger f[c]} :: c in f && c in t ==> t[c] < nb
  }

  lemma ScanDemoted(t: Tile, f: Free, f': Free, i: int, nb: int)
    requires Binned(t, f') && ScanFrom(t, f, i, nb) && Demoted(t, f, f', nb)
    ensures ScanFrom(t, f', i, nb)
  {
    forall c {:trigger f'[c]} | c in f' && c in t && f'[c].bin != LR && f'[c].bin < i ensures t[c] < nb {
      assert c in f;
      if f[c].bin != LR { assert f'[c] == f[c]; }
    }
    if i == BinIndex(nb) {
      var c :| c in f && c in t && f[c].bin == i && nb <= t[c];
      assert c in f'.Keys;
      assert f'[c] == f[c];
    }
  }

  lemma ChosenDemoted(t: Tile, f: Free, f': Free, nb: int, v: int)
    requires BestFit(t, f', v, nb) && Demoted(t, f, f', nb)
    ensures WellChosen(t, f, nb, v)
  {
    assert f'[v].bin != LR;
    assert f[v].bin != LR;
    forall c {:trigger f[c]} | c in f && c in t && f[c].bin != LR && nb <= t[c] ensures t[v] <= t[c] {
      assert c in f'.Keys;
      assert f'[c] == f[c];
    }
  }

  lemma NothingDemotedFits(m: Mem, t: Tile, f: Free, f': Free, nb: int)
    requires Placed(m, f') && NoneFits(t, f', nb) && Demoted(t, f, f', nb)
    ensures NothingFits(t, f, nb)
  {
    forall c {:trigger f[c]} | c in f && c in t ensures t[c] < nb {
      assert c in f'.Keys;
      assert f'[c].bin != LR;
    }
  }

  lemma GrantedAfter(m: Mem, m1: Mem, m2: Mem, t: Tile, f: Free, f1: Free, t2: Tile, f2: Free, nb: int, v: int)
    requires Kept(m, m1, t, t, t.Keys - f.Keys) && f1.Keys == f.Keys && |m1| == |m| && |m2| == |m|
    requires Granted(m1, m2, t, f1, t2, f2, nb, v)
    ensures Granted(m, m2, t, f, t2, f2, nb, v)
  {
    assert t.Keys - f1.Keys == t.Keys - f.Keys;
    forall w {:trigger w in t.Keys - f.Keys} | w in t.Keys - f.Keys
      ensures w in t && w in t2 && t2[w] == t[w] && SameBlock(m, m2, w, t[w])
    {
      assert SameBlock(m, m1, w, t[w]) && SameBlock(m1, m2, w, t[w]);
    }
  }

  lemma ExactUsed(t: Tile, f: Free, nb: int, v: int)
    requires ExactFit(t, f, nb, v)
    ensures Rebinned(t, f, t, f - {v}, nb, v)
  {}

  /** The last remainder was the only one. */
  lemma RemainderUsed(t: Tile, f: Free, t': Tile, f': Free, nb: int, v: int)
    requires IsLR(f, v) && OneRemainder(f) && v in t && MINSIZE <= nb
    requires CutFor(t, f, t', f', nb, v) && SameSlots(f, f')
    ensures Rebinned(t, f, t', f', nb, v)
  {
    forall c {:trigger f'[c]} | c in f' && c in f && c in t ensures f[c].bin != LR {
      assert IsLR(f, v) && (IsLR(f, c) ==> c == v);
    }
  }

  lemma RebinnedAfter(t: Tile, f: Free, f1: Free, t': Tile, f': Free, nb: int, v: int)
    requires Demoted(t, f, f1, nb) && NoExact(t, f, nb) && v in f
    requires CutFor(t, f1, t', f', nb, v) && SameSlots(f1, f')
    ensures Rebinned(t, f, t', f', nb, v)
  {
    forall c {:trigger f'[c]} | c in f' && c in f && c in t
      ensures if f[c].bin == LR then InFront(t, f, t[c], f'[c]) else f'[c] == f[c]
    {
      assert c in f1.Keys;
      assert f1[c] == f'[c];
    }
  }

  /** Steps 1 to 3 of malloc. */
  method Serve(m: Mem, bb: nat, nb: int, ghost t: Tile, ghost f: Free, ghost base: int, ghost top: int)
    returns (victim: int, m': Mem, bb': nat, ghost t': Tile, ghost f': Free)
    requires Usable(m, t, f, base, top) && Marks(bb, f) && MINSIZE <= nb && nb % 8 == 0
    ensures |m'| == |m| && Usable(m', t', f', base, top) && Marks(bb', f')
    ensures victim != 0 ==> t' != map[] && Granted(m, m', t, f, t', f', nb, victim) && WellChosen(t, f, nb, victim)
    ensures victim != 0 ==> Rebinned(t, f, t', f', nb, victim)
    ensures victim == 0 ==> t' == t && f'.Keys == f.Keys && Kept(m, m', t, t, t.Keys - f.Keys) && NothingFits(t, f, nb)
    ensures victim == 0 ==> KeepsPlaces(t, f, f', nb)
    ensures t == map[] ==> victim == 0 && bb' <= bb
  {
    UsableSearch(m, t, f, base, top);
    var idx;
    if nb < 504 {
      victim, idx := SearchSmall(m, nb, t, f);
    } else {
      victim, idx := SearchLarge(m, nb, t, f);
    }
    if victim != 0 {
      ReadableAt(m, t, f, victim);
      m', t', f' := UseWhole(m, bb, victim, ChunkSize(m, victim), t, f, base, top);
      bb' := bb;
      ExactUsed(t, f, nb, victim);
      return;
    }
    victim, m', bb', t', f' := TryRemainder(m, bb, nb, t, f, base, top);
    if victim != 0 {
      RemainderUsed(t, f, t', f', nb, victim);
      return;
    }
    victim, m', bb', t', f' := Scan(m, m', bb', idx, nb, t, f, f', base, top);
  }

  /** Step 3: the bins. */
  method Scan(ghost m: Mem, m1: Mem, bb: nat, idx: int, nb: int, ghost t: Tile, ghost f: Free, ghost f1: Free,
              ghost base: int, ghost top: int)
    returns (victim: int, m': Mem, bb': nat, ghost t': Tile, ghost f': Free)
    requires Usable(m1, t, f1, base, top) && Marks(bb, f1) && MINSIZE <= nb && nb % 8 == 0 && |m1| == |m|
    requires ScanFrom(t, f, idx, nb) && Demoted(t, f, f1, nb) && Kept(m, m1, t, t, t.Keys - f.Keys) && NoExact(t, f, nb)
    ensures |m'| == |m| && Usable(m', t', f', base, top) && Marks(bb', f')
    ensures victim != 0 ==> t' != map[] && Granted(m, m', t, f, t', f', nb, victim) && WellChosen(t, f, nb, victim)
    ensures victim != 0 ==> Rebinned(t, f, t', f', nb, victim)
    ensures victim == 0 ==> t' == t && f'.Keys == f.Keys && Kept(m, m', t, t, t.Keys - f.Keys) && NothingFits(t, f, nb)
    ensures victim == 0 ==> KeepsPlaces(t, f, f', nb)
    ensures t == map[] ==> victim == 0 && bb' <= bb
  {
    UsableSearch(m1, t, f1, base, top);
    ScanDemoted(t, f, f1, idx, nb);
    m', t', f' := m1, t, f1;
    victim, bb' := ScanBins(m1, bb, idx, nb, t, f1);
    if victim != 0 {
      ChosenDemoted(t, f, f1, nb, victim);
      m', t', f' := Use(m1, bb', victim, nb, true, t, f1, base, top);
      GrantedAfter(m, m1, m', t, f, f1, t', f', nb, victim);
      RebinnedAfter(t, f, f1, t', f', nb, victim);
    } else {
      NothingDemotedFits(m1, t, f, f1, nb);
    }
  }
}
