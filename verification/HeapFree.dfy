/** Giving a chunk back: consolidation with its neighbours. */
module HeapFree {
  import opened Chunks
  import opened Bins
  import opened BinBlocks
  import opened Search
  import opened HeapSteps

  ghost predicate Used(t: Tile, f: Free, top: int, p: int) { p in t && p !in f && p != top }

  /** Where the free chunk that takes in `p` begins, and where it ends. */
  ghost function MergeStart(m: Mem, p: int): int requires AddrOk(m, p) {
    if PrevInuse(m, p) then p else p - Foot(m, p)
  }
  ghost function MergeEnd(t: Tile, f: Free, next: int): int requires next in t {
    if next in f then Next(t, next) else next
  }

  ghost predicate CanFree(m: Mem, t: Tile, f: Free, base: int, top: int, p: int, next: int, q: int, e: int) {
    && Shape(m, t, f, base, top) && Used(t, f, top, p) && AddrOk(m, p)
    && next in t && next == Next(t, p) && next != top && q == MergeStart(m, p) && e == MergeEnd(t, f, next)
  }

  /** The chunks in question, and that [q, e) has no other free chunk. */
  lemma FreeRange(m: Mem, t: Tile, f: Free, base: int, top: int, p: int, next: int, q: int, e: int)
    requires CanFree(m, t, f, base, top, p, next, q, e)
    ensures CanRetile(t, base, |m|, q, e, e) && e in t && e !in f && e != |m|
    ensures q in t && (q == p || q in f) && q <= p < next <= e && ARENA <= q && AddrOk(m, q) && Head(m, q) == t[q] + 1
    ensures AddrOk(m, e) && ARENA <= e && (next in f ==> e != top && Head(m, e) == t[e]) && t[e] % 8 == 0
    ensures AddrOk(m, next) && ARENA <= next && Head(m, next) == t[next] + 1 && t[next] % 8 == 0
    ensures f.Keys <= t.Keys && q != next
  {
    UsedChunk(m, t, f, base, top, p);
    StartOf(m, t, f, base, top, p, q);
    EndOf(m, t, f, base, top, next, e);
    assert t[q] > 0 && t[e] > 0 && t[next] > 0;
    if q != p { assert Next(t, q) == p; }
  }

  lemma StartOf(m: Mem, t: Tile, f: Free, base: int, top: int, p: int, q: int)
    requires Shape(m, t, f, base, top) && Used(t, f, top, p) && AddrOk(m, p) && q == MergeStart(m, p)
    ensures q in t && AddrOk(m, q) && ARENA <= q && Head(m, q) == t[q] + 1
    ensures if q == p then PrevInuse(m, p) else !PrevInuse(m, p) && q in f && Next(t, q) == p && q < p
  {
    if PrevInuse(m, p) {
      UsedChunk(m, t, f, base, top, p);
    } else {
      BackChunk(m, t, f, base, top, p);
      FreeChunk(m, t, f, base, top, q);
    }
  }

  lemma EndOf(m: Mem, t: Tile, f: Free, base: int, top: int, next: int, e: int)
    requires Shape(m, t, f, base, top) && next in t && next != top && e == MergeEnd(t, f, next)
    ensures e in t && e !in f && AddrOk(m, e) && ARENA <= e && next <= e
      && (next in f ==> e != top && Head(m, e) == t[e])
  {
    if next in f { FreeChunk(m, t, f, base, top, next); } else { UsedChunk(m, t, f, base, top, next); }
  }

  /** The chunks that [q, e) swallows. */
  lemma Swallowed(m: Mem, t: Tile, f: Free, base: int, top: int, p: int, next: int, q: int, e: int, x: int)
    requires CanFree(m, t, f, base, top, p, next, q, e) && x in t
    ensures q <= x < e <==> x == q || x == p || (x == next && next in f)
  {
    FreeRange(m, t, f, base, top, p, next, q, e);
    StartOf(m, t, f, base, top, p, q);
    assert t[x] > 0;
    assert q < x ==> Ends(t, q, x);
    assert p < x ==> Ends(t, p, x);
    assert next < x ==> Ends(t, next, x);
    assert x < q ==> Ends(t, x, q);
    assert x < p ==> Ends(t, x, p);
  }

  /** The stores of free around the list operations. */
  function FreedMem(m2: Mem, q: int, sz: int): (r: Mem)
    requires AddrOk(m2, q) && AddrOk(m2, q + sz)
    ensures |r| == |m2|
  { SetFoot(SetHead(m2, q, sz + 1), q + sz, sz) }

  /** Memory after the list operations on `m1`, which has the next P bit cleared. */
  ghost predicate Detached(m: Mem, m1: Mem, m2: Mem, t: Tile, f: Free, next: int, q: int) {
    && AddrOk(m, next) && next in t && m1 == SetHead(m, next, t[next]) && LinkWords(m1, m2, f.Keys + {q})
  }

  lemma FreedWords(m: Mem, m1: Mem, m2: Mem, t: Tile, f: Free, base: int, top: int, p: int, next: int, q: int, e: int)
    requires CanFree(m, t, f, base, top, p, next, q, e) && Detached(m, m1, m2, t, f, next, q)
    ensures AddrOk(m2, q) && AddrOk(m2, e) && AddrOk(m, q)
    ensures var m3 := FreedMem(m2, q, e - q);
      && Head(m3, q) == e - q + 1 && Foot(m3, q) == Foot(m, q) && Head(m3, e) == t[e] && Foot(m3, e) == e - q
      && SameOutside(m, m3, t, q, e)
  {
    FreeRange(m, t, f, base, top, p, next, q, e);
    HeadersKept(m1, m2, t, base, |m|, f.Keys + {q});
    var m3 := FreedMem(m2, q, e - q);
    forall h | h in t && (h < q || e < h)
      ensures AddrOk(m, h) && AddrOk(m3, h) && Head(m3, h) == Head(m, h) && Foot(m3, h) == Foot(m, h)
    {
      assert t[h] > 0;
    }
  }

  ghost predicate AfterDetach(f: Free, f2: Free, q: int, next: int, islr: bool) {
    && f2 - {q} == f - {q, next} && OneRemainder(f2)
    && (q in f2 <==> islr) && (islr ==> f2[q].bin == LR) && (islr <==> IsLR(f, q) || IsLR(f, next))
  }

  /** Take the free neighbours off their lists. If one of them is the last remainder, the merged
      chunk, which begins at `q`, takes its place there. */
  method Detach(m1: Mem, q: int, next: int, back: bool, fwd: bool, ghost f: Free)
    returns (m2: Mem, islr: bool, ghost f2: Free)
    requires Lists(m1, f) && OneRemainder(f) && q != next
    requires (back <==> q in f) && (fwd <==> next in f) && AddrOk(m1, q) && ARENA <= q
    ensures Lists(m2, f2) && LinkWords(m1, m2, f.Keys + {q}) && AfterDetach(f, f2, q, next, islr)
  {
    m2, islr, f2 := m1, false, f;
    if back {
      IsRemainder(m1, f, q);
      if Fd(m2, q) == BinAt(LR) {
        islr := true;
      } else {
        UnlinkAll(m1, f, q);
        m2 := UnlinkMem(m1, q);
        f2 := f - {q};
      }
    }
    StillOne(f, f2, q);
    if fwd {
      ghost var was := m2;
      m2, islr, f2 := DetachNext(m2, q, next, islr, f2);
      assert LinkWords(m1, m2, f.Keys + {q});
    }
  }

  method DetachNext(m: Mem, q: int, next: int, islr: bool, ghost f: Free) returns (m2: Mem, islr2: bool, ghost f2: Free)
    requires Lists(m, f) && OneRemainder(f) && q != next && next in f && AddrOk(m, q) && ARENA <= q
    requires (q in f <==> islr) && (islr ==> f[q].bin == LR)
    ensures Lists(m2, f2) && LinkWords(m, m2, f.Keys + {q}) && AfterDetach(f, f2, q, next, islr2)
  {
    IsRemainder(m, f, next);
    if !islr && Fd(m, next) == BinAt(LR) {
      islr2 := true;
      LinkRemainder(m, f, q);
      OnlyRemainder(f, next);
      m2 := LinkRemainderMem(m, q);
      f2 := (f - {next})[q := Slot(LR, 0.0)];
      OnlyOne(f - {next}, q);
    } else {
      islr2 := islr;
      UnlinkAll(m, f, next);
      m2 := UnlinkMem(m, next);
      f2 := f - {next};
      StillOne(f, f2, next);
    }
  }

  lemma OnlyRemainder(f: Free, v: int)
    requires OneRemainder(f) && v in f && f[v].bin == LR
    ensures WithoutLR(f) == f - {v} && NoRemainder(f - {v})
  {
    forall c {:trigger f[c]} | c in f && c != v ensures f[c].bin != LR { assert IsLR(f, v) ==> !IsLR(f, c); }
  }

  lemma OnlyOne(f: Free, q: int)
    requires NoRemainder(f)
    ensures OneRemainder(f[q := Slot(LR, 0.0)])
  {
    var g := f[q := Slot(LR, 0.0)];
    forall c, d | IsLR(g, c) && IsLR(g, d)
      ensures c == d
    {
      assert c in f && c != q ==> f[c].bin != LR;
      assert d in f && d != q ==> f[d].bin != LR;
    }
  }

  lemma StillOne(f: Free, f2: Free, q: int)
    requires OneRemainder(f) && (f2 == f || f2 == f - {q})
    ensures OneRemainder(f2)
  {
    forall c, d | IsLR(f2, c) && IsLR(f2, d) ensures c == d { assert IsLR(f, c) && IsLR(f, d); }
  }

  // ----- the merged chunk is in place -----

  ghost predicate FreedState(m: Mem, m1: Mem, m2: Mem, t: Tile, f: Free, f2: Free, base: int, top: int, p: int,
                             next: int, q: int, e: int, islr: bool)
  {
    && CanFree(m, t, f, base, top, p, next, q, e) && Detached(m, m1, m2, t, f, next, q)
    && Lists(m2, f2) && AfterDetach(f, f2, q, next, islr)
  }

  lemma FreedOthers(m: Mem, t: Tile, f: Free, f2: Free, base: int, top: int, p: int, next: int, q: int, e: int,
                    islr: bool, c: int)
    requires CanFree(m, t, f, base, top, p, next, q, e) && AfterDetach(f, f2, q, next, islr) && c in f2 && c != q
    ensures c in f && f2[c] == f[c] && c in t && (c < q || e <= c) && c in Retile(t, q, e, e)
      && Retile(t, q, e, e)[c] == t[c]
  {
    assert c in f2 - {q};
    assert (f2 - {q})[c] == f2[c];
    assert c in f - {q, next};
    assert (f - {q, next})[c] == f[c];
    FreeRange(m, t, f, base, top, p, next, q, e);
    Swallowed(m, t, f, base, top, p, next, q, e, c);
  }

  /** The free chunks outside [q, e) are exactly those still on lists, apart from `q`. */
  lemma FreedAfter(m: Mem, t: Tile, f: Free, f2: Free, base: int, top: int, p: int, next: int, q: int, e: int,
                   islr: bool, g: set<int>)
    requires CanFree(m, t, f, base, top, p, next, q, e) && AfterDetach(f, f2, q, next, islr) && g == f2.Keys + {q}
    ensures q in t && FreeAfter(t, f.Keys, g, q, e, e, true)
  {
    FreeRange(m, t, f, base, top, p, next, q, e);
    forall x {:trigger x in g} | x in t ensures x in g <==> (x in f && (x < q || e <= x)) || x == q {
      Swallowed(m, t, f, base, top, p, next, q, e, x);
      if x in f2 && x != q { FreedOthers(m, t, f, f2, base, top, p, next, q, e, islr, x); }
      if x in f && (x < q || e <= x) { assert x in f - {q, next}; assert x in f2 - {q}; }
    }
    forall x {:trigger x in g} | x in g ensures x in t {
      if x != q { FreedOthers(m, t, f, f2, base, top, p, next, q, e, islr, x); }
    }
  }

  lemma FreedBinned(m: Mem, t: Tile, f: Free, f2: Free, base: int, top: int, p: int, next: int, q: int, e: int,
                    islr: bool)
    requires CanFree(m, t, f, base, top, p, next, q, e) && AfterDetach(f, f2, q, next, islr)
    ensures q in t && Binned(Retile(t, q, e, e), f2)
  {
    var r := Retile(t, q, e, e);
    FreeRange(m, t, f, base, top, p, next, q, e);
    var g := f2 - {q};
    forall c {:trigger g[c]} | c in g ensures c in f && g[c] == f[c] && c in r && c in t && r[c] == t[c] {
      FreedOthers(m, t, f, f2, base, top, p, next, q, e, islr, c);
    }
    BinnedShrinks(t, f, r, g);
    if islr {
      forall c {:trigger g[c]} | c in g ensures g[c].bin != LR { assert IsLR(f2, q) ==> !IsLR(f2, c); }
      BinnedRemainder(r, g, q, f2[q].rank);
      assert f2 == g[q := Slot(LR, f2[q].rank)];
    } else {
      assert f2 == g;
    }
  }

  lemma FreedLists(m: Mem, m1: Mem, m2: Mem, t: Tile, f: Free, f2: Free, base: int, top: int, p: int, next: int, q: int,
                   e: int, islr: bool)
    requires FreedState(m, m1, m2, t, f, f2, base, top, p, next, q, e, islr)
    ensures AddrOk(m2, q) && AddrOk(m2, e) && Lists(FreedMem(m2, q, e - q), f2)
  {
    FreeRange(m, t, f, base, top, p, next, q, e);
    forall c {:trigger c in f2.Keys} | c in f2.Keys ensures c in t.Keys {
      if c != q { FreedOthers(m, t, f, f2, base, top, p, next, q, e, islr, c); }
    }
    SetHeadKeepsLists(m2, q, e - q + 1, t, base, |m|, f2);
    SetFootKeepsLists(SetHead(m2, q, e - q + 1), e, e - q, t, base, |m|, f2);
  }

  lemma FreedReadable(m: Mem, m1: Mem, m2: Mem, t: Tile, f: Free, f2: Free, base: int, top: int, p: int, next: int,
                      q: int, e: int)
    requires FreedState(m, m1, m2, t, f, f2, base, top, p, next, q, e, false)
    ensures AddrOk(m2, q) && AddrOk(m2, e) && Readable(FreedMem(m2, q, e - q), Retile(t, q, e, e), f2)
  {
    FreedWords(m, m1, m2, t, f, base, top, p, next, q, e);
    FreeRange(m, t, f, base, top, p, next, q, e);
    var m3, r := FreedMem(m2, q, e - q), Retile(t, q, e, e);
    forall c | c in f2
      ensures AddrOk(m3, c) && c in r && r[c] % 8 == 0 && (Head(m3, c) == r[c] || Head(m3, c) == r[c] + 1)
    {
      FreedOthers(m, t, f, f2, base, top, p, next, q, e, false, c);
      FreeChunk(m, t, f, base, top, c);
      assert c != e;
      assert Head(m3, c) == Head(m, c);
    }
  }

  lemma FreedFrontlink(m: Mem, m1: Mem, m2: Mem, bb: nat, t: Tile, f: Free, f2: Free, base: int, top: int, p: int,
                       next: int, q: int, e: int)
    requires FreedState(m, m1, m2, t, f, f2, base, top, p, next, q, e, false) && Marks(bb, f)
    ensures AddrOk(m2, q) && AddrOk(m2, e)
    ensures CanFrontlink(FreedMem(m2, q, e - q), bb, Retile(t, q, e, e), f2, q) && Retile(t, q, e, e)[q] == e - q
  {
    FreeRange(m, t, f, base, top, p, next, q, e);
    FreedLists(m, m1, m2, t, f, f2, base, top, p, next, q, e, false);
    FreedReadable(m, m1, m2, t, f, f2, base, top, p, next, q, e);
    FreedBinned(m, t, f, f2, base, top, p, next, q, e, false);
    FreedMarks(m, bb, t, f, f2, base, top, p, next, q, e, false);
    RetileSize(t, base, |m|, q, e, e, q);
  }

  lemma FreedMarks(m: Mem, bb: nat, t: Tile, f: Free, f2: Free, base: int, top: int, p: int, next: int, q: int, e: int,
                   islr: bool)
    requires CanFree(m, t, f, base, top, p, next, q, e) && AfterDetach(f, f2, q, next, islr) && Marks(bb, f)
    ensures Marks(bb, f2)
  {
    forall c {:trigger f2[c]} | c in f2 ensures f2[c].bin == LR || (c in f && f2[c] == f[c]) {
      if c != q { FreedOthers(m, t, f, f2, base, top, p, next, q, e, islr, c); }
    }
    MarksFewer(bb, f, f2);
  }

  lemma FreedRewritten(m: Mem, m1: Mem, m2: Mem, m4: Mem, t: Tile, f: Free, f2: Free, base: int, top: int, p: int,
                       next: int, q: int, e: int, islr: bool)
    requires FreedState(m, m1, m2, t, f, f2, base, top, p, next, q, e, islr)
    requires AddrOk(m2, q) && AddrOk(m2, e) && LinkWords(FreedMem(m2, q, e - q), m4, f2.Keys + {q})
    ensures q in t && HeadersAddr(m, t) && Rewritten(m, m4, t, q, e, e, true)
  {
    FreedWords(m, m1, m2, t, f, base, top, p, next, q, e);
    FreeRange(m, t, f, base, top, p, next, q, e);
    var m3, r := FreedMem(m2, q, e - q), Retile(t, q, e, e);
    RetileTiling(t, base, |m|, q, e, e);
    FreedLinkable(m, m3, t, f, f2, base, top, p, next, q, e, islr);
    HeadersKept(m3, m4, r, base, |m|, f2.Keys + {q});
    forall h | h in t && (h < q || e < h)
      ensures AddrOk(m, h) && AddrOk(m4, h) && Head(m4, h) == Head(m, h) && Foot(m4, h) == Foot(m, h)
    {
      assert h in r;
      assert Head(m3, h) == Head(m, h) && Foot(m3, h) == Foot(m, h);
    }
    assert SameOutside(m, m4, t, q, e);
    assert HeadersAddr(m4, r);
  }

  lemma FreedLinkable(m: Mem, m3: Mem, t: Tile, f: Free, f2: Free, base: int, top: int, p: int, next: int, q: int,
                      e: int, islr: bool)
    requires CanFree(m, t, f, base, top, p, next, q, e) && AfterDetach(f, f2, q, next, islr) && |m3| == |m|
    ensures q in t && HeadersAddr(m3, Retile(t, q, e, e)) && f2.Keys + {q} <= Retile(t, q, e, e).Keys
  {
    var r := Retile(t, q, e, e);
    FreeRange(m, t, f, base, top, p, next, q, e);
    forall h {:trigger r[h]} | h in r ensures AddrOk(m3, h) && ARENA <= h { assert t[h] > 0; }
    forall c {:trigger c in f2.Keys + {q}} | c in f2.Keys + {q} ensures c in r.Keys {
      if c != q { FreedOthers(m, t, f, f2, base, top, p, next, q, e, islr, c); }
    }
  }

  lemma FreedConfined(m: Mem, m1: Mem, m2: Mem, m4: Mem, f: set<int>, g: set<int>, next: int, q: int, e: int)
    requires AddrOk(m, next) && q <= next <= e && q + 16 <= e && (exists v :: m1 == SetHead(m, next, v))
      && LinkWords(m1, m2, f + {q})
    requires AddrOk(m2, q) && AddrOk(m2, e) && LinkWords(FreedMem(m2, q, e - q), m4, g) && g <= f + {q}
    ensures Confined(m, m4, f, q, e)
  {}

  /** Freeing keeps the heap invariant, and every other block in use. */
  lemma Freed(m: Mem, m1: Mem, m2: Mem, m4: Mem, t: Tile, f: Free, f2: Free, f': Free, base: int, top: int, p: int,
              next: int, q: int, e: int, islr: bool)
    requires FreedState(m, m1, m2, t, f, f2, base, top, p, next, q, e, islr)
    requires AddrOk(m2, q) && AddrOk(m2, e) && LinkWords(FreedMem(m2, q, e - q), m4, f2.Keys + {q})
    requires q in t && f'.Keys == f2.Keys + {q} && Lists(m4, f') && Binned(Retile(t, q, e, e), f')
    ensures Shape(m4, Retile(t, q, e, e), f', base, top)
    ensures Kept(m, m4, t, Retile(t, q, e, e), t.Keys - f.Keys - {p, top})
  {
    FreeRange(m, t, f, base, top, p, next, q, e);
    assert Rewritten(m, m4, t, q, e, e, true) by {
      FreedRewritten(m, m1, m2, m4, t, f, f2, base, top, p, next, q, e, islr);
    }
    assert FreeAfter(t, f.Keys, f'.Keys, q, e, e, true) by {
      FreedAfter(m, t, f, f2, base, top, p, next, q, e, islr, f'.Keys);
    }
    assert Consolidated(m, t, f.Keys, top, |m|, q, e, e, true) by { NotBeforeTop(m, t, f, base, top, p, next, q, e); }
    CommitHeaders(m, m4, t, f, f', base, top, q, e, e, true);
    assert Kept(m, m4, t, Retile(t, q, e, e), t.Keys - f.Keys - {p, top}) by {
      FreedKept(m, m1, m2, m4, t, f, f2, base, top, p, next, q, e, islr);
    }
  }

  lemma NotBeforeTop(m: Mem, t: Tile, f: Free, base: int, top: int, p: int, next: int, q: int, e: int)
    requires CanFree(m, t, f, base, top, p, next, q, e)
    ensures e != top
  {
    if next in f { FreeChunk(m, t, f, base, top, next); }
  }

  lemma FreedKept(m: Mem, m1: Mem, m2: Mem, m4: Mem, t: Tile, f: Free, f2: Free, base: int, top: int, p: int, next: int,
                  q: int, e: int, islr: bool)
    requires FreedState(m, m1, m2, t, f, f2, base, top, p, next, q, e, islr)
    requires AddrOk(m2, q) && AddrOk(m2, e) && LinkWords(FreedMem(m2, q, e - q), m4, f2.Keys + {q})
    ensures Kept(m, m4, t, Retile(t, q, e, e), t.Keys - f.Keys - {p, top})
  {
    FreeRange(m, t, f, base, top, p, next, q, e);
    forall c {:trigger c in f2.Keys + {q}} | c in f2.Keys + {q} ensures c in f.Keys + {q} {
      if c != q { FreedOthers(m, t, f, f2, base, top, p, next, q, e, islr, c); }
    }
    FreedConfined(m, m1, m2, m4, f.Keys, f2.Keys + {q}, next, q, e);
    forall w {:trigger w in t.Keys - f.Keys - {p, top}} | w in t.Keys - f.Keys - {p, top} ensures w < q || e <= w {
      Swallowed(m, t, f, base, top, p, next, q, e, w);
    }
    CommitKept(m, m4, t, f, base, top, q, e, e, t.Keys - f.Keys - {p, top});
  }

  lemma StartRelease(m: Mem, t: Tile, f: Free, base: int, top: int, p: int)
    requires Shape(m, t, f, base, top) && Used(t, f, top, p) && Next(t, p) != top
    ensures AddrOk(m, p) && Next(t, p) in t && AddrOk(m, Next(t, p)) && Head(m, p) - Head(m, p) % 2 == t[p]
    ensures ChunkSize(m, Next(t, p)) == t[Next(t, p)]
    ensures CanFree(m, t, f, base, top, p, Next(t, p), MergeStart(m, p), MergeEnd(t, f, Next(t, p)))
  {
    UsedChunk(m, t, f, base, top, p);
    Flag(Head(m, p), t[p]);
  }

  lemma ReleaseLists(m: Mem, t: Tile, f: Free, base: int, top: int, p: int, next: int, q: int, e: int)
    requires CanFree(m, t, f, base, top, p, next, q, e)
    ensures AddrOk(m, next) && Lists(SetHead(m, next, t[next]), f) && OneRemainder(f)
    ensures Foot(SetHead(m, next, t[next]), p) == Foot(m, p)
    ensures q != next && AddrOk(m, q) && ARENA <= q
    ensures q in f <==> Head(m, p) % 2 == 0
  {
    FreeRange(m, t, f, base, top, p, next, q, e);
    StartOf(m, t, f, base, top, p, q);
    SetHeadKeepsLists(m, next, t[next], t, base, |m|, f);
  }

  lemma ReleaseForward(m: Mem, t: Tile, f: Free, base: int, top: int, p: int, next: int, q: int, e: int)
    requires CanFree(m, t, f, base, top, p, next, q, e)
    ensures AddrOk(m, next) && AddrOk(m, Next(t, next))
    ensures Head(SetHead(m, next, t[next]), Next(t, next)) % 2 == 0 <==> next in f
  {
    FreeRange(m, t, f, base, top, p, next, q, e);
    ForwardBit(m, t, f, base, top, next);
    assert t[next] > 0;
  }

  /** The chunks and bins after a chunk between `q` and `next` has been freed: with its free neighbours it is one chunk
      [q, e), which is the last remainder if one of them was, and otherwise at the front of its bin. */
  ghost predicate Merged(t: Tile, f: Free, t': Tile, f': Free, next: int, q: int, e: int) {
    && t' == Retile(t, q, e, e) && q in f' && f' - {q} == f - {q, next}
    && (if IsLR(f, q) || IsLR(f, next) then f'[q].bin == LR else InFront(t', f' - {q}, e - q, f'[q]))
  }

  ghost predicate MergedAround(m: Mem, t: Tile, f: Free, t': Tile, f': Free, p: int) {
    && AddrOk(m, p) && p in t && Next(t, p) in t
    && Merged(t, f, t', f', Next(t, p), MergeStart(m, p), MergeEnd(t, f, Next(t, p)))
  }

  lemma IsMerged(m: Mem, t: Tile, f: Free, t': Tile, f': Free, base: int, top: int, p: int, next: int, q: int, e: int)
    requires CanFree(m, t, f, base, top, p, next, q, e) && Merged(t, f, t', f', next, q, e)
    ensures MergedAround(m, t, f, t', f', p)
  {}

  /** free for a chunk that does not border `top`. */
  method Release(m: Mem, bb: nat, p: int, ghost t: Tile, ghost f: Free, ghost base: int, ghost top: int)
    returns (m': Mem, bb': nat, ghost t': Tile, ghost f': Free)
    requires Shape(m, t, f, base, top) && Marks(bb, f) && Used(t, f, top, p) && Next(t, p) != top
    ensures |m'| == |m| && Shape(m', t', f', base, top) && Marks(bb', f')
    ensures MergedAround(m, t, f, t', f', p)
    ensures Kept(m, m', t, t', t.Keys - f.Keys - {p, top})
    ensures t'.Keys - f'.Keys == t.Keys - f.Keys - {p}
  {
    StartRelease(m, t, f, base, top, p);
    var hd := Head(m, p);
    var next := p + (hd - hd % 2);
    var nextsz := ChunkSize(m, next);
    ghost var e := MergeEnd(t, f, next);
    ghost var q' := MergeStart(m, p);
    ReleaseLists(m, t, f, base, top, p, next, q', e);
    ReleaseForward(m, t, f, base, top, p, next, q', e);
    var m1 := SetHead(m, next, nextsz);
    var back := hd % 2 == 0;
    var q := if back then p - Foot(m1, p) else p;
    var fwd := Head(m1, next + nextsz) % 2 == 0;
    var sz := (if fwd then next + nextsz else next) - q;
    var m2, islr;
    ghost var f2;
    m2, islr, f2 := Detach(m1, q, next, back, fwd, f);
    m', bb', t', f' := Settle(m, m1, m2, bb, t, f, f2, base, top, p, next, q, sz, islr);
  }

  /** The end of free: header and footer of the merged chunk, and its place in a bin. */
  method Settle(ghost m: Mem, ghost m1: Mem, m2: Mem, bb: nat, ghost t: Tile, ghost f: Free, ghost f2: Free,
                ghost base: int, ghost top: int, ghost p: int, ghost next: int, q: int, sz: int, islr: bool)
    returns (m': Mem, bb': nat, ghost t': Tile, ghost f': Free)
    requires FreedState(m, m1, m2, t, f, f2, base, top, p, next, q, q + sz, islr) && Marks(bb, f)
    ensures |m'| == |m| && Shape(m', t', f', base, top) && Marks(bb', f')
    ensures MergedAround(m, t, f, t', f', p)
    ensures Kept(m, m', t, t', t.Keys - f.Keys - {p, top})
    ensures t'.Keys - f'.Keys == t.Keys - f.Keys - {p}
  {
    ghost var e := q + sz;
    FreedLists(m, m1, m2, t, f, f2, base, top, p, next, q, e, islr);
    var m3 := SetFoot(SetHead(m2, q, sz + 1), q + sz, sz);
    t' := Retile(t, q, e, e);
    m', bb', f' := PlaceMerged(m, m1, m2, m3, bb, t, f, f2, base, top, p, next, q, e, sz, islr);
    Freed(m, m1, m2, m', t, f, f2, f', base, top, p, next, q, e, islr);
    FreedLive(m, t, f, f2, f', base, top, p, next, q, e, islr);
    IsMerged(m, t, f, t', f', base, top, p, next, q, e);
  }

  /** The merged chunk is already the last remainder, or goes to its bin. */
  method PlaceMerged(ghost m: Mem, ghost m1: Mem, ghost m2: Mem, m3: Mem, bb: nat, ghost t: Tile, ghost f: Free,
                     ghost f2: Free, ghost base: int, ghost top: int, ghost p: int, ghost next: int, q: int,
                     ghost e: int, sz: int, islr: bool)
    returns (m': Mem, bb': nat, ghost f': Free)
    requires FreedState(m, m1, m2, t, f, f2, base, top, p, next, q, e, islr) && Marks(bb, f) && sz == e - q
    requires AddrOk(m2, q) && AddrOk(m2, e) && m3 == FreedMem(m2, q, e - q) && Lists(m3, f2)
    ensures LinkWords(m3, m', f2.Keys + {q}) && Lists(m', f') && Marks(bb', f')
    ensures q in t && Binned(Retile(t, q, e, e), f') && f'.Keys == f2.Keys + {q}
    ensures Merged(t, f, Retile(t, q, e, e), f', next, q, e)
  {
    assert q in t by { FreeRange(m, t, f, base, top, p, next, q, e); }
    if islr {
      FreedBinned(m, t, f, f2, base, top, p, next, q, e, islr);
      FreedMarks(m, bb, t, f, f2, base, top, p, next, q, e, islr);
      m', bb', f' := m3, bb, f2;
      assert LinkWords(m3, m3, f2.Keys + {q});
      MergedRemainder(t, f, f2, next, q, e);
    } else {
      FreedFrontlink(m, m1, m2, bb, t, f, f2, base, top, p, next, q, e);
      m', bb', f' := PlaceBinned(m3, bb, t, f, f2, next, q, e, sz, Retile(t, q, e, e));
    }
  }

  method PlaceBinned(m3: Mem, bb: nat, ghost t: Tile, ghost f: Free, ghost f2: Free, ghost next: int, q: int,
                     ghost e: int, sz: int, ghost r: Tile)
    returns (m': Mem, bb': nat, ghost f': Free)
    requires CanFrontlink(m3, bb, r, f2, q) && r == Retile(t, q, e, e) && sz == r[q] == e - q
    requires AfterDetach(f, f2, q, next, false)
    ensures LinkWords(m3, m', f2.Keys + {q}) && Lists(m', f') && Marks(bb', f')
    ensures Binned(r, f') && f'.Keys == f2.Keys + {q} && Merged(t, f, r, f', next, q, e)
  {
    m', bb', f' := Frontlink(m3, bb, q, sz, r, f2);
    MergedBinned(t, f, f2, f', next, q, e);
  }

  lemma MergedRemainder(t: Tile, f: Free, f2: Free, next: int, q: int, e: int)
    requires AfterDetach(f, f2, q, next, true)
    ensures Merged(t, f, Retile(t, q, e, e), f2, next, q, e)
  {}

  lemma MergedBinned(t: Tile, f: Free, f2: Free, f': Free, next: int, q: int, e: int)
    requires AfterDetach(f, f2, q, next, false) && q in f' && f' == f2[q := f'[q]]
      && InFront(Retile(t, q, e, e), f2, e - q, f'[q])
    ensures Merged(t, f, Retile(t, q, e, e), f', next, q, e)
  {
    assert f' - {q} == f2 == f2 - {q};
  }

  lemma FreedLive(m: Mem, t: Tile, f: Free, f2: Free, f': Free, base: int, top: int, p: int, next: int, q: int, e: int,
                  islr: bool)
    requires CanFree(m, t, f, base, top, p, next, q, e) && AfterDetach(f, f2, q, next, islr) && f'.Keys == f2.Keys + {q}
    ensures Retile(t, q, e, e).Keys - f'.Keys == t.Keys - f.Keys - {p}
  {
    FreeRange(m, t, f, base, top, p, next, q, e);
    FreedAfter(m, t, f, f2, base, top, p, next, q, e, islr, f'.Keys);
    forall w | w in t ensures w in Retile(t, q, e, e).Keys - f'.Keys <==> w in t.Keys - f.Keys - {p} {
      FreedLiveAt(m, t, f, f', base, top, p, next, q, e, w);
    }
  }

  lemma FreedLiveAt(m: Mem, t: Tile, f: Free, f': Free, base: int, top: int, p: int, next: int, q: int, e: int, w: int)
    requires CanFree(m, t, f, base, top, p, next, q, e) && w in t && FreeAfter(t, f.Keys, f'.Keys, q, e, e, true)
    ensures w in Retile(t, q, e, e).Keys - f'.Keys <==> w in t.Keys - f.Keys - {p}
  {
    FreeRange(m, t, f, base, top, p, next, q, e);
    Swallowed(m, t, f, base, top, p, next, q, e, w);
    assert w in f'.Keys <==> (w in f.Keys && (w < q || e <= w)) || w == q;
  }

  // ----- freeing the chunk that borders top -----

  ghost predicate CanJoinTop(m: Mem, t: Tile, f: Free, base: int, top: int, p: int, q: int) {
    && Shape(m, t, f, base, top) && Used(t, f, top, p) && Next(t, p) == top && AddrOk(m, p) && q == MergeStart(m, p)
  }

  lemma JoinRange(m: Mem, t: Tile, f: Free, base: int, top: int, p: int, q: int)
    requires CanJoinTop(m, t, f, base, top, p, q)
    ensures CanRetile(t, base, |m|, q, |m|, |m|) && TopLast(t, top, |m|) && NewTop(top, |m|, q, |m|, |m|) == q
    ensures q in t && AddrOk(m, q) && ARENA <= q && Head(m, q) == t[q] + 1 && f.Keys <= t.Keys
    ensures (q == p <==> PrevInuse(m, p)) && (q != p ==> q in f) && q <= p < top < |m|
    ensures forall x {:trigger x in t} :: x in t ==> (q <= x <==> x == q || x == p || x == top)
    ensures Consolidated(m, t, f.Keys, q, |m|, q, |m|, |m|, false) && |m| !in t
    ensures ChunkSize(m, top) == |m| - top && AddrOk(m, top)
  {
    JoinStart(m, t, f, base, top, p, q);
    TopChunk(m, t, f, base, top);
    TailTiles(t, base, |m|, top, p, q);
  }

  lemma JoinStart(m: Mem, t: Tile, f: Free, base: int, top: int, p: int, q: int)
    requires CanJoinTop(m, t, f, base, top, p, q)
    ensures q in t && AddrOk(m, q) && ARENA <= q && Head(m, q) == t[q] + 1 && MINSIZE <= t[q] && q + t[q] <= top < |m|
      && |m| % 8 == 0
    ensures (q == p <==> PrevInuse(m, p)) && (q != p ==> q in f && Next(t, q) == p) && q <= p < top
  {
    TopChunk(m, t, f, base, top);
    SumOf8(top, t[top]);
    StartOf(m, t, f, base, top, p, q);
    UsedChunk(m, t, f, base, top, p);
    assert t[q] > 0 && t[p] > 0;
  }

  lemma SumOf8(x: int, y: int)
    requires x % 8 == 0 && y % 8 == 0
    ensures (x + y) % 8 == 0
  {}

  lemma TailTiles(t: Tile, base: int, end: int, top: int, p: int, q: int)
    requires Tiling(t, base, end) && TopLast(t, top, end) && p in t && Next(t, p) == top && q in t
      && (q == p || Next(t, q) == p)
    ensures forall x {:trigger x in t} :: x in t ==> (q <= x <==> x == q || x == p || x == top)
    ensures end !in t
  {
    assert t[q] > 0 && t[p] > 0;
    forall x {:trigger x in t} | x in t ensures q <= x <==> x == q || x == p || x == top {
      assert t[x] > 0;
      assert q < x ==> Ends(t, q, x);
      assert p < x ==> Ends(t, p, x);
      assert top < x ==> Ends(t, top, x);
    }
    assert t[top] > 0;
  }

  /** `m1`: the chunk before, if free, is off its list; `f1`: what is left. */
  lemma JoinedTop(m: Mem, m1: Mem, t: Tile, f: Free, f1: Free, base: int, top: int, p: int, q: int)
    requires CanJoinTop(m, t, f, base, top, p, q)
    requires LinkWords(m, m1, f.Keys) && Lists(m1, f1) && f1 == f - {q}
    ensures AddrOk(m1, q) && q in t
    ensures Shape(SetHead(m1, q, |m| - q + 1), Retile(t, q, |m|, |m|), f1, base, q)
    ensures Kept(m, SetHead(m1, q, |m| - q + 1), t, Retile(t, q, |m|, |m|), t.Keys - f.Keys - {p, top})
    ensures Retile(t, q, |m|, |m|).Keys - f1.Keys - {q} == t.Keys - f.Keys - {p, top}
  {
    JoinRange(m, t, f, base, top, p, q);
    var m2, r := SetHead(m1, q, |m| - q + 1), Retile(t, q, |m|, |m|);
    assert Lists(m2, f1) by { JoinedLists(m, m1, t, f, f1, base, top, p, q); }
    assert Binned(r, f1) by { JoinedBinned(m, t, f, f1, base, top, p, q); }
    assert Rewritten(m, m2, t, q, |m|, |m|, false) by { JoinedRewritten(m, m1, t, f, base, top, p, q); }
    assert FreeAfter(t, f.Keys, f1.Keys, q, |m|, |m|, false);
    CommitHeaders(m, m2, t, f, f1, base, top, q, |m|, |m|, false);
    CommitKept(m, m2, t, f, base, top, q, |m|, |m|, t.Keys - f.Keys - {p, top});
    JoinedLiveKeys(m, t, f, f1, base, top, p, q);
  }

  lemma JoinedLiveKeys(m: Mem, t: Tile, f: Free, f1: Free, base: int, top: int, p: int, q: int)
    requires CanJoinTop(m, t, f, base, top, p, q) && f1 == f - {q}
    ensures q in t && Retile(t, q, |m|, |m|).Keys - f1.Keys - {q} == t.Keys - f.Keys - {p, top}
  {
    JoinRange(m, t, f, base, top, p, q);
  }

  lemma JoinedLists(m: Mem, m1: Mem, t: Tile, f: Free, f1: Free, base: int, top: int, p: int, q: int)
    requires CanJoinTop(m, t, f, base, top, p, q) && |m1| == |m| && Lists(m1, f1) && f1 == f - {q}
    ensures AddrOk(m1, q) && Lists(SetHead(m1, q, |m| - q + 1), f1)
  {
    JoinRange(m, t, f, base, top, p, q);
    SetHeadKeepsLists(m1, q, |m| - q + 1, t, base, |m|, f1);
  }

  lemma JoinedBinned(m: Mem, t: Tile, f: Free, f1: Free, base: int, top: int, p: int, q: int)
    requires CanJoinTop(m, t, f, base, top, p, q) && f1 == f - {q}
    ensures q in t && Binned(Retile(t, q, |m|, |m|), f1)
  {
    JoinRange(m, t, f, base, top, p, q);
    var r := Retile(t, q, |m|, |m|);
    forall c {:trigger f1[c]} | c in f1 ensures c in f && f1[c] == f[c] && c in r && c in t && r[c] == t[c] {
      assert c in f.Keys && c in t;
    }
    BinnedShrinks(t, f, r, f1);
  }

  lemma JoinedRewritten(m: Mem, m1: Mem, t: Tile, f: Free, base: int, top: int, p: int, q: int)
    requires CanJoinTop(m, t, f, base, top, p, q) && LinkWords(m, m1, f.Keys)
    ensures AddrOk(m1, q) && q in t && HeadersAddr(m, t)
    ensures Rewritten(m, SetHead(m1, q, |m| - q + 1), t, q, |m|, |m|, false)
  {
    JoinRange(m, t, f, base, top, p, q);
    HeadersKept(m, m1, t, base, |m|, f.Keys);
    var m2, r := SetHead(m1, q, |m| - q + 1), Retile(t, q, |m|, |m|);
    forall h {:trigger r[h]} | h in r ensures AddrOk(m2, h) && ARENA <= h { assert t[h] > 0; }
    assert HeadersAddr(m2, r);
    forall h | h in t && (h < q || |m| < h)
      ensures AddrOk(m, h) && AddrOk(m2, h) && Head(m2, h) == Head(m, h) && Foot(m2, h) == Foot(m, h)
    {
      assert t[h] > 0;
    }
    assert SameOutside(m, m2, t, q, |m|);
  }
}
