/** realloc: a block grows in place where it can, and moves otherwise. */
module Reallocating {
  import opened Chunks
  import opened Bins
  import opened BinBlocks
  import opened HeapSteps
  import opened HeapFree
  import opened Extending
  import opened TopServing
  import opened Freeing
  import opened Recutting
  import opened Stretches
  import opened Growing

  // ----- the new block is the next chunk -----

  /** Blocks `p` and `v` are neighbours. */
  lemma Neighbours(m: Mem, t: Tile, f: Free, base: int, top: int, p: int, v: int)
    requires Shape(m, t, f, base, top) && Used(t, f, top, p) && Used(t, f, top, v) && v == Next(t, p)
    ensures var e := Next(t, v);
      CanRecut(m, t, f, f, base, top, p, e, e) && InUseWithin(t, f, top, p, e, {p, v})
  {
    var e, s := Next(t, v), {p, v};
    UsedChunk(m, t, f, base, top, p);
    UsedChunk(m, t, f, base, top, v);
    forall x {:trigger x in s} ensures x in s <==> x in t && p <= x < e {
      if x in t {
        assert t[x] > 0;
        assert p < x ==> Ends(t, p, x);
        assert v < x ==> Ends(t, v, x);
      }
    }
    forall c {:trigger c in f} | c in f ensures c < p || e <= c { assert c in t.Keys; assert c !in s; }
    RecutTop(t, base, |m|, top, p, e);
  }

  method JoinNew(m: Mem, lim: Limits, bb: nat, g: Globals, p: int, v: int, nb: int, ghost t: Tile, ghost f: Free,
                 ghost base: int)
    returns (m': Mem, bb': nat, g': Globals, ghost t': Tile, ghost f': Free)
    requires Consistent(m, lim, bb, g, t, f, base) && p in LiveIn(t, f, g.top) && v in LiveIn(t, f, g.top)
      && v == Next(t, p)
    requires MINSIZE <= nb <= t[v] && nb % 8 == 0
    ensures Consistent(m', lim, bb', g', t', f', base) && g'.sbrkBase == g.sbrkBase
    ensures LiveIn(t', f', g'.top) == LiveIn(t, f, g.top) - {p, v} + {p}
      && Kept(m, m', t, t', LiveIn(t, f, g.top) - {p, v})
    ensures p in t' && nb <= t'[p] < nb + MINSIZE && SameBlock(m, m', p, t'[p])
  {
    LiveReady(m, lim, bb, g, t, f, base, p);
    assert AddrOk(m, p) && ChunkSize(m, p) == t[p] by { BlockAlone(m, lim, bb, g, t, f, base, p); }
    assert AddrOk(m, v) && ChunkSize(m, v) == t[v] by { BlockAlone(m, lim, bb, g, t, f, base, v); }
    ghost var e := Next(t, v);
    var newsize := ChunkSize(m, p) + ChunkSize(m, v);
    assert p + newsize == e;
    Neighbours(m, t, f, base, g.top, p, v);
    m', bb', g', t', f' := Carve(m, m, m, lim, bb, g, p, newsize, nb, t, f, f, base, {p, v});
  }

  // ----- the new block is elsewhere -----

  lemma Apart(m: Mem, t: Tile, base: int, p: int, v: int)
    requires Tiling(t, base, |m|) && p in t && v in t && p != v
    ensures p + t[p] <= v || v + t[v] <= p
  {
    assert p < v ==> Ends(t, p, v);
    assert v < p ==> Ends(t, v, p);
  }

  method CopyBlock(m: Mem, lim: Limits, bb: nat, g: Globals, p: int, oldsize: int, v: int, ghost t: Tile, ghost f: Free,
                   ghost base: int)
    returns (m': Mem)
    requires Consistent(m, lim, bb, g, t, f, base) && p in LiveIn(t, f, g.top) && v in LiveIn(t, f, g.top) && p != v
    requires oldsize == t[p] && oldsize <= t[v]
    ensures Consistent(m', lim, bb, g, t, f, base) && |m'| == |m|
    ensures Kept(m, m', t, t, LiveIn(t, f, g.top) - {v})
    ensures SameWords(m, p + 8, m', v + 8, (oldsize - 4) / 4)
  {
    EndsBelow(m, lim, bb, g, t, f, base, p);
    EndsBelow(m, lim, bb, g, t, f, base, v);
    LiveReady(m, lim, bb, g, t, f, base, v);
    Apart(m, t, base, p, v);
    m' := Copy(m, v + 8, p + 8, oldsize - 4);
    assert UserWrites(m, m', t, v);
    Written(m, m', t, f, base, g.top, v);
  }

  /** Allocate, copy, free; or take in the new block, if it is the next chunk. */
  method Move(m: Mem, lim: Limits, bb: nat, g: Globals, p: int, oldsize: int, nb: int, ghost t: Tile, ghost f: Free,
              ghost base: int)
    returns (r: int, m': Mem, bb': nat, g': Globals, ghost t': Tile, ghost f': Free, ghost base': int)
    requires Consistent(m, lim, bb, g, t, f, base) && p in LiveIn(t, f, g.top) && MINSIZE <= nb && nb % 8 == 0
    requires p in t && oldsize == t[p] && oldsize < nb && Answered(m, lim, g, t, f, nb)
    ensures Serves(m, lim, g, t, f, nb) ==>
      Consistent(m', lim, bb', g', t', f', base') && g'.sbrkBase == g.sbrkBase != NO_BASE
        && (r == 0 <==> Exhausted(m, lim, g, t, f, nb))
      && (if r == 0 then LiveIn(t', f', g'.top) == LiveIn(t, f, g.top) && Kept(m, m', t, t', LiveIn(t, f, g.top))
          else Reallocated(m, m', g, g', t, f, t', f', nb, p, r) && (r == p || Chosen(t, f, nb, r)))
    ensures !Serves(m, lim, g, t, f, nb) ==> r == 0 && !Sound(m', lim, bb', g')
  {
    LiveReady(m, lim, bb, g, t, f, base, p);
    EndsBelow(m, lim, bb, g, t, f, base, p);
    var v, m1, bb1, g1;
    ghost var t1, f1;
    v, m1, bb1, g1, t1, f1, base' := Allocate(m, lim, bb, g, nb, t, f, base);
    if v == 0 {
      r, m', bb', g', t', f' := 0, m1, bb1, g1, t1, f1;
      return;
    }
    r, m', bb', g', t', f' := MoveTo(m, m1, lim, bb1, g, g1, p, oldsize, v, nb, t, f, t1, f1, base');
  }

  lemma StillThere(m: Mem, m1: Mem, g: Globals, g1: Globals, t: Tile, f: Free, t1: Tile, f1: Free, nb: int, v: int,
                   p: int)
    requires Allocated(m, m1, g, g1, t, f, t1, f1, nb, v) && p in LiveIn(t, f, g.top) && p in t
    ensures p in t1 && t1[p] == t[p] && SameBlock(m, m1, p, t[p])
    ensures p in LiveIn(t1, f1, g1.top) && v in LiveIn(t1, f1, g1.top) && v != p
  {
    var live := LiveIn(t, f, g.top);
    assert p in live && v !in live;
  }

  /** Into the new block `v`. */
  method MoveTo(ghost m: Mem, m1: Mem, lim: Limits, bb1: nat, ghost g: Globals, g1: Globals, p: int, oldsize: int,
                v: int, nb: int, ghost t: Tile, ghost f: Free, ghost t1: Tile, ghost f1: Free, ghost base': int)
    returns (r: int, m': Mem, bb': nat, g': Globals, ghost t': Tile, ghost f': Free)
    requires Consistent(m1, lim, bb1, g1, t1, f1, base') && g1.sbrkBase != NO_BASE && MINSIZE <= nb && nb % 8 == 0
      && |m| <= |m1|
    requires p in LiveIn(t, f, g.top) && p in t && oldsize == t[p] && MINSIZE <= oldsize < nb && 0 <= p
      && p + oldsize + 4 <= |m|
    requires Allocated(m, m1, g, g1, t, f, t1, f1, nb, v)
    ensures Consistent(m', lim, bb', g', t', f', base') && g'.sbrkBase == g1.sbrkBase
    ensures r != 0 && Reallocated(m, m', g, g', t, f, t', f', nb, p, r) && (r == p || Chosen(t, f, nb, r))
  {
    StillThere(m, m1, g, g1, t, f, t1, f1, nb, v, p);
    EndsBelow(m1, lim, bb1, g1, t1, f1, base', p);
    EndsBelow(m1, lim, bb1, g1, t1, f1, base', v);
    LiveReady(m1, lim, bb1, g1, t1, f1, base', p);
    UsedChunk(m1, t1, f1, base', g1.top, p);
    Flag(Head(m1, p), t1[p]);
    if v == p + ChunkSize(m1, p) {
      m', bb', g', t', f' := JoinNew(m1, lim, bb1, g1, p, v, nb, t1, f1, base');
      r := p;
      Joined(m, m1, m', lim, bb', g, g1, g', t, f, t1, f1, t', f', base', nb, p, v);
    } else {
      m', bb', g', t', f' := CopyAndFree(m, m1, lim, bb1, g, g1, p, oldsize, v, nb, t, f, t1, f1, base');
      r := v;
    }
  }

  method CopyAndFree(ghost m: Mem, m1: Mem, lim: Limits, bb1: nat, ghost g: Globals, g1: Globals, p: int, oldsize: int,
                     v: int, ghost nb: int, ghost t: Tile, ghost f: Free, ghost t1: Tile, ghost f1: Free,
                     ghost base': int)
    returns (m': Mem, bb': nat, g': Globals, ghost t': Tile, ghost f': Free)
    requires Consistent(m1, lim, bb1, g1, t1, f1, base') && p in LiveIn(t1, f1, g1.top) && v in LiveIn(t1, f1, g1.top)
      && v != p && |m| <= |m1|
    requires p in LiveIn(t, f, g.top) && p in t && oldsize == t[p] == t1[p] && MINSIZE <= oldsize < nb && 0 <= p
      && p + oldsize + 4 <= |m|
    requires Allocated(m, m1, g, g1, t, f, t1, f1, nb, v) && 0 <= v && v + t1[v] + 4 <= |m1|
    ensures Consistent(m', lim, bb', g', t', f', base') && g'.sbrkBase == g1.sbrkBase
      && Reallocated(m, m', g, g', t, f, t', f', nb, p, v)
  {
    var m2 := CopyBlock(m1, lim, bb1, g1, p, oldsize, v, t1, f1, base');
    m', bb', g', t', f' := Deallocate(m2, lim, bb1, g1, p, t1, f1, base');
    Moved(m, m1, m2, m', lim, bb', g, g1, g', t, f, t1, f1, t', f', base', nb, p, v);
  }

  lemma KeptBoth(m: Mem, m1: Mem, m2: Mem, t: Tile, t1: Tile, t2: Tile, s: set<int>, s1: set<int>, s2: set<int>)
    requires Kept(m, m1, t, t1, s1) && Kept(m1, m2, t1, t2, s2) && |m| <= |m1| && s <= s1 && s <= s2
    ensures Kept(m, m2, t, t2, s)
  {
    KeptTrans(m, m1, m2, t, t1, t2, s);
  }

  lemma Joined(m: Mem, m1: Mem, m': Mem, lim: Limits, bb': nat, g: Globals, g1: Globals, g': Globals, t: Tile, f: Free,
               t1: Tile, f1: Free, t': Tile, f': Free, base': int, nb: int, p: int, v: int)
    requires p in LiveIn(t, f, g.top) && Allocated(m, m1, g, g1, t, f, t1, f1, nb, v) && |m| <= |m1|
    requires p in t && MINSIZE <= t[p] && 0 <= p && p + t[p] + 4 <= |m|
    requires Consistent(m', lim, bb', g', t', f', base')
      && LiveIn(t', f', g'.top) == LiveIn(t1, f1, g1.top) - {p, v} + {p}
    requires Kept(m1, m', t1, t', LiveIn(t1, f1, g1.top) - {p, v})
    requires p in t' && nb <= t'[p] < nb + MINSIZE && SameBlock(m1, m', p, t'[p])
    ensures Reallocated(m, m', g, g', t, f, t', f', nb, p, p)
  {
    var live := LiveIn(t, f, g.top);
    assert p in live && SameBlock(m, m1, p, t[p]);
    EndsBelow(m', lim, bb', g', t', f', base', p);
    SameWordsSame(m1, p + 8, (t[p] - 4) / 4);
    BlockWords(m, m1, m', p, t[p], p, t'[p], m1);
    assert LiveIn(t', f', g'.top) == live - {p} + {p};
    KeptBoth(m, m1, m', t, t1, t', live - {p}, live, LiveIn(t1, f1, g1.top) - {p, v});
  }

  lemma Moved(m: Mem, m1: Mem, m2: Mem, m': Mem, lim: Limits, bb': nat, g: Globals, g1: Globals, g': Globals, t: Tile,
              f: Free, t1: Tile, f1: Free, t': Tile, f': Free, base': int, nb: int, p: int, v: int)
    requires p in LiveIn(t, f, g.top) && Allocated(m, m1, g, g1, t, f, t1, f1, nb, v) && |m| <= |m1| == |m2|
    requires p in t && MINSIZE <= t[p] < nb && 0 <= p && p + t[p] + 4 <= |m|
    requires Consistent(m', lim, bb', g', t', f', base') && Deallocated(m2, m', g1, g', t1, f1, t', f', p)
    requires Kept(m1, m2, t1, t1, LiveIn(t1, f1, g1.top) - {v}) && SameWords(m1, p + 8, m2, v + 8, (t[p] - 4) / 4)
    requires 0 <= v && v + t1[v] + 4 <= |m1|
    ensures Reallocated(m, m', g, g', t, f, t', f', nb, p, v)
  {
    var live, live1 := LiveIn(t, f, g.top), LiveIn(t1, f1, g1.top);
    assert p in live && SameBlock(m, m1, p, t[p]);
    assert v in live1 - {p};
    EndsBelow(m', lim, bb', g', t', f', base', v);
    BlockWords(m, m1, m', p, t[p], v, t'[v], m2);
    KeptBoth(m, m1, m2, t, t1, t1, live, live, live1 - {v});
    KeptBoth(m, m2, m', t, t1, t', live - {p}, live, live1 - {p});
  }

  // ----- all of realloc -----

  /** Where the block can be extended: what follows it, or what comes before it. */
  ghost predicate InPlace(m: Mem, t: Tile, f: Free, top: int, p: int, nb: int)
    requires p in t && AddrOk(m, p)
  { nb <= t[p] || ForwardRoom(t, f, top, p, nb, 0) || BackwardRoom(m, t, f, top, p, nb) }

  /** The block stays if it can be extended forward; otherwise it moves down to the chunk before it, if that leaves room
      enough; and otherwise to where malloc finds room, unless that borders it. */
  ghost predicate RightPlace(m: Mem, t: Tile, f: Free, top: int, p: int, nb: int, r: int)
    requires p in t && AddrOk(m, p)
  {
    if nb <= t[p] || ForwardRoom(t, f, top, p, nb, 0) then r == p
    else if BackwardRoom(m, t, f, top, p, nb) then r == p - Foot(m, p)
    else r == p || Chosen(t, f, nb, r)
  }

  method Reallocate(m: Mem, lim: Limits, bb: nat, g: Globals, p: int, nb: int, ghost t: Tile, ghost f: Free,
                    ghost base: int)
    returns (r: int, m': Mem, bb': nat, g': Globals, ghost t': Tile, ghost f': Free, ghost base': int)
    requires Consistent(m, lim, bb, g, t, f, base) && p in LiveIn(t, f, g.top) && MINSIZE <= nb < 0x8000_0000
      && nb % 8 == 0
    requires p in t && AddrOk(m, p) && RoomTested(t, g.top, p, nb)
      && (!InPlace(m, t, f, g.top, p, nb) ==> Answered(m, lim, g, t, f, nb))
    ensures InPlace(m, t, f, g.top, p, nb) || Serves(m, lim, g, t, f, nb) ==>
      Consistent(m', lim, bb', g', t', f', base') && g'.sbrkBase == g.sbrkBase != NO_BASE
      && (r == 0 <==> !InPlace(m, t, f, g.top, p, nb) && Exhausted(m, lim, g, t, f, nb))
      && (if r == 0 then LiveIn(t', f', g'.top) == LiveIn(t, f, g.top) && Kept(m, m', t, t', LiveIn(t, f, g.top))
          else Reallocated(m, m', g, g', t, f, t', f', nb, p, r) && RightPlace(m, t, f, g.top, p, nb, r))
    ensures !InPlace(m, t, f, g.top, p, nb) && !Serves(m, lim, g, t, f, nb) ==> r == 0 && !Sound(m', lim, bb', g')
  {
    base' := base;
    LiveReady(m, lim, bb, g, t, f, base, p);
    UsedChunk(m, t, f, base, g.top, p);
    Flag(Head(m, p), t[p]);
    var oldsize := ChunkSize(m, p);
    assert oldsize == t[p];
    if oldsize >= nb {
      m', bb', g', t', f' := Shrink(m, lim, bb, g, p, oldsize, nb, t, f, base);
      return p, m', bb', g', t', f', base';
    }
    var grown;
    grown, m', bb', g', t', f' := GrowForward(m, lim, bb, g, p, oldsize, nb, t, f, base);
    if grown {
      return p, m', bb', g', t', f', base';
    }
    r, m', bb', g', t', f' := GrowBackward(m, lim, bb, g, p, oldsize, nb, t, f, base);
    if r != 0 {
      return;
    }
    r, m', bb', g', t', f', base' := Move(m, lim, bb, g, p, oldsize, nb, t, f, base);
  }

  method Shrink(m: Mem, lim: Limits, bb: nat, g: Globals, p: int, oldsize: int, nb: int, ghost t: Tile, ghost f: Free,
                ghost base: int)
    returns (m': Mem, bb': nat, g': Globals, ghost t': Tile, ghost f': Free)
    requires Ready(m, lim, g, t, f, base) && Marks(bb, f) && g.sbrkBase != NO_BASE && Used(t, f, g.top, p)
    requires t[p] == oldsize >= nb >= MINSIZE && nb % 8 == 0
    ensures Consistent(m', lim, bb', g', t', f', base) && g'.sbrkBase == g.sbrkBase
      && Reallocated(m, m', g, g', t, f, t', f', nb, p, p)
  {
    BlockAlone(m, lim, bb, g, t, f, base, p);
    assert Next(t, p) == p + oldsize;
    m', bb', g', t', f' := Carve(m, m, m, lim, bb, g, p, oldsize, nb, t, f, f, base, {p});
    SameWordsSame(m, p + 8, (t[p] - 4) / 4);
    Grown(m, m, m, m', lim, bb, bb', g, g', t, f, t', f', base, nb, p, p);
  }
}
