/** The part of malloc that serves a request from the top chunk, extending it if need be. */
module TopServing {
  import opened Chunks
  import opened Bins
  import opened BinBlocks
  import opened HeapSteps
  import opened Extending
  import opened Serving

  /** The allocator's state outside the arena. */
  datatype Globals = Globals(top: int, sbrkBase: int, sbrkedMem: int)

  ghost predicate Ready(m: Mem, lim: Limits, g: Globals, t: Tile, f: Free, base: int) {
    && Sane(lim) && |m| <= lim.end && Shape(m, t, f, base, g.top)
    && g.sbrkedMem == |m| - g.sbrkBase && lim.start == g.sbrkBase <= base && |m| % PAGESZ == 0
  }

  ghost predicate Untouched(m: Mem, lim: Limits, g: Globals, t: Tile, f: Free) {
    && Sane(lim) && |m| == lim.start && Lists(m, f) && t == map[] && f == map[]
    && g == Globals(BinAt(0), NO_BASE, 0)
  }

  ghost predicate Consistent(m: Mem, lim: Limits, bb: nat, g: Globals, t: Tile, f: Free, base: int) {
    && Marks(bb, f)
    && (if g.sbrkBase == NO_BASE then Untouched(m, lim, g, t, f) && bb == 0 else Ready(m, lim, g, t, f, base))
  }

  lemma ConsistentUsable(m: Mem, lim: Limits, bb: nat, g: Globals, t: Tile, f: Free, base: int)
    requires Consistent(m, lim, bb, g, t, f, base)
    ensures Sane(lim) && lim.start <= |m| <= lim.end && Usable(m, t, f, base, g.top)
    ensures g.sbrkBase == NO_BASE <==> t == map[]
    ensures g.top == BinAt(0) || AddrOk(m, g.top)
    ensures g.sbrkBase != NO_BASE ==>
      g.top in t && g.top !in f && t[g.top] % 8 == 0 && TopSize(m, bb, g.top) == t[g.top]
    ensures g.sbrkBase == NO_BASE ==> TopSize(m, bb, g.top) == 0
    ensures TopSize(m, bb, g.top) == TopOf(g, t)
  {
    if g.sbrkBase != NO_BASE {
      TopChunk(m, t, f, base, g.top);
    }
  }

  /** The size of the top chunk, 0 before there is one. */
  ghost function TopOf(g: Globals, t: Tile): int { if g.top in t then t[g.top] else 0 }

  /** malloc_extend_top leaves a heap: the first extension finds room, or a later one is not negative and too large. */
  predicate Extends(lim: Limits, g: Globals, brk: int, topSize: int, nb: int)
    requires Sane(lim) && 0 <= nb
  { if g.sbrkBase == NO_BASE then FirstEnd(lim, nb) <= lim.end else !TakesTop(lim, brk, topSize, nb) }

  /** There is a heap that satisfies the invariant and is this one. */
  ghost predicate Sound(m: Mem, lim: Limits, bb: nat, g: Globals) {
    exists t: Tile, f: Free, base {:trigger Consistent(m, lim, bb, g, t, f, base)} ::
      Consistent(m, lim, bb, g, t, f, base)
  }

  lemma NoTopBehind(m: Mem, lim: Limits, bb: nat, g: Globals)
    requires g.sbrkBase != NO_BASE && |m| < g.top + MINSIZE
    ensures !Sound(m, lim, bb, g)
  {
    forall t: Tile, f: Free, base {:trigger Consistent(m, lim, bb, g, t, f, base)}
      ensures !Consistent(m, lim, bb, g, t, f, base)
    {
      if Consistent(m, lim, bb, g, t, f, base) { TopChunk(m, t, f, base, g.top); }
    }
  }

  lemma OtherBase(m: Mem, lim: Limits, bb: nat, g: Globals)
    requires g.sbrkBase != NO_BASE && (g.sbrkBase != lim.start || g.sbrkedMem != |m| - g.sbrkBase)
    ensures !Sound(m, lim, bb, g)
  {}

  /** malloc_extend_top. It keeps the invariant if, and only if, the first extension finds room, or a later one does
      not take away top. */
  method ExtendTop(m: Mem, lim: Limits, bb: nat, g: Globals, nb: int, ghost t: Tile, ghost f: Free, ghost base: int)
    returns (m': Mem, g': Globals, ghost t': Tile, ghost base': int)
    requires Consistent(m, lim, bb, g, t, f, base) && IsSize(nb)
    ensures Sane(lim)
    ensures Extends(lim, g, |m|, TopOf(g, t), nb) ==> Extended(m, m', lim, bb, g, g', nb, t, t', f, base')
    ensures !Extends(lim, g, |m|, TopOf(g, t), nb) ==> !Sound(m', lim, bb, g') && g'.sbrkBase != NO_BASE
    ensures g.sbrkBase == NO_BASE ==>
      AddrOk(m', g'.top) && g'.top == FirstTop(lim, nb) && Head(m', g'.top) == WithBit0(FirstTopSize(lim, nb))
    ensures g.sbrkBase == NO_BASE && !Extends(lim, g, |m|, TopOf(g, t), nb) ==>
      !TopEnds(m', g'.top, FirstEnd(lim, nb)) && (g'.sbrkBase != lim.start || g'.sbrkedMem != |m'| - g'.sbrkBase)
    ensures g.sbrkBase != NO_BASE && !Extends(lim, g, |m|, TopOf(g, t), nb) ==>
      g'.top == g.top && |m'| < g'.top + MINSIZE
  {
    ConsistentUsable(m, lim, bb, g, t, f, base);
    if g.sbrkBase == NO_BASE {
      var top, sbrkBase, sbrkedMem;
      m', top, sbrkBase, sbrkedMem, t' := FirstExtend(m, lim, nb, f);
      g', base' := Globals(top, sbrkBase, sbrkedMem), top;
      assert t.Keys - f.Keys - {g.top} == {};
      if FirstEnd(lim, nb) > lim.end { OtherBase(m', lim, bb, g'); }
    } else {
      var sbrkedMem;
      m', sbrkedMem, t' := Extend(m, lim, nb, g.top, g.sbrkBase, g.sbrkedMem, t, f, base);
      g', base' := g.(sbrkedMem := sbrkedMem), base;
      if TakesTop(lim, |m|, t[g.top], nb) { NoTopBehind(m', lim, bb, g'); }
    }
  }

  /** The invariant after the extension; top has grown, unless there is no room for that. */
  ghost predicate Extended(m: Mem, m': Mem, lim: Limits, bb: nat, g: Globals, g': Globals, nb: int, t: Tile, t': Tile,
                           f: Free, base': int) {
    && Consistent(m', lim, bb, g', t', f, base') && g'.sbrkBase != NO_BASE
    && g'.top in t' && t'.Keys - f.Keys - {g'.top} == t.Keys - f.Keys - {g.top}
    && Kept(m, m', t, t', t.Keys - f.Keys - {g.top})
    && 0 <= nb && Sane(lim)
    && (if g.sbrkBase == NO_BASE then t'[g'.top] >= nb + MINSIZE && |m| <= |m'|
        else g'.top == g.top && g.top in t && t'[g.top] == t[g.top] + (|m'| - |m|) && |m'| == NewBreak(lim, |m|, nb))
  }

  /** The break after sbrk. */
  ghost function NewBreak(lim: Limits, brk: int, nb: int): int
    requires Sane(lim) && 0 <= nb
  { if lim.start <= brk + Increment(lim, nb) <= lim.end then brk + Increment(lim, nb) else brk }

  /** It is enough if there is room for the growth; otherwise top has not become larger. */
  lemma NewBreakIs(lim: Limits, brk: int, nb: int)
    requires Sane(lim) && IsSize(nb) && lim.start <= brk <= lim.end
    ensures if lim.end < brk + Growth(lim, nb) then NewBreak(lim, brk, nb) <= brk
      else brk + nb + MINSIZE <= NewBreak(lim, brk, nb)
  {
    IncrementIs(lim, nb);
  }

  /** Use the front of the top chunk. */
  method UseTop(m: Mem, lim: Limits, bb: nat, g: Globals, nb: int, ghost t: Tile, ghost f: Free, ghost base: int)
    returns (m': Mem, g': Globals, ghost t': Tile)
    requires Consistent(m, lim, bb, g, t, f, base) && g.sbrkBase != NO_BASE && MINSIZE <= nb && nb % 8 == 0
    requires g.top in t && t[g.top] >= nb + MINSIZE
    ensures Consistent(m', lim, bb, g', t', f, base) && g'.sbrkBase != NO_BASE && g'.top == g.top + nb && |m'| == |m|
    ensures Kept(m, m', t, t', t.Keys - f.Keys - {g.top})
    ensures g.top in t' && t'[g.top] == nb
    ensures t'.Keys - f.Keys - {g'.top} == (t.Keys - f.Keys - {g.top}) + {g.top}
  {
    ConsistentUsable(m, lim, bb, g, t, f, base);
    var size := TopSize(m, bb, g.top);
    TopUsed(m, lim, g, nb, t, f, base);
    m' := TopSplitMem(m, g.top, nb, size);
    g' := g.(top := g.top + nb);
    t' := Retile(t, g.top, g.top + nb, |m|);
  }

  lemma TopUsed(m: Mem, lim: Limits, g: Globals, nb: int, t: Tile, f: Free, base: int)
    requires Ready(m, lim, g, t, f, base) && MINSIZE <= nb && nb % 8 == 0 && g.top in t && t[g.top] >= nb + MINSIZE
    ensures AddrOk(m, g.top) && AddrOk(m, g.top + nb)
    ensures var m', r := TopSplitMem(m, g.top, nb, t[g.top]), Retile(t, g.top, g.top + nb, |m|);
      && Ready(m', lim, g.(top := g.top + nb), r, f, base) && Kept(m, m', t, r, LiveIn(t, f, g.top))
      && g.top in r && r[g.top] == nb && LiveIn(r, f, g.top + nb) == LiveIn(t, f, g.top) + {g.top}
  {
    TopSplit(m, t, f, base, g.top, nb);
    UsedTop(m, t, f, base, g.top, nb);
  }

  lemma UsedTop(m: Mem, t: Tile, f: Free, base: int, top: int, nb: int)
    requires Shape(m, t, f, base, top) && top in t && MINSIZE <= nb <= t[top] - MINSIZE && nb % 8 == 0
    ensures var r := Retile(t, top, top + nb, |m|);
      top in r && r[top] == nb && r.Keys - f.Keys - {top + nb} == (t.Keys - f.Keys - {top}) + {top}
  {
    TopChunk(m, t, f, base, top);
    TopSplitTiles(t, f, base, |m|, top, nb);
    var r := Retile(t, top, top + nb, |m|);
    forall w ensures w in r.Keys - f.Keys - {top + nb} <==> w in (t.Keys - f.Keys - {top}) + {top} {
      if w in t.Keys - f.Keys - {top} { assert w < top || |m| <= w; }
      if w in t { assert t[w] > 0; assert top < w ==> Ends(t, top, w); }
    }
  }

  // ----- malloc as a whole -----

  ghost function LiveIn(t: Tile, f: Free, top: int): set<int> { t.Keys - f.Keys - {top} }

  /** Neither a free chunk nor the top chunk, extended if that is possible, can serve size `nb`. */
  ghost predicate Exhausted(m: Mem, lim: Limits, g: Globals, t: Tile, f: Free, nb: int) {
    && NothingFits(t, f, nb) && g.sbrkBase != NO_BASE && g.top in t && Sane(lim) && 0 <= nb
    && t[g.top] < nb + MINSIZE && lim.end < |m| + Growth(lim, nb)
  }

  /** A free chunk that is well chosen, or if there is none that is large enough, the front of the top chunk. */
  ghost predicate Chosen(t: Tile, f: Free, nb: int, v: int) {
    if NothingFits(t, f, nb) then v !in f else WellChosen(t, f, nb, v)
  }

  /** Chunk `v` has been allocated for size `nb`; nothing else in use has changed. */
  ghost predicate Allocated(m: Mem, m': Mem, g: Globals, g': Globals, t: Tile, f: Free, t': Tile, f': Free, nb: int,
                            v: int) {
    && v in t' && nb <= t'[v] < nb + MINSIZE
    && v !in LiveIn(t, f, g.top) && LiveIn(t', f', g'.top) == LiveIn(t, f, g.top) + {v}
    && Kept(m, m', t, t', LiveIn(t, f, g.top))
    && Chosen(t, f, nb, v)
    && Rebinned(t, f, t', f', nb, v)
  }

  lemma ChosenFits(t: Tile, f: Free, nb: int, v: int)
    requires WellChosen(t, f, nb, v)
    ensures !NothingFits(t, f, nb)
  {
    var slot := f[v];
  }

  lemma GrantedAllocated(m: Mem, m': Mem, g: Globals, t: Tile, f: Free, t': Tile, f': Free, nb: int, v: int)
    requires g.top in t && g.top !in f && g.top in t' && g.top !in f'
    requires Granted(m, m', t, f, t', f', nb, v) && WellChosen(t, f, nb, v) && Rebinned(t, f, t', f', nb, v)
    ensures Allocated(m, m', g, g, t, f, t', f', nb, v)
  {
    ChosenFits(t, f, nb, v);
    KeptSubset(m, m', t, t', t.Keys - f.Keys, LiveIn(t, f, g.top));
  }

  lemma KeptSubset(m: Mem, m': Mem, t: Tile, t': Tile, s: set<int>, r: set<int>)
    requires Kept(m, m', t, t', s) && r <= s
    ensures Kept(m, m', t, t', r)
  {}

  lemma KeptTrans(m: Mem, m1: Mem, m2: Mem, t: Tile, t1: Tile, t2: Tile, s: set<int>)
    requires Kept(m, m1, t, t1, s) && Kept(m1, m2, t1, t2, s) && |m| <= |m1|
    ensures Kept(m, m2, t, t2, s)
  {
    forall w {:trigger w in s} | w in s ensures w in t && w in t2 && t2[w] == t[w] && SameBlock(m, m2, w, t[w]) {
      assert SameBlock(m, m1, w, t[w]) && SameBlock(m1, m2, w, t1[w]);
    }
  }

  /** What malloc computes as the rest of top after an extension that has failed or taken top away. */
  function FailedRemainder(lim: Limits, g: Globals, topSize: int, nb: int): int
    requires Sane(lim) && IsSize(nb)
  {
    if g.sbrkBase == NO_BASE then
      var head := WithBit0(FirstTopSize(lim, nb));
      ToLong((head - head % 4 - nb) % ULONG)
    else ToLong(((topSize + Growth(lim, nb)) % ULONG - nb) % ULONG)
  }

  /** And so it hands out null, or what it takes for memory. */
  function FailedAnswer(lim: Limits, g: Globals, topSize: int, nb: int): int
    requires Sane(lim) && IsSize(nb)
  {
    if FailedRemainder(lim, g, topSize, nb) < MINSIZE then NULL else 8 + if g.sbrkBase == NO_BASE then FirstTop(lim, nb)
      else g.top
  }

  /** malloc's use of top when that cannot be extended: what is handed out is no memory of the heap, which is none any
      more. */
  method WithoutRoom(m: Mem, lim: Limits, bb: nat, g: Globals, nb: int, ghost t: Tile, ghost f: Free, ghost base: int)
    returns (r: int, m': Mem, g': Globals)
    requires Consistent(m, lim, bb, g, t, f, base) && IsSize(nb) && Sane(lim) && !Extends(lim, g, |m|, TopOf(g, t), nb)
    ensures !Sound(m', lim, bb, g') && r == FailedAnswer(lim, g, TopOf(g, t), nb)
  {
    ConsistentUsable(m, lim, bb, g, t, f, base);
    ghost var t', base';
    var oldTopSize := TopSize(m, bb, g.top);
    m', g', t', base' := ExtendTop(m, lim, bb, g, nb, t, f, base);
    var topSize := if g.sbrkBase == NO_BASE then ChunkSize(m', g'.top) else (oldTopSize + Growth(lim, nb)) % ULONG;
    var remainder := ToLong((topSize - nb) % ULONG);
    if remainder < MINSIZE {
      return NULL, m', g';
    }
    r := g'.top + 8;
    if AddrOk(m', g'.top) {                        // otherwise it is written outside the region
      m' := SetHead(m', g'.top, nb + 1);
    }
    g' := g'.(top := g'.top + nb);
    if AddrOk(m', g'.top) {
      m' := SetHead(m', g'.top, remainder + 1);
    }
    if g.sbrkBase == NO_BASE { OtherBase(m', lim, bb, g'); } else { NoTopBehind(m', lim, bb, g'); }
  }

  /** A region of 256 bytes: a first request for a chunk of 512 gets pointer 8. */
  lemma PointerEight(lim: Limits, g: Globals, nb: int)
    requires lim == Limits(0x10_0000, 0x10_0100, 0, 0) && nb == 512 && g.sbrkBase == NO_BASE
    ensures Sane(lim) && IsSize(nb) && !Extends(lim, g, lim.start, 0, nb) && FailedAnswer(lim, g, 0, nb) == 8
  {
    assert FrontCorrection(0) == 0 && RoundUp(528) == 4096;
    assert Correction(0, 528) == 3568;
  }

  method FromTop(m: Mem, lim: Limits, bb: nat, g: Globals, nb: int, ghost t: Tile, ghost f: Free, ghost base: int)
    returns (v: int, m': Mem, g': Globals, ghost t': Tile, ghost base': int)
    requires Consistent(m, lim, bb, g, t, f, base) && IsSize(nb) && Sane(lim)
    requires TopOf(g, t) < nb + MINSIZE ==> Extends(lim, g, |m|, TopOf(g, t), nb)
    ensures Consistent(m', lim, bb, g', t', f, base')
    ensures v == 0 <==>
      g.sbrkBase != NO_BASE && g.top in t && t[g.top] < nb + MINSIZE && lim.end < |m| + Growth(lim, nb)
    ensures Kept(m, m', t, t', LiveIn(t, f, g.top)) && (v != 0 ==> |m| <= |m'|)
    ensures g.sbrkBase != NO_BASE ==> g'.sbrkBase == g.sbrkBase
    ensures v == 0 ==> LiveIn(t', f, g'.top) == LiveIn(t, f, g.top)
    ensures v != 0 ==> v in t' && t'[v] == nb && v !in LiveIn(t, f, g.top) && v !in f && g'.sbrkBase != NO_BASE
    ensures v != 0 ==> LiveIn(t', f, g'.top) == LiveIn(t, f, g.top) + {v}
  {
    ConsistentUsable(m, lim, bb, g, t, f, base);
    m', g', t', base' := m, g, t, base;
    if TopSize(m, bb, g.top) - nb < MINSIZE {
      NewBreakIs(lim, |m|, nb);
      m', g', t', base' := ExtendTop(m, lim, bb, g, nb, t, f, base);
      ConsistentUsable(m', lim, bb, g', t', f, base');
      if TopSize(m', bb, g'.top) - nb < MINSIZE {
        return 0, m', g', t', base';
      }
    }
    ghost var m1, t1 := m', t';
    v := g'.top;
    TopNotNull(m', lim, bb, g', t', f, base');
    m', g', t' := UseTop(m', lim, bb, g', nb, t', f, base');
    KeptTrans(m, m1, m', t, t1, t', LiveIn(t, f, g.top));
  }

  lemma TopNotNull(m: Mem, lim: Limits, bb: nat, g: Globals, t: Tile, f: Free, base: int)
    requires Consistent(m, lim, bb, g, t, f, base) && g.sbrkBase != NO_BASE
    ensures g.top != 0 && g.top !in f
  {
    TopChunk(m, t, f, base, g.top);
  }

  lemma ServedNothing(m': Mem, lim: Limits, bb: nat, bb': nat, g: Globals, m: Mem, t: Tile, f: Free, f': Free,
                      base: int)
    requires Consistent(m, lim, bb, g, t, f, base) && |m'| == |m| && Usable(m', t, f', base, g.top) && Marks(bb', f')
    requires f'.Keys == f.Keys && (t == map[] ==> bb' <= bb)
    ensures Consistent(m', lim, bb', g, t, f', base)
  {}

  /** malloc leaves a heap: it does not have to extend top, or can. */
  ghost predicate Serves(m: Mem, lim: Limits, g: Globals, t: Tile, f: Free, nb: int) {
    && Sane(lim) && IsSize(nb)
    && (NothingFits(t, f, nb) && TopOf(g, t) < nb + MINSIZE ==> Extends(lim, g, |m|, TopOf(g, t), nb))
  }

  /** malloc, for a chunk of size `nb`: a pointer. */
  method AllocateAny(m: Mem, lim: Limits, bb: nat, g: Globals, nb: int, ghost t: Tile, ghost f: Free, ghost base: int)
    returns (r: int, m': Mem, bb': nat, g': Globals, ghost t': Tile, ghost f': Free, ghost base': int)
    requires Consistent(m, lim, bb, g, t, f, base) && IsSize(nb) && Sane(lim)
    ensures Serves(m, lim, g, t, f, nb) ==>
      AllocatedOrNot(m, m', lim, bb', g, g', t, f, t', f', base', nb, r - 8, r == NULL)
    ensures !Serves(m, lim, g, t, f, nb) ==> !Sound(m', lim, bb', g') && r == FailedAnswer(lim, g, TopOf(g, t), nb)
  {
    ConsistentUsable(m, lim, bb, g, t, f, base);
    var v, m1, bb1;
    ghost var t1, f1;
    v, m1, bb1, t1, f1 := Serve(m, bb, nb, t, f, base, g.top);
    if v != 0 {
      ServedConsistent(m, m1, lim, bb, bb1, g, t, f, t1, f1, base);
      ChosenFits(t, f, nb, v);
      GrantedAllocated(m, m1, g, t, f, t1, f1, nb, v);
      m', bb', g', t', f', base' := m1, bb1, g, t1, f1, base;
      ChunkPositive(m', lim, bb', g', t', f', base', v);
      return v + 8, m', bb', g', t', f', base';
    }
    r, m', bb', g', t', f', base' := FromTopAny(m, m1, lim, bb, bb1, g, nb, t, f, f1, base);
  }

  /** Memory is `m` with bins in which there is nothing for the request. */
  method FromTopAny(ghost m: Mem, m1: Mem, lim: Limits, bb: nat, bb1: nat, g: Globals, nb: int, ghost t: Tile,
                    ghost f: Free, ghost f1: Free, ghost base: int)
    returns (r: int, m': Mem, bb': nat, g': Globals, ghost t': Tile, ghost f': Free, ghost base': int)
    requires Consistent(m, lim, bb, g, t, f, base) && IsSize(nb) && Sane(lim) && NothingFits(t, f, nb)
    requires |m1| == |m| && Usable(m1, t, f1, base, g.top) && Marks(bb1, f1) && f1.Keys == f.Keys
      && (t == map[] ==> bb1 <= bb)
    requires Kept(m, m1, t, t, t.Keys - f.Keys) && KeepsPlaces(t, f, f1, nb)
    ensures Serves(m, lim, g, t, f, nb) ==>
      AllocatedOrNot(m, m', lim, bb', g, g', t, f, t', f', base', nb, r - 8, r == NULL)
    ensures !Serves(m, lim, g, t, f, nb) ==> !Sound(m', lim, bb', g') && r == FailedAnswer(lim, g, TopOf(g, t), nb)
  {
    ServedNothing(m1, lim, bb, bb1, g, m, t, f, f1, base);
    ConsistentUsable(m1, lim, bb1, g, t, f1, base);
    bb', f' := bb1, f1;
    if TopSize(m1, bb1, g.top) - nb < MINSIZE && !Extends(lim, g, |m1|, TopSize(m1, bb1, g.top), nb) {
      t', base' := t, base;
      r, m', g' := WithoutRoom(m1, lim, bb1, g, nb, t, f1, base);
      return;
    }
    var v;
    v, m', g', t', base' := FromTop(m1, lim, bb1, g, nb, t, f1, base);
    r := if v == 0 then NULL else v + 8;
    KeptSubset(m, m1, t, t, t.Keys - f.Keys, LiveIn(t, f, g.top));
    assert LiveIn(t, f1, g.top) == LiveIn(t, f, g.top);
    KeptTrans(m, m1, m', t, t, t', LiveIn(t, f, g.top));
    if v != 0 {
      FromTopAllocated(m, m', g, g', t, f, t', f1, nb, v);
      ChunkPositive(m', lim, bb', g', t', f', base', v);
    }
  }

  lemma ChunkPositive(m: Mem, lim: Limits, bb: nat, g: Globals, t: Tile, f: Free, base: int, v: int)
    requires Consistent(m, lim, bb, g, t, f, base) && v in t
    ensures v > 0
  {
    assert g.sbrkBase != NO_BASE;
    assert t[v] > 0;
  }

  /** Chunk `v` has been allocated, or none because nothing can serve the size. */
  ghost predicate AllocatedOrNot(m: Mem, m': Mem, lim: Limits, bb': nat, g: Globals, g': Globals, t: Tile, f: Free,
                                 t': Tile, f': Free, base': int, nb: int, v: int, none: bool) {
    && Consistent(m', lim, bb', g', t', f', base')
    && (none <==> Exhausted(m, lim, g, t, f, nb)) && (g.sbrkBase != NO_BASE ==> g'.sbrkBase == g.sbrkBase)
    && (none ==> LiveIn(t', f', g'.top) == LiveIn(t, f, g.top) && Kept(m, m', t, t', LiveIn(t, f, g.top)))
    && (none ==> f'.Keys == f.Keys && KeepsPlaces(t, f, f', nb))
    && (!none ==> |m| <= |m'| && v != 0 && g'.sbrkBase != NO_BASE && Allocated(m, m', g, g', t, f, t', f', nb, v))
  }

  /** malloc leaves a heap, or at least hands out nothing. */
  ghost predicate Answered(m: Mem, lim: Limits, g: Globals, t: Tile, f: Free, nb: int) {
    Sane(lim) && IsSize(nb) && (Serves(m, lim, g, t, f, nb) || FailedAnswer(lim, g, TopOf(g, t), nb) == NULL)
  }

  /** The same under this condition. */
  method Allocate(m: Mem, lim: Limits, bb: nat, g: Globals, nb: int, ghost t: Tile, ghost f: Free, ghost base: int)
    returns (v: int, m': Mem, bb': nat, g': Globals, ghost t': Tile, ghost f': Free, ghost base': int)
    requires Consistent(m, lim, bb, g, t, f, base) && IsSize(nb) && Sane(lim)
    requires Answered(m, lim, g, t, f, nb)
    ensures Serves(m, lim, g, t, f, nb) ==> AllocatedOrNot(m, m', lim, bb', g, g', t, f, t', f', base', nb, v, v == 0)
    ensures !Serves(m, lim, g, t, f, nb) ==> v == 0 && !Sound(m', lim, bb', g')
  {
    var r;
    r, m', bb', g', t', f', base' := AllocateAny(m, lim, bb, g, nb, t, f, base);
    v := if r == NULL then 0 else r - 8;
  }

  lemma ServedConsistent(m: Mem, m': Mem, lim: Limits, bb: nat, bb': nat, g: Globals, t: Tile, f: Free, t': Tile,
                         f': Free, base: int)
    requires Consistent(m, lim, bb, g, t, f, base) && t != map[] && |m'| == |m| && Shape(m', t', f', base, g.top)
      && Marks(bb', f')
    ensures Consistent(m', lim, bb', g, t', f', base) && g.sbrkBase != NO_BASE
    ensures g.top in t && g.top !in f && g.top in t' && g.top !in f'
  {
    ConsistentUsable(m, lim, bb, g, t, f, base);
    TopChunk(m', t', f', base, g.top);
  }

  lemma FromTopAllocated(m: Mem, m': Mem, g: Globals, g': Globals, t: Tile, f: Free, t': Tile, f': Free, nb: int,
                         v: int)
    requires NothingFits(t, f, nb) && f'.Keys == f.Keys && KeepsPlaces(t, f, f', nb)
    requires Kept(m, m', t, t', LiveIn(t, f, g.top))
    requires v in t' && t'[v] == nb && v !in LiveIn(t, f, g.top) && v !in f'
    requires LiveIn(t', f', g'.top) == LiveIn(t, f, g.top) + {v}
    ensures Allocated(m, m', g, g', t, f, t', f', nb, v)
  {
    assert v !in f.Keys;
  }
}
