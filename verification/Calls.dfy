/** The calls that programs make, on values: what each does to the blocks in use. */
module Calls {
  import opened Bits
  import opened Chunks
  import opened Bins
  import opened HeapSteps
  import opened HeapFree
  import opened Extending
  import opened Serving
  import opened TopServing
  import opened Freeing
  import opened Stretches
  import opened Growing
  import opened Reallocating
  import opened Aligning
  import opened Requests
  import opened Blocks

  /** All there is to the allocator. */
  datatype State = State(mem: Mem, lim: Limits, binblocks: nat, g: Globals, tile: Tile, free: Free, base: int)

  ghost predicate Good(s: State) { Consistent(s.mem, s.lim, s.binblocks, s.g, s.tile, s.free, s.base) }

  ghost function LiveOf(s: State): set<int> { LiveIn(s.tile, s.free, s.g.top) }

  /** The blocks in use: pointers, and the words there. */
  ghost function BlocksOf(s: State): map<int, seq<int>> { View(s.mem, s.tile, LiveOf(s)) }

  /** The part of the state that is really there. */
  ghost predicate Is(s: State, m: Mem, lim: Limits, bb: nat, g: Globals) {
    s.mem == m && s.lim == lim && s.binblocks == bb && s.g == g
  }

  /** Neither a free chunk nor the top chunk, extended if that is possible, can serve size `nb`. */
  ghost predicate NoRoom(s: State, nb: int)
    requires Good(s) && 0 <= nb
  { Exhausted(s.mem, s.lim, s.g, s.tile, s.free, nb) }

  lemma SameBlocks(s: State, s': State)
    requires Good(s) && Good(s') && s'.lim == s.lim && LiveOf(s') == LiveOf(s)
      && Kept(s.mem, s'.mem, s.tile, s'.tile, LiveOf(s))
    ensures BlocksOf(s') == BlocksOf(s)
  {
    NothingAllocated(s.mem, s.lim, s.binblocks, s.g, s.tile, s.free, s.base,
                     s'.mem, s'.binblocks, s'.g, s'.tile, s'.free, s'.base);
  }

  // ----- malloc -----

  /** Best fit, but for the last remainder, which comes before chunks that would have to be split. */
  ghost predicate Fitting(s: State, nb: int, p: int) {
    Chosen(s.tile, s.free, nb, p)
  }

  /** malloc leaves a heap: it does not have to extend the arena, or can. */
  ghost predicate Survives(s: State, bytes: int)
    requires 0 <= bytes < ULONG
  { bytes < 0x8000_0000 ==> Serves(s.mem, s.lim, s.g, s.tile, s.free, Request2Size(bytes)) }

  /** What malloc answers if it does not. */
  ghost function Failed(s: State, nb: int): int
    requires Sane(s.lim) && IsSize(nb)
  { FailedAnswer(s.lim, s.g, TopOf(s.g, s.tile), nb) }

  /** As long as the padding and the region are below 2^31, only the first extension can fail: if there is no room for
      it. */
  lemma SurvivesIf(s: State, bytes: int)
    requires Good(s) && 0 <= bytes < 0x8000_0000 && s.lim.topPad + (s.lim.end - s.lim.start) + 2 * PAGESZ <= 0x8000_0000
    ensures Sane(s.lim) && IsSize(Request2Size(bytes))
    ensures Survives(s, bytes) <==> s.g.sbrkBase != NO_BASE || FirstEnd(s.lim, Request2Size(bytes)) <= s.lim.end
  {
    SizeIsChunk(bytes);
    ConsistentUsable(s.mem, s.lim, s.binblocks, s.g, s.tile, s.free, s.base);
    NeverTakesTop(s.lim, |s.mem|, TopOf(s.g, s.tile), Request2Size(bytes));
  }

  lemma SmallRegion(s: State)
    requires Good(s) && s.lim == Limits(0x10_0000, 0x10_2000, 0, 0) && s.g.sbrkBase == NO_BASE
    ensures Survives(s, 8) && !NoRoom(s, Request2Size(8))
  {
    SurvivesIf(s, 8);
    assert RoundUp(0x10_0020) == 0x10_1000;
  }

  /** What malloc does then. */
  ghost predicate Malloced(s: State, s': State, bytes: int, r: int)
    requires Good(s) && 0 <= bytes < ULONG
  {
    && Good(s')
    && (r == NULL <==> bytes >= 0x8000_0000 || NoRoom(s, Request2Size(bytes)))
    && (r == NULL ==> BlocksOf(s') == BlocksOf(s))
    && (r != NULL ==> Given(BlocksOf(s), BlocksOf(s'), bytes, r) && Fitting(s, Request2Size(bytes), r - 8))
    && (r != NULL ==> Rebinned(s.tile, s.free, s'.tile, s'.free, Request2Size(bytes), r - 8))
  }

  lemma Requested(s: State, bytes: int)
    requires Good(s) && 0 <= bytes < 0x8000_0000
    ensures Sane(s.lim) && IsSize(Request2Size(bytes))
  {
    SizeIsChunk(bytes);
  }

  method Malloc(m: Mem, lim: Limits, bb: nat, g: Globals, bytes: int, ghost s: State)
    returns (r: int, m': Mem, bb': nat, g': Globals, ghost s': State)
    requires Good(s) && Is(s, m, lim, bb, g) && 0 <= bytes < ULONG
    ensures Survives(s, bytes) ==> Is(s', m', lim, bb', g') && Malloced(s, s', bytes, r)
    ensures !Survives(s, bytes) ==> !Sound(m', lim, bb', g') && bytes < 0x8000_0000
    ensures bytes < 0x8000_0000 ==> Sane(lim) && IsSize(Request2Size(bytes))
    ensures !Survives(s, bytes) ==> r == Failed(s, Request2Size(bytes))
  {
    if bytes >= 0x8000_0000 {
      return NULL, m, bb, g, s;
    }
    Requested(s, bytes);
    var nb := Request2Size(bytes);
    ghost var t', f', base';
    r, m', bb', g', t', f', base' := AllocateAny(m, lim, bb, g, nb, s.tile, s.free, s.base);
    s' := State(m', lim, bb', g', t', f', base');
    if Survives(s, bytes) { GivenOrNot(s, s', bytes, r); }
  }

  lemma GivenOrNot(s: State, s': State, bytes: int, r: int)
    requires Good(s) && 0 <= bytes < 0x8000_0000 && s'.lim == s.lim
    requires AllocatedOrNot(s.mem, s'.mem, s.lim, s'.binblocks, s.g, s'.g, s.tile, s.free, s'.tile, s'.free, s'.base,
        Request2Size(bytes), r - 8, r == NULL)
    ensures Malloced(s, s', bytes, r)
  {
    if r == NULL { NotGiven(s, s', bytes); } else { IsGiven(s, s', bytes, r); }
  }

  lemma NotGiven(s: State, s': State, bytes: int)
    requires Good(s) && 0 <= bytes < 0x8000_0000 && s'.lim == s.lim
    requires AllocatedOrNot(s.mem, s'.mem, s.lim, s'.binblocks, s.g, s'.g, s.tile, s.free, s'.tile, s'.free, s'.base,
        Request2Size(bytes), -8, true)
    ensures Malloced(s, s', bytes, NULL)
  {
    Requested(s, bytes);
    SameBlocks(s, s');
  }

  lemma IsGiven(s: State, s': State, bytes: int, r: int)
    requires Good(s) && 0 <= bytes < 0x8000_0000 && s'.lim == s.lim && r != NULL
    requires AllocatedOrNot(s.mem, s'.mem, s.lim, s'.binblocks, s.g, s'.g, s.tile, s.free, s'.tile, s'.free, s'.base,
        Request2Size(bytes), r - 8, false)
    ensures Malloced(s, s', bytes, r)
  {
    Requested(s, bytes);
    NewBlock(s, s', bytes, r - 8);
  }

  lemma NewBlock(s: State, s': State, bytes: int, v: int)
    requires Good(s) && Good(s') && 0 <= bytes < ULONG && s'.lim == s.lim
    requires Allocated(s.mem, s'.mem, s.g, s'.g, s.tile, s.free, s'.tile, s'.free, Request2Size(bytes), v)
    ensures Given(BlocksOf(s), BlocksOf(s'), bytes, v + 8) && v + 8 != NULL && Fitting(s, Request2Size(bytes), v)
    ensures Rebinned(s.tile, s.free, s'.tile, s'.free, Request2Size(bytes), v)
  {
    GivenBlock(s.mem, s.lim, s.binblocks, s.g, s.tile, s.free, s.base,
               s'.mem, s'.binblocks, s'.g, s'.tile, s'.free, s'.base, bytes, v);
  }

  // ----- free -----

  /** What free does to the chunks and bins. */
  ghost predicate FreedTo(s: State, s': State, mem: int) {
    if mem == NULL then s' == s
    else GivenBack(s.mem, s'.mem, s.lim, s.g, s'.g, s.tile, s.free, s'.tile, s'.free, mem - 8)
  }

  method Free(m: Mem, lim: Limits, bb: nat, g: Globals, mem: int, ghost s: State)
    returns (m': Mem, bb': nat, g': Globals, ghost s': State)
    requires Good(s) && Is(s, m, lim, bb, g) && (mem != NULL ==> mem in BlocksOf(s))
    ensures Good(s') && Is(s', m', lim, bb', g') && g'.sbrkBase == g.sbrkBase
    ensures BlocksOf(s') == BlocksOf(s) - {mem} && FreedTo(s, s', mem)
  {
    if mem == NULL {
      NullNoBlock(s);
      return m, bb, g, s;
    }
    m', bb', g', s' := FreeBlock(m, lim, bb, g, mem, s);
  }

  method FreeBlock(m: Mem, lim: Limits, bb: nat, g: Globals, mem: int, ghost s: State)
    returns (m': Mem, bb': nat, g': Globals, ghost s': State)
    requires Good(s) && Is(s, m, lim, bb, g) && mem != NULL && mem in BlocksOf(s)
    ensures Good(s') && Is(s', m', lim, bb', g') && g'.sbrkBase == g.sbrkBase
    ensures BlocksOf(s') == BlocksOf(s) - {mem} && FreedTo(s, s', mem)
  {
    PointerOf(LiveOf(s), mem);
    ghost var t', f';
    m', bb', g', t', f' := Deallocate(m, lim, bb, g, mem - 8, s.tile, s.free, s.base);
    s' := State(m', lim, bb', g', t', f', s.base);
    DeallocatedView(m, lim, bb, g, s.tile, s.free, s.base, m', bb', g', t', f', s.base, mem - 8);
    FreedChunk(s, s', m', g', t', f', mem);
  }

  lemma FreedChunk(s: State, s': State, m': Mem, g': Globals, t': Tile, f': Free, mem: int)
    requires mem != NULL && s'.mem == m' && s'.g == g' && s'.tile == t' && s'.free == f'
    requires GivenBack(s.mem, m', s.lim, s.g, g', s.tile, s.free, t', f', mem - 8)
    ensures FreedTo(s, s', mem)
  {}

  lemma NullNoBlock(s: State)
    requires Good(s)
    ensures NULL !in BlocksOf(s)
  {
    PointerOf(LiveOf(s), NULL);
    if -8 in LiveOf(s) { EndsBelow(s.mem, s.lim, s.binblocks, s.g, s.tile, s.free, s.base, -8); }
  }

  // ----- realloc -----

  lemma BlockChunk(s: State, mem: int)
    requires Good(s) && mem in BlocksOf(s)
    ensures mem - 8 in LiveOf(s) && mem - 8 in s.tile && AddrOk(s.mem, mem - 8)
  {
    PointerOf(LiveOf(s), mem);
    BlockAlone(s.mem, s.lim, s.binblocks, s.g, s.tile, s.free, s.base, mem - 8);
  }

  /** The block `mem` can be extended where it is: into what follows it, or what comes before it. */
  ghost predicate CanExtend(s: State, mem: int, nb: int)
    requires Good(s) && mem in BlocksOf(s)
  {
    BlockChunk(s, mem);
    InPlace(s.mem, s.tile, s.free, s.g.top, mem - 8, nb)
  }

  /** The test for room in top is right, or is not made. */
  ghost predicate Tested(s: State, mem: int, nb: int)
    requires Good(s) && mem in BlocksOf(s)
  {
    BlockChunk(s, mem);
    RoomTested(s.tile, s.g.top, mem - 8, nb)
  }

  /** It is wrong for requests in the last 16 bytes for which the padding does not wrap, and blocks next to top. */
  lemma TestedIf(s: State, mem: int, bytes: int)
    requires Good(s) && mem in BlocksOf(s) && 0 <= bytes < 0x8000_0000
    ensures Tested(s, mem, Request2Size(bytes)) <==>
      bytes <= MAX_REALLOC || MAX_REQUEST < bytes || mem - 8 + s.tile[mem - 8] != s.g.top
  {
    BlockChunk(s, mem);
  }

  /** The only block is next to top. */
  lemma OneBlock(s: State, mem: int)
    requires Good(s) && BlocksOf(s).Keys == {mem}
    ensures mem in BlocksOf(s) && mem - 8 in s.tile && mem - 8 + s.tile[mem - 8] == s.g.top
  {
    assert mem in BlocksOf(s);
    NextOf(s, mem);
    var p := mem - 8;
    var next := Next(s.tile, p);
    UsedChunk(s.mem, s.tile, s.free, s.base, s.g.top, p);
    assert next > p by { assert s.tile[p] > 0; }
    if next in s.free {
      FreeChunk(s.mem, s.tile, s.free, s.base, s.g.top, next);
      OtherBlock(s, mem, Next(s.tile, next));
    } else if next != s.g.top {
      OtherBlock(s, mem, next);
    }
  }

  /** After a malloc in an empty heap realloc goes wrong for a request of 2^31 - 16. */
  lemma OnlyBlock(s: State, s': State, mem: int)
    requires Good(s) && BlocksOf(s) == map[] && !NoRoom(s, Request2Size(8)) && Malloced(s, s', 8, mem)
    ensures mem != NULL && mem in BlocksOf(s') && CanMove(s', mem, 0x7fff_fff0)
      && !ReallocSurvives(s', mem, 0x7fff_fff0)
    ensures !Tested(s', mem, Request2Size(0x7fff_fff0))
  {
    assert BlocksOf(s').Keys == {mem};
    OneBlock(s', mem);
    TestedIf(s', mem, 0x7fff_fff0);
  }

  lemma OtherBlock(s: State, mem: int, p: int)
    requires Good(s) && BlocksOf(s).Keys == {mem} && p in s.tile && p !in s.free && p != s.g.top
    ensures p == mem - 8
  {
    PointerOf(LiveOf(s), p + 8);
    assert p + 8 in BlocksOf(s).Keys;
  }

  ghost predicate PlacedRight(s: State, mem: int, nb: int, v: int)
    requires Good(s) && mem in BlocksOf(s)
  {
    BlockChunk(s, mem);
    RightPlace(s.mem, s.tile, s.free, s.g.top, mem - 8, nb, v)
  }

  /** What realloc does, if it is right. */
  ghost predicate Realloced(s: State, s': State, mem: int, bytes: int, r: int)
    requires Good(s) && mem in BlocksOf(s) && 0 <= bytes < ULONG
  {
    && Good(s')
    && (r == NULL <==>
        bytes >= 0x8000_0000 || (!CanExtend(s, mem, Request2Size(bytes)) && NoRoom(s, Request2Size(bytes))))
    && (r == NULL ==> BlocksOf(s') == BlocksOf(s))
    && (r != NULL ==> Replaced(BlocksOf(s), BlocksOf(s'), bytes, mem, r))
    && (r != NULL ==> PlacedRight(s, mem, Request2Size(bytes), r - 8))
  }

  /** realloc leaves a heap: if the block has to be moved, malloc does. */
  ghost predicate ReallocSurvives(s: State, mem: int, bytes: int)
    requires Good(s) && mem in BlocksOf(s) && 0 <= bytes < ULONG
  {
    bytes < 0x8000_0000 ==>
      Tested(s, mem, Request2Size(bytes)) && (CanExtend(s, mem, Request2Size(bytes)) || Survives(s, bytes))
  }

  /** malloc is not asked, leaves a heap, or at least gives realloc nothing that is no memory of it. */
  ghost predicate CanMove(s: State, mem: int, bytes: int)
    requires Good(s) && mem in BlocksOf(s) && 0 <= bytes < ULONG
  {
    bytes < 0x8000_0000 && Tested(s, mem, Request2Size(bytes)) && !CanExtend(s, mem, Request2Size(bytes)) ==>
      Answered(s.mem, s.lim, s.g, s.tile, s.free, Request2Size(bytes))
  }

  /** As long as the padding and the region are below 2^31 that is always so. */
  lemma CanMoveIf(s: State, mem: int, bytes: int)
    requires Good(s) && mem in BlocksOf(s) && 0 <= bytes < ULONG
    requires s.lim.topPad + (s.lim.end - s.lim.start) + 2 * PAGESZ <= 0x8000_0000
    ensures CanMove(s, mem, bytes)
  {
    NextOf(s, mem);
    if bytes < 0x8000_0000 { SurvivesIf(s, bytes); }
  }

  method Realloc(m: Mem, lim: Limits, bb: nat, g: Globals, mem: int, bytes: int, ghost s: State)
    returns (r: int, m': Mem, bb': nat, g': Globals, ghost s': State)
    requires Good(s) && Is(s, m, lim, bb, g) && mem in BlocksOf(s) && 0 <= bytes < ULONG && CanMove(s, mem, bytes)
    ensures ReallocSurvives(s, mem, bytes) ==> Is(s', m', lim, bb', g') && Realloced(s, s', mem, bytes, r)
    ensures !ReallocSurvives(s, mem, bytes) ==>
      bytes < 0x8000_0000 && !Sound(m', lim, bb', g') && r == if Tested(s, mem, Request2Size(bytes)) then NULL else mem
  {
    if bytes >= 0x8000_0000 {
      return NULL, m, bb, g, s;
    }
    SizeIsChunk(bytes);
    var nb := Request2Size(bytes);
    NextOf(s, mem);
    // the same code; words outside the region are not modelled
    if nb + MINSIZE >= 0x8000_0000 && mem - 8 + ChunkSize(m, mem - 8) == g.top {
      bb', s' := bb, s;
      m', g' := PastTheEnd(m, lim, bb, g, mem - 8, nb, s.tile, s.free, s.base);
      return mem, m', bb', g', s';
    }
    r, m', bb', g', s' := ReallocChunk(m, lim, bb, g, mem, bytes, s);
  }

  lemma NextOf(s: State, mem: int)
    requires Good(s) && mem in BlocksOf(s)
    ensures var p := mem - 8;
      p in LiveOf(s) && p in s.tile && AddrOk(s.mem, p) && p + ChunkSize(s.mem, p) == Next(s.tile, p)
    ensures Ready(s.mem, s.lim, s.g, s.tile, s.free, s.base) && Used(s.tile, s.free, s.g.top, mem - 8)
  {
    PointerOf(LiveOf(s), mem);
    LiveReady(s.mem, s.lim, s.binblocks, s.g, s.tile, s.free, s.base, mem - 8);
    SizeInHead(s.mem, s.tile, s.free, s.base, s.g.top, mem - 8);
  }

  lemma SizeInHead(m: Mem, t: Tile, f: Free, base: int, top: int, p: int)
    requires Shape(m, t, f, base, top) && Used(t, f, top, p)
    ensures AddrOk(m, p) && p + ChunkSize(m, p) == Next(t, p)
  {
    UsedChunk(m, t, f, base, top, p);
    Flag(Head(m, p), t[p]);
  }

  method ReallocChunk(m: Mem, lim: Limits, bb: nat, g: Globals, mem: int, bytes: int, ghost s: State)
    returns (r: int, m': Mem, bb': nat, g': Globals, ghost s': State)
    requires Good(s) && Is(s, m, lim, bb, g) && mem in BlocksOf(s)
    requires 0 <= bytes < 0x8000_0000 && Tested(s, mem, Request2Size(bytes)) && CanMove(s, mem, bytes)
    ensures ReallocSurvives(s, mem, bytes) ==> Is(s', m', lim, bb', g') && Realloced(s, s', mem, bytes, r)
    ensures !ReallocSurvives(s, mem, bytes) ==> r == NULL && !Sound(m', lim, bb', g')
  {
    BlockChunk(s, mem);
    SizeIsChunk(bytes);
    var nb := Request2Size(bytes);
    var v;
    ghost var t', f', base';
    v, m', bb', g', t', f', base' := Reallocate(m, lim, bb, g, mem - 8, nb, s.tile, s.free, s.base);
    s' := State(m', lim, bb', g', t', f', base');
    r := if v == 0 then NULL else v + 8;
    if ReallocSurvives(s, mem, bytes) { ReallocedOrNot(s, s', mem, bytes, v); }
  }

  lemma ReallocedOrNot(s: State, s': State, mem: int, bytes: int, v: int)
    requires Good(s) && Good(s') && 0 <= bytes < 0x8000_0000 && s'.lim == s.lim && mem in BlocksOf(s)
    requires v == 0 <==> !CanExtend(s, mem, Request2Size(bytes)) && NoRoom(s, Request2Size(bytes))
    requires v == 0 ==> LiveOf(s') == LiveOf(s) && Kept(s.mem, s'.mem, s.tile, s'.tile, LiveOf(s))
    requires v != 0 ==>
      Reallocated(s.mem, s'.mem, s.g, s'.g, s.tile, s.free, s'.tile, s'.free, Request2Size(bytes), mem - 8, v)
    requires v != 0 ==> PlacedRight(s, mem, Request2Size(bytes), v)
    ensures Realloced(s, s', mem, bytes, if v == 0 then NULL else v + 8)
  {
    PointerOf(LiveOf(s), mem);
    if v == 0 {
      SameBlocks(s, s');
    } else {
      NewPlace(s, s', bytes, mem - 8, v);
    }
  }

  lemma NewPlace(s: State, s': State, bytes: int, p: int, v: int)
    requires Good(s) && Good(s') && 0 <= bytes < ULONG && s'.lim == s.lim && p in LiveOf(s)
    requires Reallocated(s.mem, s'.mem, s.g, s'.g, s.tile, s.free, s'.tile, s'.free, Request2Size(bytes), p, v)
    ensures Replaced(BlocksOf(s), BlocksOf(s'), bytes, p + 8, v + 8) && v + 8 != NULL
  {
    ReplacedBlock(s.mem, s.lim, s.binblocks, s.g, s.tile, s.free, s.base,
                  s'.mem, s'.binblocks, s'.g, s'.tile, s'.free, s'.base, bytes, p, v);
  }

  // ----- memalign -----

  method Memalign(m: Mem, lim: Limits, bb: nat, g: Globals, alignment: int, bytes: int, ghost k: nat, ghost s: State)
    returns (r: int, m': Mem, bb': nat, g': Globals, ghost s': State)
    requires Good(s) && Is(s, m, lim, bb, g) && 0 <= bytes < ULONG && alignment == Pow2(k) && k <= 31
      && CanAlign(s, alignment, bytes)
    ensures MemalignSurvives(s, alignment, bytes) ==> Is(s', m', lim, bb', g') && Memaligned(s, s', alignment, bytes, r)
    ensures !MemalignSurvives(s, alignment, bytes) ==>
      !Sound(m', lim, bb', g') && (alignment > MALLOC_ALIGNMENT ==> r == NULL)
  {
    if bytes >= 0x8000_0000 {
      return NULL, m, bb, g, s;
    }
    if alignment <= MALLOC_ALIGNMENT {
      r, m', bb', g', s' := Malloc(m, lim, bb, g, bytes, s);
      SmallAlignment(k, r);
      return;
    }
    r, m', bb', g', s' := MemalignPadded(m, lim, bb, g, alignment, bytes, k, s);
  }

  method MemalignPadded(m: Mem, lim: Limits, bb: nat, g: Globals, alignment: int, bytes: int, ghost k: nat,
                        ghost s: State)
    returns (r: int, m': Mem, bb': nat, g': Globals, ghost s': State)
    requires Good(s) && Is(s, m, lim, bb, g) && 0 <= bytes < 0x8000_0000 && MALLOC_ALIGNMENT < alignment == Pow2(k)
      && k <= 31
    requires CanAlign(s, alignment, bytes)
    ensures MemalignSurvives(s, alignment, bytes) ==> Is(s', m', lim, bb', g') && Memaligned(s, s', alignment, bytes, r)
    ensures !MemalignSurvives(s, alignment, bytes) ==> r == NULL && !Sound(m', lim, bb', g')
  {
    AtLeast16(k);
    Requested(s, bytes);
    var nb := Request2Size(bytes);
    if nb + alignment + MINSIZE >= 0x8000_0000 {   // malloc refuses what is negative as a long
      return NULL, m, bb, g, s;
    }
    var v;
    ghost var t', f', base';
    v, m', bb', g', t', f', base' := AllocateAligned(m, lim, bb, g, alignment, k, nb, s.tile, s.free, s.base);
    s' := State(m', lim, bb', g', t', f', base');
    r := if v == 0 then NULL else v + 8;
    if MemalignSurvives(s, alignment, bytes) { AlignedOrNot(s, s', alignment, bytes, v); }
  }

  lemma AlignedOrNot(s: State, s': State, alignment: int, bytes: int, p: int)
    requires Good(s) && Good(s') && s'.lim == s.lim && 0 <= bytes < 0x8000_0000 && MALLOC_ALIGNMENT < alignment
    requires CanAlign(s, alignment, bytes) && !PaddedTooLarge(alignment, bytes)
    requires AlignedIn(s.mem, s'.mem, s.lim, s.g, s'.g, s.tile, s.free, s'.tile, s'.free, alignment,
        Request2Size(bytes), SizeToFind(alignment, bytes), p)
    ensures Memaligned(s, s', alignment, bytes, if p == 0 then NULL else p + 8)
  {
    if p == 0 {
      SameBlocks(s, s');
    } else {
      GivenBlock(s.mem, s.lim, s.binblocks, s.g, s.tile, s.free, s.base, s'.mem, s'.binblocks, s'.g, s'.tile, s'.free,
                 s'.base, bytes, p);
      PointersPositive(s', p);
    }
  }

  lemma PointersPositive(s: State, p: int)
    requires Good(s) && p in LiveOf(s)
    ensures p + 8 != NULL
  {
    EndsBelow(s.mem, s.lim, s.binblocks, s.g, s.tile, s.free, s.base, p);
  }

  /** The padding does not wrap, and malloc gives memalign nothing that is no memory of the heap. */
  ghost predicate CanAlign(s: State, alignment: int, bytes: int)
    requires 0 < alignment
  {
    0 <= bytes < 0x8000_0000 ==>
      && Paddable(alignment, bytes)
      && (!PaddedTooLarge(alignment, bytes) && alignment > MALLOC_ALIGNMENT ==>
            Answered(s.mem, s.lim, s.g, s.tile, s.free, SizeToFind(alignment, bytes)))
  }

  /** memalign leaves a heap, because malloc does. */
  ghost predicate MemalignSurvives(s: State, alignment: int, bytes: int)
    requires 0 <= bytes < ULONG && 0 < alignment && (bytes < 0x8000_0000 ==> Paddable(alignment, bytes))
  {
    bytes < 0x8000_0000 && !PaddedTooLarge(alignment, bytes) ==>
      Serves(s.mem, s.lim, s.g, s.tile, s.free, SizeToFind(alignment, bytes))
  }

  /** What memalign does then. */
  ghost predicate Memaligned(s: State, s': State, alignment: int, bytes: int, r: int)
    requires Good(s) && 0 <= bytes < ULONG && 0 < alignment && CanAlign(s, alignment, bytes)
  {
    && Good(s')
    && (r == NULL <==>
        bytes >= 0x8000_0000 || PaddedTooLarge(alignment, bytes) || NoRoom(s, SizeToFind(alignment, bytes)))
    && (r == NULL ==> BlocksOf(s') == BlocksOf(s))
    && (r != NULL ==> Given(BlocksOf(s), BlocksOf(s'), bytes, r) && r % alignment == 0)
  }

  const MALLOC_ALIGNMENT := 8

  /** malloc refuses the padded size: it is negative as a long. */
  predicate PaddedTooLarge(alignment: int, bytes: int)
    requires 0 <= bytes < 0x8000_0000
  { alignment > MALLOC_ALIGNMENT && Request2Size(bytes) + alignment + MINSIZE >= 0x8000_0000 }

  /** The padded size does not wrap: neither when it is computed nor when malloc pads it again. */
  predicate Paddable(alignment: int, bytes: int)
    requires 0 <= bytes < 0x8000_0000
  {
    var sum := Request2Size(bytes) + alignment + MINSIZE;
    alignment > MALLOC_ALIGNMENT ==> sum <= MAX_REQUEST || 0x8000_0000 <= sum < ULONG
  }

  /** Where it wraps, malloc is asked for too little: these two sums, and those from 2^32 on. */
  lemma PaddingWraps(alignment: int, bytes: int, k: nat)
    requires 0 <= bytes < 0x8000_0000 && alignment == Pow2(k) && 4 <= k <= 31 && !Paddable(alignment, bytes)
    ensures var nb := Request2Size(bytes); var sum := (nb + alignment + MINSIZE) % ULONG;
      sum < 0x8000_0000 && Request2Size(sum) == MINSIZE < nb
  {
    SizeIsChunk(bytes);
    PowerOfTwo(k);
    WrappedSize(Request2Size(bytes), alignment);
  }

  lemma WrappedSize(nb: int, alignment: int)
    requires MINSIZE <= nb < 0x8000_0000 && 16 <= alignment && (alignment <= 0x4000_0000 || alignment == 0x8000_0000)
      && nb % 8 == 0 && alignment % 8 == 0
    requires var sum := nb + alignment + MINSIZE; MAX_REQUEST < sum && !(0x8000_0000 <= sum < ULONG)
    ensures var sum := (nb + alignment + MINSIZE) % ULONG; sum < 0x8000_0000 && Request2Size(sum) == MINSIZE < nb
  {
    var sum := nb + alignment + MINSIZE;
    SumsOf(nb, alignment, sum);
    SmallSizes(sum);
  }

  lemma SumsOf(nb: int, alignment: int, sum: int)
    requires MINSIZE <= nb < 0x8000_0000 && 16 <= alignment && (alignment <= 0x4000_0000 || alignment == 0x8000_0000)
      && nb % 8 == 0 && alignment % 8 == 0
    requires sum == nb + alignment + MINSIZE && MAX_REQUEST < sum && !(0x8000_0000 <= sum < ULONG)
    ensures (sum == 0x7fff_fff8 || ULONG <= sum <= ULONG + 8) && MINSIZE < nb
  {}

  lemma SmallSizes(sum: int)
    requires sum == 0x7fff_fff8 || ULONG <= sum <= ULONG + 8
    ensures sum % ULONG < 0x8000_0000 && Request2Size(sum % ULONG) == MINSIZE
  {
    var r := if sum < ULONG then sum else sum - ULONG;
    assert sum % ULONG == r;
    var padded := r + 11;
    assert padded % ULONG == padded;
  }

  lemma PowerOfTwo(k: nat)
    requires 4 <= k <= 31
    ensures 16 <= Pow2(k) && (Pow2(k) <= 0x4000_0000 || Pow2(k) == 0x8000_0000) && Pow2(k) % 8 == 0
  {
    Alignments(k);
    Pow2At31();
    if k < 31 {
      Pow2Monotone(k, 30);
      assert Pow2(31) == 2 * Pow2(30);
    }
    EightDivides(Pow2(k), Pow2(k - 3), k);
  }

  lemma EightDivides(x: nat, y: nat, k: nat)
    requires 3 <= k && x == Pow2(k) && y == Pow2(k - 3)
    ensures x % 8 == 0
  {
    assert x == 2 * Pow2(k - 1) && Pow2(k - 1) == 2 * Pow2(k - 2) && Pow2(k - 2) == 2 * y;
    Multiple8(x, y);
  }

  lemma Multiple8(x: nat, y: nat)
    requires x == 8 * y
    ensures x % 8 == 0
  {}

  /** The size that malloc looks for. */
  ghost function SizeToFind(alignment: int, bytes: int): int
    requires 0 <= bytes < 0x8000_0000 && 0 < alignment && Paddable(alignment, bytes)
      && !PaddedTooLarge(alignment, bytes)
  {
    SizeIsChunk(bytes);
    if alignment <= MALLOC_ALIGNMENT then Request2Size(bytes) else PaddedSize(Request2Size(bytes), alignment)
  }

  lemma SmallAlignment(k: nat, r: int)
    requires Pow2(k) <= 8
    ensures r % 8 == 0 ==> r % Pow2(k) == 0
  {
    if k > 3 { Pow2Monotone(4, k); }
    assert Pow2(0) == 1 && Pow2(1) == 2 && Pow2(2) == 4 && Pow2(3) == 8;
    if r % 8 == 0 { Divides8(r); }
  }

  lemma Divides8(r: int)
    requires r % 8 == 0
    ensures r % 4 == 0 && r % 2 == 0 && r % 1 == 0
  {}

  lemma AtLeast16(k: nat)
    requires 8 < Pow2(k)
    ensures 4 <= k
  {
    if k < 4 { Pow2Monotone(k, 3); }
  }

  // ----- malloc_trim -----

  method MallocTrim(m: Mem, lim: Limits, bb: nat, g: Globals, pad: int, ghost s: State)
    returns (released: bool, m': Mem, g': Globals, ghost s': State)
    requires Good(s) && Is(s, m, lim, bb, g) && 0 <= pad < ULONG
    ensures Trimmable(s, pad) ==>
      Is(s', m', lim, bb, g') && TrimmedTo(s, s', pad, released) && (!released ==> m' == m && g' == g)
    ensures !Trimmable(s, pad) ==> released && !Sound(m', lim, bb, g')
  {
    TopToTrim(s, pad);
    if TrimExtra(TopSize(m, bb, g.top), pad) < PAGESZ {
      return false, m, g, s;
    }
    if |m| != g.top + TopSize(m, bb, g.top) {      // the break is not the end of top
      return false, m, g, s;
    }
    ghost var t';
    released, m', g', t' := TrimTop(m, lim, bb, g, pad, s.tile, s.free, s.base);
    s' := State(m', lim, bb, g', t', s.free, s.base);
    if Trimmable(s, pad) { TrimmedState(s, s', pad, released); }
  }

  /** malloc_trim leaves a heap: always, if the pad is below 2^31 (see TrimSafeIf). */
  ghost predicate Trimmable(s: State, pad: int) { s.g.sbrkBase != NO_BASE ==> TrimSafe(TopOf(s.g, s.tile), pad) }

  lemma TrimmableIf(s: State, pad: int)
    requires Good(s) && 0 <= pad < 0x8000_0000
    ensures Trimmable(s, pad)
  {
    if s.g.sbrkBase != NO_BASE {
      TopChunk(s.mem, s.tile, s.free, s.base, s.g.top);
      TrimSafeIf(s.tile[s.g.top], pad);
    }
  }

  /** A pad of 2^32 - 8192 takes three pages from a top chunk of two. */
  lemma PadTakesTop(s: State)
    requires Good(s) && s.g.sbrkBase != NO_BASE && s.g.top in s.tile && s.tile[s.g.top] == 2 * PAGESZ
    ensures !Trimmable(s, ULONG - 2 * PAGESZ)
  {
    assert TrimExtra(2 * PAGESZ, ULONG - 2 * PAGESZ) == 3 * PAGESZ;
  }

  /** What malloc_trim does: nothing to a heap that was never extended. */
  ghost predicate TrimmedTo(s: State, s': State, pad: int, released: bool) {
    && Good(s) && Good(s') && BlocksOf(s') == BlocksOf(s)
    && (if released then |s'.mem| <= |s.mem| - PAGESZ else s' == s)
    && (s.g.sbrkBase == NO_BASE ==> !released)
    && (s.g.sbrkBase != NO_BASE && pad < 0x8000_0000 ==>
          s'.g.top in s'.tile && s'.tile[s'.g.top] <= pad + MINSIZE + PAGESZ
            && (released ==> pad + MINSIZE <= s'.tile[s'.g.top]))
  }

  /** For a heap that was never extended the amount alone is right for smaller pads only; a larger one wraps. */
  lemma NothingToTrim(pad: int)
    requires 0 <= pad < 0x8000_0000
    ensures TrimExtra(0, pad) < PAGESZ <==> pad < 0x8000_0000 - MINSIZE
  {
    var u := -pad - MINSIZE + (PAGESZ - 1);
    var v := if u < 0 then u + ULONG else u;
    assert u % ULONG == v;
    var w := (v / PAGESZ - 1) * PAGESZ;
    assert u >= 0 ==> w == -PAGESZ;
    assert u < 0 ==> 0 <= w < ULONG;
  }

  /** Before the first extension top is the header of bin 0, of size 0, which is not where the break is. */
  lemma TopToTrim(s: State, pad: int)
    requires Good(s) && 0 <= pad < ULONG
    ensures s.g.top == BinAt(0) || AddrOk(s.mem, s.g.top)
    ensures var size := TopSize(s.mem, s.binblocks, s.g.top);
      if s.g.sbrkBase == NO_BASE then s.g.top + size != |s.mem|
      else s.g.top in s.tile && s.g.top + size == |s.mem| && size == s.tile[s.g.top] &&
           (pad < 0x8000_0000 && TrimExtra(size, pad) < PAGESZ ==> s.tile[s.g.top] <= pad + MINSIZE + PAGESZ)
  {
    ConsistentUsable(s.mem, s.lim, s.binblocks, s.g, s.tile, s.free, s.base);
    if s.g.sbrkBase != NO_BASE {
      TopChunk(s.mem, s.tile, s.free, s.base, s.g.top);
      if pad < 0x8000_0000 { TrimExtraIs(s.tile[s.g.top], pad); }
    }
  }

  lemma TrimmedState(s: State, s': State, pad: int, released: bool)
    requires Good(s) && s'.lim == s.lim && s'.free == s.free && s'.base == s.base && s'.binblocks == s.binblocks
      && s.g.sbrkBase != NO_BASE
    requires s'.g == s.g.(sbrkedMem := s'.g.sbrkedMem)
    requires Trimmed(s.mem, s'.mem, s.lim, s.g, s'.g, s.tile, s'.tile, s.free, s.base, pad, released)
    ensures TrimmedTo(s, s', pad, released)
  {
    SameBlocks(s, s');
  }

  // ----- malloc_usable_size, and what programs do with their blocks -----

  method UsableSize(m: Mem, mem: int, ghost s: State) returns (r: int)
    requires Good(s) && s.mem == m && (mem != NULL ==> mem in BlocksOf(s))
    ensures r == if mem == NULL then 0 else 4 * |BlocksOf(s)[mem]|
  {
    if mem == NULL {
      return 0;
    }
    Usable(s, mem);
    var p := mem - 8;
    if Head(m, p + ChunkSize(m, p)) % 2 == 0 {
      return 0;
    }
    return ChunkSize(m, p) - SIZE_SZ;
  }

  lemma Usable(s: State, mem: int)
    requires Good(s) && mem in BlocksOf(s)
    ensures var p := mem - 8;
      && AddrOk(s.mem, p) && AddrOk(s.mem, p + ChunkSize(s.mem, p)) && Head(s.mem, p + ChunkSize(s.mem, p)) % 2 == 1
      && ChunkSize(s.mem, p) - SIZE_SZ == 4 * |BlocksOf(s)[mem]|
  {
    var p := mem - 8;
    PointerOf(LiveOf(s), mem);
    LiveReady(s.mem, s.lim, s.binblocks, s.g, s.tile, s.free, s.base, p);
    UsedChunk(s.mem, s.tile, s.free, s.base, s.g.top, p);
    ViewAt(s.mem, s.tile, LiveOf(s), mem);
    RoomIs(s.tile[p]);
    var e := Next(s.tile, p);
    Flag(Head(s.mem, p), s.tile[p]);
    NextOdd(s.tile[e], Head(s.mem, e));
    assert p + ChunkSize(s.mem, p) == e;
  }

  lemma NextOdd(size: int, head: int)
    requires head == size + 1 && head - head % 4 == size
    ensures head % 2 == 1
  {}

  /** A program writes word `k` of its block. */
  method Store(m: Mem, mem: int, k: nat, v: int, ghost s: State) returns (m': Mem)
    requires Good(s) && s.mem == m && mem in BlocksOf(s) && k < |BlocksOf(s)[mem]|
    ensures Good(s.(mem := m')) && BlocksOf(s.(mem := m')) == BlocksOf(s)[mem := BlocksOf(s)[mem][k := v]]
  {
    InBlock(s, mem, k);
    m' := m[mem + 4 * k := v];
    Stored(s, m', mem, k, v);
  }

  lemma InBlock(s: State, mem: int, k: nat)
    requires Good(s) && mem in BlocksOf(s) && k < |BlocksOf(s)[mem]|
    ensures var p := mem - 8;
      && p in LiveOf(s) && p in s.tile && 0 <= mem && p + 8 <= mem + 4 * k <= Next(s.tile, p)
        && Next(s.tile, p) + 4 <= |s.mem|
      && BlocksOf(s)[mem] == Words(s.mem, mem, Room(s.tile[p])) && BlocksOf(s)[mem][k] == s.mem[mem + 4 * k]
  {
    var p := mem - 8;
    PointerOf(LiveOf(s), mem);
    EndsBelow(s.mem, s.lim, s.binblocks, s.g, s.tile, s.free, s.base, p);
    RoomIs(s.tile[p]);
    assert BlocksOf(s)[mem][k] == Word(s.mem, mem, k);
  }

  lemma Stored(s: State, m': Mem, mem: int, k: nat, v: int)
    requires Good(s) && mem in BlocksOf(s) && k < |BlocksOf(s)[mem]|
    requires 0 <= mem + 4 * k < |s.mem| && m' == s.mem[mem + 4 * k := v]
    ensures Good(s.(mem := m')) && BlocksOf(s.(mem := m')) == BlocksOf(s)[mem := BlocksOf(s)[mem][k := v]]
  {
    var p := mem - 8;
    InBlock(s, mem, k);
    LiveReady(s.mem, s.lim, s.binblocks, s.g, s.tile, s.free, s.base, p);
    Written(s.mem, m', s.tile, s.free, s.base, s.g.top, p);
    StoredView(s, m', mem, k, v);
  }

  lemma StoredView(s: State, m': Mem, mem: int, k: nat, v: int)
    requires Good(s) && mem in BlocksOf(s) && k < |BlocksOf(s)[mem]|
    requires 0 <= mem + 4 * k < |s.mem| && m' == s.mem[mem + 4 * k := v]
    requires Good(s.(mem := m')) && Kept(s.mem, m', s.tile, s.tile, LiveOf(s) - {mem - 8})
    ensures BlocksOf(s.(mem := m')) == BlocksOf(s)[mem := BlocksOf(s)[mem][k := v]]
  {
    var p, live := mem - 8, LiveOf(s);
    InBlock(s, mem, k);
    assert live - {p} + {p} == live;
    AllocatedView(s.mem, s.lim, s.binblocks, s.g, s.tile, s.free, s.base,
                  m', s.binblocks, s.g, s.tile, s.free, s.base, live - {p}, p);
    ViewRemoves(s.mem, s.tile, live, p);
    StoredWords(s.mem, m', mem, Room(s.tile[p]), k, v);
  }

  lemma StoredWords(m: Mem, m': Mem, mem: int, n: nat, k: nat, v: int)
    requires 0 <= mem && mem + 4 * n <= |m| && k < n && m' == m[mem + 4 * k := v]
    ensures Words(m', mem, n) == Words(m, mem, n)[k := v]
  {
    forall i {:trigger Word(m', mem, i)} | 0 <= i < n
      ensures Word(m', mem, i) == if i == k then v else Word(m, mem, i)
    {}
  }

  /** Blocks are aligned, apart from each other, and in memory. */
  lemma BlocksApart(s: State, a: int, b: int)
    requires Good(s) && a in BlocksOf(s) && b in BlocksOf(s)
    ensures a % 8 == 0 && ARENA <= a && a + 4 * |BlocksOf(s)[a]| <= |s.mem|
    ensures a < b ==> a + 4 * |BlocksOf(s)[a]| <= b
  {
    var p, q := a - 8, b - 8;
    PointerOf(LiveOf(s), a);
    PointerOf(LiveOf(s), b);
    EndsBelow(s.mem, s.lim, s.binblocks, s.g, s.tile, s.free, s.base, p);
    LiveReady(s.mem, s.lim, s.binblocks, s.g, s.tile, s.free, s.base, q);
    RoomIs(s.tile[p]);
    Next8(p);
    assert a < b ==> Ends(s.tile, p, q);
  }

  // ----- the beginning and the end -----

  /** The bins as the compiler initialises them: every header points to itself. */
  function InitialMem(start: nat): (m: Mem)
    requires ARENA <= start
    ensures |m| == start && forall x {:trigger m[x]} :: BinAt(0) + 8 <= x < BinAt(NAV) + 8 ==> m[x] == x - 8 - x % 8
  { seq(start, x => if BinAt(0) + 8 <= x < BinAt(NAV) + 8 then x - 8 - x % 8 else 0) }

  lemma InitialLists(start: nat)
    requires ARENA <= start
    ensures Lists(InitialMem(start), map[])
  {
    var m := InitialMem(start);
    forall n | IsHead(n) ensures AddrOk(m, n) && Fd(m, n) == n && Bk(m, n) == n {
      Header8(n);
    }
  }

  lemma Header8(n: int)
    requires n % 8 == 0
    ensures (n + 8) % 8 == 0 && (n + 12) % 8 == 4
  {}

  ghost function InitialState(lim: Limits): State
    requires ARENA <= lim.start
  { State(InitialMem(lim.start), lim, 0, Globals(BinAt(0), NO_BASE, 0), map[], map[], 0) }

  lemma InitialGood(lim: Limits)
    requires Sane(lim)
    ensures Good(InitialState(lim)) && BlocksOf(InitialState(lim)) == map[]
  {
    InitialLists(lim.start);
  }

  lemma NoneLive(s: State)
    requires Good(s) && BlocksOf(s) == map[]
    ensures forall a {:trigger a in LiveOf(s)} :: a !in LiveOf(s)
  {
    forall a ensures a !in LiveOf(s) {
      PointerOf(LiveOf(s), a + 8);
      assert a + 8 !in BlocksOf(s);
    }
  }

  /** Without blocks in use there is no free chunk: each has one in use, not top, behind it. */
  lemma OnlyTop(s: State)
    requires Good(s) && BlocksOf(s) == map[] && s.g.sbrkBase != NO_BASE
    ensures s.free == map[] && s.g.top == s.base && s.tile == map[s.base := |s.mem| - s.base]
  {
    var t, top := s.tile, s.g.top;
    NoneLive(s);
    forall a | a in t ensures a in s.free.Keys || a == top { assert a !in LiveOf(s); }
    forall c | c in s.free.Keys ensures false { FreeOf(s.mem, t, s.free.Keys, top, c); }
    assert s.free.Keys == {};
    assert s.base in t;
    assert t == map[s.base := |s.mem| - s.base];
  }

  lemma EmptyBin(m: Mem, f: Free, i: int)
    requires Lists(m, f) && f == map[] && 1 <= i < NAV
    ensures AddrOk(m, BinAt(i)) && Fd(m, BinAt(i)) == BinAt(i) && Bk(m, BinAt(i)) == BinAt(i)
  {
    assert Node(f, BinAt(i));
  }

  /** When every block has been freed, the top chunk is all there is, and all bins are empty. */
  lemma AllFreed(s: State, i: int)
    requires Good(s) && BlocksOf(s) == map[] && s.g.sbrkBase != NO_BASE && 1 <= i < NAV
    ensures s.free == map[] && s.g.top == s.base && s.tile == map[s.base := |s.mem| - s.base]
    ensures AddrOk(s.mem, BinAt(i)) && Fd(s.mem, BinAt(i)) == BinAt(i) && Bk(s.mem, BinAt(i)) == BinAt(i)
  {
    OnlyTop(s);
    EmptyBin(s.mem, s.free, i);
  }

  /** The heap is as if nothing had ever been allocated from its arena. */
  ghost predicate Emptied(s: State) {
    && s.free == map[] && s.tile == map[s.g.top := |s.mem| - s.g.top]
    && (forall i {:trigger BinAt(i)} :: 1 <= i < NAV ==>
          AddrOk(s.mem, BinAt(i)) && Fd(s.mem, BinAt(i)) == BinAt(i) && Bk(s.mem, BinAt(i)) == BinAt(i))
  }

  lemma AllEmptied(s: State)
    requires Good(s) && BlocksOf(s) == map[] && s.g.sbrkBase != NO_BASE
    ensures Emptied(s)
  {
    OnlyTop(s);
    forall i {:trigger BinAt(i)} | 1 <= i < NAV
      ensures AddrOk(s.mem, BinAt(i)) && Fd(s.mem, BinAt(i)) == BinAt(i) && Bk(s.mem, BinAt(i)) == BinAt(i)
    {
      EmptyBin(s.mem, s.free, i);
    }
  }
}
