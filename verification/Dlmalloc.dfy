/** The allocator: an object whose methods are the calls that programs make. */
module Dlmalloc {
  import opened Bits
  import opened Chunks
  import opened Bins
  import opened Extending
  import opened TopServing
  import opened Requests
  import Calls
  import Queues

  class Heap {
    const lim: Limits
    var mem: Mem                     // up to the break
    var binblocks: nat
    var g: Globals                   // top, sbrk_base, sbrked_mem
    ghost var state: Calls.State     // together with the chunks there are

    /** The heap invariant. */
    ghost predicate Valid()
      reads this
    { Calls.Good(state) && Calls.Is(state, mem, lim, binblocks, g) }

    /** The blocks in use: pointers, and the words there. */
    ghost function Blocks(): map<int, seq<int>>
      reads this
    { Calls.BlocksOf(state) }

    constructor (lim: Limits)
      requires Sane(lim)
      ensures Valid() && Blocks() == map[] && this.lim == lim && g.sbrkBase == NO_BASE
    {
      this.lim := lim;
      mem, binblocks, g := Calls.InitialMem(lim.start), 0, Globals(BinAt(0), NO_BASE, 0);
      state := Calls.InitialState(lim);
      new;
      Calls.InitialGood(lim);
    }

    /** If the arena has to be extended and cannot be, what is left may be no heap. */
    method Malloc(bytes: int) returns (r: int)
      requires Valid() && 0 <= bytes < ULONG
      modifies this
      ensures Calls.Survives(old(state), bytes) ==> Valid() && Calls.Malloced(old(state), state, bytes, r)
      ensures !Calls.Survives(old(state), bytes) ==> !Sound(mem, lim, binblocks, g)
    {
      r, mem, binblocks, g, state := Calls.Malloc(mem, lim, binblocks, g, bytes, state);
    }

    method Free(ptr: int)
      requires Valid() && (ptr != NULL ==> ptr in Blocks())
      modifies this
      ensures Valid() && Blocks() == old(Blocks()) - {ptr} && g.sbrkBase == old(g.sbrkBase)
      ensures Calls.FreedTo(old(state), state, ptr)
    {
      mem, binblocks, g, state := Calls.Free(mem, lim, binblocks, g, ptr, state);
    }

    /** realloc of null is malloc. If the test for room in top wraps, what is left is no heap. */
    method Realloc(ptr: int, bytes: int) returns (r: int)
      requires Valid() && 0 <= bytes < ULONG && (ptr != NULL ==> ptr in Blocks() && Calls.CanMove(state, ptr, bytes))
      modifies this
      ensures ptr == NULL && Calls.Survives(old(state), bytes) ==>
        Valid() && Calls.Malloced(old(state), state, bytes, r)
      ensures ptr == NULL && !Calls.Survives(old(state), bytes) ==> !Sound(mem, lim, binblocks, g)
      ensures ptr != NULL && Calls.ReallocSurvives(old(state), ptr, bytes) ==>
        Valid() && Calls.Realloced(old(state), state, ptr, bytes, r)
      ensures ptr != NULL && !Calls.ReallocSurvives(old(state), ptr, bytes) ==>
        bytes < 0x8000_0000 && !Sound(mem, lim, binblocks, g)
        && r == if Calls.Tested(old(state), ptr, Request2Size(bytes)) then NULL else ptr
    {
      if ptr == NULL {
        r := Malloc(bytes);
        return;
      }
      r, mem, binblocks, g, state := Calls.Realloc(mem, lim, binblocks, g, ptr, bytes, state);
    }

    method Memalign(alignment: int, bytes: int, ghost k: nat) returns (r: int)
      requires Valid() && 0 <= bytes < ULONG && alignment == Pow2(k) && k <= 31
        && Calls.CanAlign(state, alignment, bytes)
      modifies this
      ensures Calls.MemalignSurvives(old(state), alignment, bytes) ==>
        Valid() && Calls.Memaligned(old(state), state, alignment, bytes, r)
      ensures !Calls.MemalignSurvives(old(state), alignment, bytes) ==>
        !Sound(mem, lim, binblocks, g) && (alignment > Calls.MALLOC_ALIGNMENT ==> r == NULL)
    {
      r, mem, binblocks, g, state := Calls.Memalign(mem, lim, binblocks, g, alignment, bytes, k, state);
    }

    method MallocTrim(pad: int) returns (released: bool)
      requires Valid() && 0 <= pad < ULONG
      modifies this
      ensures Calls.Trimmable(old(state), pad) ==> Valid() && Calls.TrimmedTo(old(state), state, pad, released)
      ensures !Calls.Trimmable(old(state), pad) ==> released && !Sound(mem, lim, binblocks, g)
    {
      released, mem, g, state := Calls.MallocTrim(mem, lim, binblocks, g, pad, state);
    }

    method UsableSize(ptr: int) returns (r: int)
      requires Valid() && (ptr != NULL ==> ptr in Blocks())
      ensures r == if ptr == NULL then 0 else 4 * |Blocks()[ptr]|
    {
      r := Calls.UsableSize(mem, ptr, state);
    }

    /** A program writes word `k` of its block. */
    method Store(ptr: int, k: nat, v: int)
      requires Valid() && ptr in Blocks() && k < |Blocks()[ptr]|
      modifies this
      ensures Valid() && Blocks() == old(Blocks())[ptr := old(Blocks())[ptr][k := v]]
    {
      mem := Calls.Store(mem, ptr, k, v, state);
      state := state.(mem := mem);
    }
  }

  /** A block and a request for which the test for room in top wraps. */
  method ReallocPastTheEnd() returns (h: Heap, ptr: int, r: int)
    ensures r == ptr != NULL && !Sound(h.mem, h.lim, h.binblocks, h.g)
  {
    h := new Heap(Limits(0x10_0000, 0x10_2000, 0, 0));
    Calls.SmallRegion(h.state);
    ghost var was := h.state;
    ptr := h.Malloc(8);
    Calls.OnlyBlock(was, h.state, ptr);
    r := h.Realloc(ptr, 0x7fff_fff0);
  }

  ghost predicate Queued(h: Heap, nb: int, q: seq<int>)
    reads h
  { h.Valid() && Queues.Queue(h.state.tile, h.state.free, nb, q) }

  /** Blocks of this chunk size, the chunks around each of which are in use and stay so. */
  ghost predicate Apart(h: Heap, nb: int, ptrs: seq<int>)
    reads h
  { Queues.Apart(h.state.tile, h.state.free, h.state.g.top, nb, ptrs) }

  method FreeFirst(h: Heap, ghost nb: int, ptr: int, ghost ptrs: seq<int>, ghost q: seq<int>)
    requires Queued(h, nb, q) && Apart(h, nb, ptrs) && MINSIZE <= nb && ptrs != [] && ptr == ptrs[0]
    modifies h
    ensures Queued(h, nb, q + [ptr - 8]) && Apart(h, nb, ptrs[1..])
  {
    ghost var was := h.state;
    Queues.StandingBlock(was, nb, ptr);
    h.Free(ptr);
    Queues.FreeEnqueues(was, h.state, nb, ptr, q);
    Queues.StillApart(was.tile, was.free, h.state.free, was.g.top, nb, ptrs);
  }

  method TakeFirst(h: Heap, bytes: int, ghost q: seq<int>) returns (r: int)
    requires 0 <= bytes < 0x8000_0000 && Queued(h, Request2Size(bytes), q) && q != []
    modifies h
    ensures Queued(h, Request2Size(bytes), q[1..]) && r == q[0] + 8
  {
    ghost var was := h.state;
    r := h.Malloc(bytes);
    Queues.MallocDequeues(was, h.state, bytes, r, q);
  }

  ghost function ChunksOf(ptrs: seq<int>): (q: seq<int>)
    ensures |q| == |ptrs| && forall i {:trigger q[i]} :: 0 <= i < |q| ==> q[i] == ptrs[i] - 8
  { seq(|ptrs|, i requires 0 <= i < |ptrs| => ptrs[i] - 8) }

  lemma OneMore(ptrs: seq<int>, n: nat)
    requires n < |ptrs|
    ensures ptrs[n..] != [] && ptrs[n..][0] == ptrs[n] && ptrs[n..][1..] == ptrs[n + 1..]
    ensures ChunksOf(ptrs[..n + 1]) == ChunksOf(ptrs[..n]) + [ptrs[n] - 8]
    ensures ChunksOf(ptrs[n..])[0] == ptrs[n] - 8 && ChunksOf(ptrs[n..])[1..] == ChunksOf(ptrs[n + 1..])
  {
    assert ptrs[n..][1..] == ptrs[n + 1..];
  }

  method FreeInOrder(h: Heap, ghost nb: int, ptrs: seq<int>)
    requires Queued(h, nb, []) && Apart(h, nb, ptrs) && MINSIZE <= nb
    modifies h
    ensures Queued(h, nb, ChunksOf(ptrs))
  {
    ghost var rest, q: seq<int> := ptrs, [];
    for n := 0 to |ptrs|
      invariant Queued(h, nb, q) && Apart(h, nb, rest) && rest == ptrs[n..] && q == ChunksOf(ptrs[..n])
    {
      OneMore(ptrs, n);
      FreeFirst(h, nb, ptrs[n], rest, q);
      rest, q := rest[1..], q + [ptrs[n] - 8];
    }
    assert ptrs[..|ptrs|] == ptrs;
  }

  /** A run that frees blocks of one size, and then asks as often for this size, gets them in the order in which they
      have been freed. */
  method FirstInFirstOut(h: Heap, ptrs: seq<int>, bytes: int) returns (rs: seq<int>)
    requires 0 <= bytes < 0x8000_0000 && Queued(h, Request2Size(bytes), [])
    requires Apart(h, Request2Size(bytes), ptrs)
    modifies h
    ensures h.Valid() && rs == ptrs
  {
    SizeIsChunk(bytes);
    FreeInOrder(h, Request2Size(bytes), ptrs);
    ghost var q := ChunksOf(ptrs);
    rs := [];
    for n := 0 to |ptrs|
      invariant Queued(h, Request2Size(bytes), q) && q == ChunksOf(ptrs[n..]) && rs == ptrs[..n]
    {
      OneMore(ptrs, n);
      var r := TakeFirst(h, bytes, q);
      q := q[1..];
      rs := rs + [r];
    }
  }

  ghost predicate Enumerates(ptrs: seq<int>, keys: set<int>) {
    && (forall i {:trigger ptrs[i]} :: 0 <= i < |ptrs| ==> ptrs[i] in keys && ptrs[i] !in ptrs[..i])
    && (forall a {:trigger a in keys} :: a in keys ==> a in ptrs)
  }

  /** A run that frees every block, in any order, ends with all bins empty and one chunk, `top`. */
  method FreeEverything(h: Heap, ptrs: seq<int>)
    requires h.Valid() && h.g.sbrkBase != NO_BASE && Enumerates(ptrs, h.Blocks().Keys)
    modifies h
    ensures h.Valid() && h.Blocks() == map[] && Calls.Emptied(h.state)
  {
    ghost var all := h.Blocks().Keys;
    for n := 0 to |ptrs|
      invariant h.Valid() && h.g.sbrkBase != NO_BASE
      invariant forall a {:trigger a in h.Blocks().Keys} :: a in h.Blocks().Keys <==> a in all && a !in ptrs[..n]
    {
      assert ptrs[n] in h.Blocks().Keys;
      assert ptrs[..n + 1] == ptrs[..n] + [ptrs[n]];
      h.Free(ptrs[n]);
    }
    assert ptrs[..|ptrs|] == ptrs;
    assert h.Blocks().Keys == {};
    Calls.AllEmptied(h.state);
  }
}
