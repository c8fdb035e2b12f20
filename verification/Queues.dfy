/** First in, first out: among chunks of one size malloc takes the one that has been free longest. */
module Queues {
  import opened Chunks
  import opened Bins
  import opened Search
  import opened HeapSteps
  import opened HeapFree
  import opened Extending
  import opened Serving
  import opened TopServing
  import opened Requests
  import opened Blocks
  import opened Calls

  /** A chunk of size `nb` in the bins; the last remainder is not in a bin. */
  ghost predicate OfSize(t: Tile, f: Free, nb: int, c: int) { c in f && c in t && f[c].bin != LR && t[c] == nb }

  /** `q` lists the binned chunks of size `nb`, from the end of their bin to its front. */
  ghost predicate Queue(t: Tile, f: Free, nb: int, q: seq<int>) {
    FromTheEnd(f, q) && (forall c {:trigger c in q} :: c in q <==> OfSize(t, f, nb, c))
  }

  ghost predicate FromTheEnd(f: Free, q: seq<int>) {
    forall i, j {:trigger q[i], q[j]} :: 0 <= i < j < |q| ==> Before(f, q[j], q[i])
  }

  lemma Queued(t: Tile, f: Free, nb: int, q: seq<int>, i: nat)
    requires Queue(t, f, nb, q) && i < |q|
    ensures OfSize(t, f, nb, q[i])
  {
    assert q[i] in q;
  }

  // ----- malloc takes the first -----

  /** What a malloc does that takes a chunk of exactly the size it needs. */
  lemma TakesFirst(t: Tile, f: Free, t': Tile, f': Free, nb: int, v: int, q: seq<int>)
    requires Binned(t, f) && Queue(t, f, nb, q) && q != [] && MINSIZE <= nb
    requires WellChosen(t, f, nb, v) && Rebinned(t, f, t', f', nb, v)
    ensures v == q[0] && Queue(t', f', nb, q[1..])
  {
    Queued(t, f, nb, q, 0);
    FitsExactly(t, f, nb, v, q[0]);
    TheFirst(t, f, nb, v, q);
    TheRest(t, f, f', nb, v, q);
  }

  lemma FitsExactly(t: Tile, f: Free, nb: int, v: int, c: int)
    requires Binned(t, f) && OfSize(t, f, nb, c) && MINSIZE <= nb && WellChosen(t, f, nb, v)
    ensures !NoExact(t, f, nb) && OfSize(t, f, nb, v) && LastOfSize(t, f, v)
  {
    assert RightBin(f[c].bin, t[c]);
    assert SearchedFirst(f[c].bin, nb);
  }

  lemma TheFirst(t: Tile, f: Free, nb: int, v: int, q: seq<int>)
    requires Queue(t, f, nb, q) && q != [] && OfSize(t, f, nb, v) && LastOfSize(t, f, v)
    ensures v == q[0]
  {
    assert v in q;
    var i :| 0 <= i < |q| && q[i] == v;
    Queued(t, f, nb, q, 0);
    assert i > 0 ==> Before(f, q[i], q[0]);
    assert About(f[q[0]]);
  }

  lemma TheRest(t: Tile, f: Free, f': Free, nb: int, v: int, q: seq<int>)
    requires Queue(t, f, nb, q) && q != [] && v == q[0] && MINSIZE <= nb
    requires Rebinned(t, f, t, f', nb, v) && !NoExact(t, f, nb)
    ensures Queue(t, f', nb, q[1..])
  {
    var r := q[1..];
    Queued(t, f, nb, q, 0);
    Distinct(f, q);
    Without(t, f, f', nb, v);
    assert q == [v] + r;
    assert forall c {:trigger c in r} :: c in r <==> c in q && c != v;
    forall i, j {:trigger r[i], r[j]} | 0 <= i < j < |r| ensures Before(f', r[j], r[i]) {
      assert r[i] == q[i + 1] && r[j] == q[j + 1] && Before(f, r[j], r[i]);
      assert r[i] in r && r[j] in r;
    }
  }

  /** All other chunks are as they were. */
  lemma Without(t: Tile, f: Free, f': Free, nb: int, v: int)
    requires OfSize(t, f, nb, v) && Rebinned(t, f, t, f', nb, v) && !NoExact(t, f, nb) && MINSIZE <= nb
    ensures forall c {:trigger OfSize(t, f', nb, c)} :: OfSize(t, f', nb, c) <==> OfSize(t, f, nb, c) && c != v
    ensures forall c, d {:trigger Before(f, c, d)} :: c in t && d in t && c != v && d != v ==>
      Before(f', c, d) == Before(f, c, d)
  {
    forall c ensures c in f' <==> c in f && c != v { assert c in f'.Keys <==> c in f.Keys - {v}; }
  }

  lemma Distinct(f: Free, q: seq<int>)
    requires FromTheEnd(f, q) && q != []
    ensures q[0] !in q[1..]
  {
    forall i {:trigger q[i]} | 0 < i < |q| ensures q[i] != q[0] { assert Before(f, q[i], q[0]); }
  }

  // ----- free adds a last -----

  /** The chunks before and after chunk `p` are in use. */
  ghost predicate Enclosed(t: Tile, f: Free, top: int, p: int) {
    && Used(t, f, top, p) && Next(t, p) in t && Next(t, p) !in f && Next(t, p) != top
    && (forall c {:trigger Next(t, c)} :: c in f && c in t ==> Next(t, c) != p)
  }

  /** Freeing such a chunk merges it with nothing. */
  lemma FreedAlone(m: Mem, t: Tile, f: Free, t': Tile, f': Free, base: int, top: int, p: int)
    requires Shape(m, t, f, base, top) && Enclosed(t, f, top, p) && MergedAround(m, t, f, t', f', p)
    ensures t' == t && p in f' && f' == f[p := f'[p]] && InFront(t, f, t[p], f'[p])
  {
    NothingBefore(m, t, f, base, top, p);
    SameTiles(t, base, |m|, p);
    MergedAlone(t, f, t', f', p, Next(t, p));
  }

  lemma NothingBefore(m: Mem, t: Tile, f: Free, base: int, top: int, p: int)
    requires Shape(m, t, f, base, top) && Enclosed(t, f, top, p)
    ensures AddrOk(m, p) && MergeStart(m, p) == p
  {
    UsedChunk(m, t, f, base, top, p);
    if Head(m, p) % 2 == 0 { BackChunk(m, t, f, base, top, p); }
  }

  lemma MergedAlone(t: Tile, f: Free, t': Tile, f': Free, p: int, next: int)
    requires p in t && next == Next(t, p) && p !in f && next !in f && Retile(t, p, next, next) == t
    requires Merged(t, f, t', f', next, p, next)
    ensures t' == t && p in f' && f' == f[p := f'[p]] && InFront(t, f, t[p], f'[p])
  {
    assert f - {p, next} == f;
    assert f' - {p} == f;
  }

  lemma SameTiles(t: Tile, base: int, end: int, p: int)
    requires Tiling(t, base, end) && p in t
    ensures Retile(t, p, Next(t, p), Next(t, p)) == t
  {
    var r, e := Retile(t, p, Next(t, p), Next(t, p)), Next(t, p);
    forall h ensures h in r <==> h in t {
      if h in t && p <= h < e { NoTileInside(t, base, end, p, h); }
    }
    assert forall h :: h in t ==> r[h] == t[h] by {
      forall h | h in t ensures r[h] == t[h] { if p <= h < e { NoTileInside(t, base, end, p, h); } }
    }
  }

  lemma AddsLast(t: Tile, f: Free, f': Free, nb: int, p: int, q: seq<int>)
    requires Binned(t, f) && Queue(t, f, nb, q) && p in t && t[p] == nb && MINSIZE <= nb && p !in f
    requires p in f' && f' == f[p := f'[p]] && InFront(t, f, nb, f'[p])
    ensures Queue(t, f', nb, q + [p])
  {
    var r := q + [p];
    BinIndexRange(nb);
    forall c {:trigger c in r} ensures c in r <==> OfSize(t, f', nb, c) {
      assert c in r <==> c in q || c == p;
      assert c != p ==> (c in f' <==> c in f);
    }
    forall i, j {:trigger r[i], r[j]} | 0 <= i < j < |r| ensures Before(f', r[j], r[i]) {
      assert r[i] == q[i];
      Queued(t, f, nb, q, i);
      if j < |q| { assert Before(f, q[j], q[i]); } else { BehindAll(t, f, f', nb, p, q[i]); }
    }
  }

  lemma BehindAll(t: Tile, f: Free, f': Free, nb: int, p: int, c: int)
    requires Binned(t, f) && OfSize(t, f, nb, c) && p !in f && p in f' && f' == f[p := f'[p]]
      && InFront(t, f, nb, f'[p])
    ensures Before(f', p, c)
  {
    assert RightBin(f[c].bin, t[c]);
  }

  // ----- the calls -----

  /** A chunk of size `nb` in use, and the chunks around it are in use, too. */
  ghost predicate Standing(t: Tile, f: Free, top: int, nb: int, p: int) { Enclosed(t, f, top, p) && t[p] == nb }

  ghost predicate NotNeighbours(t: Tile, p: int, o: int) {
    p in t && o in t && p != o && Next(t, p) != o && Next(t, o) != p
  }

  /** Such blocks, none next to another. */
  ghost predicate Apart(t: Tile, f: Free, top: int, nb: int, ptrs: seq<int>) {
    && (forall i {:trigger ptrs[i]} :: 0 <= i < |ptrs| ==> Standing(t, f, top, nb, ptrs[i] - 8))
    && (forall i, j {:trigger ptrs[i], ptrs[j]} :: 0 <= i < j < |ptrs| ==> NotNeighbours(t, ptrs[i] - 8, ptrs[j] - 8))
  }

  /** Freeing one of them leaves the others as they are. */
  lemma StillStanding(t: Tile, f: Free, f': Free, top: int, nb: int, p: int, o: int)
    requires Standing(t, f, top, nb, o) && f'.Keys == f.Keys + {p} && NotNeighbours(t, p, o)
    ensures Standing(t, f', top, nb, o)
  {
    forall c ensures c in f' <==> c in f || c == p { assert c in f'.Keys <==> c in f.Keys + {p}; }
  }

  lemma StillApart(t: Tile, f: Free, f': Free, top: int, nb: int, ptrs: seq<int>)
    requires Apart(t, f, top, nb, ptrs) && ptrs != [] && f'.Keys == f.Keys + {ptrs[0] - 8}
    ensures Apart(t, f', top, nb, ptrs[1..])
  {
    var r := ptrs[1..];
    forall i {:trigger r[i]} | 0 <= i < |r| ensures Standing(t, f', top, nb, r[i] - 8) {
      assert r[i] == ptrs[i + 1];
      StillStanding(t, f, f', top, nb, ptrs[0] - 8, r[i] - 8);
    }
    forall i, j {:trigger r[i], r[j]} | 0 <= i < j < |r| ensures NotNeighbours(t, r[i] - 8, r[j] - 8) {
      assert r[i] == ptrs[i + 1] && r[j] == ptrs[j + 1];
    }
  }

  lemma StandingBlock(s: State, nb: int, ptr: int)
    requires Good(s) && Standing(s.tile, s.free, s.g.top, nb, ptr - 8)
    ensures ptr in BlocksOf(s) && ptr != NULL
  {
    PointerOf(LiveOf(s), ptr);
    NullNoBlock(s);
  }

  /** A freed block is the last of its size that malloc will hand out. */
  lemma FreeEnqueues(s: State, s': State, nb: int, ptr: int, q: seq<int>)
    requires Good(s) && Standing(s.tile, s.free, s.g.top, nb, ptr - 8) && MINSIZE <= nb && FreedTo(s, s', ptr)
    requires Queue(s.tile, s.free, nb, q)
    ensures s'.tile == s.tile && s'.g == s.g && s'.free.Keys == s.free.Keys + {ptr - 8}
    ensures Queue(s'.tile, s'.free, nb, q + [ptr - 8])
  {
    StandingBlock(s, nb, ptr);
    NextOf(s, ptr);
    FreedAlone(s.mem, s.tile, s.free, s'.tile, s'.free, s.base, s.g.top, ptr - 8);
    AddsLast(s.tile, s.free, s'.free, nb, ptr - 8, q);
  }

  /** As long as there are chunks of the size needed, malloc hands out the first of them. */
  lemma MallocDequeues(s: State, s': State, bytes: int, r: int, q: seq<int>)
    requires Good(s) && 0 <= bytes < 0x8000_0000 && Queue(s.tile, s.free, Request2Size(bytes), q) && q != []
    requires Survives(s, bytes) ==> Malloced(s, s', bytes, r)
    ensures Survives(s, bytes) && r == q[0] + 8 && Queue(s'.tile, s'.free, Request2Size(bytes), q[1..])
  {
    var nb := Request2Size(bytes);
    Requested(s, bytes);
    SomethingFits(s, nb, q);
    ConsistentUsable(s.mem, s.lim, s.binblocks, s.g, s.tile, s.free, s.base);
    UsableSearch(s.mem, s.tile, s.free, s.base, s.g.top);
    TakesFirst(s.tile, s.free, s'.tile, s'.free, nb, r - 8, q);
  }

  lemma SomethingFits(s: State, nb: int, q: seq<int>)
    requires Good(s) && Queue(s.tile, s.free, nb, q) && q != []
    ensures !NothingFits(s.tile, s.free, nb)
  {
    Queued(s.tile, s.free, nb, q, 0);
    assert About(s.free[q[0]]);
  }
}
