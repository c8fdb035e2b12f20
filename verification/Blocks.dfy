/** What users of the heap see: a map from the pointers they hold to the words there. */
module Blocks {
  import opened Chunks
  import opened Bins
  import opened HeapSteps
  import opened Extending
  import opened TopServing
  import opened Freeing
  import opened Stretches
  import opened Growing
  import opened Requests

  function Pointer(p: int): int { p + 8 }

  /** The words of a block whose chunk has size `size`: all but the last SIZE_SZ bytes' worth of it. */
  function Room(size: int): nat { if size < 4 then 0 else (size - 4) / 4 }

  ghost function Words(m: Mem, a: int, n: nat): seq<int> { seq(n, k => Word(m, a, k)) }

  ghost function View(m: Mem, t: Tile, live: set<int>): map<int, seq<int>>
    requires live <= t.Keys
  { map a {:trigger t[a - 8]} | a in Pointers(live) :: Words(m, a, Room(t[a - 8])) }

  ghost function Pointers(live: set<int>): set<int> { set p | p in live :: Pointer(p) }

  lemma PointerOf(live: set<int>, a: int)
    ensures a in Pointers(live) <==> a - 8 in live
  {
    if a - 8 in live { assert Pointer(a - 8) == a; }
  }

  /** The blocks `s`, in the memories and tilings before and after. */
  lemma WordsKept(m: Mem, lim: Limits, bb: nat, g: Globals, t: Tile, f: Free, base: int, m': Mem, bb': nat, g': Globals,
                  t': Tile, f': Free, base': int, s: set<int>, p: int)
    requires Consistent(m, lim, bb, g, t, f, base) && Consistent(m', lim, bb', g', t', f', base')
    requires Kept(m, m', t, t', s) && p in s && s <= LiveIn(t, f, g.top) && s <= LiveIn(t', f', g'.top)
    ensures p in t && p in t' && Words(m, p + 8, Room(t[p])) == Words(m', p + 8, Room(t'[p]))
  {
    EndsBelow(m, lim, bb, g, t, f, base, p);
    EndsBelow(m', lim, bb', g', t', f', base', p);
    assert SameBlock(m, m', p, t[p]);
    forall k {:trigger Word(m', p + 8, k)} | 0 <= k < Room(t[p]) ensures Word(m', p + 8, k) == Word(m, p + 8, k) {
      assert m'[p + 8 + 4 * k] == m[p + 8 + 4 * k];
    }
  }

  lemma ViewKept(m: Mem, lim: Limits, bb: nat, g: Globals, t: Tile, f: Free, base: int, m': Mem, bb': nat, g': Globals,
                 t': Tile, f': Free, base': int, s: set<int>)
    requires Consistent(m, lim, bb, g, t, f, base) && Consistent(m', lim, bb', g', t', f', base')
    requires Kept(m, m', t, t', s) && s <= LiveIn(t, f, g.top) && s <= LiveIn(t', f', g'.top)
    ensures s <= t.Keys && s <= t'.Keys && View(m, t, s) == View(m', t', s)
  {
    forall p {:trigger p in s} | p in s
      ensures p in t && p in t' && Words(m, p + 8, Room(t[p])) == Words(m', p + 8, Room(t'[p]))
    {
      WordsKept(m, lim, bb, g, t, f, base, m', bb', g', t', f', base', s, p);
    }
    SameView(m, t, m', t', s);
  }

  lemma SameView(m: Mem, t: Tile, m': Mem, t': Tile, s: set<int>)
    requires s <= t.Keys && s <= t'.Keys
    requires forall p {:trigger p in s} :: p in s ==> Words(m, p + 8, Room(t[p])) == Words(m', p + 8, Room(t'[p]))
    ensures View(m, t, s) == View(m', t', s)
  {
    forall a | a in Pointers(s) ensures Words(m, a, Room(t[a - 8])) == Words(m', a, Room(t'[a - 8])) {
      PointerOf(s, a);
    }
  }

  lemma ViewAdds(m: Mem, t: Tile, s: set<int>, p: int)
    requires s <= t.Keys && p in t
    ensures View(m, t, s + {p}) == View(m, t, s)[p + 8 := Words(m, p + 8, Room(t[p]))]
  {
    forall a ensures a in Pointers(s + {p}) <==> a in Pointers(s) || a == p + 8 {
      PointerOf(s + {p}, a);
      PointerOf(s, a);
    }
  }

  lemma ViewRemoves(m: Mem, t: Tile, s: set<int>, p: int)
    requires s <= t.Keys
    ensures View(m, t, s - {p}) == View(m, t, s) - {p + 8}
  {
    forall a ensures a in Pointers(s - {p}) <==> a in Pointers(s) && a != p + 8 {
      PointerOf(s - {p}, a);
      PointerOf(s, a);
    }
  }

  /** A block can be read word by word. */
  lemma ViewAt(m: Mem, t: Tile, live: set<int>, a: int)
    requires live <= t.Keys && a - 8 in live
    ensures a in View(m, t, live) && View(m, t, live)[a] == Words(m, a, Room(t[a - 8]))
  {
    PointerOf(live, a);
  }

  // ----- the operations, seen this way -----

  lemma AllocatedView(m: Mem, lim: Limits, bb: nat, g: Globals, t: Tile, f: Free, base: int, m': Mem, bb': nat,
                      g': Globals, t': Tile, f': Free, base': int, s: set<int>, p: int)
    requires Consistent(m, lim, bb, g, t, f, base) && Consistent(m', lim, bb', g', t', f', base')
    requires s <= LiveIn(t, f, g.top) && LiveIn(t', f', g'.top) == s + {p} && Kept(m, m', t, t', s)
    ensures p in t' && s <= t.Keys
    ensures View(m', t', LiveIn(t', f', g'.top)) == View(m, t, s)[p + 8 := Words(m', p + 8, Room(t'[p]))]
  {
    assert p in s + {p};
    ViewKept(m, lim, bb, g, t, f, base, m', bb', g', t', f', base', s);
    ViewAdds(m', t', s, p);
  }

  /** What a program gets that asks for `bytes` and is given pointer `r`. */
  ghost predicate Given(before: map<int, seq<int>>, after: map<int, seq<int>>, bytes: int, r: int)
    requires 0 <= bytes < ULONG
  {
    && r % 8 == 0 && r !in before && r in after && after == before[r := after[r]]
    && Request2Size(bytes) - SIZE_SZ <= 4 * |after[r]| < Request2Size(bytes) - SIZE_SZ + MINSIZE
  }

  lemma GivenBlock(m: Mem, lim: Limits, bb: nat, g: Globals, t: Tile, f: Free, base: int, m': Mem, bb': nat,
                   g': Globals, t': Tile, f': Free, base': int, bytes: int, p: int)
    requires Consistent(m, lim, bb, g, t, f, base) && Consistent(m', lim, bb', g', t', f', base')
    requires p !in LiveIn(t, f, g.top) && LiveIn(t', f', g'.top) == LiveIn(t, f, g.top) + {p}
      && Kept(m, m', t, t', LiveIn(t, f, g.top))
    requires 0 <= bytes < ULONG && p in t' && Request2Size(bytes) <= t'[p] < Request2Size(bytes) + MINSIZE
    ensures Given(View(m, t, LiveIn(t, f, g.top)), View(m', t', LiveIn(t', f', g'.top)), bytes, p + 8) && p + 8 != NULL
  {
    var live := LiveIn(t, f, g.top);
    NewChunk(m', lim, bb', g', t', f', base', live, p);
    NewPointer(m, t, live, p);
    AllocatedView(m, lim, bb, g, t, f, base, m', bb', g', t', f', base', live, p);
    GivenMap(View(m, t, live), View(m', t', LiveIn(t', f', g'.top)), bytes, p, t'[p], Words(m', p + 8, Room(t'[p])));
  }

  lemma NewChunk(m: Mem, lim: Limits, bb: nat, g: Globals, t: Tile, f: Free, base: int, s: set<int>, p: int)
    requires Consistent(m, lim, bb, g, t, f, base) && LiveIn(t, f, g.top) == s + {p}
    ensures p in t && p % 8 == 0 && t[p] % 8 == 0 && MINSIZE <= t[p] && ARENA <= p
  {
    assert p in s + {p};
    EndsBelow(m, lim, bb, g, t, f, base, p);
  }

  lemma NewPointer(m: Mem, t: Tile, live: set<int>, p: int)
    requires live <= t.Keys && p !in live
    ensures p + 8 !in View(m, t, live)
  {
    PointerOf(live, p + 8);
  }

  lemma GivenMap(before: map<int, seq<int>>, after: map<int, seq<int>>, bytes: int, p: int, size: int, words: seq<int>)
    requires 0 <= bytes < ULONG && Request2Size(bytes) <= size < Request2Size(bytes) + MINSIZE
    requires size % 8 == 0 && MINSIZE <= size && p % 8 == 0 && |words| == Room(size)
    requires p + 8 !in before && after == before[p + 8 := words]
    ensures Given(before, after, bytes, p + 8)
  {
    RoomIs(size);
    Next8(p);
  }

  lemma RoomIs(size: int)
    requires size % 8 == 0 && MINSIZE <= size
    ensures 4 * Room(size) == size - 4
  {}

  lemma Next8(p: int)
    requires p % 8 == 0
    ensures (p + 8) % 8 == 0
  {}

  lemma NothingAllocated(m: Mem, lim: Limits, bb: nat, g: Globals, t: Tile, f: Free, base: int, m': Mem, bb': nat,
                         g': Globals, t': Tile, f': Free, base': int)
    requires Consistent(m, lim, bb, g, t, f, base) && Consistent(m', lim, bb', g', t', f', base')
    requires LiveIn(t', f', g'.top) == LiveIn(t, f, g.top) && Kept(m, m', t, t', LiveIn(t, f, g.top))
    ensures View(m, t, LiveIn(t, f, g.top)) == View(m', t', LiveIn(t', f', g'.top))
  {
    ViewKept(m, lim, bb, g, t, f, base, m', bb', g', t', f', base', LiveIn(t, f, g.top));
  }

  lemma DeallocatedView(m: Mem, lim: Limits, bb: nat, g: Globals, t: Tile, f: Free, base: int, m': Mem, bb': nat,
                        g': Globals, t': Tile, f': Free, base': int, p: int)
    requires Consistent(m, lim, bb, g, t, f, base) && Consistent(m', lim, bb', g', t', f', base')
    requires Deallocated(m, m', g, g', t, f, t', f', p)
    ensures View(m', t', LiveIn(t', f', g'.top)) == View(m, t, LiveIn(t, f, g.top)) - {p + 8}
  {
    var live := LiveIn(t, f, g.top);
    ViewKept(m, lim, bb, g, t, f, base, m', bb', g', t', f', base', live - {p});
    ViewRemoves(m, t, live, p);
  }

  ghost predicate SamePrefix(u: seq<int>, w: seq<int>) {
    forall k {:trigger w[k]} :: 0 <= k < |u| && k < |w| ==> w[k] == u[k]
  }

  lemma ReallocatedView(m: Mem, lim: Limits, bb: nat, g: Globals, t: Tile, f: Free, base: int, m': Mem, bb': nat,
                        g': Globals, t': Tile, f': Free, base': int, nb: int, p: int, r: int)
    requires Consistent(m, lim, bb, g, t, f, base) && Consistent(m', lim, bb', g', t', f', base')
    requires Reallocated(m, m', g, g', t, f, t', f', nb, p, r) && p in LiveIn(t, f, g.top)
    ensures var before, after, words := View(m, t, LiveIn(t, f, g.top)), View(m', t', LiveIn(t', f', g'.top)),
      Words(m', r + 8, Room(t'[r]));
      p + 8 in before && after == (before - {p + 8})[r + 8 := words] && SamePrefix(before[p + 8], words)
  {
    var live := LiveIn(t, f, g.top);
    AllocatedView(m, lim, bb, g, t, f, base, m', bb', g', t', f', base', live - {p}, r);
    ViewRemoves(m, t, live, p);
    ViewAt(m, t, live, p + 8);
    PrefixKept(m, m', p, t[p], r, t'[r]);
  }

  lemma PrefixKept(m: Mem, m': Mem, p: int, size: int, r: int, size': int)
    requires SameWords(m, p + 8, m', r + 8, (Min(size, size') - 4) / 4)
    ensures SamePrefix(Words(m, p + 8, Room(size)), Words(m', r + 8, Room(size')))
  {
    var u, w := Words(m, p + 8, Room(size)), Words(m', r + 8, Room(size'));
    forall k {:trigger w[k]} | 0 <= k < |u| && k < |w| ensures w[k] == u[k] {
      assert w[k] == Word(m', r + 8, k);
    }
  }

  /** Block `mem` has become block `r`, with room for `bytes`; its words are there, as far as there is room. */
  ghost predicate Replaced(before: map<int, seq<int>>, after: map<int, seq<int>>, bytes: int, mem: int, r: int)
    requires 0 <= bytes < ULONG
  {
    && r % 8 == 0 && mem in before && r in after && after == (before - {mem})[r := after[r]]
      && SamePrefix(before[mem], after[r])
    && Request2Size(bytes) - SIZE_SZ <= 4 * |after[r]| < Request2Size(bytes) - SIZE_SZ + MINSIZE
  }

  lemma ReplacedBlock(m: Mem, lim: Limits, bb: nat, g: Globals, t: Tile, f: Free, base: int, m': Mem, bb': nat,
                      g': Globals, t': Tile, f': Free, base': int, bytes: int, p: int, r: int)
    requires Consistent(m, lim, bb, g, t, f, base) && Consistent(m', lim, bb', g', t', f', base')
      && p in LiveIn(t, f, g.top)
    requires 0 <= bytes < ULONG && Reallocated(m, m', g, g', t, f, t', f', Request2Size(bytes), p, r)
    ensures Replaced(View(m, t, LiveIn(t, f, g.top)), View(m', t', LiveIn(t', f', g'.top)), bytes, p + 8, r + 8)
      && r + 8 != NULL
  {
    ReallocatedView(m, lim, bb, g, t, f, base, m', bb', g', t', f', base', Request2Size(bytes), p, r);
    assert r in LiveIn(t', f', g'.top);
    EndsBelow(m', lim, bb', g', t', f', base', r);
    ReplacedMap(View(m, t, LiveIn(t, f, g.top)), View(m', t', LiveIn(t', f', g'.top)), bytes, p + 8, r, t'[r],
                Words(m', r + 8, Room(t'[r])));
  }

  lemma ReplacedMap(before: map<int, seq<int>>, after: map<int, seq<int>>, bytes: int, mem: int, r: int, size: int,
                    words: seq<int>)
    requires 0 <= bytes < ULONG && Request2Size(bytes) <= size < Request2Size(bytes) + MINSIZE
    requires size % 8 == 0 && MINSIZE <= size && r % 8 == 0 && |words| == Room(size)
    requires mem in before && after == (before - {mem})[r + 8 := words] && SamePrefix(before[mem], words)
    ensures Replaced(before, after, bytes, mem, r + 8)
  {
    RoomIs(size);
    Next8(r);
  }
}
