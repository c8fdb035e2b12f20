/** The end of the arena moves: sbrk extends or trims the top chunk, or sets up the arena. */
module HeapTop {
  import opened Chunks
  import opened Bins
  import opened HeapSteps

  /** Memory may end elsewhere, but below that only the header of `top` differs. */
  ghost predicate OnlyTopHead(m: Mem, m': Mem, top: int) {
    forall x {:trigger m'[x]} :: 0 <= x < |m| && x < |m'| && x != top + 4 ==> m'[x] == m[x]
  }

  ghost predicate CanResize(m: Mem, m': Mem, t: Tile, f: Free, base: int, top: int, size: int) {
    && Shape(m, t, f, base, top) && MINSIZE <= size && size % 8 == 0 && |m'| == top + size
    && AddrOk(m', top) && Head(m', top) == size + 1 && OnlyTopHead(m, m', top)
  }

  lemma BelowTop(t: Tile, base: int, end: int, top: int, a: int)
    requires Tiling(t, base, end) && TopLast(t, top, end) && a in t && a != top
    ensures a + t[a] <= top && MINSIZE <= t[a] && Next(t, a) in t
  {
    assert t[a] > 0;
    assert a < top ==> Ends(t, a, top);
    assert top < a ==> Ends(t, top, a);
    NotLast(t, base, end, top, a);
  }

  lemma ResizedTiling(t: Tile, base: int, end: int, top: int, size: int)
    requires Tiling(t, base, end) && TopLast(t, top, end) && MINSIZE <= size && size % 8 == 0
    ensures Tiling(t[top := size], base, top + size) && TopLast(t[top := size], top, top + size)
  {
    var r := t[top := size];
    forall a {:trigger r[a]} | a in r
      ensures a % 8 == 0 && r[a] % 8 == 0 && MINSIZE <= r[a] && base <= a && a + r[a] <= top + size
    {
      assert t[a] > 0;
      if a != top { BelowTop(t, base, end, top, a); }
    }
    forall a {:trigger Next(r, a)} | a in r ensures Next(r, a) in r || Next(r, a) == top + size {
      if a != top { BelowTop(t, base, end, top, a); assert Next(r, a) == Next(t, a); }
    }
    forall a, b {:trigger Ends(r, a, b)} | a in r && b in r && a < b ensures Ends(r, a, b) {
      assert Ends(t, a, b);
      if a == top { BelowTop(t, base, end, top, b); }
    }
  }

  lemma ResizedWord(m: Mem, m': Mem, t: Tile, f: Free, base: int, top: int, size: int, a: int)
    requires CanResize(m, m', t, f, base, top, size) && a in t && a != top
    ensures AddrOk(m, a) && AddrOk(m', a) && ARENA <= a && Head(m', a) == Head(m, a) && Foot(m', a) == Foot(m, a)
    ensures AddrOk(m, top) && Foot(m', top) == Foot(m, top)
    ensures Fd(m', a) == Fd(m, a) && Bk(m', a) == Bk(m, a)
  {
    TopChunk(m, t, f, base, top);
    BelowTop(t, base, |m|, top, a);
    assert t[a] > 0;
  }

  lemma ResizedHeaders(m: Mem, m': Mem, t: Tile, f: Free, base: int, top: int, size: int)
    requires CanResize(m, m', t, f, base, top, size)
    ensures Headers(m', t[top := size], f.Keys, top)
  {
    ResizedAllHeaders(m, m', t, f, base, top, size);
    ResizedAllFree(m, m', t, f, base, top, size);
  }

  lemma ResizedAllHeaders(m: Mem, m': Mem, t: Tile, f: Free, base: int, top: int, size: int)
    requires CanResize(m, m', t, f, base, top, size)
    ensures HeadersAddr(m', t[top := size]) && AllHeaders(m', t[top := size], f.Keys)
  {
    var r := t[top := size];
    forall h {:trigger r[h]} | h in r ensures AddrOk(m', h) && ARENA <= h && HeaderAt(m', r, f.Keys, h) {
      if h == top { TopChunk(m, t, f, base, top); } else { ResizedHeader(m, m', t, f, base, top, size, h); }
    }
  }

  lemma ResizedAllFree(m: Mem, m': Mem, t: Tile, f: Free, base: int, top: int, size: int)
    requires CanResize(m, m', t, f, base, top, size) && HeadersAddr(m', t[top := size])
    ensures AllFree(m', t[top := size], f.Keys, top)
  {
    var r := t[top := size];
    forall c | c in f.Keys
      ensures c in r.Keys && FreeAt(m', r, f.Keys, top, c)
    {
      ResizedFree(m, m', t, f, base, top, size, c);
    }
    assert forall c {:trigger c in f.Keys} :: c in f.Keys ==> c in r.Keys;
  }

  lemma ResizedHeader(m: Mem, m': Mem, t: Tile, f: Free, base: int, top: int, size: int, h: int)
    requires CanResize(m, m', t, f, base, top, size) && h in t && h != top
    ensures AddrOk(m', h) && ARENA <= h && HeaderAt(m', t[top := size], f.Keys, h)
  {
    ResizedWord(m, m', t, f, base, top, size, h);
    HeaderOf(m, t, f.Keys, top, h);
    TopChunk(m, t, f, base, top);
  }

  lemma ResizedFree(m: Mem, m': Mem, t: Tile, f: Free, base: int, top: int, size: int, c: int)
    requires CanResize(m, m', t, f, base, top, size) && c in f && HeadersAddr(m', t[top := size])
    ensures c in t && FreeAt(m', t[top := size], f.Keys, top, c)
  {
    FreeOf(m, t, f.Keys, top, c);
    ResizedWord(m, m', t, f, base, top, size, c);
    ResizedWord(m, m', t, f, base, top, size, Next(t, c));
  }

  lemma ResizedLists(m: Mem, m': Mem, t: Tile, f: Free, base: int, top: int, size: int)
    requires CanResize(m, m', t, f, base, top, size)
    ensures Lists(m', f)
  {
    TopChunk(m, t, f, base, top);
    forall n | Node(f, n) ensures AddrOk(m, n) && AddrOk(m', n) && Fd(m', n) == Fd(m, n) && Bk(m', n) == Bk(m, n) {
      if n in f { ResizedWord(m, m', t, f, base, top, size, n); }
    }
    forall c {:trigger f[c]} | c in f ensures AddrOk(m', c) && ARENA <= c && 1 <= f[c].bin < NAV { assert Node(f, c); }
    SameLinks(m, m', f);
  }

  lemma Resized(m: Mem, m': Mem, t: Tile, f: Free, base: int, top: int, size: int)
    requires CanResize(m, m', t, f, base, top, size)
    ensures top in t && Shape(m', t[top := size], f, base, top)
    ensures Kept(m, m', t, t[top := size], t.Keys - f.Keys - {top})
  {
    ResizedTiling(t, base, |m|, top, size);
    ResizedHeaders(m, m', t, f, base, top, size);
    ResizedLists(m, m', t, f, base, top, size);
    assert top !in f by { TopChunk(m, t, f, base, top); }
    BinnedShrinks(t, f, t[top := size], f);
    forall w {:trigger w in t.Keys - f.Keys - {top}} | w in t.Keys - f.Keys - {top} ensures SameBlock(m, m', w, t[w]) {
      BelowTop(t, base, |m|, top, w);
    }
  }

  /** The first arena: one chunk, `top`. */
  lemma NewArena(m: Mem, base: int)
    requires ARENA <= base && base % 8 == 0 && |m| % 8 == 0 && base + MINSIZE <= |m| && Lists(m, map[])
    requires AddrOk(m, base) && Head(m, base) == |m| - base + 1
    ensures Shape(m, map[base := |m| - base], map[], base, base)
  {
    var t: Tile := map[base := |m| - base];
    assert Next(t, base) == |m|;
  }
}
