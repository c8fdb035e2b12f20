/** Words of the heap, the tiling of the arena by chunks, and the header and
    footer words that record it. */
module Chunks {
  /** Memory: the 32-bit word whose first byte has address `a` is `m[a]`. */
  type Mem = seq<int>
  /** The chunks of the arena: start address to size in bytes. */
  type Tile = map<int, int>

  const AV := 0x400        // address of the bin array
  const ARENA := 0x810     // every chunk lies at or above this address
  const MINSIZE := 16

  /** `n` can be used as a chunk pointer: doubleword aligned, four words in memory. */
  /** Mentions a value, so that the verifier looks at what is known of it. */
  ghost predicate About<T>(x: T) { true }

  predicate AddrOk(m: Mem, n: int) { n % 8 == 0 && 0 <= n && n + 16 <= |m| }

  function Foot(m: Mem, p: int): int requires AddrOk(m, p) { m[p] }
  function Head(m: Mem, p: int): int requires AddrOk(m, p) { m[p + 4] }

  function SetFoot(m: Mem, p: int, v: int): (r: Mem)
    requires AddrOk(m, p)
    ensures |r| == |m|
    ensures forall h {:trigger Foot(r, h)} :: AddrOk(m, h) ==> Foot(r, h) == if h == p then v else Foot(m, h)
    ensures forall h {:trigger Head(r, h)} :: AddrOk(m, h) ==> Head(r, h) == Head(m, h)
  { m[p := v] }

  function SetHead(m: Mem, p: int, v: int): (r: Mem)
    requires AddrOk(m, p)
    ensures |r| == |m|
    ensures forall h {:trigger Head(r, h)} :: AddrOk(m, h) ==> Head(r, h) == if h == p then v else Head(m, h)
    ensures forall h {:trigger Foot(r, h)} :: AddrOk(m, h) ==> Foot(r, h) == Foot(m, h)
  { m[p + 4 := v] }

  /** The size field without its two flag bits. */
  function ChunkSize(m: Mem, p: int): int requires AddrOk(m, p) { Head(m, p) - Head(m, p) % 4 }

  predicate PrevInuse(m: Mem, p: int) requires AddrOk(m, p) { Head(m, p) % 2 == 1 }

  /** The P bit of a size field. */
  lemma Flag(head: int, size: int)
    requires (head == size || head == size + 1) && size % 8 == 0
    ensures head % 2 == head - size && head - head % 2 == size && head - head % 4 == size
  {}

  ghost function Next(t: Tile, a: int): int requires a in t { a + t[a] }

  // ----- tiling -----

  ghost predicate Ends(t: Tile, a: int, b: int) requires a in t { a + t[a] <= b }

  ghost predicate Tiling(t: Tile, base: int, end: int) {
    && base in t
    && (forall a {:trigger t[a]} :: a in t ==>
        a % 8 == 0 && t[a] % 8 == 0 && MINSIZE <= t[a] && base <= a && a + t[a] <= end)
    && (forall a {:trigger Next(t, a)} :: a in t ==> Next(t, a) in t || Next(t, a) == end)
    && (forall a, b {:trigger Ends(t, a, b)} :: a in t && b in t && a < b ==> Ends(t, a, b))
  }

  ghost predicate TopLast(t: Tile, top: int, end: int) { top in t && Next(t, top) == end }

  /** Replace the tiles of [q, e) by [q, cut) and, unless it is empty, [cut, e). */
  ghost function Retile(t: Tile, q: int, cut: int, e: int): Tile
  {
    (map h | h in t && (h < q || e <= h) :: t[h]) + (if cut < e then map[q := cut - q, cut := e - cut]
        else map[q := cut - q])
  }

  ghost predicate CanRetile(t: Tile, base: int, end: int, q: int, cut: int, e: int) {
    && Tiling(t, base, end) && q in t && (e in t || e == end)
    && q + MINSIZE <= cut <= e && cut % 8 == 0 && (cut < e ==> cut + MINSIZE <= e)
  }

  lemma {:induction false} EndAligned(t: Tile, base: int, end: int, q: int)
    requires Tiling(t, base, end) && q in t
    ensures end % 8 == 0
    decreases end - q
  {
    assert t[q] > 0;
    if Next(t, q) != end { EndAligned(t, base, end, Next(t, q)); }
  }

  lemma RetileNext(t: Tile, base: int, end: int, q: int, cut: int, e: int, a: int)
    requires CanRetile(t, base, end, q, cut, e) && a in Retile(t, q, cut, e)
    ensures Next(Retile(t, q, cut, e), a) == end || Next(Retile(t, q, cut, e), a) in Retile(t, q, cut, e)
  {
    assert t[q] > 0;
    if a < q || e <= a {
      assert t[a] > 0 && Retile(t, q, cut, e)[a] == t[a];
      assert a < q ==> Ends(t, a, q);
      assert Next(Retile(t, q, cut, e), a) == Next(t, a);
    }
  }

  lemma RetileApart(t: Tile, base: int, end: int, q: int, cut: int, e: int, a: int, b: int)
    requires CanRetile(t, base, end, q, cut, e)
    requires a in Retile(t, q, cut, e) && b in Retile(t, q, cut, e) && a < b
    ensures a + Retile(t, q, cut, e)[a] <= b
  {
    if a < q || e <= a {
      assert b in t ==> Ends(t, a, b);
      assert a < q ==> Ends(t, a, q);
    }
  }

  lemma RetileSize(t: Tile, base: int, end: int, q: int, cut: int, e: int, a: int)
    requires CanRetile(t, base, end, q, cut, e) && a in Retile(t, q, cut, e)
    ensures var s := Retile(t, q, cut, e)[a];
      a % 8 == 0 && s % 8 == 0 && MINSIZE <= s && base <= a && a + s <= end
  {
    assert t[q] > 0;
    EndAligned(t, base, end, q);
    if e in t { assert t[e] > 0; }
    if a < q || e <= a { assert t[a] > 0; }
  }

  lemma RetileTiling(t: Tile, base: int, end: int, q: int, cut: int, e: int)
    requires CanRetile(t, base, end, q, cut, e)
    ensures Tiling(Retile(t, q, cut, e), base, end)
  {
    var r := Retile(t, q, cut, e);
    assert base in r by { assert t[q] > 0 && t[base] > 0; }
    forall a {:trigger r[a]} | a in r
      ensures a % 8 == 0 && r[a] % 8 == 0 && MINSIZE <= r[a] && base <= a && a + r[a] <= end
      ensures Next(r, a) in r || Next(r, a) == end
    {
      RetileSize(t, base, end, q, cut, e, a);
      RetileNext(t, base, end, q, cut, e, a);
    }
    forall a, b | a in r && b in r && a < b ensures Ends(r, a, b) {
      RetileApart(t, base, end, q, cut, e, a, b);
    }
  }

  /** No chunk starts strictly inside another. */
  lemma NoTileInside(t: Tile, base: int, end: int, a: int, b: int)
    requires Tiling(t, base, end) && a in t && b in t && a <= b < a + t[a]
    ensures a == b
  {
    assert a < b ==> Ends(t, a, b);
  }

  // ----- headers and footers -----

  /** A clear P bit: the word before the header is the size of the free chunk that ends here. */
  ghost predicate BackFree(m: Mem, t: Tile, f: set<int>, h: int)
    requires AddrOk(m, h)
  {
    var c := h - Foot(m, h);
    c in f && c in t && t[c] == Foot(m, h)
  }

  ghost predicate HeadersAddr(m: Mem, t: Tile) {
    forall h {:trigger t[h]} :: h in t ==> AddrOk(m, h) && ARENA <= h
  }

  ghost predicate HeaderAt(m: Mem, t: Tile, f: set<int>, h: int)
    requires h in t && AddrOk(m, h)
  {
    && (Head(m, h) == t[h] || Head(m, h) == t[h] + 1)
    && (Head(m, h) == t[h] ==> BackFree(m, t, f, h))
  }

  ghost predicate FreeAt(m: Mem, t: Tile, f: set<int>, top: int, c: int)
    requires HeadersAddr(m, t)
  {
    && c in t && c != top && Next(t, c) in t && Next(t, c) != top
    && (var n := Next(t, c); n !in f && AddrOk(m, n) && Head(m, n) == t[n] && Foot(m, n) == t[c])
  }

  ghost predicate AllHeaders(m: Mem, t: Tile, f: set<int>) {
    forall h {:trigger Head(m, h)} :: h in t ==> AddrOk(m, h) && HeaderAt(m, t, f, h)
  }

  ghost predicate AllFree(m: Mem, t: Tile, f: set<int>, top: int)
    requires HeadersAddr(m, t)
  {
    f <= t.Keys && forall c {:trigger Next(t, c)} :: c in f ==> FreeAt(m, t, f, top, c)
  }

  /** Sizes and P bits tell the truth; every free chunk has a footer, and neither its
      successor nor `top` is free.  */
  ghost predicate Headers(m: Mem, t: Tile, f: set<int>, top: int) {
    HeadersAddr(m, t) && AllHeaders(m, t, f) && AllFree(m, t, f, top)
  }

  ghost predicate SameOutside(m: Mem, m': Mem, t: Tile, q: int, e: int) {
    forall h {:trigger Head(m', h)} {:trigger Foot(m', h)} ::
      h in t && (h < q || e < h) ==>
        AddrOk(m, h) && AddrOk(m', h) && Head(m', h) == Head(m, h) && Foot(m', h) == Foot(m, h)
  }

  /** What an operation on the chunks [q, e) leaves behind: chunk(s) [q, cut) and [cut, e), the
      last of them free iff `lastFree`, and every other header and footer as it was. */
  ghost predicate Rewritten(m: Mem, m': Mem, t: Tile, q: int, cut: int, e: int, lastFree: bool)
    requires HeadersAddr(m, t) && q in t
  {
    && HeadersAddr(m', Retile(t, q, cut, e))
    && AddrOk(m, q) && AddrOk(m', q)
    && Head(m', q) - (cut - q) == Head(m, q) - t[q] && Foot(m', q) == Foot(m, q)
    && (cut < e ==> AddrOk(m', cut) && Head(m', cut) == e - cut + 1)
    && (e in t ==> AddrOk(m', e) && Head(m', e) == t[e] + (if lastFree then 0 else 1))
    && (lastFree ==> e in t && AddrOk(m', e) && Foot(m', e) == e - (if cut < e then cut else q))
    && SameOutside(m, m', t, q, e)
  }

  ghost predicate FreeAfter(t: Tile, f: set<int>, f': set<int>, q: int, cut: int, e: int, lastFree: bool) {
    forall x {:trigger x in f'} :: x in f' <==>
      (x in f && x in t && (x < q || e <= x)) || (lastFree && x == if cut < e then cut else q)
  }

  /** A chunk that becomes free, or becomes `top`, must not touch a free chunk or `top`. */
  ghost predicate Consolidated(m: Mem, t: Tile, f: set<int>, top': int, end: int, q: int, cut: int, e: int,
                               lastFree: bool)
    requires HeadersAddr(m, t) && q in t
  {
    && (lastFree ==> e in t && e !in f && e != top')
    && (cut == e && (lastFree || e == end) ==> AddrOk(m, q) && Head(m, q) == t[q] + 1)
  }

  ghost function NewTop(top: int, end: int, q: int, cut: int, e: int): int {
    if e != end then top else if cut < e then cut else q
  }

  ghost predicate Step(m: Mem, m': Mem, t: Tile, f: set<int>, f': set<int>, base: int, end: int, top: int, q: int,
                       cut: int, e: int, lastFree: bool)
  {
    && CanRetile(t, base, end, q, cut, e) && Headers(m, t, f, top) && TopLast(t, top, end)
    && Rewritten(m, m', t, q, cut, e, lastFree) && FreeAfter(t, f, f', q, cut, e, lastFree)
  }

  lemma HeaderOf(m: Mem, t: Tile, f: set<int>, top: int, h: int)
    requires Headers(m, t, f, top) && h in t
    ensures AddrOk(m, h) && HeaderAt(m, t, f, h)
  {
    assert About(t[h]);
    assert About(Head(m, h));
  }

  /** A chunk outside [q, e] keeps the free chunk before it, if there is one. */
  lemma OutsideKeepsBack(m: Mem, t: Tile, f: set<int>, base: int, end: int, q: int, cut: int, e: int, h: int, c: int)
    requires CanRetile(t, base, end, q, cut, e)
    requires h in t && c in t && c + t[c] == h && (h <= q || e < h)
    ensures c < q || e <= c
  {
    assert t[c] > 0;
    assert c < q ==> Ends(t, c, q);
    assert e in t && c < e ==> Ends(t, c, e);
  }

  lemma RewrittenOutside(m: Mem, m': Mem, t: Tile, f: set<int>, f': set<int>, base: int, end: int, top: int, q: int,
                         cut: int, e: int, lastFree: bool, h: int)
    requires Step(m, m', t, f, f', base, end, top, q, cut, e, lastFree)
    requires h in t && (h < q || e < h)
    ensures AddrOk(m', h) && HeaderAt(m', Retile(t, q, cut, e), f', h)
  {
    HeaderOf(m, t, f, top, h);
    assert h in Retile(t, q, cut, e) && About(Retile(t, q, cut, e)[h]);
    assert Head(m', h) == Head(m, h) && Foot(m', h) == Foot(m, h);
    if Head(m, h) == t[h] {
      OutsideKeepsBack(m, t, f, base, end, q, cut, e, h, h - Foot(m, h));
    }
  }

  lemma RewrittenFirst(m: Mem, m': Mem, t: Tile, f: set<int>, f': set<int>, base: int, end: int, top: int, q: int,
                       cut: int, e: int, lastFree: bool)
    requires Step(m, m', t, f, f', base, end, top, q, cut, e, lastFree)
    ensures HeaderAt(m', Retile(t, q, cut, e), f', q)
  {
    HeaderOf(m, t, f, top, q);
    if Head(m, q) == t[q] {
      OutsideKeepsBack(m, t, f, base, end, q, cut, e, q, q - Foot(m, q));
    }
  }

  lemma RewrittenHeader(m: Mem, m': Mem, t: Tile, f: set<int>, f': set<int>, base: int, end: int, top: int, q: int,
                        cut: int, e: int, lastFree: bool, h: int)
    requires Step(m, m', t, f, f', base, end, top, q, cut, e, lastFree)
    requires h in Retile(t, q, cut, e)
    ensures AddrOk(m', h) && HeaderAt(m', Retile(t, q, cut, e), f', h)
  {
    assert About(Retile(t, q, cut, e)[h]);
    if h < q || e < h {
      RewrittenOutside(m, m', t, f, f', base, end, top, q, cut, e, lastFree, h);
    } else if h == q {
      RewrittenFirst(m, m', t, f, f', base, end, top, q, cut, e, lastFree);
    }
  }

  lemma FreeOf(m: Mem, t: Tile, f: set<int>, top: int, c: int)
    requires Headers(m, t, f, top) && c in f
    ensures FreeAt(m, t, f, top, c)
  {
    assert Next(t, c) == c + t[c];
  }

  lemma RewrittenFreeOld(m: Mem, m': Mem, t: Tile, f: set<int>, f': set<int>, base: int, end: int, top: int, q: int,
                         cut: int, e: int, lastFree: bool, c: int)
    requires Step(m, m', t, f, f', base, end, top, q, cut, e, lastFree)
    requires Consolidated(m, t, f, NewTop(top, end, q, cut, e), end, q, cut, e, lastFree)
    requires c in f && c in t && (c < q || e <= c)
    ensures FreeAt(m', Retile(t, q, cut, e), f', NewTop(top, end, q, cut, e), c)
  {
    var r := Retile(t, q, cut, e);
    FreeOf(m, t, f, top, c);
    var n := Next(t, c);
    assert t[c] > 0 && t[q] > 0;
    assert c < q ==> Ends(t, c, q);
  }

  lemma RewrittenFreeNew(m: Mem, m': Mem, t: Tile, f: set<int>, f': set<int>, base: int, end: int, top: int, q: int,
                         cut: int, e: int)
    requires Step(m, m', t, f, f', base, end, top, q, cut, e, true)
    requires Consolidated(m, t, f, NewTop(top, end, q, cut, e), end, q, cut, e, true)
    ensures FreeAt(m', Retile(t, q, cut, e), f', NewTop(top, end, q, cut, e), if cut < e then cut else q)
  {
    var r := Retile(t, q, cut, e);
    var last := if cut < e then cut else q;
    assert t[q] > 0 && t[e] > 0 && t[top] > 0;
    assert top < e ==> Ends(t, top, e);
    assert Next(r, last) == e;
    assert e !in f';
  }

  lemma RewrittenFree(m: Mem, m': Mem, t: Tile, f: set<int>, f': set<int>, base: int, end: int, top: int, q: int,
                      cut: int, e: int, lastFree: bool, c: int)
    requires Step(m, m', t, f, f', base, end, top, q, cut, e, lastFree)
    requires Consolidated(m, t, f, NewTop(top, end, q, cut, e), end, q, cut, e, lastFree)
    requires c in f'
    ensures c in Retile(t, q, cut, e) && FreeAt(m', Retile(t, q, cut, e), f', NewTop(top, end, q, cut, e), c)
  {
    if c in f && c in t && (c < q || e <= c) {
      RewrittenFreeOld(m, m', t, f, f', base, end, top, q, cut, e, lastFree, c);
    } else {
      RewrittenFreeNew(m, m', t, f, f', base, end, top, q, cut, e);
    }
  }

  /** The header invariant survives every rewriting of a run of chunks. */
  lemma RewrittenHeaders(m: Mem, m': Mem, t: Tile, f: set<int>, f': set<int>, base: int, end: int, top: int, q: int,
                         cut: int, e: int, lastFree: bool)
    requires Step(m, m', t, f, f', base, end, top, q, cut, e, lastFree)
    requires Consolidated(m, t, f, NewTop(top, end, q, cut, e), end, q, cut, e, lastFree)
    ensures Headers(m', Retile(t, q, cut, e), f', NewTop(top, end, q, cut, e))
  {
    RewrittenAllHeaders(m, m', t, f, f', base, end, top, q, cut, e, lastFree);
    RewrittenAllFree(m, m', t, f, f', base, end, top, q, cut, e, lastFree);
  }

  lemma RewrittenAllHeaders(m: Mem, m': Mem, t: Tile, f: set<int>, f': set<int>, base: int, end: int, top: int, q: int,
                            cut: int, e: int, lastFree: bool)
    requires Step(m, m', t, f, f', base, end, top, q, cut, e, lastFree)
    ensures AllHeaders(m', Retile(t, q, cut, e), f')
  {
    var r := Retile(t, q, cut, e);
    forall h | h in r ensures AddrOk(m', h) && HeaderAt(m', r, f', h) {
      RewrittenHeader(m, m', t, f, f', base, end, top, q, cut, e, lastFree, h);
    }
  }

  lemma RewrittenAllFree(m: Mem, m': Mem, t: Tile, f: set<int>, f': set<int>, base: int, end: int, top: int, q: int,
                         cut: int, e: int, lastFree: bool)
    requires Step(m, m', t, f, f', base, end, top, q, cut, e, lastFree)
    requires Consolidated(m, t, f, NewTop(top, end, q, cut, e), end, q, cut, e, lastFree)
    ensures HeadersAddr(m', Retile(t, q, cut, e))
    ensures AllFree(m', Retile(t, q, cut, e), f', NewTop(top, end, q, cut, e))
  {
    var r, top' := Retile(t, q, cut, e), NewTop(top, end, q, cut, e);
    forall c | c in f' ensures c in r.Keys && FreeAt(m', r, f', top', c) {
      RewrittenFree(m, m', t, f, f', base, end, top, q, cut, e, lastFree, c);
    }
    assert forall c {:trigger c in f'} :: c in f' ==> c in r.Keys;
  }

  lemma RewrittenTiling(t: Tile, base: int, end: int, top: int, q: int, cut: int, e: int)
    requires CanRetile(t, base, end, q, cut, e) && TopLast(t, top, end)
    ensures Tiling(Retile(t, q, cut, e), base, end)
    ensures TopLast(Retile(t, q, cut, e), NewTop(top, end, q, cut, e), end)
  {
    RetileTiling(t, base, end, q, cut, e);
    assert t[top] > 0 && t[q] > 0;
    assert top < q ==> Ends(t, top, q);
    assert e in t && top < e ==> Ends(t, top, e);
  }

  // ----- what the users of live blocks see -----

  /** The words of the block in chunk `a`, from a+8 up to and including the next chunk's first word. */
  ghost predicate SameBlock(m: Mem, m': Mem, a: int, size: int) {
    forall x {:trigger m'[x]} :: a + 8 <= x < a + size + 4 && 0 <= x < |m| && x < |m'| ==> m'[x] == m[x]
  }

  /** Only words of the chunks [q, e), the header at e, the bins and links of free chunks change. */
  ghost predicate Confined(m: Mem, m': Mem, f: set<int>, q: int, e: int) {
    forall x {:trigger m'[x]} :: 0 <= x < |m| && x < |m'| && m'[x] != m[x] ==>
      x < ARENA || q + 4 <= x <= e + 4 || x - 8 in f || x - 12 in f
  }

  lemma LiveKept(m: Mem, m': Mem, t: Tile, f: set<int>, base: int, end: int, q: int, e: int, w: int)
    requires Tiling(t, base, end) && HeadersAddr(m, t) && f <= t.Keys
    requires Confined(m, m', f, q, e)
    requires w in t && w !in f && (w < q || e <= w) && q in t
    ensures SameBlock(m, m', w, t[w])
  {
    assert t[w] > 0;
    assert w < q ==> Ends(t, w, q);
    forall c | c in f ensures c % 8 == 0 && (c + 16 <= w || w + t[w] <= c) {
      assert t[c] > 0;
      assert c < w ==> Ends(t, c, w);
      assert w < c ==> Ends(t, w, c);
    }
  }
}
