/** Redrawing the chunks of a stretch [q, e) that holds blocks in use and free chunks taken off
    their lists: [q, cut) in use and, unless it is empty, [cut, e) in use or `top`. */
module Recutting {
  import opened Chunks
  import opened Bins
  import opened HeapSteps
  import opened TopServing

  /** `f1`: the free chunks outside [q, e). */
  ghost predicate CanRecut(m: Mem, t: Tile, f: Free, f1: Free, base: int, top: int, q: int, cut: int, e: int) {
    && Shape(m, t, f, base, top) && CanRetile(t, base, |m|, q, cut, e) && (cut == e ==> e != |m|)
    && (forall c {:trigger f1[c]} :: c in f1 ==> c in f && f1[c] == f[c])
    && (forall c {:trigger c in f1} :: c in f1 <==> c in f && (c < q || e <= c))
  }

  /** Apart from the words of [q, e) and the first two after it nothing changes. */
  ghost predicate Local(m: Mem, m': Mem, q: int, e: int) {
    |m'| == |m| && forall x {:trigger m'[x]} :: 0 <= x < |m| && m'[x] != m[x] ==> q + 4 <= x <= e + 4
  }

  /** The new headers. */
  ghost predicate Headed(m: Mem, m': Mem, t: Tile, q: int, cut: int, e: int) {
    && q in t && AddrOk(m, q) && AddrOk(m', q) && Head(m', q) - (cut - q) == Head(m, q) - t[q]
    && (cut < e ==> AddrOk(m', cut) && Head(m', cut) == e - cut + 1)
    && (e in t ==> AddrOk(m', e) && Head(m', e) == t[e] + 1)
  }

  ghost predicate Recut(m: Mem, m1: Mem, m': Mem, t: Tile, f: Free, f1: Free, base: int, top: int, q: int, cut: int,
                        e: int) {
    && CanRecut(m, t, f, f1, base, top, q, cut, e)
    && LinkWords(m, m1, f.Keys) && Lists(m1, f1) && Local(m1, m', q, e) && Headed(m, m', t, q, cut, e)
  }

  lemma RecutLists(m1: Mem, m': Mem, t: Tile, base: int, q: int, e: int, f1: Free)
    requires Tiling(t, base, |m1|) && f1.Keys <= t.Keys && Lists(m1, f1) && Local(m1, m', q, e) && ARENA <= q <= e
    requires q in t && forall c {:trigger c in f1} :: c in f1 ==> c < q || e <= c
    ensures Lists(m', f1)
  {
    forall n | Node(f1, n) ensures AddrOk(m1, n) && Fd(m', n) == Fd(m1, n) && Bk(m', n) == Bk(m1, n) {
      if n in f1 { assert f1[n].bin >= 1 && t[n] > 0 && (n < q ==> Ends(t, n, q)); }
    }
    forall c {:trigger f1[c]} | c in f1
      ensures AddrOk(m', c) && ARENA <= c && 1 <= f1[c].bin < NAV
    {
      assert Node(f1, c);
    }
    SameLinks(m1, m', f1);
  }

  lemma RecutConfined(m: Mem, m1: Mem, m': Mem, f: set<int>, q: int, e: int)
    requires LinkWords(m, m1, f) && Local(m1, m', q, e) && q <= e
    ensures Confined(m, m', f, q, e)
  {}

  lemma OutsideHeader(m: Mem, m1: Mem, m': Mem, t: Tile, base: int, f: set<int>, q: int, e: int, h: int)
    requires Tiling(t, base, |m|) && HeadersAddr(m, t) && f <= t.Keys && q in t && q <= e && e % 8 == 0
    requires LinkWords(m, m1, f) && Local(m1, m', q, e) && h in t
    ensures AddrOk(m, h)
    ensures h < q || e < h ==> Head(m', h) == Head(m, h) && Foot(m', h) == Foot(m, h)
    ensures h == q ==> Foot(m', h) == Foot(m, h)
  {
    assert t[h] > 0 && t[q] > 0;
    assert h < q ==> Ends(t, h, q);
    LinkWordsKeepHeader(m, m1, t, base, |m|, f, h);
  }

  lemma RecutAligned(t: Tile, base: int, end: int, q: int, cut: int, e: int)
    requires CanRetile(t, base, end, q, cut, e)
    ensures e % 8 == 0 && e <= end
  {
    EndAligned(t, base, end, q);
    if e in t { assert t[e] > 0; }
  }

  lemma RecutRewritten(m: Mem, m1: Mem, m': Mem, t: Tile, f: Free, f1: Free, base: int, top: int, q: int, cut: int,
                       e: int)
    requires Recut(m, m1, m', t, f, f1, base, top, q, cut, e)
    ensures HeadersAddr(m, t) && Rewritten(m, m', t, q, cut, e, false)
  {
    RecutAligned(t, base, |m|, q, cut, e);
    OutsideHeader(m, m1, m', t, base, f.Keys, q, e, q);
    forall h | h in t && (h < q || e < h)
      ensures AddrOk(m, h) && AddrOk(m', h) && Head(m', h) == Head(m, h) && Foot(m', h) == Foot(m, h)
    {
      OutsideHeader(m, m1, m', t, base, f.Keys, q, e, h);
    }
    assert SameOutside(m, m', t, q, e);
    RecutAddr(m, m', t, base, q, cut, e);
  }

  lemma RecutAddr(m: Mem, m': Mem, t: Tile, base: int, q: int, cut: int, e: int)
    requires CanRetile(t, base, |m|, q, cut, e) && |m'| == |m| && HeadersAddr(m, t) && (cut < e ==> AddrOk(m', cut))
    ensures HeadersAddr(m', Retile(t, q, cut, e))
  {
    var r := Retile(t, q, cut, e);
    assert t[q] > 0;
    forall h {:trigger r[h]} | h in r ensures AddrOk(m', h) && ARENA <= h { if h != cut || h == q { assert t[h] > 0; } }
  }

  lemma RecutBinned(m: Mem, t: Tile, f: Free, f1: Free, base: int, top: int, q: int, cut: int, e: int)
    requires CanRecut(m, t, f, f1, base, top, q, cut, e)
    ensures Binned(Retile(t, q, cut, e), f1)
  {
    var r := Retile(t, q, cut, e);
    forall c {:trigger f1[c]} | c in f1 ensures c in f && f1[c] == f[c] && c in r && c in t && r[c] == t[c] {
      assert f[c] == f1[c];
    }
    BinnedShrinks(t, f, r, f1);
  }

  lemma RecutKeys(m: Mem, t: Tile, f: Free, f1: Free, base: int, top: int, q: int, cut: int, e: int)
    requires CanRecut(m, t, f, f1, base, top, q, cut, e)
    ensures f1.Keys <= f.Keys <= t.Keys && q in t && ARENA <= q && q < cut
    ensures FreeAfter(t, f.Keys, f1.Keys, q, cut, e, false)
  {
    assert t[q] > 0;
    assert forall c {:trigger c in f1.Keys} :: c in f1.Keys ==> c in f1 && c in f;
  }

  lemma Recutted(m: Mem, m1: Mem, m': Mem, t: Tile, f: Free, f1: Free, base: int, top: int, q: int, cut: int, e: int,
                 s: set<int>)
    requires Recut(m, m1, m', t, f, f1, base, top, q, cut, e)
    requires forall w {:trigger w in s} :: w in s ==> w in t && w !in f && (w < q || e <= w)
    ensures Shape(m', Retile(t, q, cut, e), f1, base, NewTop(top, |m|, q, cut, e))
    ensures Kept(m, m', t, Retile(t, q, cut, e), s)
  {
    assert HeadersAddr(m, t) && t[q] > 0;
    RecutRewritten(m, m1, m', t, f, f1, base, top, q, cut, e);
    RecutBinned(m, t, f, f1, base, top, q, cut, e);
    RecutKeys(m, t, f, f1, base, top, q, cut, e);
    RecutLists(m1, m', t, base, q, e, f1);
    RecutConfined(m, m1, m', f.Keys, q, e);
    CommitHeaders(m, m', t, f, f1, base, top, q, cut, e, false);
    CommitKept(m, m', t, f, base, top, q, cut, e, s);
  }

  /** `s` are the blocks of [q, e) in use. */
  ghost predicate InUseWithin(t: Tile, f: Free, top: int, q: int, e: int, s: set<int>) {
    forall x {:trigger x in s} :: x in s <==> x in LiveIn(t, f, top) && q <= x < e
  }

  /** The blocks in use afterwards. */
  lemma RecutLive(m: Mem, t: Tile, f: Free, f1: Free, base: int, top: int, q: int, cut: int, e: int, s: set<int>)
    requires CanRecut(m, t, f, f1, base, top, q, cut, e)
    requires InUseWithin(t, f, top, q, e, s)
    ensures LiveIn(Retile(t, q, cut, e), f1, NewTop(top, |m|, q, cut, e))
      == LiveIn(t, f, top) - s + {q} + (if cut < e && e != |m| then {cut} else {})
  {
    var r, top', l := Retile(t, q, cut, e), NewTop(top, |m|, q, cut, e), LiveIn(t, f, top);
    RecutKeys(m, t, f, f1, base, top, q, cut, e);
    forall x ensures x in LiveIn(r, f1, top') <==> x in l - s + {q} + (if cut < e && e != |m| then {cut} else {}) {
      RecutLiveAt(m, t, f, f1, base, top, q, cut, e, x);
      if q <= x < e { assert x in s <==> x in l; }
    }
  }

  lemma RecutLiveAt(m: Mem, t: Tile, f: Free, f1: Free, base: int, top: int, q: int, cut: int, e: int, x: int)
    requires CanRecut(m, t, f, f1, base, top, q, cut, e)
    ensures x in LiveIn(Retile(t, q, cut, e), f1, NewTop(top, |m|, q, cut, e)) <==>
      (x in LiveIn(t, f, top) && (x < q || e <= x)) || x == q || (x == cut && cut < e && e != |m|)
  {
    RecutKeys(m, t, f, f1, base, top, q, cut, e);
    RecutTop(t, base, |m|, top, q, e);
    if x in t { assert t[x] > 0; }
  }

  /** `top` is outside [q, e), unless that stretch goes to the end. */
  lemma RecutTop(t: Tile, base: int, end: int, top: int, q: int, e: int)
    requires Tiling(t, base, end) && TopLast(t, top, end) && q in t && q < e && (e in t || e == end)
    ensures e == end ==> q <= top < e
    ensures e != end ==> e <= top
  {
    assert t[top] > 0 && t[q] > 0;
    assert top < q ==> Ends(t, top, q);
    if e in t { assert t[e] > 0; assert top < e ==> Ends(t, top, e); }
  }
}
