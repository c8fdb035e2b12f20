/** Memory from and back to the system: sbrk, malloc_extend_top, malloc_trim. */
module Extending {
  import opened Chunks
  import opened Bins
  import opened HeapSteps
  import opened HeapTop

  const PAGESZ := 4096
  const NO_BASE := -1          // sbrk_base before the first extension
  const MORECORE_FAILURE := -1
  const NULL := 0
  const ULONG := 0x1_0000_0000

  /** The region that sbrk hands out, and the two tunable values in use. */
  datatype Limits = Limits(start: int, end: int, topPad: int, trimThreshold: int)

  predicate Sane(lim: Limits) {
    ARENA <= lim.start <= lim.end < 0x8000_0000 && 0 <= lim.topPad < 0x7fff_fff0 && 0 <= lim.trimThreshold
  }

  predicate IsSize(nb: int) { MINSIZE <= nb < 0x8000_0000 && nb % 8 == 0 }

  /** An unsigned long read as a long. */
  function ToLong(x: int): int
    requires 0 <= x < ULONG
  { if x < 0x8000_0000 then x else x - ULONG }

  function RoundUp(x: int): (r: int)
    requires 0 <= x
    ensures x <= r < x + PAGESZ && r % PAGESZ == 0
  { (x + PAGESZ - 1) / PAGESZ * PAGESZ }

  /** The board's sbrk: moves the break, or returns null. */
  method Sbrk(m: Mem, lim: Limits, increment: int) returns (m': Mem, was: int)
    requires Sane(lim) && lim.start <= |m| <= lim.end
    ensures if lim.start <= |m| + increment <= lim.end
      then was == |m| && |m'| == |m| + increment
        && (forall x {:trigger m'[x]} :: 0 <= x < |m| && x < |m'| ==> m'[x] == m[x])
      else was == NULL && m' == m
  {
    var brk := |m| + increment;
    if brk < lim.start || brk > lim.end {
      return m, NULL;
    }
    if increment < 0 {
      m' := m[..brk];
    } else {
      var added := new int[increment];
      m' := m + added[..];
    }
    was := |m|;
  }

  /** chunksize(top); the initial top is the header of bin 0, whose size field is `binblocks`. */
  function TopSize(m: Mem, bb: nat, top: int): int
    requires top == BinAt(0) || AddrOk(m, top)
  { if top == BinAt(0) then bb - bb % 4 else ChunkSize(m, top) }

  /** Bytes skipped so that user memory is doubleword aligned. */
  function FrontCorrection(brk: int): (r: int)
    ensures 0 <= r < 8 && (brk + r) % 8 == 0
  {
    var misalign := (brk + 8) % 8;
    if misalign > 0 then 8 - misalign else 0
  }

  /** What the first extension needs. */
  function FirstBase(lim: Limits): int { lim.start + FrontCorrection(lim.start) }
  function FirstEnd(lim: Limits, nb: int): int
    requires Sane(lim) && 0 <= nb
  { RoundUp(FirstBase(lim) + nb + lim.topPad + MINSIZE) }

  /** By how much top is to grow. */
  function Growth(lim: Limits, nb: int): int
    requires Sane(lim) && 0 <= nb
  { RoundUp(nb + lim.topPad + MINSIZE) }

  /** Whole pages, as few as have room for the request, the padding and one more chunk; the first time after the bytes
      skipped. */
  lemma PagesFor(lim: Limits, nb: int)
    requires Sane(lim) && 0 <= nb
    ensures Growth(lim, nb) % 4096 == 0 && 0 <= Growth(lim, nb) - (nb + lim.topPad + 16) < 4096
    ensures FirstBase(lim) % 8 == 0 && 0 <= FirstBase(lim) - lim.start < 8
    ensures FirstEnd(lim, nb) % 4096 == 0 && 0 <= FirstEnd(lim, nb) - (FirstBase(lim) + nb + lim.topPad + 16) < 4096
  {
    var g, first := nb + lim.topPad + MINSIZE, FirstBase(lim) + nb + lim.topPad + MINSIZE;
    assert RoundUp(g) < g + PAGESZ && RoundUp(first) < first + PAGESZ;
  }

  /** What sbrk is given for it: a long. */
  function Increment(lim: Limits, nb: int): int
    requires Sane(lim) && 0 <= nb
  { ToLong(Growth(lim, nb) % ULONG) }

  lemma IncrementIs(lim: Limits, nb: int)
    requires Sane(lim) && IsSize(nb)
    ensures Increment(lim, nb) == if Growth(lim, nb) < 0x8000_0000 then Growth(lim, nb) else Growth(lim, nb) - ULONG
    ensures nb + MINSIZE <= Growth(lim, nb) <= ULONG && Increment(lim, nb) % PAGESZ == 0 && Increment(lim, nb) % 8 == 0
  {
    var g := Growth(lim, nb);
    UpToULong(nb + lim.topPad + MINSIZE);
    assert g % ULONG == if g < ULONG then g else 0;
    PageSums(g, ULONG);
    PageAligned(Increment(lim, nb));
  }

  lemma UpToULong(x: int)
    requires 0 <= x < ULONG
    ensures RoundUp(x) <= ULONG
  {}

  /** The increment is negative, there is that much memory below the break, and top is not as large. */
  predicate TakesTop(lim: Limits, brk: int, topSize: int, nb: int)
    requires Sane(lim) && 0 <= nb
  {
    var increment := Increment(lim, nb);
    increment < 0 && lim.start <= brk + increment && topSize + increment < MINSIZE
  }

  /** It cannot be negative and in the region unless the padding and the region are more than 2^31 together. */
  lemma NeverTakesTop(lim: Limits, brk: int, topSize: int, nb: int)
    requires Sane(lim) && IsSize(nb) && brk <= lim.end && lim.topPad + (lim.end - lim.start) + 2 * PAGESZ <= 0x8000_0000
    ensures !TakesTop(lim, brk, topSize, nb)
  {
    IncrementIs(lim, nb);
  }

  /** With a padding of 2^31 - 4096, the largest request takes a page from a top chunk of one page. */
  lemma PaddingTakesTop(lim: Limits, brk: int, topSize: int, nb: int)
    requires Sane(lim) && lim.topPad == 0x7fff_f000 && nb == 0x7fff_fff0 && lim.start + PAGESZ <= brk
      && topSize == PAGESZ
    ensures IsSize(nb) && Increment(lim, nb) == -PAGESZ && TakesTop(lim, brk, topSize, nb)
  {
    assert RoundUp(0xffff_f000) == 0xffff_f000;
  }

  /** Where the top chunk of the extended arena ends up. Unless sbrk takes all of it, the heap keeps its shape. */
  method Extend(m: Mem, lim: Limits, nb: int, top: int, sbrkBase: int, sbrkedMem: int, ghost t: Tile, ghost f: Free,
                ghost base: int)
    returns (m': Mem, sbrkedMem': int, ghost t': Tile)
    requires Sane(lim) && lim.start <= |m| <= lim.end && Shape(m, t, f, base, top) && |m| % PAGESZ == 0
    requires sbrkedMem == |m| - sbrkBase && sbrkBase == lim.start && IsSize(nb) && top in t
    ensures |m'| == if lim.start <= |m| + Increment(lim, nb) <= lim.end then |m| + Increment(lim, nb) else |m|
    ensures !TakesTop(lim, |m|, t[top], nb) ==>
      && Shape(m', t', f, base, top) && |m'| % PAGESZ == 0 && sbrkedMem' == |m'| - sbrkBase
      && Kept(m, m', t, t', t.Keys - f.Keys - {top}) && t'.Keys == t.Keys && t' == t[top := t[top] + (|m'| - |m|)]
    ensures TakesTop(lim, |m|, t[top], nb) ==> |m'| < top + MINSIZE
  {
    TopChunk(m, t, f, base, top);
    IncrementIs(lim, nb);
    m', sbrkedMem', t' := m, sbrkedMem, t;
    var oldTopSize := ChunkSize(m, top);
    var oldEnd := top + oldTopSize;
    var sbrkSize := Growth(lim, nb) % ULONG;
    var m1, brk := Sbrk(m, lim, ToLong(sbrkSize));
    if brk == MORECORE_FAILURE || brk < oldEnd {
      KeptAll(m, t, f, top);
      return;
    }
    assert brk == oldEnd;
    sbrkedMem' := (sbrkedMem + sbrkSize) % ULONG;
    var topSize := (sbrkSize + oldTopSize) % ULONG;
    if |m1| < top + MINSIZE {                      // the header of top is written behind the break
      m' := m1;
      return;
    }
    WrappedSum(sbrkedMem, sbrkSize, |m1| - sbrkBase);
    WrappedSum(oldTopSize, sbrkSize, |m1| - top);
    MovedEnd(m, m1, t, f, base, top, topSize);
    m' := SetHead(m1, top, WithBit0(topSize));
    t' := t[top := topSize];
  }

  lemma MovedEnd(m: Mem, m1: Mem, t: Tile, f: Free, base: int, top: int, topSize: int)
    requires Shape(m, t, f, base, top) && |m1| == top + topSize && MINSIZE <= topSize
    requires |m| % PAGESZ == 0 && (|m1| - |m|) % PAGESZ == 0
    requires forall x {:trigger m1[x]} :: 0 <= x < |m| && x < |m1| ==> m1[x] == m[x]
    ensures AddrOk(m1, top) && |m1| % PAGESZ == 0 && top in t && topSize == t[top] + (|m1| - |m|)
      && WithBit0(topSize) == topSize + 1
    ensures Shape(SetHead(m1, top, topSize + 1), t[top := topSize], f, base, top)
    ensures Kept(m, SetHead(m1, top, topSize + 1), t, t[top := topSize], t.Keys - f.Keys - {top})
  {
    TopChunk(m, t, f, base, top);
    PageSums(|m|, |m1| - |m|);
    PageAligned(|m1|);
    DifferenceOf8(|m1|, top);
    ResizedHead(m, m1, t, f, base, top, topSize);
  }

  lemma WrappedSum(x: int, y: int, z: int)
    requires 0 <= y < ULONG && 0 <= z < 0x8000_0000 && z == x + ToLong(y)
    ensures (x + y) % ULONG == z && (y + x) % ULONG == z
  {}

  lemma KeptAll(m: Mem, t: Tile, f: Free, top: int)
    ensures Kept(m, m, t, t, t.Keys - f.Keys - {top})
  {}

  /** x | 1 */
  function WithBit0(x: int): int { x - x % 2 + 1 }

  /** A top chunk in the arena, which ends at `end`. */
  ghost predicate TopEnds(m: Mem, top: int, end: int) {
    ARENA <= top && AddrOk(m, top) && top + ChunkSize(m, top) == end
  }

  /** The second request of the first extension. */
  function Correction(brk: int, sbrkSize: int): int
    requires 0 <= brk && 0 <= sbrkSize
  {
    var front := FrontCorrection(brk);
    front + (RoundUp(brk + front + sbrkSize) - (brk + front + sbrkSize))
  }

  function FirstSize(lim: Limits, nb: int): int { nb + lim.topPad + MINSIZE }

  /** Not even the first call of sbrk finds room. */
  predicate FirstFails(lim: Limits, nb: int) { lim.start + FirstSize(lim, nb) > lim.end }

  /** The first top chunk: a null pointer from sbrk is taken for an address. */
  function FirstTop(lim: Limits, nb: int): int { if FirstFails(lim, nb) then NULL else FirstBase(lim) }

  function FirstTopSize(lim: Limits, nb: int): (size: int)
    requires Sane(lim) && IsSize(nb)
    ensures 0 <= size < ULONG
  {
    if FirstFails(lim, nb) then
      var correction := Correction(NULL, FirstSize(lim, nb));
      correction + if lim.start + correction <= lim.end then lim.start else NULL
    else if FirstEnd(lim, nb) <= lim.end then FirstSizes(lim, nb); FirstEnd(lim, nb) - FirstBase(lim)
    else (Correction(lim.start, FirstSize(lim, nb)) - FirstBase(lim)) % ULONG
  }

  /** The first extension sets up the arena, if there is room for it. Otherwise one of the two calls of sbrk has
      returned null, which is taken for an address: top is not a chunk that ends where the arena should. */
  method FirstExtend(m: Mem, lim: Limits, nb: int, ghost f: Free)
    returns (m': Mem, top: int, sbrkBase: int, sbrkedMem: int, ghost t': Tile)
    requires Sane(lim) && |m| == lim.start && Lists(m, f) && f == map[] && IsSize(nb)
    ensures AddrOk(m', top) && (TopEnds(m', top, FirstEnd(lim, nb)) <==> FirstEnd(lim, nb) <= lim.end)
    ensures top == FirstTop(lim, nb) && Head(m', top) == WithBit0(FirstTopSize(lim, nb))
    ensures FirstEnd(lim, nb) <= lim.end ==>
      |m'| == FirstEnd(lim, nb) && Shape(m', t', f, top, top) && |m'| % PAGESZ == 0 && sbrkedMem == |m'| - sbrkBase
    ensures FirstEnd(lim, nb) <= lim.end ==>
      sbrkBase == lim.start <= top && top < sbrkBase + 8 && t' == map[top := |m'| - top]
        && t'[top] >= nb + MINSIZE + lim.topPad
    ensures FirstEnd(lim, nb) > lim.end ==>
      sbrkBase != NO_BASE && (sbrkBase != lim.start || sbrkedMem != |m'| - sbrkBase)
  {
    var m2, topSize;
    m2, top, topSize, sbrkBase, sbrkedMem := FirstMemory(m, lim, nb);
    m' := SetHead(m2, top, WithBit0(topSize));
    t' := map[top := topSize];
    ClearBits(topSize);
    FirstSizes(lim, nb);
    if FirstEnd(lim, nb) <= lim.end {
      TopFits(lim, nb);
      FirstShape(m, m2, top, topSize, f);
    } else if !FirstFails(lim, nb) {
      SecondFails(lim, nb, FirstSize(lim, nb));
    }
  }

  /** The two calls of sbrk, and what they make of top. */
  method FirstMemory(m: Mem, lim: Limits, nb: int)
    returns (m2: Mem, top: int, topSize: int, sbrkBase: int, sbrkedMem: int)
    requires Sane(lim) && |m| == lim.start && IsSize(nb)
    ensures top == FirstTop(lim, nb) && topSize == FirstTopSize(lim, nb)
    ensures top % 8 == 0 && top + 16 <= |m2| && |m| <= |m2| && forall x {:trigger m2[x]} :: 0 <= x < |m| ==>
      m2[x] == m[x]
    ensures FirstEnd(lim, nb) <= lim.end ==>
      |m2| == FirstEnd(lim, nb) && sbrkBase == lim.start && sbrkedMem == |m2| - sbrkBase
    ensures FirstEnd(lim, nb) > lim.end ==>
      sbrkBase != NO_BASE && (sbrkBase != lim.start || sbrkedMem != |m2| - sbrkBase)
  {
    FirstSizes(lim, nb);
    var sbrkSize := (nb + lim.topPad + MINSIZE) % ULONG;
    assert sbrkSize == FirstSize(lim, nb);
    var m1, brk := Sbrk(m, lim, ToLong(sbrkSize));
    sbrkBase := brk;
    var correction := Correction(brk, sbrkSize);
    brk := brk + FrontCorrection(brk);
    var newBrk;
    m2, newBrk := Sbrk(m1, lim, correction);
    sbrkedMem := sbrkSize + correction;
    top, topSize := brk, (newBrk - brk + correction) % ULONG;
    FirstTopIs(lim, nb, sbrkBase, newBrk);
  }

  /** That the calls return `first` and `second`. */
  predicate Brks(lim: Limits, nb: int, first: int, second: int)
    requires Sane(lim) && IsSize(nb)
  {
    && first == (if FirstFails(lim, nb) then NULL else lim.start)
    && second == var brk := lim.start + if FirstFails(lim, nb) then 0 else FirstSize(lim, nb);
         if brk + Correction(first, FirstSize(lim, nb)) <= lim.end then brk else NULL
  }

  lemma FirstTopIs(lim: Limits, nb: int, first: int, second: int)
    requires Sane(lim) && IsSize(nb) && Brks(lim, nb, first, second)
    ensures var size, top := FirstSize(lim, nb), first + FrontCorrection(first);
      top == FirstTop(lim, nb) && (second - top + Correction(first, size)) % ULONG == FirstTopSize(lim, nb)
    ensures FirstFails(lim, nb) ==> first != lim.start
    ensures !FirstFails(lim, nb) ==> (second == NULL <==> FirstEnd(lim, nb) > lim.end)
    ensures !FirstFails(lim, nb) ==>
      lim.start + FirstSize(lim, nb) + Correction(first, FirstSize(lim, nb)) == FirstEnd(lim, nb)
    ensures FirstFails(lim, nb) ==> FirstEnd(lim, nb) > lim.end
  {
    FirstSizes(lim, nb);
    if FirstFails(lim, nb) {
      NullIsAligned();
      FailingSize(second, Correction(first, FirstSize(lim, nb)));
    } else if FirstEnd(lim, nb) <= lim.end {
      BothSucceed(lim, nb, FirstSize(lim, nb));
    } else {
      SecondFails(lim, nb, FirstSize(lim, nb));
    }
  }

  lemma FailingSize(x: int, y: int)
    requires 0 <= x < 0x8000_0000 && 0 <= y < 2 * PAGESZ
    ensures (x - NULL + y) % ULONG == x + y
  {}

  lemma TopFits(lim: Limits, nb: int)
    requires Sane(lim) && IsSize(nb) && FirstEnd(lim, nb) <= lim.end
    ensures FirstTop(lim, nb) == FirstBase(lim)
      && FirstTopSize(lim, nb) == FirstEnd(lim, nb) - FirstBase(lim) >= FirstSize(lim, nb)
    ensures FirstTopSize(lim, nb) % 8 == 0
  {
    FirstSizes(lim, nb);
    BothSucceed(lim, nb, FirstSize(lim, nb));
  }

  /** Both calls find room. */
  lemma BothSucceed(lim: Limits, nb: int, size: int)
    requires Sane(lim) && IsSize(nb) && size == FirstSize(lim, nb) && FirstEnd(lim, nb) <= lim.end
    ensures lim.start + size <= lim.end && lim.start + size + Correction(lim.start, size) == FirstEnd(lim, nb)
    ensures var top := FirstBase(lim); var topSize := lim.start + size - top + Correction(lim.start, size);
      topSize == FirstEnd(lim, nb) - top && topSize % 8 == 0 && size <= topSize < 0x8000_0000
        && topSize % ULONG == topSize
  {
    FirstSizes(lim, nb);
    var top, end := FirstBase(lim), FirstEnd(lim, nb);
    assert Correction(lim.start, size) == top - lim.start + (end - (top + size));
    DifferenceOf8(end, top);
  }

  lemma DifferenceOf8(x: int, y: int)
    requires x % 8 == 0 && y % 8 == 0
    ensures (x - y) % 8 == 0
  {}

  /** The second call does not: null less the break wraps. */
  lemma SecondFails(lim: Limits, nb: int, size: int)
    requires Sane(lim) && IsSize(nb) && size == FirstSize(lim, nb) && lim.start + size <= lim.end < FirstEnd(lim, nb)
    ensures lim.start + size + Correction(lim.start, size) == FirstEnd(lim, nb)
    ensures var top, topSize := FirstBase(lim), (NULL - FirstBase(lim) + Correction(lim.start, size)) % ULONG;
      top + topSize < FirstEnd(lim, nb) || FirstEnd(lim, nb) + 4 <= top + topSize
  {
    FirstSizes(lim, nb);
    var x := Correction(lim.start, size) - FirstBase(lim);
    assert if x < 0 then x % ULONG == x + ULONG else x % ULONG == x;
  }

  lemma NullIsAligned()
    ensures FrontCorrection(NULL) == 0
  {}

  lemma ClearBits(x: int)
    requires 0 <= x
    ensures var head := WithBit0(x);
      x - 3 <= head - head % 4 <= x && (x % 8 == 0 ==> head == x + 1 && head - head % 4 == x)
  {}

  lemma FirstSizes(lim: Limits, nb: int)
    requires Sane(lim) && IsSize(nb)
    ensures var base, end := FirstBase(lim), FirstEnd(lim, nb);
      base % 8 == 0 && end % 8 == 0 && base + nb + lim.topPad + MINSIZE <= end && lim.start <= base < lim.start + 8
  {
    PageAligned(FirstEnd(lim, nb));
  }

  lemma PageSums(x: int, y: int)
    requires x % PAGESZ == 0 && y % PAGESZ == 0
    ensures (x + y) % PAGESZ == 0 && (x - y) % PAGESZ == 0
  {}

  lemma PageAligned(x: int)
    requires x % PAGESZ == 0
    ensures x % 8 == 0
  {
    assert x == 8 * (512 * (x / PAGESZ));
  }

  lemma FirstShape(m: Mem, m2: Mem, top: int, size: int, f: Free)
    requires Lists(m, f) && f == map[] && ARENA <= |m| <= top && |m2| == top + size && |m2| % 8 == 0 && top % 8 == 0
      && MINSIZE <= size
    requires forall x {:trigger m2[x]} :: 0 <= x < |m| && x < |m2| ==> m2[x] == m[x]
    ensures AddrOk(m2, top) && Shape(SetHead(m2, top, size + 1), map[top := size], f, top, top)
  {
    FirstLists(m, SetHead(m2, top, size + 1), f);
    NewArena(SetHead(m2, top, size + 1), top);
  }

  lemma FirstLists(m: Mem, m': Mem, f: Free)
    requires Lists(m, f) && f == map[] && |m| <= |m'| && ARENA <= |m|
    requires forall x {:trigger m'[x]} :: 0 <= x < ARENA ==> m'[x] == m[x]
    ensures Lists(m', f)
  {
    forall n | Node(f, n) ensures AddrOk(m, n) && AddrOk(m', n) && Fd(m', n) == Fd(m, n) && Bk(m', n) == Bk(m, n) {}
    SameLinks(m, m', f);
  }

  // ----- trimming -----

  /** How much malloc_trim gives back, in the wrapping arithmetic of unsigned long. */
  function TrimExtra(topSize: int, pad: int): int {
    var v := (topSize - pad - MINSIZE + (PAGESZ - 1)) % ULONG;
    ToLong((v / PAGESZ - 1) * PAGESZ % ULONG)
  }

  /** Whole pages, as many as leave `pad` and a minimal chunk; none if that is less than a page. */
  lemma TrimExtraIs(topSize: int, pad: int)
    requires MINSIZE <= topSize < 0x8000_0000 && 0 <= pad < 0x8000_0000
    ensures var extra := TrimExtra(topSize, pad);
      if extra < PAGESZ then topSize <= pad + MINSIZE + PAGESZ
      else extra % PAGESZ == 0 && pad + MINSIZE <= topSize - extra <= pad + MINSIZE + PAGESZ
  {
    var u := topSize - pad - MINSIZE + (PAGESZ - 1);
    if u < 0 {
      assert u % ULONG == u + ULONG;
    } else {
      assert u % ULONG == u;
    }
    var w := (u % ULONG / PAGESZ - 1) * PAGESZ;
    if u < 0 {
      assert 0x8000_0000 <= w < ULONG;
      assert w % ULONG == w;
    } else if u < PAGESZ {
      assert w == -PAGESZ;
      assert w % ULONG == ULONG - PAGESZ;
    } else {
      assert 0 <= w < ULONG;
      assert w % ULONG == w;
    }
  }

  lemma TrimExtraPages(topSize: int, pad: int)
    ensures TrimExtra(topSize, pad) % PAGESZ == 0 && TrimExtra(topSize, pad) < 0x8000_0000
  {
    var w := ((topSize - pad - MINSIZE + (PAGESZ - 1)) % ULONG / PAGESZ - 1) * PAGESZ;
    assert w % ULONG == if w < 0 then w + ULONG else w;
    PageSums(w, ULONG);
    PageSums(w, 0);
  }

  /** It is no page, or no more than leaves a minimal chunk. */
  predicate TrimSafe(topSize: int, pad: int) {
    TrimExtra(topSize, pad) < PAGESZ || TrimExtra(topSize, pad) + MINSIZE <= topSize
  }

  /** So it is for all pads below 2^31. Others are taken for negative ones, and `rest` is what is to be given back. */
  lemma TrimSafeIf(topSize: int, pad: int)
    requires MINSIZE <= topSize < 0x8000_0000 && 0 <= pad < ULONG
    ensures pad < 0x8000_0000 ==> TrimSafe(topSize, pad)
    ensures pad >= 0x8000_0000 ==>
      var rest := topSize + (ULONG - pad) - MINSIZE - 1;
      (TrimSafe(topSize, pad) <==> rest < PAGESZ || rest >= 0x8000_0000 || rest - rest % PAGESZ + MINSIZE <= topSize)
  {
    if pad < 0x8000_0000 {
      TrimExtraIs(topSize, pad);
    } else {
      var u := topSize - pad - MINSIZE + (PAGESZ - 1) + ULONG;
      var rest := u - PAGESZ;
      if u < ULONG {
        assert (u - ULONG) % ULONG == u;
        PagesOf(rest);
        assert TrimExtra(topSize, pad) == ToLong((rest / PAGESZ * PAGESZ) % ULONG);
      }
    }
  }

  lemma PagesOf(x: int)
    requires -PAGESZ <= x
    ensures (x + PAGESZ) / PAGESZ - 1 == x / PAGESZ && x / PAGESZ * PAGESZ == x - x % PAGESZ
  {}

  method Trim(m: Mem, lim: Limits, pad: int, top: int, sbrkBase: int, sbrkedMem: int, ghost t: Tile, ghost f: Free,
              ghost base: int)
    returns (released: bool, m': Mem, sbrkedMem': int, ghost t': Tile)
    requires Sane(lim) && lim.start <= base && |m| <= lim.end && Shape(m, t, f, base, top) && |m| % PAGESZ == 0
      && top in t
    requires sbrkedMem == |m| - sbrkBase && sbrkBase == lim.start && 0 <= pad < ULONG
    ensures TrimSafe(t[top], pad) ==>
      && |m'| <= |m| && Shape(m', t', f, base, top) && |m'| % PAGESZ == 0 && sbrkedMem' == |m'| - sbrkBase
      && Kept(m, m', t, t', t.Keys - f.Keys - {top}) && t'.Keys == t.Keys && t' == t[top := t[top] + (|m'| - |m|)]
    ensures released && TrimSafe(t[top], pad) ==>
      |m'| <= |m| - PAGESZ && (pad < 0x8000_0000 ==> pad + MINSIZE <= t'[top])
    ensures !released ==> m' == m && t' == t && sbrkedMem' == sbrkedMem
    ensures TrimSafe(t[top], pad) && pad < 0x8000_0000 ==> t'[top] <= pad + MINSIZE + PAGESZ
    ensures !TrimSafe(t[top], pad) ==> released && (|m'| < top + MINSIZE || sbrkedMem' != |m'| - sbrkBase)
  {
    TopChunk(m, t, f, base, top);
    m', sbrkedMem', t', released := m, sbrkedMem, t, false;
    var topSize := ChunkSize(m, top);
    var extra := TrimExtra(topSize, pad);
    if pad < 0x8000_0000 { TrimExtraIs(topSize, pad); }
    if extra < PAGESZ {
      KeptAll(m, t, f, top);
      return;
    }
    TrimExtraPages(topSize, pad);
    var m0, currentBrk := Sbrk(m, lim, 0);
    if currentBrk != top + topSize {         // nobody else calls sbrk
      return;
    }
    m', sbrkedMem', t' := GiveBack(m, lim, top, extra, sbrkBase, sbrkedMem, t, f, base);
    released := true;
  }

  /** Give back the last bytes. If these do not leave a top chunk, there is none. */
  method GiveBack(m: Mem, lim: Limits, top: int, extra: int, sbrkBase: int, sbrkedMem: int, ghost t: Tile,
                  ghost f: Free, ghost base: int)
    returns (m': Mem, sbrkedMem': int, ghost t': Tile)
    requires Sane(lim) && lim.start <= base && |m| <= lim.end && Shape(m, t, f, base, top) && top in t
      && |m| % PAGESZ == 0
    requires 0 < extra < 0x8000_0000 && extra % PAGESZ == 0 && sbrkedMem == |m| - sbrkBase && sbrkBase == lim.start
    ensures MINSIZE <= t[top] - extra ==>
      && |m'| == |m| - extra && |m'| % PAGESZ == 0 && Shape(m', t', f, base, top) && t' == t[top := t[top] - extra]
      && Kept(m, m', t, t', t.Keys - f.Keys - {top}) && sbrkedMem' == |m'| - sbrkBase
    ensures MINSIZE > t[top] - extra ==> |m'| < top + MINSIZE || sbrkedMem' != |m'| - sbrkBase
  {
    TopChunk(m, t, f, base, top);
    var topSize := ChunkSize(m, top);
    var m1, newBrk := Sbrk(m, lim, -extra);
    assert newBrk != MORECORE_FAILURE;                // a null pointer is not recognised
    sbrkedMem', t' := (sbrkedMem - extra) % ULONG, t[top := topSize - extra];
    WrappedDifference(sbrkedMem, extra);
    if |m1| < top + MINSIZE {                         // the header of top is written behind the break
      m' := m1;
      return;
    }
    m' := SetHead(m1, top, WithBit0((topSize - extra) % ULONG));
    WrappedDifference(topSize, extra);
    if topSize - extra >= MINSIZE {
      PageSums(0, extra);
      MovedEnd(m, m1, t, f, base, top, topSize - extra);
    }
  }

  lemma WrappedDifference(x: int, y: int)
    requires 0 <= x < 0x8000_0000 && 0 < y < 0x8000_0000
    ensures (x - y) % ULONG == if x >= y then x - y else x - y + ULONG
  {}

  lemma ResizedHead(m: Mem, m1: Mem, t: Tile, f: Free, base: int, top: int, size: int)
    requires Shape(m, t, f, base, top) && MINSIZE <= size && size % 8 == 0 && |m1| == top + size && AddrOk(m1, top)
    requires forall x {:trigger m1[x]} :: 0 <= x < |m| && x < |m1| ==> m1[x] == m[x]
    ensures Shape(SetHead(m1, top, size + 1), t[top := size], f, base, top)
    ensures Kept(m, SetHead(m1, top, size + 1), t, t[top := size], t.Keys - f.Keys - {top})
      && WithBit0(size) == size + 1
  {
    Resized(m, SetHead(m1, top, size + 1), t, f, base, top, size);
  }
}
