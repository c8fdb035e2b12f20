/** Looking for chunks and for places in the bins. */
module Search {
  import opened Bits
  import opened Chunks
  import opened Bins
  import opened BinBlocks

  /** Before a chunk is put on a list: all sizes needed to place it can be read. */
  ghost predicate Readable(m: Mem, t: Tile, f: Free) {
    forall c {:trigger Head(m, c)} {:trigger SizeOk(m, t, f, c)} :: SizeOk(m, t, f, c)
  }

  ghost predicate SizeOk(m: Mem, t: Tile, f: Free, c: int) {
    c in f ==> AddrOk(m, c) && c in t && t[c] % 8 == 0 && (Head(m, c) == t[c] || Head(m, c) == t[c] + 1)
  }

  // ----- frontlink -----

  ghost predicate CanFrontlink(m: Mem, bb: nat, t: Tile, f: Free, p: int) {
    && Lists(m, f) && Readable(m, t, f) && Binned(t, f) && Marks(bb, f)
    && AddrOk(m, p) && ARENA <= p && p !in f && p in t && t[p] % 8 == 0 && MINSIZE <= t[p]
  }

  /** In its bin a chunk of size `s` goes before node `fd`: after the larger ones, ahead of all others. */
  ghost predicate Spot(t: Tile, f: Free, s: int, fd: int)
    requires Binned(t, f)
  {
    forall c {:trigger f[c]} :: c in f && 0 <= s && f[c].bin == BinIndex(s) ==>
      if fd !in f || f[c].rank < f[fd].rank then t[c] > s else t[c] <= s
  }

  /** Everything that comes before node `n` in the bin of `s` is larger than `s`. */
  ghost predicate LargerBefore(t: Tile, f: Free, s: int, n: int)
    requires Binned(t, f) && 0 <= s
  {
    forall c {:trigger f[c]} :: c in f && f[c].bin == BinIndex(s) && (n !in f || f[c].rank < f[n].rank) ==> t[c] > s
  }

  /** Nearer to the front of its bin than all chunks of this size. */
  ghost predicate AheadOfEquals(t: Tile, f: Free, s: Slot, size: int) {
    forall c {:trigger f[c]} :: c in f && c in t && f[c].bin == s.bin && t[c] == size ==> s.rank < f[c].rank
  }

  /** A slot in the bin of a chunk of this size, in front of others of this size. */
  ghost predicate InFront(t: Tile, f: Free, size: int, s: Slot) {
    0 <= size && s.bin == BinIndex(size) && AheadOfEquals(t, f, s, size)
  }

  /** No chunk of the size of `v` is nearer to the end of its bin. */
  ghost predicate LastOfSize(t: Tile, f: Free, v: int) {
    forall c {:trigger f[c]} ::
      c in f && v in f && c in t && v in t && f[c].bin == f[v].bin && t[c] == t[v] ==> f[c].rank <= f[v].rank
  }

  /** The chunks from node `n` on, following fd. */
  ghost function From(f: Free, n: int): set<int> {
    set c | c in f && n in f && f[c].bin == f[n].bin && f[n].rank <= f[c].rank
  }

  lemma SmallSpot(m: Mem, t: Tile, f: Free, s: int, fd: int)
    requires Lists(m, f) && Binned(t, f) && MINSIZE <= s < 512 && s % 8 == 0
    requires Readable(m, t, f)
    requires fd == Fd(m, BinAt(BinIndex(s)))
    ensures Spot(t, f, s, fd)
  {
    BinIndexRange(s);
    if fd == BinAt(BinIndex(s)) {
      EmptySpot(m, t, f, s);
    } else {
      FirstSpot(m, t, f, s, fd);
      SmallBinOne(m, t, f, s);
    }
  }

  lemma SmallBinOne(m: Mem, t: Tile, f: Free, s: int)
    requires Binned(t, f) && Readable(m, t, f) && MINSIZE <= s < 512 && s % 8 == 0
    ensures forall c {:trigger f[c]} :: c in f && f[c].bin == BinIndex(s) ==> t[c] == s
  {
    BinIndexRange(s);
    forall c {:trigger f[c]} | c in f && f[c].bin == BinIndex(s) ensures t[c] == s {
      assert SizeOk(m, t, f, c);
      SmallBinUniform(t, f, c, s);
    }
  }

  lemma EmptySpot(m: Mem, t: Tile, f: Free, s: int)
    requires Lists(m, f) && Binned(t, f) && MINSIZE <= s && BinIndex(s) < NAV
    requires Fd(m, BinAt(BinIndex(s))) == BinAt(BinIndex(s))
    ensures Spot(t, f, s, BinAt(BinIndex(s)))
  {
    var h := BinAt(BinIndex(s));
    assert Bk(m, h) == h;
    forall c {:trigger f[c]} | c in f ensures f[c].bin != BinIndex(s) {
      assert f[c].bin == BinIndex(s) ==> UpTo(f, c, h);
    }
  }

  lemma FirstSpot(m: Mem, t: Tile, f: Free, s: int, first: int)
    requires Lists(m, f) && Binned(t, f) && MINSIZE <= s && BinIndex(s) < NAV
    requires first == Fd(m, BinAt(BinIndex(s))) && first in f
    ensures LargerBefore(t, f, s, first)
  {
    var h := BinAt(BinIndex(s));
    assert Bk(m, first) == h;
    assert forall c {:trigger f[c]} :: c in f && Before(f, c, first) ==> UpTo(f, c, h);
  }

  lemma NextSpot(m: Mem, t: Tile, f: Free, s: int, was: int, fd: int)
    requires Lists(m, f) && Readable(m, t, f) && Binned(t, f)
    requires MINSIZE <= s && BinIndex(s) < NAV && was in f && HeadOf(f, was) == BinAt(BinIndex(s))
    requires fd == Fd(m, was) && s < ChunkSize(m, was)
    requires LargerBefore(t, f, s, was)
    ensures Node(f, fd) && HeadOf(f, fd) == BinAt(BinIndex(s))
    ensures LargerBefore(t, f, s, fd)
    ensures From(f, fd) < From(f, was)
  {
    assert Bk(m, fd) == was;
    assert fd in f ==> Before(f, was, fd);
    assert was in From(f, was) && was !in From(f, fd);
    forall c {:trigger f[c]} | c in f && f[c].bin == BinIndex(s) && (fd !in f || f[c].rank < f[fd].rank)
      ensures t[c] > s
    {
      if fd in f { assert Before(f, c, fd); }
      assert UpTo(f, c, Bk(m, fd));
      assert Ranked(f, c, was);
      SizeRead(m, t, f, was);
    }
  }

  lemma FoundSpot(m: Mem, t: Tile, f: Free, s: int, fd: int)
    requires Lists(m, f) && Readable(m, t, f) && Binned(t, f)
    requires MINSIZE <= s && BinIndex(s) < NAV && Node(f, fd) && HeadOf(f, fd) == BinAt(BinIndex(s))
    requires fd in f ==> ChunkSize(m, fd) <= s
    requires LargerBefore(t, f, s, fd)
    ensures Spot(t, f, s, fd)
  {
    forall c {:trigger f[c]} | c in f && f[c].bin == BinIndex(s)
      ensures fd in f && f[fd].rank <= f[c].rank ==> t[c] <= s
    {
      if fd in f {
        SizeRead(m, t, f, fd);
        assert Ranked(f, c, fd);
        assert f[fd].rank < f[c].rank ==> Before(f, fd, c);
      }
    }
  }

  /** The loop of frontlink: skip the chunks larger than `s`. */
  method SearchSpot(m: Mem, h: int, first: int, s: int, ghost t: Tile, ghost f: Free) returns (fd: int)
    requires Lists(m, f) && Readable(m, t, f) && Binned(t, f)
    requires MINSIZE <= s && BinIndex(s) < NAV && h == BinAt(BinIndex(s)) && first == Fd(m, h) && first != h
    ensures Node(f, fd) && HeadOf(f, fd) == h && Spot(t, f, s, fd)
  {
    fd := first;
    FirstSpot(m, t, f, s, first);
    while fd != h && s < ChunkSize(m, fd)
      invariant Node(f, fd) && HeadOf(f, fd) == h && LargerBefore(t, f, s, fd)
      decreases From(f, fd)
    {
      ghost var was := fd;
      fd := Fd(m, fd);
      NextSpot(m, t, f, s, was, fd);
    }
    FoundSpot(m, t, f, s, fd);
  }

  /** The first half of frontlink: mark the block, and find the neighbours. */
  method FindSpot(m: Mem, bb: nat, s: int, ghost t: Tile, ghost f: Free) returns (bk: int, fd: int, bb': nat)
    requires Lists(m, f) && Readable(m, t, f) && Binned(t, f) && Marks(bb, f)
    requires MINSIZE <= s && s % 8 == 0 && 2 <= BinIndex(s) < NAV
    ensures Marks(bb', f) && Marked(bb', BinIndex(s))
    ensures Node(f, bk) && Node(f, fd) && Fd(m, bk) == fd && HeadOf(f, bk) == BinAt(BinIndex(s))
    ensures Spot(t, f, s, fd)
  {
    bb' := bb;
    if s < 512 {
      bk := BinAt(s / 8);
      bb' := SetBit(bb, s / 8 / 4);
      MarkKeeps(bb, f, s / 8);
      fd := Fd(m, bk);
      SmallSpot(m, t, f, s, fd);
    } else {
      var idx := BinIndex(s);
      bk := BinAt(idx);
      fd := Fd(m, bk);
      if fd == bk {
        bb' := SetBit(bb, idx / 4);
        MarkKeeps(bb, f, idx);
        EmptySpot(m, t, f, s);
      } else {
        assert Marked(bb, f[fd].bin);
        fd := SearchSpot(m, bk, fd, s, t, f);
        bk := Bk(m, fd);
      }
    }
  }

  lemma SpotBinned(m: Mem, bb: nat, t: Tile, f: Free, p: int, bk: int, fd: int, s: Slot)
    requires CanFrontlink(m, bb, t, f, p) && Spot(t, f, t[p], fd) && Gap(m, f, p, bk, fd)
    requires 1 <= s.bin < NAV && HeadOf(f, bk) == BinAt(s.bin) && s.bin == BinIndex(t[p])
    requires s.rank == Between(f, bk, fd)
    ensures Binned(t, f[p := s]) && AheadOfEquals(t, f, s, t[p])
  {
    forall c {:trigger f[c]} | c in f && f[c].bin == s.bin
      ensures f[c].rank < s.rank ==> t[c] > t[p]
      ensures f[c].rank >= s.rank ==> f[c].rank > s.rank && t[c] <= t[p]
    {
      BetweenIs(m, f, p, bk, fd, s, c);
    }
    BinnedInsert(t, f, p, s);
  }

  /** Place chunk `p` of size `s` in its bin, in size order, ahead of others of the same size. */
  method Frontlink(m: Mem, bb: nat, p: int, s: int, ghost t: Tile, ghost f: Free)
    returns (m': Mem, bb': nat, ghost f': Free)
    requires CanFrontlink(m, bb, t, f, p) && s == t[p]
    ensures Lists(m', f') && Binned(t, f') && Marks(bb', f')
    ensures p in f' && f' == f[p := f'[p]] && InFront(t, f, s, f'[p])
    ensures LinkWords(m, m', f.Keys + {p})
  {
    BinIndexRange(s);
    var bk, fd;
    bk, fd, bb' := FindSpot(m, bb, s, t, f);
    ghost var slot := Slot(BinIndex(s), Between(f, bk, fd));
    SpotBinned(m, bb, t, f, p, bk, fd, slot);
    MarksInsert(bb', f, p, slot);
    InsertAll(m, f, p, bk, fd, slot);
    m' := InsertMem(m, p, bk, fd);
    f' := f[p := slot];
  }

  // ----- best fit -----

  /** `v` is a smallest chunk of size at least `nb` in the bins, and of those the one that has been there longest; the
      last remainder is not in a bin. */
  ghost predicate BestFit(t: Tile, f: Free, v: int, nb: int) {
    && v in f && v in t && f[v].bin != LR && nb <= t[v] && LastOfSize(t, f, v)
    && (forall c {:trigger f[c]} :: c in f && c in t && f[c].bin != LR && nb <= t[c] ==> t[v] <= t[c])
  }

  /** Nothing in the bins below `i` is large enough. */
  ghost predicate TooSmallBelow(t: Tile, f: Free, i: int, nb: int) {
    forall c {:trigger f[c]} :: c in f && c in t && f[c].bin != LR && f[c].bin < i ==> t[c] < nb
  }

  /** `v` is the smallest chunk of bin `i` that is large enough, if there is one. */
  ghost predicate FoundIn(t: Tile, f: Free, i: int, nb: int, v: int) {
    if v == BinAt(i) then
      forall c {:trigger f[c]} :: c in f && c in t && f[c].bin == i ==> t[c] < nb
    else
      && v in f && v in t && f[v].bin == i && nb <= t[v] && LastOfSize(t, f, v)
      && (forall c {:trigger f[c]} :: c in f && c in t && f[c].bin == i && nb <= t[c] ==> t[v] <= t[c])
  }

  lemma FoundIsBest(t: Tile, f: Free, i: int, nb: int, v: int)
    requires Binned(t, f) && TooSmallBelow(t, f, i, nb) && FoundIn(t, f, i, nb, v) && 2 <= i < NAV && 0 <= nb
    ensures v != BinAt(i) ==> BestFit(t, f, v, nb)
    ensures v == BinAt(i) ==> TooSmallBelow(t, f, i + 1, nb)
  {
    if v != BinAt(i) {
      forall c {:trigger f[c]} | c in f && c in t && f[c].bin != LR && nb <= t[c] ensures t[v] <= t[c] {
        assert RightBin(f[c].bin, t[c]) && RightBin(f[v].bin, t[v]);
        if t[c] < t[v] { BinIndexMonotone(t[c], t[v]); }
      }
    }
  }

  lemma BelowOwnBin(t: Tile, f: Free, nb: int)
    requires Binned(t, f) && 0 <= nb
    ensures TooSmallBelow(t, f, BinIndex(nb), nb)
  {
    forall c {:trigger f[c]} | c in f && c in t && f[c].bin != LR && f[c].bin < BinIndex(nb) ensures t[c] < nb {
      assert RightBin(f[c].bin, t[c]);
      if nb <= t[c] { BinIndexMonotone(nb, t[c]); }
    }
  }

  /** The chunks up to node `n`, following bk. */
  ghost function Preceding(f: Free, n: int): set<int> { set c | c in f && UpTo(f, c, n) }

  /** The search loop over one bin, from its small end. */
  method FindInBin(m: Mem, i: int, nb: int, ghost t: Tile, ghost f: Free) returns (victim: int)
    requires Lists(m, f) && Readable(m, t, f) && Binned(t, f) && 1 <= i < NAV
    ensures FoundIn(t, f, i, nb, victim)
  {
    victim := Bk(m, BinAt(i));
    LastIsSmallest(m, t, f, i, nb);
    while victim != BinAt(i) && ChunkSize(m, victim) < nb
      invariant Node(f, victim) && HeadOf(f, victim) == BinAt(i) && SmallAfter(t, f, i, nb, victim)
      decreases Preceding(f, victim)
    {
      ghost var was := victim;
      victim := Bk(m, victim);
      StepBack(m, t, f, i, nb, was, victim);
    }
    FindDone(m, t, f, i, nb, victim);
  }

  /** Whatever comes after node `n` in bin `i` is too small. */
  ghost predicate SmallAfter(t: Tile, f: Free, i: int, nb: int, n: int) {
    forall c {:trigger f[c]} :: c in f && c in t && f[c].bin == i && !UpTo(f, c, n) ==> t[c] < nb
  }

  lemma LastIsSmallest(m: Mem, t: Tile, f: Free, i: int, nb: int)
    requires Lists(m, f) && 1 <= i < NAV
    ensures SmallAfter(t, f, i, nb, Bk(m, BinAt(i)))
  {
    assert forall c {:trigger f[c]} :: c in f && f[c].bin == i ==> UpTo(f, c, Bk(m, BinAt(i)));
  }

  lemma SizeRead(m: Mem, t: Tile, f: Free, c: int)
    requires Readable(m, t, f) && c in f
    ensures AddrOk(m, c) && c in t && ChunkSize(m, c) == t[c]
  {
    assert SizeOk(m, t, f, c);
    Flag(Head(m, c), t[c]);
  }

  lemma StepBack(m: Mem, t: Tile, f: Free, i: int, nb: int, was: int, v: int)
    requires Lists(m, f) && Readable(m, t, f) && Binned(t, f) && 1 <= i < NAV
    requires was in f && f[was].bin == i && v == Bk(m, was) && ChunkSize(m, was) < nb
    requires SmallAfter(t, f, i, nb, was)
    ensures SmallAfter(t, f, i, nb, v)
    ensures Preceding(f, v) < Preceding(f, was)
  {
    SizeRead(m, t, f, was);
    forall c {:trigger f[c]} | c in f && c in t && f[c].bin == i && !UpTo(f, c, v) ensures t[c] < nb {
      assert Ranked(f, c, was);
      assert UpTo(f, c, was) ==> c == was || Before(f, c, was);
    }
    StepBackFewer(m, f, was, v);
  }

  lemma StepBackFewer(m: Mem, f: Free, was: int, v: int)
    requires Lists(m, f) && was in f && v == Bk(m, was)
    ensures Preceding(f, v) < Preceding(f, was)
  {
    assert UpTo(f, was, was);
    assert v in f ==> Before(f, v, was);
    assert was in Preceding(f, was) && was !in Preceding(f, v);
    assert forall c :: c in Preceding(f, v) ==> c in Preceding(f, was);
  }

  lemma FindDone(m: Mem, t: Tile, f: Free, i: int, nb: int, v: int)
    requires Lists(m, f) && Readable(m, t, f) && Binned(t, f) && 1 <= i < NAV
    requires Node(f, v) && HeadOf(f, v) == BinAt(i) && (v in f ==> ChunkSize(m, v) >= nb)
    requires SmallAfter(t, f, i, nb, v)
    ensures FoundIn(t, f, i, nb, v)
  {
    if v in f {
      SizeRead(m, t, f, v);
      forall c {:trigger f[c]} | c in f && c in t && f[c].bin == i && nb <= t[c] ensures t[v] <= t[c] {
        assert UpTo(f, c, v);
        assert Ranked(f, c, v);
        assert c != v ==> Before(f, c, v);
      }
    }
  }

  // ----- scanning the bins, block by block -----

  ghost predicate NoneIn(f: Free, lo: int, hi: int) {
    forall c {:trigger f[c]} :: c in f ==> !(lo <= f[c].bin < hi)
  }

  /** Where a scan for `nb` may start: the bins below cannot serve it, and if the scan starts
      at the own bin of `nb`, it succeeds there. */
  ghost predicate ScanFrom(t: Tile, f: Free, i: int, nb: int) {
    && 4 <= i < NAV && 0 <= nb && BinIndex(nb) <= i && TooSmallBelow(t, f, i, nb)
    && (i == BinIndex(nb) ==> exists c {:trigger f[c]} :: c in f && c in t && f[c].bin == i && nb <= t[c])
  }

  /** Past its own bin, a bin without a large enough chunk is empty. */
  lemma NotFoundEmpty(t: Tile, f: Free, i: int, nb: int)
    requires Binned(t, f) && ScanFrom(t, f, i, nb) && FoundIn(t, f, i, nb, BinAt(i))
    ensures BinIndex(nb) < i && NoneIn(f, i, i + 1) && TooSmallBelow(t, f, i + 1, nb)
  {
    forall c {:trigger f[c]} | c in f ensures f[c].bin != i {
      assert RightBin(f[c].bin, t[c]);
      if t[c] < nb { BinIndexMonotone(t[c], nb); }
    }
  }

  lemma HeadAloneEmpty(m: Mem, f: Free, i: int)
    requires Lists(m, f) && 1 <= i < NAV
    ensures AddrOk(m, BinAt(i)) && (Fd(m, BinAt(i)) == BinAt(i) ==> NoneIn(f, i, i + 1))
  {
    if Fd(m, BinAt(i)) == BinAt(i) {
      assert Bk(m, BinAt(i)) == BinAt(i);
      forall c {:trigger f[c]} | c in f ensures f[c].bin != i {
        assert f[c].bin == i ==> UpTo(f, c, Bk(m, BinAt(i)));
      }
    }
  }

  /** The bins from `i` to the end of its block. Returns the end of the block if none of them helps. */
  method ScanBlock(m: Mem, i: int, nb: int, ghost t: Tile, ghost f: Free) returns (victim: int, idx: int)
    requires Lists(m, f) && Readable(m, t, f) && Binned(t, f) && ScanFrom(t, f, i, nb)
    ensures victim != 0 ==> BestFit(t, f, victim, nb)
    ensures victim == 0 ==>
      idx == i / 4 * 4 + 4 && NoneIn(f, i, idx) && TooSmallBelow(t, f, idx, nb) && BinIndex(nb) < idx
  {
    idx := i;
    while true
      invariant i <= idx < i / 4 * 4 + 4 && ScanFrom(t, f, idx, nb) && NoneIn(f, i, idx)
      decreases i / 4 * 4 + 4 - idx
    {
      victim := FindInBin(m, idx, nb, t, f);
      ScannedBin(m, t, f, idx, nb, victim);
      if victim != BinAt(idx) {
        return;
      }
      NoneInMore(f, i, idx);
      idx := idx + 1;
      if idx % BINBLOCKWIDTH == 0 { break; }
    }
    victim := 0;
  }

  lemma VictimNotNull(m: Mem, f: Free, v: int)
    requires Placed(m, f) && v in f
    ensures v != 0
  {
    assert ARENA <= v && f[v].bin >= 1;
  }

  /** What the search of a bin says. */
  lemma ScannedBin(m: Mem, t: Tile, f: Free, i: int, nb: int, victim: int)
    requires Lists(m, f) && Binned(t, f) && ScanFrom(t, f, i, nb) && FoundIn(t, f, i, nb, victim)
    ensures victim != BinAt(i) ==> victim != 0 && BestFit(t, f, victim, nb)
    ensures victim == BinAt(i) ==> BinIndex(nb) < i && NoneIn(f, i, i + 1) && TooSmallBelow(t, f, i + 1, nb)
  {
    if victim != BinAt(i) {
      FoundIsBest(t, f, i, nb, victim);
      VictimNotNull(m, f, victim);
    } else {
      NotFoundEmpty(t, f, i, nb);
    }
  }

  lemma NoneInMore(f: Free, i: int, k: int)
    requires NoneIn(f, i, k) && NoneIn(f, k, k + 1)
    ensures NoneIn(f, i, k + 1)
  {}

  /** Backtrack over the bins below `startidx`; clear the block's bit if all its bins are empty. */
  method ClearBlock(m: Mem, bb: nat, startidx: int, ghost idx: int, ghost f: Free) returns (bb': nat)
    requires Lists(m, f) && Marks(bb, f) && 4 <= startidx < NAV
    requires idx == startidx / 4 * 4 + 4 && NoneIn(f, startidx, idx)
    ensures Marks(bb', f) && bb' <= bb
  {
    var i := startidx;
    bb' := bb;
    while true
      invariant startidx / 4 * 4 <= i <= startidx && NoneIn(f, i, idx) && bb' == bb
      decreases i
    {
      if i % BINBLOCKWIDTH == 0 {
        BlockEmpty(bb, f, i, idx);
        bb' := ClearBit(bb, i / 4);
        break;
      }
      i := i - 1;
      HeadAloneEmpty(m, f, i);
      if Fd(m, BinAt(i)) != BinAt(i) { break; }
    }
  }

  lemma BlockEmpty(bb: nat, f: Free, i: int, idx: int)
    requires Marks(bb, f) && 4 <= i < NAV && i % 4 == 0 && idx == i + 4 && NoneIn(f, i, idx)
    ensures Marks(ClearBit(bb, i / 4), f) && ClearBit(bb, i / 4) <= bb
  {
    ClearBitBound(bb, i / 4);
    forall c | c in f && f[c].bin != LR ensures f[c].bin / 4 != i / 4 {
      assert !(i <= f[c].bin < idx);
    }
    ClearKeeps(bb, f, i);
  }

  /** The bits from `b`, that of the block of bin `i`, on: the first one that is set. */
  method NextBlock(bb: nat, i: int, b: nat, nb: int, ghost t: Tile, ghost f: Free) returns (idx: int, block: nat)
    requires Marks(bb, f) && 4 <= i < NAV && i % 4 == 0 && b == BlockBit(i) && b <= bb
    requires TooSmallBelow(t, f, i, nb)
    ensures i <= idx < NAV && idx % 4 == 0 && block == BlockBit(idx) && block <= bb && TooSmallBelow(t, f, idx, nb)
  {
    idx, block := i, b;
    while !BitOf(bb, idx / BINBLOCKWIDTH)
      invariant i <= idx < NAV && idx % 4 == 0 && block == BlockBit(idx) && block <= bb && TooSmallBelow(t, f, idx, nb)
      decreases NAV - idx
    {
      SkipBlock(bb, t, f, idx, nb);
      idx := idx + BINBLOCKWIDTH;
      block := 2 * block % WORD;
    }
  }

  lemma SkipBlock(bb: nat, t: Tile, f: Free, i: int, nb: int)
    requires Marks(bb, f) && 0 <= i < NAV && TooSmallBelow(t, f, i, nb)
    requires BlockBit(i) <= bb && !BitOf(bb, i / 4)
    ensures var j := i / 4 * 4 + 4;
      j < NAV && 2 * BlockBit(i) % WORD == BlockBit(j) && BlockBit(j) <= bb && TooSmallBelow(t, f, j, nb)
  {
    SkipClear(bb, i / 4);
    WordIsPow2();
    forall c {:trigger f[c]} | c in f && c in t && f[c].bin != LR && f[c].bin < i / 4 * 4 + 4 ensures t[c] < nb {
      if i <= f[c].bin { NotInClear(bb, f, i, c); }
    }
  }

  /** Nothing in the bins is large enough. */
  ghost predicate NoneFits(t: Tile, f: Free, nb: int) { TooSmallBelow(t, f, NAV, nb) }

  lemma NothingLeft(bb: nat, t: Tile, f: Free, i: int, nb: int)
    requires Marks(bb, f) && 0 <= i <= NAV && TooSmallBelow(t, f, i, nb) && (i < NAV ==> BlockBit(i) > bb)
    ensures NoneFits(t, f, nb)
  {
    forall c {:trigger f[c]} | c in f && c in t && f[c].bin != LR && f[c].bin < NAV ensures t[c] < nb {
      if i < NAV { AllBelow(bb, f, i, c); }
    }
  }

  /** Shifting the block bit; after the last block it leaves the word. */
  lemma ShiftBlock(i: int, j: int)
    requires 0 <= i < NAV && j == i / 4 * 4 + 4
    ensures 2 * BlockBit(i) % WORD == if j < NAV then BlockBit(j) else 0
  {
    assert j / 4 == i / 4 + 1;
    WordIsPow2();
    Pow2Monotone(j / 4, 32);
    if j < NAV { Pow2Monotone(j / 4, 31); }
  }

  /** The search for the best fitting chunk, by blocks of bins. */
  method ScanBins(m: Mem, bb: nat, i: int, nb: int, ghost t: Tile, ghost f: Free) returns (victim: int, bb': nat)
    requires Lists(m, f) && Readable(m, t, f) && Binned(t, f) && Marks(bb, f) && ScanFrom(t, f, i, nb)
    ensures Marks(bb', f) && bb' <= bb
    ensures if victim != 0 then BestFit(t, f, victim, nb) else NoneFits(t, f, nb)
  {
    var idx := i;
    var block := BlockBit(i);
    bb' := bb;
    if block > bb' {
      NothingLeft(bb, t, f, i, nb);
      return 0, bb';
    }
    if !BitOf(bb', idx / BINBLOCKWIDTH) {
      SkipBlock(bb', t, f, idx, nb);
      idx, block := NextBlock(bb', idx / 4 * 4 + BINBLOCKWIDTH, 2 * block % WORD, nb, t, f);
    }
    while true
      invariant Marks(bb', f) && bb' <= bb && ScanFrom(t, f, idx, nb) && block == BlockBit(idx)
      decreases NAV - idx
    {
      var startidx := idx;
      victim, idx := ScanBlock(m, idx, nb, t, f);
      if victim != 0 { return; }
      bb' := ClearBlock(m, bb', startidx, idx, f);
      var more;
      more, idx, block := AfterBlock(bb', startidx, idx, block, nb, t, f);
      if !more { return; }
    }
  }

  /** On to the next block of which the bit is set, if there is one. */
  method AfterBlock(bb: nat, ghost startidx: int, i: int, b: nat, nb: int, ghost t: Tile, ghost f: Free)
    returns (more: bool, idx: int, block: nat)
    requires Marks(bb, f) && 0 <= startidx < NAV && b == BlockBit(startidx) && i == startidx / 4 * 4 + 4 && 4 <= i
    requires 0 <= nb && TooSmallBelow(t, f, i, nb) && BinIndex(nb) < i
    ensures if more then i <= idx && ScanFrom(t, f, idx, nb) && block == BlockBit(idx) else NoneFits(t, f, nb)
  {
    idx, block := i, 2 * b % WORD;
    ShiftBlock(startidx, i);
    more := block <= bb && block != 0;
    if more {
      idx, block := NextBlock(bb, idx, block, nb, t, f);
    } else {
      NothingLeft(bb, t, f, idx, nb);
    }
  }
}
