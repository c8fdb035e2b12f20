/** The bins: 128 circular doubly linked lists of free chunks, threaded through the
    fd and bk words of the chunks and of the bin headers. */
module Bins {
  import opened Chunks

  const NAV := 128
  const LR := 1            // the bin of `last_remainder`

  /** A free chunk's bin, and its place there: `fd` leads to higher ranks. */
  datatype Slot = Slot(bin: int, rank: real)
  type Free = map<int, Slot>

  function BinAt(i: int): int { AV + 8 * i }

  function BinIndex(sz: int): (i: int)
    requires 0 <= sz
  {
    var b := sz / 512;
    if b == 0 then sz / 8
    else if b <= 4 then 56 + sz / 64
    else if b <= 20 then 91 + sz / 512
    else if b <= 84 then 110 + sz / 4096
    else if b <= 340 then 119 + sz / 32768
    else if b <= 1364 then 124 + sz / 262144
    else 126
  }

  lemma BinIndexMonotone(s: int, u: int)
    requires 0 <= s <= u
    ensures BinIndex(s) <= BinIndex(u)
  {}

  lemma BinIndexSmall(s: int, u: int)
    requires 0 <= s && 0 <= u && s % 8 == 0 && u % 8 == 0 && BinIndex(s) == BinIndex(u) < 64
    ensures s == u < 512
  {}

  /** The smallest size in bin i: 64 bins of width 8, 32 of width 64, 16 of width 512, and then fewer, wider ones. */
  function BinStart(i: int): int {
    if i <= 64 then 8 * i
    else if i <= 96 then 512 + 64 * (i - 64)
    else if i <= 112 then 2560 + 512 * (i - 96)
    else if i <= 120 then 12288 + 4096 * (i - 113)
    else if i <= 124 then 65536 + 32768 * (i - 121)
    else 262144 * (i - 124)
  }

  lemma BinLimits(s: int, i: int)
    requires 0 <= s && 0 <= i < NAV - 1
    ensures BinIndex(s) == i <==> BinStart(i) <= s && (i == NAV - 2 || s < BinStart(i + 1))
  {
    var j := BinIndex(s);
    StartsBelow(s);
    if i < j { StartsAscend(i + 1, j); } else if j < i { StartsAscend(j + 1, i); }
  }

  lemma StartsBelow(s: int)
    requires 0 <= s
    ensures var i := BinIndex(s); 0 <= i < NAV - 1 && BinStart(i) <= s && (i == NAV - 2 || s < BinStart(i + 1))
  {
    if s < 2560 { StartsNarrow(s); } else if s < 43520 { StartsMiddle(s); } else { StartsWide(s); }
  }

  lemma StartsNarrow(s: int)
    requires 0 <= s < 2560
    ensures var i := BinIndex(s); 0 <= i < 96 && BinStart(i) <= s < BinStart(i + 1)
  {}

  lemma StartsMiddle(s: int)
    requires 2560 <= s < 43520
    ensures var i := BinIndex(s); 96 <= i <= 120 && BinStart(i) <= s < BinStart(i + 1)
  {}

  lemma StartsWide(s: int)
    requires 43520 <= s
    ensures var i := BinIndex(s); 120 <= i < NAV - 1 && BinStart(i) <= s && (i == NAV - 2 || s < BinStart(i + 1))
  {}

  lemma StartsAscend(i: int, j: int)
    requires 0 <= i <= j < NAV - 1
    ensures BinStart(i) <= BinStart(j)
  {}

  lemma BinIndexRange(s: int)
    requires MINSIZE <= s
    ensures 2 <= BinIndex(s) < NAV - 1
  {}

  function Fd(m: Mem, n: int): int requires AddrOk(m, n) { m[n + 8] }
  function Bk(m: Mem, n: int): int requires AddrOk(m, n) { m[n + 12] }

  function SetFd(m: Mem, n: int, v: int): (r: Mem)
    requires AddrOk(m, n)
    ensures |r| == |m|
    ensures forall h {:trigger Fd(r, h)} :: AddrOk(m, h) ==> Fd(r, h) == if h == n then v else Fd(m, h)
    ensures forall h {:trigger Bk(r, h)} :: AddrOk(m, h) ==> Bk(r, h) == Bk(m, h)
  { m[n + 8 := v] }

  function SetBk(m: Mem, n: int, v: int): (r: Mem)
    requires AddrOk(m, n)
    ensures |r| == |m|
    ensures forall h {:trigger Bk(r, h)} :: AddrOk(m, h) ==> Bk(r, h) == if h == n then v else Bk(m, h)
    ensures forall h {:trigger Fd(r, h)} :: AddrOk(m, h) ==> Fd(r, h) == Fd(m, h)
  { m[n + 12 := v] }

  // ----- lists -----

  ghost predicate IsHead(n: int) { n % 8 == 0 && BinAt(1) <= n < BinAt(NAV) }
  ghost predicate Node(f: Free, n: int) { IsHead(n) || n in f }
  /** The header of the list that node `n` is on. */
  ghost function HeadOf(f: Free, n: int): int { if n in f then BinAt(f[n].bin) else n }

  ghost predicate Placed(m: Mem, f: Free) {
    && ARENA <= |m|
    && (forall c {:trigger f[c]} :: c in f ==> AddrOk(m, c) && ARENA <= c && 1 <= f[c].bin < NAV)
  }

  /** Every node's neighbours are nodes of the same list, and point back. */
  ghost predicate Links(m: Mem, f: Free)
    requires Placed(m, f)
  {
    && (forall n {:trigger Fd(m, n)} :: Node(f, n) ==>
          Node(f, Fd(m, n)) && HeadOf(f, Fd(m, n)) == HeadOf(f, n) && Bk(m, Fd(m, n)) == n)
    && (forall n {:trigger Bk(m, n)} :: Node(f, n) ==>
          Node(f, Bk(m, n)) && HeadOf(f, Bk(m, n)) == HeadOf(f, n) && Fd(m, Bk(m, n)) == n)
  }

  ghost predicate Before(f: Free, c: int, d: int) {
    c in f && d in f && f[c].bin == f[d].bin && f[c].rank < f[d].rank
  }

  /** Chunk `c` of the bin of `n` comes no later than node `n`; a header counts as the end. */
  ghost predicate UpTo(f: Free, c: int, n: int) {
    c in f && n in f && f[c].bin == f[n].bin && f[c].rank <= f[n].rank
  }

  ghost predicate Ranked(f: Free, c: int, d: int) {
    c in f && d in f && c != d && f[c].bin == f[d].bin ==> f[c].rank != f[d].rank
  }

  /** Ranks are the order of each list: following `bk` visits all earlier chunks. */
  ghost predicate Order(m: Mem, f: Free)
    requires Placed(m, f)
  {
    && (forall c, d {:trigger Ranked(f, c, d)} :: Ranked(f, c, d))
    && (forall d {:trigger Bk(m, d)} :: d in f && Bk(m, d) in f ==> Before(f, Bk(m, d), d))
    && (forall c, d {:trigger UpTo(f, c, Bk(m, d))} :: Before(f, c, d) ==> UpTo(f, c, Bk(m, d)))
    && (forall c, h {:trigger UpTo(f, c, Bk(m, h))} :: c in f && IsHead(h) && BinAt(f[c].bin) == h ==>
        UpTo(f, c, Bk(m, h)))
  }

  ghost predicate Lists(m: Mem, f: Free) { Placed(m, f) && Links(m, f) && Order(m, f) }

  // ----- unlink -----

  function UnlinkMem(m: Mem, p: int): (r: Mem)
    requires AddrOk(m, p) && AddrOk(m, Fd(m, p)) && AddrOk(m, Bk(m, p))
    ensures |r| == |m|
  { SetFd(SetBk(m, Fd(m, p), Bk(m, p)), Bk(m, p), Fd(m, p)) }

  lemma UnlinkReads(m: Mem, f: Free, p: int, n: int)
    requires Placed(m, f) && Links(m, f) && p in f && AddrOk(m, n)
    ensures AddrOk(m, Fd(m, p)) && AddrOk(m, Bk(m, p))
    ensures Fd(UnlinkMem(m, p), n) == if n == Bk(m, p) then Fd(m, p) else Fd(m, n)
    ensures Bk(UnlinkMem(m, p), n) == if n == Fd(m, p) then Bk(m, p) else Bk(m, n)
  {
  }

  lemma UnlinkFd(m: Mem, f: Free, p: int, n: int)
    requires Placed(m, f) && Links(m, f) && p in f && Node(f - {p}, n)
    ensures AddrOk(m, Fd(m, p)) && AddrOk(m, Bk(m, p)) && AddrOk(m, n)
    ensures var m', f', nf := UnlinkMem(m, p), f - {p}, Fd(UnlinkMem(m, p), n);
      Node(f', nf) && HeadOf(f', nf) == HeadOf(f', n) && AddrOk(m', nf) && Bk(m', nf) == n
  {
    UnlinkReads(m, f, p, n);
    UnlinkReads(m, f, p, if n == Bk(m, p) then Fd(m, p) else Fd(m, n));
  }

  lemma UnlinkBk(m: Mem, f: Free, p: int, n: int)
    requires Placed(m, f) && Links(m, f) && p in f && Node(f - {p}, n)
    ensures AddrOk(m, Fd(m, p)) && AddrOk(m, Bk(m, p)) && AddrOk(m, n)
    ensures var m', f', nb := UnlinkMem(m, p), f - {p}, Bk(UnlinkMem(m, p), n);
      Node(f', nb) && HeadOf(f', nb) == HeadOf(f', n) && AddrOk(m', nb) && Fd(m', nb) == n
  {
    UnlinkReads(m, f, p, n);
    UnlinkReads(m, f, p, if n == Fd(m, p) then Bk(m, p) else Bk(m, n));
  }

  lemma UnlinkLinks(m: Mem, f: Free, p: int)
    requires Placed(m, f) && Links(m, f) && p in f
    ensures AddrOk(m, Fd(m, p)) && AddrOk(m, Bk(m, p))
    ensures Placed(UnlinkMem(m, p), f - {p})
    ensures Links(UnlinkMem(m, p), f - {p})
  {
    var m', f' := UnlinkMem(m, p), f - {p};
    assert forall c {:trigger f'[c]} :: c in f' ==> f'[c] == f[c];
    forall n | Node(f', n)
      ensures Node(f', Fd(m', n)) && HeadOf(f', Fd(m', n)) == HeadOf(f', n) && Bk(m', Fd(m', n)) == n
      ensures Node(f', Bk(m', n)) && HeadOf(f', Bk(m', n)) == HeadOf(f', n) && Fd(m', Bk(m', n)) == n
    {
      UnlinkFd(m, f, p, n);
      UnlinkBk(m, f, p, n);
    }
  }

  lemma UnlinkOrder(m: Mem, f: Free, p: int)
    requires Lists(m, f) && p in f
    ensures AddrOk(m, Fd(m, p)) && AddrOk(m, Bk(m, p)) && Placed(UnlinkMem(m, p), f - {p})
    ensures Order(UnlinkMem(m, p), f - {p})
  {
    UnlinkLinks(m, f, p);
    var m', f' := UnlinkMem(m, p), f - {p};
    forall c, d ensures Ranked(f', c, d) { assert Ranked(f, c, d); }
    forall d {:trigger Bk(m', d)} | Node(f', d)
      ensures d in f' && Bk(m', d) in f' ==> Before(f', Bk(m', d), d)
    {
      UnlinkReads(m, f, p, d);
    }
    forall c, d {:trigger UpTo(f', c, Bk(m', d))} | Before(f', c, d) ensures UpTo(f', c, Bk(m', d)) {
      UnlinkUpTo(m, f, p, c, d);
    }
    forall c, h {:trigger UpTo(f', c, Bk(m', h))} | c in f' && IsHead(h) && BinAt(f'[c].bin) == h
      ensures UpTo(f', c, Bk(m', h))
    {
      UnlinkUpTo(m, f, p, c, h);
    }
  }

  lemma UnlinkUpTo(m: Mem, f: Free, p: int, c: int, d: int)
    requires Lists(m, f) && p in f && c in f && c != p && AddrOk(m, d)
    requires Before(f, c, d) || (IsHead(d) && BinAt(f[c].bin) == d)
    ensures AddrOk(m, Fd(m, p)) && AddrOk(m, Bk(m, p))
    ensures UpTo(f - {p}, c, Bk(UnlinkMem(m, p), d))
  {
    UnlinkReads(m, f, p, d);
    assert UpTo(f, c, Bk(m, d));
    if d == Fd(m, p) {
      assert Ranked(f, c, p);
      assert UpTo(f, c, Bk(m, p));
    }
  }

  // ----- insert p between neighbours bk and fd -----

  function InsertMem(m: Mem, p: int, bk: int, fd: int): (r: Mem)
    requires AddrOk(m, p) && AddrOk(m, bk) && AddrOk(m, fd)
    ensures |r| == |m|
  { SetBk(SetFd(SetFd(SetBk(m, p, bk), p, fd), bk, p), fd, p) }

  ghost predicate Gap(m: Mem, f: Free, p: int, bk: int, fd: int)
    requires Placed(m, f)
  {
    && AddrOk(m, p) && ARENA <= p && p !in f
    && Node(f, bk) && Node(f, fd) && Fd(m, bk) == fd
  }

  lemma InsertReads(m: Mem, f: Free, p: int, bk: int, fd: int, n: int)
    requires Placed(m, f) && Links(m, f) && Gap(m, f, p, bk, fd) && AddrOk(m, n)
    ensures AddrOk(m, bk) && AddrOk(m, fd)
    ensures Fd(InsertMem(m, p, bk, fd), n) == if n == bk then p else if n == p then fd else Fd(m, n)
    ensures Bk(InsertMem(m, p, bk, fd), n) == if n == fd then p else if n == p then bk else Bk(m, n)
  {
  }

  lemma InsertLinks(m: Mem, f: Free, p: int, bk: int, fd: int, s: Slot)
    requires Placed(m, f) && Links(m, f) && Gap(m, f, p, bk, fd)
    requires 1 <= s.bin < NAV && HeadOf(f, bk) == BinAt(s.bin)
    ensures AddrOk(m, bk) && AddrOk(m, fd)
    ensures Placed(InsertMem(m, p, bk, fd), f[p := s])
    ensures Links(InsertMem(m, p, bk, fd), f[p := s])
  {
    var m', f' := InsertMem(m, p, bk, fd), f[p := s];
    forall n | Node(f', n)
      ensures Node(f', Fd(m', n)) && HeadOf(f', Fd(m', n)) == HeadOf(f', n) && Bk(m', Fd(m', n)) == n
      ensures Node(f', Bk(m', n)) && HeadOf(f', Bk(m', n)) == HeadOf(f', n) && Fd(m', Bk(m', n)) == n
    {
      InsertFd(m, f, p, bk, fd, s, n);
      InsertBk(m, f, p, bk, fd, s, n);
    }
  }

  lemma InsertFd(m: Mem, f: Free, p: int, bk: int, fd: int, s: Slot, n: int)
    requires Placed(m, f) && Links(m, f) && Gap(m, f, p, bk, fd)
    requires 1 <= s.bin < NAV && HeadOf(f, bk) == BinAt(s.bin)
    requires Node(f[p := s], n)
    ensures AddrOk(m, bk) && AddrOk(m, fd) && AddrOk(m, n)
    ensures var m', f', nf := InsertMem(m, p, bk, fd), f[p := s], Fd(InsertMem(m, p, bk, fd), n);
      Node(f', nf) && HeadOf(f', nf) == HeadOf(f', n) && AddrOk(m', nf) && Bk(m', nf) == n
  {
    InsertReads(m, f, p, bk, fd, n);
    if n == bk { InsertReads(m, f, p, bk, fd, p); }
    else if n == p { InsertReads(m, f, p, bk, fd, fd); }
    else { InsertReads(m, f, p, bk, fd, Fd(m, n)); }
  }

  lemma InsertBk(m: Mem, f: Free, p: int, bk: int, fd: int, s: Slot, n: int)
    requires Placed(m, f) && Links(m, f) && Gap(m, f, p, bk, fd)
    requires 1 <= s.bin < NAV && HeadOf(f, bk) == BinAt(s.bin)
    requires Node(f[p := s], n)
    ensures AddrOk(m, bk) && AddrOk(m, fd) && AddrOk(m, n)
    ensures var m', f', nb := InsertMem(m, p, bk, fd), f[p := s], Bk(InsertMem(m, p, bk, fd), n);
      Node(f', nb) && HeadOf(f', nb) == HeadOf(f', n) && AddrOk(m', nb) && Fd(m', nb) == n
  {
    InsertReads(m, f, p, bk, fd, n);
    if n == fd { InsertReads(m, f, p, bk, fd, p); }
    else if n == p { InsertReads(m, f, p, bk, fd, bk); }
    else { InsertReads(m, f, p, bk, fd, Bk(m, n)); }
  }

  /** A rank strictly between those of the neighbours. */
  ghost function Between(f: Free, bk: int, fd: int): real {
    if bk in f && fd in f then (f[bk].rank + f[fd].rank) / 2.0
    else if bk in f then f[bk].rank + 1.0
    else if fd in f then f[fd].rank - 1.0
    else 0.0
  }

  lemma BetweenIs(m: Mem, f: Free, p: int, bk: int, fd: int, s: Slot, c: int)
    requires Lists(m, f) && Gap(m, f, p, bk, fd)
    requires 1 <= s.bin < NAV && HeadOf(f, bk) == BinAt(s.bin) && s.rank == Between(f, bk, fd)
    requires c in f && f[c].bin == s.bin
    ensures f[c].rank != s.rank
    ensures f[c].rank < s.rank <==> UpTo(f, c, bk)
    ensures f[c].rank < s.rank <==> (fd !in f || f[c].rank < f[fd].rank)
  {
    assert Bk(m, fd) == bk;
    if fd in f {
      assert Before(f, c, fd) ==> UpTo(f, c, bk);
      assert bk in f ==> Before(f, bk, fd);
    } else {
      assert UpTo(f, c, bk);
    }
  }

  lemma InsertOrder(m: Mem, f: Free, p: int, bk: int, fd: int, s: Slot)
    requires Lists(m, f) && Gap(m, f, p, bk, fd)
    requires 1 <= s.bin < NAV && HeadOf(f, bk) == BinAt(s.bin) && s.rank == Between(f, bk, fd)
    ensures AddrOk(m, bk) && AddrOk(m, fd) && Placed(InsertMem(m, p, bk, fd), f[p := s])
    ensures Order(InsertMem(m, p, bk, fd), f[p := s])
  {
    InsertLinks(m, f, p, bk, fd, s);
    var m', f' := InsertMem(m, p, bk, fd), f[p := s];
    forall c | c in f && f[c].bin == s.bin
      ensures f[c].rank != s.rank
      ensures f[c].rank < s.rank <==> UpTo(f, c, bk)
      ensures f[c].rank < s.rank <==> (fd !in f || f[c].rank < f[fd].rank)
    { BetweenIs(m, f, p, bk, fd, s, c); }
    forall c, d ensures Ranked(f', c, d) { assert Ranked(f, c, d); }
    forall d {:trigger Bk(m', d)} | d in f' && Bk(m', d) in f'
      ensures Before(f', Bk(m', d), d)
    {
      InsertReads(m, f, p, bk, fd, d);
      if d != p && d != fd { assert Before(f, Bk(m, d), d); }
    }
    forall c, d {:trigger UpTo(f', c, Bk(m', d))} | Before(f', c, d) ensures UpTo(f', c, Bk(m', d)) {
      InsertUpTo(m, f, p, bk, fd, s, c, d);
    }
    forall c, h {:trigger UpTo(f', c, Bk(m', h))} | c in f' && IsHead(h) && BinAt(f'[c].bin) == h
      ensures UpTo(f', c, Bk(m', h))
    {
      InsertUpTo(m, f, p, bk, fd, s, c, h);
    }
  }

  lemma InsertUpTo(m: Mem, f: Free, p: int, bk: int, fd: int, s: Slot, c: int, d: int)
    requires Lists(m, f) && Gap(m, f, p, bk, fd)
    requires 1 <= s.bin < NAV && HeadOf(f, bk) == BinAt(s.bin) && s.rank == Between(f, bk, fd)
    requires c in f[p := s] && Node(f[p := s], d)
    requires Before(f[p := s], c, d) || (IsHead(d) && BinAt(f[p := s][c].bin) == d)
    ensures AddrOk(m, bk) && AddrOk(m, fd) && AddrOk(m, d)
    ensures UpTo(f[p := s], c, Bk(InsertMem(m, p, bk, fd), d))
  {
    InsertReads(m, f, p, bk, fd, d);
    if c in f && f[c].bin == s.bin { BetweenIs(m, f, p, bk, fd, s, c); }
    if c != p && d != p && d != fd { assert UpTo(f, c, Bk(m, d)); }
    else if c != p && d == fd { assert UpTo(f, c, Bk(m, fd)); }
    else if c == p && d != fd { InsertAfter(m, f, p, bk, fd, s, d); }
  }

  /** Seen from any later node other than `fd`, the new chunk comes no later than its predecessor. */
  lemma InsertAfter(m: Mem, f: Free, p: int, bk: int, fd: int, s: Slot, d: int)
    requires Lists(m, f) && Gap(m, f, p, bk, fd)
    requires 1 <= s.bin < NAV && HeadOf(f, bk) == BinAt(s.bin) && s.rank == Between(f, bk, fd)
    requires Node(f, d) && HeadOf(f, d) == BinAt(s.bin) && d != fd && (d in f ==> s.rank < f[d].rank)
    ensures Bk(m, d) in f && f[Bk(m, d)].bin == s.bin && s.rank < f[Bk(m, d)].rank
  {
    if d in f { BetweenIs(m, f, p, bk, fd, s, d); }
    assert fd in f;
    if d in f { assert Ranked(f, fd, d); assert Before(f, fd, d); }
    assert UpTo(f, fd, Bk(m, d));
    BetweenIs(m, f, p, bk, fd, s, fd);
  }

  // ----- what list operations leave alone -----

  /** Only words of bin headers and link words of the chunks `f` differ. */
  ghost predicate LinkWords(m: Mem, m': Mem, f: set<int>) {
    && |m'| == |m|
    && (forall x {:trigger m'[x]} :: 0 <= x < |m| && m'[x] != m[x] ==> x < ARENA || x - 8 in f || x - 12 in f)
  }

  lemma UnlinkWords(m: Mem, f: Free, p: int)
    requires Placed(m, f) && Links(m, f) && p in f
    ensures AddrOk(m, Fd(m, p)) && AddrOk(m, Bk(m, p))
    ensures LinkWords(m, UnlinkMem(m, p), f.Keys)
  {}

  lemma InsertWords(m: Mem, f: Free, p: int, bk: int, fd: int)
    requires Placed(m, f) && Links(m, f) && Gap(m, f, p, bk, fd)
    ensures AddrOk(m, bk) && AddrOk(m, fd)
    ensures LinkWords(m, InsertMem(m, p, bk, fd), f.Keys + {p})
  {}

  lemma LinkWordsKeepHeader(m: Mem, m': Mem, t: Tile, base: int, end: int, f: set<int>, h: int)
    requires Tiling(t, base, end) && HeadersAddr(m, t) && h in t
    requires LinkWords(m, m', f) && f <= t.Keys
    ensures AddrOk(m, h) && Head(m', h) == Head(m, h) && Foot(m', h) == Foot(m, h)
  {
    assert t[h] > 0;
    assert forall c :: c in f && c < h ==> c % 8 == 0 && c + 16 <= h by {
      forall c | c in f && c < h ensures c % 8 == 0 && c + 16 <= h { assert t[c] > 0 && Ends(t, c, h); }
    }
    assert forall c :: c in f ==> c % 8 == 0 by {
      forall c | c in f ensures c % 8 == 0 { assert t[c] > 0; }
    }
  }

  /** A word that is part of no link can be changed. */
  lemma HeaderWriteKeepsLists(m: Mem, x: int, v: int, t: Tile, base: int, end: int, f: Free)
    requires Tiling(t, base, end) && f.Keys <= t.Keys && 0 <= x < |m|
    requires x in t || x - 4 in t
    requires x >= ARENA
    requires Lists(m, f)
    ensures Lists(m[x := v], f)
  {
    var m' := m[x := v];
    forall n | Node(f, n) ensures AddrOk(m, n) && Fd(m', n) == Fd(m, n) && Bk(m', n) == Bk(m, n) {
      var h := if x in t then x else x - 4;
      assert t[h] > 0;
      if n in f { assert f[n].bin >= 1 && t[n] > 0 && (n < h ==> Ends(t, n, h)); }
    }
    SameLinks(m, m', f);
  }

  lemma SetHeadKeepsLists(m: Mem, p: int, v: int, t: Tile, base: int, end: int, f: Free)
    requires Tiling(t, base, end) && f.Keys <= t.Keys && p in t && AddrOk(m, p) && ARENA <= p && Lists(m, f)
    ensures Lists(SetHead(m, p, v), f)
  {
    HeaderWriteKeepsLists(m, p + 4, v, t, base, end, f);
  }

  lemma SetFootKeepsLists(m: Mem, p: int, v: int, t: Tile, base: int, end: int, f: Free)
    requires Tiling(t, base, end) && f.Keys <= t.Keys && p in t && AddrOk(m, p) && ARENA <= p && Lists(m, f)
    ensures Lists(SetFoot(m, p, v), f)
  {
    HeaderWriteKeepsLists(m, p, v, t, base, end, f);
  }

  lemma SameLinks(m: Mem, m': Mem, f: Free)
    requires Lists(m, f) && Placed(m', f)
    requires forall n {:trigger Fd(m', n)} {:trigger Bk(m', n)} :: Node(f, n) ==>
      AddrOk(m, n) && Fd(m', n) == Fd(m, n) && Bk(m', n) == Bk(m, n)
    ensures Lists(m', f)
  {
  }

  // ----- sizes: which bin, and in which order -----

  ghost predicate IsLR(f: Free, c: int) { c in f && f[c].bin == LR }

  ghost predicate OneRemainder(f: Free) {
    forall c, d {:trigger IsLR(f, c), IsLR(f, d)} :: IsLR(f, c) && IsLR(f, d) ==> c == d
  }

  ghost predicate RightBin(bin: int, size: int) { 0 <= size && (bin == LR || bin == BinIndex(size)) }

  /** Every chunk but the last remainder is in the bin of its size, the larger ones first. */
  ghost predicate Binned(t: Tile, f: Free) {
    && (forall c {:trigger f[c]} :: c in f ==> c in t && MINSIZE <= t[c])
    && (forall c {:trigger RightBin(f[c].bin, t[c])} :: c in f ==> RightBin(f[c].bin, t[c]))
    && (forall c, d {:trigger Before(f, c, d)} :: Before(f, c, d) ==> c in t && d in t && t[c] >= t[d])
    && OneRemainder(f)
  }

  ghost predicate NoRemainder(f: Free) { forall c {:trigger f[c]} :: c in f ==> f[c].bin != LR }

  lemma BinnedShrinks(t: Tile, f: Free, t': Tile, f': Free)
    requires Binned(t, f)
    requires forall c {:trigger f'[c]} :: c in f' ==> c in f && f'[c] == f[c] && c in t' && c in t && t'[c] == t[c]
    ensures Binned(t', f')
  {
    forall c | c in f' ensures RightBin(f'[c].bin, t'[c]) { assert RightBin(f[c].bin, t[c]); }
    forall c, d | IsLR(f', c) && IsLR(f', d)
      ensures c == d
    {
      assert f'[c] == f[c] && f'[d] == f[d] && IsLR(f, c) && IsLR(f, d);
    }
    forall c, d {:trigger Before(f', c, d)} | Before(f', c, d) ensures c in t' && d in t' && t'[c] >= t'[d] {
      assert f'[c] == f[c] && f'[d] == f[d];
      assert Before(f, c, d);
    }
  }

  lemma BinnedRemainder(t: Tile, f: Free, p: int, r: real)
    requires Binned(t, f) && NoRemainder(f) && p in t && MINSIZE <= t[p]
    ensures Binned(t, f[p := Slot(LR, r)])
  {
    var f' := f[p := Slot(LR, r)];
    forall c | c in f' ensures RightBin(f'[c].bin, t[c]) { if c != p { assert RightBin(f[c].bin, t[c]); } }
    forall c, d {:trigger Before(f', c, d)} | Before(f', c, d) ensures c in t && d in t && t[c] >= t[d] {
      assert About(f'[c]);
      assert c != p && d != p;
      assert Before(f, c, d);
    }
  }

  /** Frontlink keeps its bin sorted. */
  lemma BinnedInsert(t: Tile, f: Free, p: int, s: Slot)
    requires Binned(t, f) && p !in f && p in t && MINSIZE <= t[p] && s.bin == BinIndex(t[p])
    requires forall c {:trigger f[c]} :: c in f && f[c].bin == s.bin ==>
      (f[c].rank < s.rank ==> t[c] >= t[p]) && (f[c].rank > s.rank ==> t[c] <= t[p])
    ensures Binned(t, f[p := s])
  {
    var f' := f[p := s];
    BinIndexRange(t[p]);
    forall c, d | IsLR(f', c) && IsLR(f', d) ensures c == d { assert IsLR(f, c) && IsLR(f, d); }
    forall c | c in f' ensures RightBin(f'[c].bin, t[c]) { if c != p { assert RightBin(f[c].bin, t[c]); } }
    forall c, d {:trigger Before(f', c, d)} | Before(f', c, d) ensures c in t && d in t && t[c] >= t[d] {
      if c != p && d != p { assert Before(f, c, d); }
      else if c != p { assert f[c].bin == s.bin; }
      else if d != p { assert f[d].bin == s.bin; }
    }
  }

  /** In the bins up to 63 all chunks have the same size. */
  lemma SmallBinUniform(t: Tile, f: Free, c: int, sz: int)
    requires MINSIZE <= sz && sz % 8 == 0 && Binned(t, f)
    requires c in f && f[c].bin != LR && f[c].bin == BinIndex(sz) < 64 && c in t && t[c] % 8 == 0
    ensures t[c] == sz
  {
    assert RightBin(f[c].bin, t[c]);
    BinIndexSmall(t[c], sz);
  }

  // ----- the last remainder -----

  ghost function WithoutLR(f: Free): Free { map c | c in f && f[c].bin != LR :: f[c] }

  lemma RemainderList(m: Mem, f: Free)
    requires Lists(m, f) && OneRemainder(f)
    ensures AddrOk(m, BinAt(LR))
    ensures var x := Fd(m, BinAt(LR));
      && Bk(m, BinAt(LR)) == x
      && (x == BinAt(LR) ==> NoRemainder(f) && WithoutLR(f) == f)
      && (x != BinAt(LR) ==> (
            x in f && f[x].bin == LR && AddrOk(m, x) && Fd(m, x) == BinAt(LR) && Bk(m, x) == BinAt(LR)
            && WithoutLR(f) == f - {x}))
  {
    var h := BinAt(LR);
    var x, y := Fd(m, h), Bk(m, h);
    if x == h {
      forall c | c in f ensures f[c].bin != LR { assert f[c].bin == LR ==> UpTo(f, c, y); }
    } else {
      assert x in f && f[x].bin == LR;
      assert UpTo(f, x, y);
      forall c {:trigger f[c]} | c in f && f[c].bin == LR ensures c == x { assert IsLR(f, c) && IsLR(f, x); }
      assert WithoutLR(f) == f - {x};
      assert Bk(m, x) !in f && Fd(m, x) !in f;
    }
  }

  /** A free chunk is the last remainder iff its fd is the header of that bin. */
  lemma IsRemainder(m: Mem, f: Free, p: int)
    requires Lists(m, f) && OneRemainder(f) && p in f
    ensures AddrOk(m, p) && (Fd(m, p) == BinAt(LR) <==> f[p].bin == LR)
  {
    RemainderList(m, f);
    if f[p].bin == LR {
      assert UpTo(f, p, Bk(m, BinAt(LR)));
      assert IsLR(f, p) && IsLR(f, Fd(m, BinAt(LR)));
    }
  }

  // ----- list operations on lists, as a whole -----

  lemma UnlinkAll(m: Mem, f: Free, p: int)
    requires Lists(m, f) && p in f
    ensures AddrOk(m, p) && AddrOk(m, Fd(m, p)) && AddrOk(m, Bk(m, p))
    ensures Lists(UnlinkMem(m, p), f - {p}) && LinkWords(m, UnlinkMem(m, p), f.Keys)
  {
    UnlinkLinks(m, f, p);
    UnlinkOrder(m, f, p);
    UnlinkWords(m, f, p);
  }

  lemma InsertAll(m: Mem, f: Free, p: int, bk: int, fd: int, s: Slot)
    requires Lists(m, f) && Gap(m, f, p, bk, fd)
    requires 1 <= s.bin < NAV && HeadOf(f, bk) == BinAt(s.bin) && s.rank == Between(f, bk, fd)
    ensures AddrOk(m, bk) && AddrOk(m, fd)
    ensures Lists(InsertMem(m, p, bk, fd), f[p := s]) && LinkWords(m, InsertMem(m, p, bk, fd), f.Keys + {p})
  {
    InsertLinks(m, f, p, bk, fd, s);
    InsertOrder(m, f, p, bk, fd, s);
    InsertWords(m, f, p, bk, fd);
  }

  /** `p` takes the place of the last remainder, if there is one. */
  function LinkRemainderMem(m: Mem, p: int): (r: Mem)
    requires AddrOk(m, p) && AddrOk(m, BinAt(LR))
    ensures |r| == |m|
  {
    SetFd(SetBk(SetFd(SetBk(m, BinAt(LR), p), BinAt(LR), p), p, BinAt(LR)), p, BinAt(LR))
  }

  lemma LinkRemainder(m: Mem, f: Free, p: int)
    requires Lists(m, f) && OneRemainder(f)
    requires AddrOk(m, p) && ARENA <= p && p !in f
    ensures AddrOk(m, BinAt(LR))
    ensures Lists(LinkRemainderMem(m, p), WithoutLR(f)[p := Slot(LR, 0.0)])
    ensures LinkWords(m, LinkRemainderMem(m, p), f.Keys + {p})
  {
    var h := BinAt(LR);
    RemainderList(m, f);
    var m1 := EmptiedRemainder(m, f);
    RemainderList(m1, WithoutLR(f));
    InsertLinks(m1, WithoutLR(f), p, h, h, Slot(LR, 0.0));
    InsertOrder(m1, WithoutLR(f), p, h, h, Slot(LR, 0.0));
    assert LinkRemainderMem(m, p) == InsertMem(m1, p, h, h);
  }

  /** clear_last_remainder */
  function ClearRemainderMem(m: Mem): (r: Mem)
    requires AddrOk(m, BinAt(LR))
    ensures |r| == |m|
  { SetFd(SetBk(m, BinAt(LR), BinAt(LR)), BinAt(LR), BinAt(LR)) }

  lemma ClearRemainder(m: Mem, f: Free)
    requires Lists(m, f) && OneRemainder(f)
    ensures AddrOk(m, BinAt(LR))
    ensures Lists(ClearRemainderMem(m), WithoutLR(f)) && NoRemainder(WithoutLR(f))
    ensures LinkWords(m, ClearRemainderMem(m), f.Keys)
  {
    assert ClearRemainderMem(m) == EmptiedRemainder(m, f);
  }

  /** The memory after the last remainder, if any, has been unlinked. */
  ghost function EmptiedRemainder(m: Mem, f: Free): (r: Mem)
    requires Lists(m, f) && OneRemainder(f)
    ensures |r| == |m| && Lists(r, WithoutLR(f)) && NoRemainder(WithoutLR(f))
    ensures r == m[BinAt(LR) + 12 := BinAt(LR)][BinAt(LR) + 8 := BinAt(LR)]
  {
    RemainderList(m, f);
    var x := Fd(m, BinAt(LR));
    if x == BinAt(LR) then
      assert m == m[BinAt(LR) + 12 := BinAt(LR)][BinAt(LR) + 8 := BinAt(LR)];
      m
    else
      UnlinkLinks(m, f, x);
      UnlinkOrder(m, f, x);
      UnlinkMem(m, x)
  }

  lemma SplitSlots(f: Free, v: int)
    requires v in f && OneRemainder(f) && (f[v].bin == LR || NoRemainder(f))
    ensures WithoutLR(if f[v].bin == LR then f else f - {v}) == f - {v} && NoRemainder(f - {v})
  {
    forall c {:trigger f[c]} | c in f && c != v ensures f[c].bin != LR { assert IsLR(f, v) ==> !IsLR(f, c); }
  }
}
