/** doc_decode_ecc: the errors of the code word are corrected in the sector. */
module DocEcc {
  import opened Basics
  import opened Bits
  import opened Fields
  import opened Gf
  import opened Order
  import opened Tables
  import opened Syndromes
  import opened ErrorPatterns
  import opened Decoder


  const SECTOR_SIZE := 512
  const NB_DATA := 411            // symbols that hold data
  const KK := 1019

  /** 1+x^3+x^10 */
  const PP: seq<int> := [1, 0, 0, 1, 0, 0, 0, 0, 0, 0, 1]

  /** The bytes of each pair are swapped; the last byte, without a pair, is not in the sector. */
  function Swap(j: int): int { if j % 2 == 0 then j + 1 else j - 1 }

  /** The first bit of symbol `pos`, counted from the most significant bit of byte 0. */
  function FirstBit(pos: int): int { 10 * (NB_DATA - 1 - pos) - 6 }

  // ----- what a symbol does to the bytes -----

  /** The top bits of the symbol, at the end of the byte that its first bit is in. */
  function UpperPart(val: gf, b: int): byte
    requires b == 0 || b == 2 || b == 4 || b == 6
  { if b == 0 then val / 4 else if b == 2 then val / 16 else if b == 4 then val / 64 else val / 256 }

  /** The other bits, at the beginning of the next byte. */
  function LowerPart(val: gf, b: int): byte
    requires b == 0 || b == 2 || b == 4 || b == 6
  { (if b == 0 then val * 64 else if b == 2 then val * 16 else if b == 4 then val * 4 else val) % 256 }

  lemma EvenOffset(pos: int)
    ensures var b := FirstBit(pos) % 8; b == 0 || b == 2 || b == 4 || b == 6
    ensures pos < NB_DATA && 0 <= pos ==> -1 <= FirstBit(pos) / 8 <= 511
  {
    EvenIn8(FirstBit(pos), 5 * (NB_DATA - 1 - pos) - 3);
  }

  lemma EvenIn8(x: int, h: int)
    requires x == 2 * h
    ensures var b := x % 8; b == 0 || b == 2 || b == 4 || b == 6
  {
    assert x % 8 == 2 * (h % 4) by { assert x == 8 * (h / 4) + 2 * (h % 4); }
  }

  /** What the error does to byte `j`. */
  function ErrByte(pos: int, val: gf, j: int): byte {
    EvenOffset(pos);
    if j == FirstBit(pos) / 8 then UpperPart(val, FirstBit(pos) % 8)
    else if j == FirstBit(pos) / 8 + 1 then LowerPart(val, FirstBit(pos) % 8)
    else 0
  }

  // ----- bits -----

  lemma {:induction false} BitOfXor(a: nat, b: nat, i: nat)
    ensures BitOf(Xor(a, b), i) <==> BitOf(a, i) != BitOf(b, i)
    decreases i
  {
    XorHalves(a, b);
    if i > 0 { BitOfXor(a / 2, b / 2, i - 1); }
  }

  lemma LowByte(x: nat, i: nat)
    requires i < 8
    ensures BitOf(x % 256, i) <==> BitOf(x, i)
  {
    LowestAre(x, 8);
    BitOfLow(x, 8, i);
    assert Pow2(8) == 256;
  }

  // ----- the window of a symbol -----

  /** Bit k of the stream is flipped by the error. */
  predicate Flips(pos: int, val: gf, k: int) {
    var t := k - FirstBit(pos);
    0 <= t < 10 && BitOf(val, 9 - t)
  }

  lemma UpperBits(val: gf, b: int, u: nat)
    requires (b == 0 || b == 2 || b == 4 || b == 6) && u < 8
    ensures BitOf(UpperPart(val, b), 7 - u) <==> b <= u && BitOf(val, 9 + b - u)
  {
    assert Pow2(2) == 4 && Pow2(4) == 16 && Pow2(6) == 64 && Pow2(8) == 256 && Pow2(10) == 1024;
    BitsDown(val, b + 2, 7 - u);
    if u < b { NoHighBits(val, 10, 9 + b - u); }
  }

  lemma LowerBits(val: gf, b: int, u: nat)
    requires (b == 0 || b == 2 || b == 4 || b == 6) && u < 8
    ensures BitOf(LowerPart(val, b), 7 - u) <==> u <= b + 1 && BitOf(val, 1 + b - u)
  {
    assert Pow2(0) == 1 && Pow2(2) == 4 && Pow2(4) == 16 && Pow2(6) == 64;
    BitsUp(val, 6 - b, 7 - u);
    LowByte(val * Pow2(6 - b), 7 - u);
  }

  /** The bytes change in exactly the ten bits of the symbol. */
  lemma WindowBits(pos: int, val: gf, k: int)
    ensures BitOf(ErrByte(pos, val, k / 8), 7 - k % 8) <==> Flips(pos, val, k)
  {
    EvenOffset(pos);
    var q, b, j, u := FirstBit(pos) / 8, FirstBit(pos) % 8, k / 8, k % 8;
    assert k - FirstBit(pos) == 8 * (j - q) + u - b;
    if j == q {
      UpperBits(val, b, u);
    } else if j == q + 1 {
      LowerBits(val, b, u);
    } else {
      NoHighBits(0, 0, 7 - u);
    }
  }

  /** The windows of different symbols are disjoint. */
  lemma Disjoint(pos: int, val: gf, pos': int, val': gf, k: int)
    requires pos != pos' && Flips(pos, val, k)
    ensures !Flips(pos', val', k)
  {}

  // ----- bytes -----

  function XorByte(a: byte, b: byte): (c: byte)
    ensures c == Xor(a, b)
  {
    assert Pow2(8) == 256;
    XorBound(a, b, 8);
    Xor(a, b)
  }

  /** Truncation to a byte. */
  lemma {:induction false} XorLowBits(a: nat, b: nat, n: nat)
    ensures Lowest(Xor(a, b), n) == Xor(Lowest(a, n), Lowest(b, n))
    decreases n
  {
    if n > 0 {
      XorLowBits(a / 2, b / 2, n - 1);
      XorHalves(a, b);
      XorDigits(Lowest(a / 2, n - 1), a % 2, Lowest(b / 2, n - 1), b % 2);
    } else {
      XorZero(0);
    }
  }

  lemma XorDigits(u: nat, c: nat, v: nat, e: nat)
    requires c < 2 && e < 2
    ensures Xor(2 * u + c, 2 * v + e) == 2 * Xor(u, v) + Bit(c != e)
  {
    XorSplit(2 * u + c, 2 * v + e);
  }

  /** What all errors together do to byte j of the stream. */
  function Change(pos: seq<int>, val: seq<gf>, j: int): byte
    requires |pos| == |val|
  {
    if |pos| == 0 then 0 else
      var n := |pos| - 1;
      var rest := Change(pos[..n], val[..n], j);
      if pos[n] < NB_DATA then XorByte(rest, ErrByte(pos[n], val[n], j)) else rest
  }

  /** The exclusive or of the changes of the first n bytes. */
  function ChangeSum(pos: seq<int>, val: seq<gf>, n: nat): byte
    requires |pos| == |val|
  { if n == 0 then 0 else XorByte(ChangeSum(pos, val, n - 1), Change(pos, val, n - 1)) }

  function ErrSum(pos: int, val: gf, n: nat): byte
  { if n == 0 then 0 else XorByte(ErrSum(pos, val, n - 1), ErrByte(pos, val, n - 1)) }

  lemma {:induction false} ChangeSumAdds(pos: seq<int>, val: seq<gf>, p: int, v: gf, n: nat)
    requires |pos| == |val|
    ensures ChangeSum(pos + [p], val + [v], n) == if p < NB_DATA then XorByte(ChangeSum(pos, val, n), ErrSum(p, v, n))
      else ChangeSum(pos, val, n)
    decreases n
  {
    XorZero(0);
    if n > 0 {
      ChangeSumAdds(pos, val, p, v, n - 1);
      ChangeAdds(pos, val, p, v, n - 1);
      XorSwap4(ChangeSum(pos, val, n - 1), ErrSum(p, v, n - 1), Change(pos, val, n - 1), ErrByte(p, v, n - 1));
    }
  }

  lemma ChangeAdds(pos: seq<int>, val: seq<gf>, p: int, v: gf, j: int)
    requires |pos| == |val|
    ensures Change(pos + [p], val + [v], j) == if p < NB_DATA then XorByte(Change(pos, val, j), ErrByte(p, v, j))
      else Change(pos, val, j)
  {
    assert (pos + [p])[..|pos|] == pos && (val + [v])[..|val|] == val;
  }

  /** The byte before the first is no byte. */
  function FirstByte(pos: int, val: gf): byte { if FirstBit(pos) >= 0 then ErrByte(pos, val, FirstBit(pos) / 8) else 0 }
  function SecondByte(pos: int, val: gf): byte { ErrByte(pos, val, FirstBit(pos) / 8 + 1) }

  lemma {:induction false} ErrSumIs(pos: int, val: gf, n: nat, q: int)
    requires q == FirstBit(pos) / 8 && -1 <= q
    ensures n <= q ==> ErrSum(pos, val, n) == 0
    ensures n == q + 1 ==> ErrSum(pos, val, n) == FirstByte(pos, val)
    ensures n >= q + 2 ==> ErrSum(pos, val, n) == XorByte(FirstByte(pos, val), SecondByte(pos, val))
    decreases n
  {
    XorZero(0);
    XorZero(FirstByte(pos, val));
    XorZero(SecondByte(pos, val));
    if n > 0 {
      ErrSumIs(pos, val, n - 1, q);
      XorZero(ErrSum(pos, val, n - 1));
      assert n > q + 2 || n <= q ==> ErrByte(pos, val, n - 1) == 0;
    }
  }

  // ----- patching the sector -----

  /** The C expressions are the parts of the symbol. */
  lemma Parts(val: gf, b: int)
    requires b == 0 || b == 2 || b == 4 || b == 6
    ensures Down(val, 2 + b) == UpperPart(val, b)
    ensures var c := if (b + 10) % 8 == 0 then 8 else (b + 10) % 8; c <= 8 && Up(val, 8 - c) % 256 == LowerPart(val, b)
  {
    Shifts(val, 0);
  }

  lemma Shifts(v: nat, n: nat)
    requires n == 0
    ensures Down(v, n + 2) == v / 4 && Down(v, n + 4) == v / 16 && Down(v, n + 6) == v / 64 && Down(v, n + 8) == v / 256
    ensures Up(v, n) == v && Up(v, n + 2) == 4 * v && Up(v, n + 4) == 16 * v && Up(v, n + 6) == 64 * v
  {
    DownTwo(v, n);
    DownTwo(v / 4, n);
    DownTwo(v / 16, n);
    DownTwo(v / 64, n);
    DownTwo(v, n + 2);
    DownTwo(v / 4, n + 2);
    DownTwo(v / 16, n + 2);
    DownTwo(v, n + 4);
    DownTwo(v / 4, n + 4);
    DownTwo(v, n + 6);
  }

  lemma DownTwo(v: nat, n: nat)
    ensures Down(v, n + 2) == Down(v / 4, n) && Up(v, n + 2) == 4 * Up(v, n)
  {
    assert Down(v, n + 2) == Down(v / 2, n + 1) && Down(v / 2, n + 1) == Down(v / 2 / 2, n);
    assert Up(v, n + 2) == 2 * Up(v, n + 1);
  }

  /** Only the low byte counts. */
  lemma LowXor(a: nat, val: nat, x: byte, low: byte)
    requires val % 256 == x && low == a % 256
    ensures Xor(a, val) % 256 == XorByte(low, x)
  {
    assert Pow2(8) == 256;
    var n := 8;
    LowestAre(a, n);
    LowestAre(val, n);
    LowestAre(Xor(a, val), n);
    XorLowBits(a, val, n);
  }

  lemma SwapTwice(j: int)
    ensures Swap(Swap(j)) == j && (0 <= j < SECTOR_SIZE <==> 0 <= Swap(j) < SECTOR_SIZE)
      && (Swap(j) == SECTOR_SIZE + 1 <==> j == SECTOR_SIZE)
    ensures j >= -1 && Swap(j) < 0 ==> j == -1
  {}

  /** The bytes of the sector in the order of the code word. */
  ghost function Stream(sector: seq<byte>): (s: seq<byte>)
    requires |sector| == SECTOR_SIZE
    ensures |s| == SECTOR_SIZE
  { seq(SECTOR_SIZE, j requires 0 <= j < SECTOR_SIZE => (SwapTwice(j); sector[Swap(j)])) }

  lemma StreamUpdate(sector: seq<byte>, j: int, v: byte)
    requires |sector| == SECTOR_SIZE && 0 <= j < SECTOR_SIZE
    ensures 0 <= Swap(j) < SECTOR_SIZE && Stream(sector[Swap(j) := v]) == Stream(sector)[j := v]
      && sector[Swap(j)] == Stream(sector)[j]
  {
    SwapTwice(j);
    forall i {:trigger Swap(i)} | 0 <= i < SECTOR_SIZE
      ensures Stream(sector[Swap(j) := v])[i] == Stream(sector)[j := v][i]
    {
      SwapTwice(i);
    }
  }

  /** One part of a symbol: `val` goes into byte j of the stream, which may be before its beginning. */
  method PatchByte(sector: array<byte>, j: int, val: nat, parity: nat, ghost x: byte) returns (parity': nat)
    requires sector.Length == SECTOR_SIZE && -1 <= j <= SECTOR_SIZE && val % 256 == x
    modifies sector
    ensures Stream(sector[..]) == var s := Stream(old(sector[..]));
      if 0 <= j < SECTOR_SIZE then s[j := XorByte(s[j], x)] else s
    ensures parity' % 256 == if j >= 0 then XorByte(parity % 256, x) else parity % 256
  {
    parity' := parity;
    var index := Swap(j);      // j ^ 1
    SwapTwice(j);
    if (index >= 0 && index < SECTOR_SIZE) || index == SECTOR_SIZE + 1 {
      parity' := Xor(parity, val);
      LowXor(parity, val, x, parity % 256);
      if index < SECTOR_SIZE {
        ghost var was := sector[..];
        var b := sector[index];
        LowXor(b, val, x, b);
        StreamUpdate(was, j, XorByte(b, x));
        sector[index] := Xor(b, val) % 256;
        assert sector[..] == was[index := XorByte(b, x)];
      }
    }
  }

  ghost predicate Xors(s': seq<byte>, s: seq<byte>, j: int, x: byte) {
    0 <= j < |s| && |s'| == |s| ==> s'[j] == XorByte(s[j], x)
  }

  /** Correct the ten bits of one symbol. */
  method PatchSymbol(sector: array<byte>, pos: int, val: gf, parity: nat) returns (parity': nat)
    requires sector.Length == SECTOR_SIZE && 0 <= pos < NB_DATA
    modifies sector
    ensures forall j {:trigger ErrByte(pos, val, j)} ::
      Xors(Stream(sector[..]), Stream(old(sector[..])), j, ErrByte(pos, val, j))
    ensures parity' % 256 == XorByte(parity % 256, ErrSum(pos, val, sector.Length + 1))
  {
    EvenOffset(pos);
    var first := 10 * (NB_DATA - 1 - pos) - 6;
    var j := first / 8;        // pos >> 3
    var bitpos := first % 8;   // pos & 7
    Parts(val, bitpos);
    ghost var s := Stream(sector[..]);
    var p1 := PatchByte(sector, j, Down(val, 2 + bitpos), parity, UpperPart(val, bitpos));
    ghost var s1 := Stream(sector[..]);
    bitpos := (bitpos + 10) % 8;
    if bitpos == 0 {
      bitpos := 8;
    }
    parity' := PatchByte(sector, j + 1, Up(val, 8 - bitpos), p1, SecondByte(pos, val));
    BothPatched(Stream(sector[..]), s1, s, parity % 256, p1 % 256, parity' % 256, pos, val, j);
  }

  lemma BothPatched(s2: seq<byte>, s1: seq<byte>, s: seq<byte>, p: byte, p1: byte, p2: byte, pos: int, val: gf, q: int)
    requires |s| == SECTOR_SIZE && q == FirstBit(pos) / 8 && -1 <= q < SECTOR_SIZE
    requires s1 == if 0 <= q then s[q := XorByte(s[q], ErrByte(pos, val, q))] else s
    requires s2 == if q + 1 < SECTOR_SIZE then s1[q + 1 := XorByte(s1[q + 1], ErrByte(pos, val, q + 1))] else s1
    requires p1 == (if q >= 0 then XorByte(p, ErrByte(pos, val, q)) else p) && p2 == XorByte(p1, SecondByte(pos, val))
    ensures forall j {:trigger ErrByte(pos, val, j)} :: Xors(s2, s, j, ErrByte(pos, val, j))
    ensures p2 == XorByte(p, ErrSum(pos, val, SECTOR_SIZE + 1))
  {
    TwoBytes(s2, s1, s, pos, val, q);
    ParityOfTwo(p, p1, p2, pos, val, q, SECTOR_SIZE + 1);
  }

  lemma TwoBytes(s2: seq<byte>, s1: seq<byte>, s: seq<byte>, pos: int, val: gf, q: int)
    requires |s| == SECTOR_SIZE && q == FirstBit(pos) / 8 && -1 <= q < SECTOR_SIZE
    requires s1 == if 0 <= q then s[q := XorByte(s[q], ErrByte(pos, val, q))] else s
    requires s2 == if q + 1 < SECTOR_SIZE then s1[q + 1 := XorByte(s1[q + 1], ErrByte(pos, val, q + 1))] else s1
    ensures forall j {:trigger ErrByte(pos, val, j)} :: Xors(s2, s, j, ErrByte(pos, val, j))
  {
    forall j {:trigger ErrByte(pos, val, j)} ensures Xors(s2, s, j, ErrByte(pos, val, j)) {
      if 0 <= j < |s| && j != q && j != q + 1 { XorZero(s[j]); }
    }
  }

  lemma ParityOfTwo(p: byte, p1: byte, p2: byte, pos: int, val: gf, q: int, n: nat)
    requires q == FirstBit(pos) / 8 && -1 <= q && q + 2 <= n
    requires p1 == if q >= 0 then XorByte(p, ErrByte(pos, val, q)) else p
    requires p2 == XorByte(p1, SecondByte(pos, val))
    ensures p2 == XorByte(p, ErrSum(pos, val, n))
  {
    ErrSumIs(pos, val, n, q);
    XorZero(p);
    XorAssoc(p, FirstByte(pos, val), SecondByte(pos, val));
  }

  // ----- all symbols -----

  ghost predicate AllXor(s': seq<byte>, s: seq<byte>, pos: seq<int>, val: seq<gf>)
    requires |pos| == |val|
  { forall j {:trigger Change(pos, val, j)} :: Xors(s', s, j, Change(pos, val, j)) }

  /** No error is in the symbols that are left out: all are in the data, or in the check symbols. */
  ghost predicate Present(pos: seq<int>) { forall k {:trigger pos[k]} :: 0 <= k < |pos| ==> !(NB_DATA <= pos[k] < KK) }

  lemma NothingPatched(s: seq<byte>)
    ensures AllXor(s, s, [], [])
  {
    forall j {:trigger Change([], [], j)} ensures Xors(s, s, j, Change([], [], j)) {
      if 0 <= j < |s| { XorZero(s[j]); }
    }
  }

  lemma OneMorePatched(s2: seq<byte>, s1: seq<byte>, s: seq<byte>, pos: seq<int>, val: seq<gf>, p: int, v: gf)
    requires |pos| == |val| && |s2| == |s1| == |s| && AllXor(s1, s, pos, val)
    requires p < NB_DATA ==> forall j {:trigger ErrByte(p, v, j)} :: Xors(s2, s1, j, ErrByte(p, v, j))
    requires p >= NB_DATA ==> s2 == s1
    ensures AllXor(s2, s, pos + [p], val + [v])
  {
    forall j {:trigger Change(pos + [p], val + [v], j)} ensures Xors(s2, s, j, Change(pos + [p], val + [v], j)) {
      ChangeAdds(pos, val, p, v, j);
      assert Xors(s1, s, j, Change(pos, val, j));
      if p < NB_DATA && 0 <= j < |s| {
        assert Xors(s2, s1, j, ErrByte(p, v, j));
        XorAssoc(s[j], Change(pos, val, j), ErrByte(p, v, j));
      }
    }
  }

  /** How many errors are before the first one in the part of the code word that is not used. */
  function Used(pos: seq<int>): (n: nat)
    ensures n <= |pos| && Present(pos[..n]) && (n < |pos| ==> NB_DATA <= pos[n] < KK) && (n == |pos| <==> Present(pos))
  {
    if |pos| == 0 || NB_DATA <= pos[0] < KK then 0 else
      var n := Used(pos[1..]);
      assert forall k {:trigger pos[k]} :: 0 < k <= n ==> pos[k] == pos[1..][..n][k - 1];
      assert forall k {:trigger pos[1..][k]} :: 0 <= k < |pos| - 1 ==> pos[1..][k] == pos[k + 1];
      n + 1
  }

  /** Correct the errors one by one, as far as they are used; false if that is not all of them. */
  method PatchAll(sector: array<byte>, pos: seq<int>, val: seq<gf>, start: byte) returns (ok: bool, parity: nat)
    requires sector.Length == SECTOR_SIZE && |pos| == |val| && forall k {:trigger pos[k]} :: 0 <= k < |pos| ==>
      0 <= pos[k]
    modifies sector
    ensures ok <==> Present(pos)
    ensures Corrected(Stream(sector[..]), Stream(old(sector[..])), start, parity, pos[..Used(pos)], val[..Used(pos)])
  {
    ghost var s := Stream(sector[..]);
    parity := start;
    StartCorrected(s, start, pos[..0], val[..0]);
    for i := 0 to |pos|
      invariant i <= Used(pos)
      invariant Corrected(Stream(sector[..]), s, start, parity, pos[..i], val[..i])
    {
      UsedAt(pos, i);
      if pos[i] >= NB_DATA && pos[i] < KK {
        return false, parity;
      }
      parity := PatchNext(sector, pos[i], val[i], parity, start, s, pos[..i], val[..i]);
      OneLonger(pos, val, i);
    }
    ok := true;
  }

  lemma UsedAt(pos: seq<int>, i: nat)
    requires i < |pos| && i <= Used(pos)
    ensures i == Used(pos) <==> NB_DATA <= pos[i] < KK
  {
    if i < Used(pos) { assert pos[i] == pos[..Used(pos)][i]; }
  }

  /** The sector and the parity after some errors have been corrected. */
  ghost predicate Corrected(s': seq<byte>, s: seq<byte>, start: byte, parity: nat, pos: seq<int>, val: seq<gf>)
    requires |pos| == |val|
  { AllXor(s', s, pos, val) && parity % 256 == XorByte(start, ChangeSum(pos, val, |s| + 1)) }

  lemma StartCorrected(s: seq<byte>, start: byte, pos: seq<int>, val: seq<gf>)
    requires |pos| == |val| == 0
    ensures Corrected(s, s, start, start, pos, val)
  {
    assert pos == [] && val == [];
    NothingPatched(s);
    NoChange(start, |s| + 1);
  }

  lemma OneLonger(pos: seq<int>, val: seq<gf>, i: nat)
    requires i <= |pos| == |val|
    ensures i < |pos| ==> pos[..i + 1] == pos[..i] + [pos[i]] && val[..i + 1] == val[..i] + [val[i]]
    ensures i == |pos| ==> pos[..i] == pos && val[..i] == val
  {}

  method PatchNext(sector: array<byte>, p: int, v: gf, parity: nat, ghost start: byte, ghost s: seq<byte>,
                   ghost ps: seq<int>, ghost vs: seq<gf>)
    returns (parity': nat)
    requires sector.Length == SECTOR_SIZE == |s| && |ps| == |vs| && 0 <= p
    requires Corrected(Stream(sector[..]), s, start, parity, ps, vs)
    modifies sector
    ensures Corrected(Stream(sector[..]), s, start, parity', ps + [p], vs + [v])
  {
    ghost var s1 := Stream(sector[..]);
    parity' := parity;
    if p < NB_DATA {
      parity' := PatchSymbol(sector, p, v, parity);
    }
    OneMorePatched(Stream(sector[..]), s1, s, ps, vs, p, v);
    MoreParity(start, parity % 256, parity' % 256, ps, vs, p, v, |s| + 1);
  }

  lemma NoChange(start: byte, size: nat)
    ensures XorByte(start, ChangeSum([], [], size)) == start
  {
    for n := 0 to size
      invariant ChangeSum([], [], n) == 0
    {
      XorZero(0);
    }
    XorZero(start);
  }

  lemma MoreParity(start: byte, p1: byte, p2: byte, pos: seq<int>, val: seq<gf>, p: int, v: gf, n: nat)
    requires |pos| == |val| && p1 == XorByte(start, ChangeSum(pos, val, n))
    requires p2 == if p < NB_DATA then XorByte(p1, ErrSum(p, v, n)) else p1
    ensures p2 == XorByte(start, ChangeSum(pos + [p], val + [v], n))
  {
    ChangeSumAdds(pos, val, p, v, n);
    XorAssoc(start, ChangeSum(pos, val, n), ErrSum(p, v, n));
  }

  // ----- doc_decode_ecc -----

  /** The symbols of the feedback register, from the bytes of the ECC hardware. */
  function Register(ecc1: seq<byte>): (bb: seq<gf>)
    requires |ecc1| == 6
    ensures |bb| == 4
  {
    var a: int, b: int, c: int, d: int, e: int, f: int := ecc1[0], ecc1[1], ecc1[2], ecc1[3], ecc1[4], ecc1[5];
    [e + f % 4 * 256, f / 4 + c % 16 * 64, c / 16 + d % 64 * 16, d / 64 + a * 4]
  }

  /** As one number, the 40 bits are those of five bytes, the least significant first: 4, 5, 2, 3 and 0. */
  lemma RegisterIsNumber(ecc1: seq<byte>)
    requires |ecc1| == 6
    ensures var b0: int, b1: int, b2: int, b3: int := Register(ecc1)[0], Register(ecc1)[1], Register(ecc1)[2],
              Register(ecc1)[3];
      b0 + 0x400 * b1 + 0x10_0000 * b2 + 0x4000_0000 * b3 ==
      ecc1[4] as int + 0x100 * ecc1[5] as int + 0x1_0000 * ecc1[2] as int + 0x100_0000 * ecc1[3] as int
      + 0x1_0000_0000 * ecc1[0] as int
  {
    var b: int, c: int, d: int := ecc1[5], ecc1[2], ecc1[3];
    assert b == 4 * (b / 4) + b % 4 && c == 16 * (c / 16) + c % 16 && d == 64 * (d / 64) + d % 64;
  }

  /** GF(2^10) modulo 1+x^3+x^10 */
  function Gf10(): Field { Symbols(LOW) }
  const DOC_CODE := Code(510, 1019)

  lemma SameBytes(a: byte, b: byte)
    ensures XorByte(a, b) == 0 <==> a == b
  {
    XorZero(a);
    XorZero(b);
    XorAssoc(a, a, b);
  }

  /** The modulus of the field is that of the table. */
  lemma PpIsLow()
    ensures LowBits(PP, MM) == LOW
  {
    XorZero(1);
    LowBit(9);
    assert LowBits(PP, 0) == 0;
    OneBitMore(PP, 0);
    for i := 1 to 3
      invariant LowBits(PP, i) == 1
    {}
    OneBitMore(PP, 3);
    for i := 4 to 10
      invariant LowBits(PP, i) == 9
    {}
  }

  lemma OneBitMore(pp: seq<int>, i: nat)
    requires i < |pp| && i < MM && pp[i] != 0
    ensures Pow2(i) < 1024 && LowBits(pp, i + 1) == Sum(LowBits(pp, i), Pow2(i))
  {
    Pow2Symbol(i);
  }

  /** Some error flips bit k of the code word's bytes. */
  ghost predicate FlippedBy(pos: seq<int>, val: seq<gf>, k: int, i: int)
  { 0 <= i < |pos| && i < |val| && pos[i] < NB_DATA && Flips(pos[i], val[i], k) }

  ghost predicate Flipped(pos: seq<int>, val: seq<gf>, k: int) { exists i :: FlippedBy(pos, val, k, i) }

  /** The last error flips the bit, or one of the others does, but not both. */
  lemma FlippedLast(pos: seq<int>, val: seq<gf>, k: int)
    requires |pos| == |val| > 0 && Places(pos)
    ensures Places(pos[..|pos| - 1])
    ensures Flipped(pos, val, k) <==>
      Flipped(pos[..|pos| - 1], val[..|pos| - 1], k) != FlippedBy(pos, val, k, |pos| - 1)
  {
    var n := |pos| - 1;
    var ps, vs := pos[..n], val[..n];
    forall i, l ensures Falls(ps, i, l) { assert Falls(pos, i, l); }
    if i :| FlippedBy(ps, vs, k, i) {
      assert FlippedBy(pos, val, k, i) && Falls(pos, i, n);
      Disjoint(pos[i], val[i], pos[n], val[n], k);
    }
    if i :| FlippedBy(pos, val, k, i) {
      if i < n { assert FlippedBy(ps, vs, k, i); }
    }
  }

  lemma {:induction false} ChangeBits(pos: seq<int>, val: seq<gf>, k: int)
    requires |pos| == |val| && Places(pos)
    ensures BitOf(Change(pos, val, k / 8), 7 - k % 8) <==> Flipped(pos, val, k)
    decreases |pos|
  {
    if |pos| == 0 {
      NoHighBits(0, 0, 7 - k % 8);
    } else {
      var n := |pos| - 1;
      var rest, last := Change(pos[..n], val[..n], k / 8), ErrByte(pos[n], val[n], k / 8);
      FlippedLast(pos, val, k);
      ChangeBits(pos[..n], val[..n], k);
      if pos[n] < NB_DATA {
        WindowBits(pos[n], val[n], k);
        BitOfXor(rest, last, 7 - k % 8);
      }
    }
  }

  /** Exactly the bits of the errors change: at most two bytes for each error, and no bit twice. */
  lemma CorrectedBits(s': seq<byte>, s: seq<byte>, pos: seq<int>, val: seq<gf>, k: int)
    requires |s'| == |s| == SECTOR_SIZE && |pos| == |val| && Places(pos) && AllXor(s', s, pos, val)
      && 0 <= k < 8 * SECTOR_SIZE
    ensures BitOf(s'[k / 8], 7 - k % 8) <==> BitOf(s[k / 8], 7 - k % 8) != Flipped(pos, val, k)
  {
    ChangeBits(pos, val, k);
    assert Xors(s', s, k / 8, Change(pos, val, k / 8));
    BitOfXor(s[k / 8], Change(pos, val, k / 8), 7 - k % 8);
  }

  /** What becomes of the sector: see `CorrectedBits` for its bits. */
  ghost predicate Repaired(s': seq<byte>, s: seq<byte>, pos: seq<int>, val: seq<gf>, parity: byte)
  { |pos| == |val| && Places(pos) && Present(pos) && AllXor(s', s, pos, val) && ChangeSum(pos, val, |s| + 1) == parity }

  /** The field and its tables. */
  method MakeTables() returns (alphaTo: array<gf>, indexOf: array<gf>)
    ensures fresh(alphaTo) && fresh(indexOf) && alphaTo != indexOf
      && BerlekampMassey.Ready(Gf10(), alphaTo[..], indexOf[..])
  {
    alphaTo, indexOf := new gf[NN + 1](_ => 0), new gf[NN + 1](_ => 0);
    LowIsPrimitive();
    PpIsLow();
    SymbolsAre(LOW);
    GenerateGf(PP, alphaTo, indexOf, Gf10());
  }

  /** Find the errors in the code word. */
  method DecodeRegister(ecc1: seq<byte>)
    returns (count: int, pos: array<int>, val: array<gf>, ghost el: nat, ghost p: seq<gf>)
    requires |ecc1| == 6
    ensures fresh(pos) && fresh(val) && pos.Length == val.Length == 4 && -1 <= count <= 4
      && (count >= 0 ==> Places(pos[..count]))
    ensures if count == -1 then Answer(Gf10(), DOC_CODE, Register(ecc1), -1, [], [])
      else Answer(Gf10(), DOC_CODE, Register(ecc1), count, pos[..count], val[..count])
    ensures IsLambda(Gf10(), DOC_CODE, Register(ecc1), count, el, p)
    ensures count >= 0 ==> (ListExplains(Gf10(), DOC_CODE, Register(ecc1), pos[..count], val[..count]) <==> el == count)
  {
    var alphaTo, indexOf := MakeTables();
    count, pos, val, el, p := DecodeWith(Gf10(), alphaTo, indexOf, Register(ecc1));
  }

  method DecodeWith(F: Field, alphaTo: array<gf>, indexOf: array<gf>, r: seq<gf>)
    returns (count: int, pos: array<int>, val: array<gf>, ghost el: nat, ghost p: seq<gf>)
    requires BerlekampMassey.Ready(F, alphaTo[..], indexOf[..]) && |r| > 0
    ensures fresh(pos) && fresh(val) && pos.Length == val.Length == |r| && -1 <= count <= |r|
      && (count >= 0 ==> Places(pos[..count]))
    ensures if count == -1 then Answer(F, DOC_CODE, r, -1, [], [])
      else Answer(F, DOC_CODE, r, count, pos[..count], val[..count])
    ensures IsLambda(F, DOC_CODE, r, count, el, p)
    ensures count >= 0 ==> (ListExplains(F, DOC_CODE, r, pos[..count], val[..count]) <==> el == count)
  {
    var bb := new gf[|r|](i requires 0 <= i < |r| => r[i]);
    assert bb[..] == r;
    val, pos := new gf[|r|](_ => 0), new int[|r|](_ => 0);
    count, el, p := ErasDecRs(F, DOC_CODE, alphaTo, indexOf, bb, val, pos);
  }

  /** Correct the sector. `count`, `pos` and `val` are the answer of the Reed-Solomon decoder. */
  method DocDecodeEcc(sector: array<byte>, ecc1: seq<byte>)
    returns (n: int, ghost count: int, ghost pos: seq<int>, ghost val: seq<gf>, ghost el: nat, ghost p: seq<gf>)
    requires sector.Length == SECTOR_SIZE && |ecc1| == 6
    modifies sector
    ensures -1 <= count <= 4 && |pos| == |val| == (if count < 0 then 0 else count) && Places(pos)
    ensures Answer(Gf10(), DOC_CODE, Register(ecc1), count, pos, val)
    ensures IsLambda(Gf10(), DOC_CODE, Register(ecc1), count, el, p)
    ensures count >= 0 ==> (ListExplains(Gf10(), DOC_CODE, Register(ecc1), pos, val) <==> el == count)
    ensures n == if count > 0 && !(Present(pos) && ChangeSum(pos, val, sector.Length + 1) == ecc1[1]) then -1 else count
    ensures n > 0 ==> Repaired(Stream(sector[..]), Stream(old(sector[..])), pos, val, ecc1[1])
    ensures Present(pos) ==> AllXor(Stream(sector[..]), Stream(old(sector[..])), pos, val)
    ensures sector[..] == old(sector[..]) <==> !Present(pos) || NoneTouches(pos, val)
  {
    ghost var was := sector[..];
    var errorPos, errorVal;
    n, errorPos, errorVal, el, p := DecodeRegister(ecc1);
    count, pos, val := n, [], [];
    if n <= 0 {
      NothingPatched(Stream(was));
      assert n == 0 ==> errorPos[..n] == [] && errorVal[..n] == [];
      return;
    }
    pos, val := errorPos[..n], errorVal[..n];
    n := PatchChecked(sector, errorPos[..n], errorVal[..n], ecc1[1]);
    WhenUnchanged(sector[..], was, pos, val);
  }
  /** Correct the errors; the parity must come out right. When it does not, or when one of the errors cannot
      be, the sector is left as it is by then. */
  method PatchChecked(sector: array<byte>, pos: seq<int>, val: seq<gf>, parity: byte) returns (n: int)
    requires sector.Length == SECTOR_SIZE && |pos| == |val| && Places(pos)
    modifies sector
    ensures n == if Present(pos) && ChangeSum(pos, val, sector.Length + 1) == parity then |pos| else -1
    ensures n != -1 ==> Repaired(Stream(sector[..]), Stream(old(sector[..])), pos, val, parity)
    ensures AllXor(Stream(sector[..]), Stream(old(sector[..])), pos[..Used(pos)], val[..Used(pos)])
  {
    var ok, p := PatchAll(sector, pos, val, parity);
    OneLonger(pos, val, |pos|);
    SameBytes(parity, ChangeSum(pos, val, sector.Length + 1));
    n := if ok && p % 256 == 0 then |pos| else -1;
  }

  // ----- whether the sector is changed -----

  /** The error has a bit in the sector: the first symbol begins before it, and the last one ends after it. */
  predicate Touches(p: int, v: gf) {
    p < NB_DATA && if p == NB_DATA - 1 then v % 16 != 0 else if p == 0 then v >= 256 else v != 0
  }

  ghost predicate NoneTouches(pos: seq<int>, val: seq<gf>) {
    forall i {:trigger pos[i]} :: 0 <= i < |pos| && i < |val| ==> !Touches(pos[i], val[i])
  }

  lemma {:induction false} SomeBit(v: nat, n: nat) returns (i: nat)
    requires 0 < v < Pow2(n)
    ensures i < n && BitOf(v, i)
    decreases n
  {
    if v % 2 == 1 {
      i := 0;
    } else {
      i := SomeBit(v / 2, n - 1);
      i := i + 1;
    }
  }

  lemma TouchedBit(p: int, v: gf) returns (k: int)
    requires 0 <= p && Touches(p, v)
    ensures 0 <= k < 8 * SECTOR_SIZE && Flips(p, v, k)
  {
    var i;
    assert Pow2(4) == 16 && Pow2(8) == 256 && Pow2(10) == 1024;
    if p == NB_DATA - 1 {
      i := SomeBit(v % 16, 4);
      LowestAre(v, 4);
      BitOfLow(v, 4, i);
    } else if p == 0 {
      i := SomeBit(v / 256, 2);
      BitsDown(v, 8, i);
      i := i + 8;
    } else {
      i := SomeBit(v, 10);
    }
    k := FirstBit(p) + 9 - i;
  }

  lemma UntouchedBit(p: int, v: gf, k: int)
    requires 0 <= p < NB_DATA && !Touches(p, v) && 0 <= k < 8 * SECTOR_SIZE
    ensures !Flips(p, v, k)
  {
    var i := FirstBit(p) + 9 - k;
    assert Pow2(4) == 16 && Pow2(8) == 256;
    if 0 <= i < 10 {
      if p == NB_DATA - 1 {
        LowestAre(v, 4);
        BitOfLow(v, 4, i);
        NoHighBits(0, 0, i);
      } else if p == 0 {
        NoHighBits(v, 8, i);
      } else {
        NoHighBits(0, 0, i);
      }
    }
  }

  /** The places fall: symbols that are not used come before the data, so that none of these has been patched. */
  lemma UsedIsParity(pos: seq<int>, k: int)
    requires Places(pos) && !Present(pos) && 0 <= k < Used(pos)
    ensures pos[k] >= NB_DATA
  {
    assert Falls(pos, k, Used(pos));
  }

  lemma {:induction false} ParityOnly(pos: seq<int>, val: seq<gf>, j: int)
    requires |pos| == |val| && forall k {:trigger pos[k]} :: 0 <= k < |pos| ==> pos[k] >= NB_DATA
    ensures Change(pos, val, j) == 0
    decreases |pos|
  {
    if |pos| > 0 { ParityOnly(pos[..|pos| - 1], val[..|pos| - 1], j); }
  }

  lemma NotReached(s': seq<byte>, s: seq<byte>, pos: seq<int>, val: seq<gf>)
    requires |s'| == |s| && |pos| == |val| && Places(pos) && !Present(pos)
      && AllXor(s', s, pos[..Used(pos)], val[..Used(pos)])
    ensures s' == s
  {
    var ps, vs := pos[..Used(pos)], val[..Used(pos)];
    forall k {:trigger ps[k]} | 0 <= k < |ps| ensures ps[k] >= NB_DATA { UsedIsParity(pos, k); }
    forall j | 0 <= j < |s| ensures s'[j] == s[j] {
      ParityOnly(ps, vs, j);
      XorZero(s[j]);
      assert Xors(s', s, j, Change(ps, vs, j));
    }
  }

  /** Bytes with the same bits are the same. */
  lemma SameByteBits(x: byte, y: byte)
    requires forall u: nat {:trigger BitOf(x, u)} :: u < 8 ==> (BitOf(x, u) <==> BitOf(y, u))
    ensures x == y
  {
    assert Pow2(8) == 256;
    LowBitsDecide(x, y, 8);
  }

  lemma {:induction false} LowBitsDecide(x: nat, y: nat, n: nat)
    requires x < Pow2(n) && y < Pow2(n) && forall u: nat {:trigger BitOf(x, u)} :: u < n ==>
      (BitOf(x, u) <==> BitOf(y, u))
    ensures x == y
    decreases n
  {
    if n > 0 {
      assert BitOf(x, 0) <==> BitOf(y, 0);
      forall u: nat {:trigger BitOf(x / 2, u)} | u < n - 1
        ensures BitOf(x / 2, u) <==> BitOf(y / 2, u)
      {
        assert BitOf(x, u + 1) <==> BitOf(y, u + 1);
      }
      LowBitsDecide(x / 2, y / 2, n - 1);
    }
  }

  lemma SameStream(s': seq<byte>, s: seq<byte>)
    requires |s'| == |s| == SECTOR_SIZE
    ensures Stream(s') == Stream(s) <==> s' == s
  {
    if Stream(s') == Stream(s) {
      forall j | 0 <= j < SECTOR_SIZE ensures s'[j] == s[j] {
        SwapTwice(j);
        SwapTwice(Swap(j));
        assert Stream(s')[Swap(j)] == Stream(s)[Swap(j)];
      }
    }
  }

  lemma TouchedChanges(s': seq<byte>, s: seq<byte>, pos: seq<int>, val: seq<gf>, i: int)
    requires |s'| == |s| == SECTOR_SIZE && |pos| == |val| && Places(pos) && AllXor(s', s, pos, val)
    requires 0 <= i < |pos| && Touches(pos[i], val[i])
    ensures s' != s
  {
    var k := TouchedBit(pos[i], val[i]);
    CorrectedBits(s', s, pos, val, k);
    assert FlippedBy(pos, val, k, i);
  }

  lemma UntouchedStays(s': seq<byte>, s: seq<byte>, pos: seq<int>, val: seq<gf>, j: int)
    requires |s'| == |s| == SECTOR_SIZE && |pos| == |val| && Places(pos) && AllXor(s', s, pos, val)
    requires NoneTouches(pos, val) && 0 <= j < SECTOR_SIZE
    ensures s'[j] == s[j]
  {
    forall u: nat {:trigger BitOf(s'[j], u)} | u < 8
      ensures BitOf(s'[j], u) <==> BitOf(s[j], u)
    {
      var k := 8 * j + 7 - u;
      CorrectedBits(s', s, pos, val, k);
      assert k / 8 == j && 7 - k % 8 == u;
      if Flipped(pos, val, k) {
        var i :| FlippedBy(pos, val, k, i);
        UntouchedBit(pos[i], val[i], k);
      }
    }
    SameByteBits(s'[j], s[j]);
  }

  /** The sector is unchanged if, and only if, an error is where none can be, or none is in the sector. */
  lemma WhenUnchanged(sector': seq<byte>, sector: seq<byte>, pos: seq<int>, val: seq<gf>)
    requires |sector'| == |sector| == SECTOR_SIZE && |pos| == |val| && Places(pos)
    requires AllXor(Stream(sector'), Stream(sector), pos[..Used(pos)], val[..Used(pos)])
    ensures sector' == sector <==> !Present(pos) || NoneTouches(pos, val)
    ensures Present(pos) ==> AllXor(Stream(sector'), Stream(sector), pos, val)
  {
    var s', s := Stream(sector'), Stream(sector);
    SameStream(sector', sector);
    OneLonger(pos, val, |pos|);
    if !Present(pos) {
      NotReached(s', s, pos, val);
    } else if NoneTouches(pos, val) {
      forall j | 0 <= j < SECTOR_SIZE ensures s'[j] == s[j] { UntouchedStays(s', s, pos, val, j); }
    } else {
      var i :| 0 <= i < |pos| && Touches(pos[i], val[i]);
      TouchedChanges(s', s, pos, val, i);
    }
  }

  /** Up to two errors: the answer of the decoder is what they are. */
  lemma TwoErrors(bb: seq<gf>, errs: seq<Error>, count: int, pos: seq<int>, val: seq<gf>)
    requires |bb| == 4 && Answer(Gf10(), DOC_CODE, bb, count, pos, val) && Explains(Gf10(), DOC_CODE, bb, errs)
      && |errs| <= 2
    ensures count == |errs| && Lists(errs, pos, val)
  {
    assert Decoded(Gf10(), DOC_CODE, bb, errs, count, pos, val);
  }
}
