/** Kermit packets: quoting, block check, and what is on the line (Kermit Protocol Manual,
    Sixth Edition, chapter 6). */
module KermitPackets {
  import opened Basics

  const START_CHAR: byte := 1
  const END_CHAR: byte := 13
  const K_ESCAPE: byte := 35          // '#'
  const SEND_TYPE: byte := 83         // 'S'
  const DATA_TYPE: byte := 68         // 'D'
  const BREAK_TYPE: byte := 66        // 'B'

  function ToChar(x: int): byte { (x + 32) % 256 }
  function UnToChar(x: byte): int { if x >= 32 then x - 32 else x + 224 }      // (x - 32) & 0xff

  lemma ToCharBack(x: int)
    requires 0 <= x < 224
    ensures ToChar(x) == x + 32 && UnToChar(ToChar(x)) == x
  {}

  /** Not a control character: a character of a packet. */
  predicate Printable(c: byte) { c >= 32 }       // (c & 0xE0) != 0

  function Check(sum: nat): byte { ToChar((sum + sum / 64 % 4) % 64) }

  /** The two top bits of the low byte are added to the other six (section 6.1). */
  lemma CheckIs(sum: nat, x: nat, hi: nat, lo: nat)
    requires sum == 256 * x + 64 * hi + lo && hi < 4 && lo < 64
    ensures Check(sum) == ToChar((hi + lo) % 64) && Check(sum) == (hi + lo) % 64 + 32
  {
    HighBits(sum, 4 * x + hi, lo);
    HighBits(4 * x + hi, x, hi);
    LowBits(sum + hi, 4 * x + hi, hi + lo);
  }

  lemma HighBits(sum: nat, x: nat, lo: nat)
    ensures sum == 64 * x + lo && lo < 64 ==> sum / 64 == x
    ensures sum == 4 * x + lo && lo < 4 ==> sum % 4 == lo
  {}

  lemma LowBits(sum: nat, x: nat, lo: nat)
    requires sum == 64 * x + lo
    ensures sum % 64 == lo % 64
  {}

  /** Off by a power of two, as a character with one wrong bit is. */
  predicate OneBitOff(a: int, b: int) {
    var p := if a < b then b - a else a - b;
    p == 1 || p == 2 || p == 4 || p == 8 || p == 16 || p == 32 || p == 64 || p == 128
  }

  lemma OneBitShows(a: nat, b: nat)
    requires OneBitOff(a, b)
    ensures Check(a) != Check(b)
  {
    if a < b { BitAdded(a, b - a); } else { BitAdded(b, a - b); }
  }

  lemma BitAdded(sum: nat, p: nat)
    requires OneBitOff(0, p)
    ensures Check(sum) != Check(sum + p)
  {
    var y := sum / 64;
    var x, hi, lo := y / 4, y % 4, sum % 64;
    assert sum == 64 * y + lo && y == 4 * x + hi;
    CheckIs(sum, x, hi, lo);
    if p < 64 && lo + p < 64 {
      CheckIs(sum + p, x, hi, lo + p);
      Small(hi + lo, p);
    } else {
      BitCarried(sum, x, hi, lo, p);
    }
  }

  lemma Small(v: nat, p: nat)
    requires 0 < p < 64
    ensures (v + p) % 64 != v % 64
  {}

  /** The high bits change, by one or two. */
  lemma BitCarried(sum: nat, x: nat, hi: nat, lo: nat, p: nat)
    requires sum == 256 * x + 64 * hi + lo && hi < 4 && lo < 64 && OneBitOff(0, p) && lo + p >= 64
    ensures Check(sum) != Check(sum + p)
  {
    var d := if p == 128 then 2 else 1;
    var l := if p >= 64 then lo else lo + p - 64;
    var y, h := if hi + d < 4 then x else x + 1, if hi + d < 4 then hi + d else hi + d - 4;
    CheckIs(sum, x, hi, lo);
    CheckIs(sum + p, y, h, l);
    Differ(hi + lo, h + l);
  }

  lemma Differ(v: nat, w: nat)
    requires 0 < v - w < 128 || 0 < w - v < 128
    ensures v % 64 != w % 64 || v == w + 64 || w == v + 64
  {}

  // ----- control quoting, section 6.4 -----

  /** Converts a quoted character to the one it stands for. */
  function KTrans(c: byte): byte {
    if c % 128 / 32 == 2 then c - 64             // (c & 0x60) == 0x40
    else if c % 128 == 63 then c + 64
    else c
  }

  datatype Decoded = Decoded(out: seq<byte>, escape: bool)

  /** k_data_char */
  function DataChar(d: Decoded, quote: byte, c: byte): Decoded {
    if d.escape then Decoded(d.out + [KTrans(c)], false)
    else if c == quote then Decoded(d.out, true)
    else Decoded(d.out + [c], false)
  }

  function Feed(d: Decoded, quote: byte, s: seq<byte>): Decoded
  { if |s| == 0 then d else DataChar(Feed(d, quote, s[..|s| - 1]), quote, s[|s| - 1]) }

  predicate LegalQuote(q: byte) { 33 <= q <= 62 || 96 <= q <= 126 }

  /** The sender's side: characters whose low seven bits are a control character or the quote are quoted. */
  function EncodeChar(quote: byte, b: byte): seq<byte> {
    var low := b % 128;
    if low < 32 then [quote, b + 64]
    else if low == 127 then [quote, b - 64]
    else if low == quote then [quote, b]
    else [b]
  }

  function Encode(quote: byte, s: seq<byte>): seq<byte>
  { if |s| == 0 then [] else Encode(quote, s[..|s| - 1]) + EncodeChar(quote, s[|s| - 1]) }

  lemma {:induction false} FeedAdds(d: Decoded, quote: byte, s: seq<byte>, t: seq<byte>)
    ensures Feed(d, quote, s + t) == Feed(Feed(d, quote, s), quote, t)
    decreases |t|
  {
    if |t| == 0 {
      assert s + t == s;
    } else {
      assert (s + t)[..|s + t| - 1] == s + t[..|t| - 1];
      FeedAdds(d, quote, s, t[..|t| - 1]);
    }
  }

  lemma FeedChar(d: Decoded, quote: byte, c: byte)
    ensures Feed(d, quote, [c]) == DataChar(d, quote, c)
  {
    var s := [c];
    assert s[..0] == [] && Feed(d, quote, s[..0]) == d;
  }

  lemma QuotedBack(quote: byte, b: byte)
    requires LegalQuote(quote)
    ensures b % 128 < 32 ==> b + 64 < 256 && KTrans(b + 64) == b
    ensures b % 128 == 127 ==> KTrans(b - 64) == b
    ensures b % 128 == quote ==> KTrans(b) == b
  {}

  lemma CharBack(d: Decoded, quote: byte, b: byte)
    requires LegalQuote(quote) && !d.escape
    ensures Feed(d, quote, EncodeChar(quote, b)) == Decoded(d.out + [b], false)
  {
    QuotedBack(quote, b);
    var e := EncodeChar(quote, b);
    if |e| == 1 {
      FeedChar(d, quote, b);
    } else {
      assert e == [quote] + [e[1]];
      FeedAdds(d, quote, [quote], [e[1]]);
      FeedChar(d, quote, quote);
      FeedChar(Decoded(d.out, true), quote, e[1]);
    }
  }

  /** Quoting is undone, for every file and every legal quote character. */
  lemma {:induction false} EncodeBack(d: Decoded, quote: byte, s: seq<byte>)
    requires LegalQuote(quote) && !d.escape
    ensures Feed(d, quote, Encode(quote, s)) == Decoded(d.out + s, false)
    decreases |s|
  {
    if |s| > 0 {
      var n := |s| - 1;
      EncodeBack(d, quote, s[..n]);
      FeedAdds(d, quote, Encode(quote, s[..n]), EncodeChar(quote, s[n]));
      CharBack(Decoded(d.out + s[..n], false), quote, s[n]);
      assert d.out + s[..n] + [s[n]] == d.out + s;
    } else {
      assert d.out + s == d.out;
    }
  }

  /** And however the encoding is cut into the data of packets. */
  function Concat(parts: seq<seq<byte>>): seq<byte> {
    if |parts| == 0 then [] else Concat(parts[..|parts| - 1]) + parts[|parts| - 1]
  }

  function FeedAll(d: Decoded, quote: byte, parts: seq<seq<byte>>): Decoded
  { if |parts| == 0 then d else Feed(FeedAll(d, quote, parts[..|parts| - 1]), quote, parts[|parts| - 1]) }

  lemma {:induction false} FeedParts(d: Decoded, quote: byte, parts: seq<seq<byte>>)
    ensures FeedAll(d, quote, parts) == Feed(d, quote, Concat(parts))
    decreases |parts|
  {
    if |parts| > 0 {
      var n := |parts| - 1;
      FeedParts(d, quote, parts[..n]);
      FeedAdds(d, quote, Concat(parts[..n]), parts[n]);
    }
  }

  lemma {:induction false} EncodedPrintable(quote: byte, s: seq<byte>, i: nat)
    requires LegalQuote(quote) && i < |Encode(quote, s)|
    ensures Printable(Encode(quote, s)[i])
    decreases |s|
  {
    var n := |s| - 1;
    if i < |Encode(quote, s[..n])| { EncodedPrintable(quote, s[..n], i); }
  }
}
