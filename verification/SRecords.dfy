/** save_serial: memory as Motorola S-records. */
module SRecords {
  import opened Basics
  import opened ByteSums

  const HEX: string := "0123456789ABCDEF"
  const SREC_BYTES_PER_RECORD := 16
  const SREC3_START: string := "S0030000FC\n"
  const SREC3_END: string := "S70500000000FA\n"

  // ----- hexadecimal digits -----

  function HexDigit(d: nat): char
    requires d < 16
  { HEX[d] }

  /** A number with so many digits: %02X and %08lX. */
  function Hex(v: nat, digits: nat): (s: string)
    ensures |s| == digits
  { if digits == 0 then "" else Hex(v / 16, digits - 1) + [HexDigit(v % 16)] }

  function HexByte(b: byte): string { [HexDigit(b / 16), HexDigit(b % 16)] }

  function HexAll(bs: seq<byte>): (s: string)
    ensures |s| == 2 * |bs|
  { if |bs| == 0 then "" else HexAll(bs[..|bs| - 1]) + HexByte(bs[|bs| - 1]) }

  lemma {:induction false} HexAdds(s: seq<byte>, t: seq<byte>)
    ensures HexAll(s + t) == HexAll(s) + HexAll(t)
    decreases |t|
  {
    if |t| == 0 {
      assert s + t == s;
    } else {
      assert (s + t)[..|s + t| - 1] == s + t[..|t| - 1];
      HexAdds(s, t[..|t| - 1]);
    }
  }

  lemma HexOne(b: byte)
    ensures HexAll([b]) == HexByte(b)
  {
    assert [b][..0] == [] && HexAll([b][..0]) == "";
  }

  /** Two digits are a byte. */
  lemma HexTwo(v: nat, n: nat)
    ensures Hex(v, n + 2) == Hex(v / 256, n) + HexByte(v % 256)
  {
    assert v / 16 / 16 == v / 256 && v / 16 % 16 == v % 256 / 16 && v % 16 == v % 256 % 16;
    assert Hex(v, n + 2) == Hex(v / 16, n + 1) + [HexDigit(v % 16)];
    assert Hex(v / 16, n + 1) == Hex(v / 16 / 16, n) + [HexDigit(v / 16 % 16)];
  }

  /** The high byte first. */
  function AddressBytes(a: nat): seq<byte> { [a / 256 / 256 / 256 % 256, a / 256 / 256 % 256, a / 256 % 256, a % 256] }

  lemma HexLast(v: nat, n: nat)
    requires n == 0
    ensures Hex(v, n + 2) == HexByte(v % 256)
  {
    HexTwo(v, n);
    assert Hex(v / 256, n) == "";
  }

  lemma HexEight(v: nat, n: nat)
    requires n == 0
    ensures Hex(v, n + 8) == HexByte(v / 256 / 256 / 256 % 256) + HexByte(v / 256 / 256 % 256) + HexByte(v / 256 % 256)
      + HexByte(v % 256)
  {
    HexTwo(v, n + 6);
    HexTwo(v / 256, n + 4);
    HexTwo(v / 256 / 256, n + 2);
    HexLast(v / 256 / 256 / 256, n);
  }

  lemma HexAddress(a: nat, n: nat)
    requires n == 0
    ensures Hex(a, n + 8) == HexAll(AddressBytes(a))
  {
    HexEight(a, n);
    HexFour(a / 256 / 256 / 256 % 256, a / 256 / 256 % 256, a / 256 % 256, a % 256);
  }

  lemma HexFour(a: byte, b: byte, c: byte, d: byte)
    ensures HexAll([a, b, c, d]) == HexByte(a) + HexByte(b) + HexByte(c) + HexByte(d)
  {
    HexOne(a);
    HexAdds([a], [b]);
    HexOne(b);
    HexAdds([a] + [b], [c]);
    HexOne(c);
    HexAdds([a] + [b] + [c], [d]);
    HexOne(d);
    assert [a] + [b] + [c] + [d] == [a, b, c, d];
  }

  // ----- a record -----

  /** The bytes up to the checksum. */
  function Summed(address: nat, data: seq<byte>): seq<byte>
    requires |data| <= SREC_BYTES_PER_RECORD
  { [(|data| + 5) as byte] + AddressBytes(address) + data }

  function RecordBytes(address: nat, data: seq<byte>): seq<byte>
    requires |data| <= SREC_BYTES_PER_RECORD
  {
    var s := Summed(address, data);
    s + [255 - Sum(s) % 256]                    // ~checksum & 0xff
  }

  function Record(address: nat, data: seq<byte>): string
    requires |data| <= SREC_BYTES_PER_RECORD
  { "S3" + HexAll(RecordBytes(address, data)) + "\n" }

  /** All bytes of a record add up to 0xFF, and it fits its buffer with a NUL. */
  lemma RecordSums(address: nat, data: seq<byte>)
    requires |data| <= SREC_BYTES_PER_RECORD
    ensures Sum(RecordBytes(address, data)) % 256 == 0xFF
    ensures |Record(address, data)| + 1 <= 2 * SREC_BYTES_PER_RECORD + 16
  {
    var s := Summed(address, data);
    SumAdds(s, [255 - Sum(s) % 256]);
    SumOne(255 - Sum(s) % 256);
  }

  // ----- the records of so many bytes -----

  /** How many bytes are before record k. */
  function Cut(count: nat, k: nat): (n: nat)
    ensures n <= count
  { if SREC_BYTES_PER_RECORD * k < count then SREC_BYTES_PER_RECORD * k else count }

  function RecordAt(mem: seq<byte>, address: nat, count: nat, k: nat): string
    requires address + count <= |mem|
  { Record(address + Cut(count, k), mem[address + Cut(count, k)..address + Cut(count, k + 1)]) }

  function HowMany(count: nat): nat { (count + SREC_BYTES_PER_RECORD - 1) / SREC_BYTES_PER_RECORD }

  function Records(mem: seq<byte>, address: nat, count: nat): seq<string>
    requires address + count <= |mem|
  { seq(HowMany(count), k requires 0 <= k < HowMany(count) => RecordAt(mem, address, count, k)) }

  function Join(records: seq<string>): string { if |records| == 0 then "" else records[0] + Join(records[1..]) }

  /** All that is written. */
  function Whole(records: seq<string>): string { SREC3_START + Join(records) + SREC3_END }

  // ----- reading it all back -----

  function Digit(c: char): Option<nat> {
    if '0' <= c <= '9' then Some(c as nat - '0' as nat)
    else if 'A' <= c <= 'F' then Some(c as nat - 'A' as nat + 10)
    else None
  }

  function UnHex(s: string): Option<seq<byte>> {
    if |s| == 0 then Some([])
    else if |s| == 1 then None
    else
      var n := |s| - 2;
      match (UnHex(s[..n]), Digit(s[n]), Digit(s[n + 1]))
      case (Some(bs), Some(hi), Some(lo)) => (assert hi < 16 && lo < 16; Some(bs + [hi * 16 + lo]))
      case _ => None
  }

  lemma DigitBack(d: nat)
    requires d < 16
    ensures Digit(HexDigit(d)) == Some(d) && HexDigit(d) != '\n' && HexDigit(d) != '\0'
  {}

  lemma UnHexByte(s: string, bs: seq<byte>, b: byte)
    requires UnHex(s) == Some(bs)
    ensures UnHex(s + HexByte(b)) == Some(bs + [b])
  {
    var t := s + HexByte(b);
    assert t[..|t| - 2] == s;
    DigitBack(b / 16);
    DigitBack(b % 16);
    assert b / 16 * 16 + b % 16 == b;
  }

  lemma {:induction false} UnHexBack(bs: seq<byte>)
    ensures UnHex(HexAll(bs)) == Some(bs)
    decreases |bs|
  {
    if |bs| > 0 {
      var n := |bs| - 1;
      UnHexBack(bs[..n]);
      UnHexByte(HexAll(bs[..n]), bs[..n], bs[n]);
      assert bs[..n] + [bs[n]] == bs;
    }
  }

  datatype Piece = Piece(address: nat, data: seq<byte>)

  function Address(bs: seq<byte>): nat
    requires |bs| == 4
  { ((bs[0] as int * 256 + bs[1]) * 256 + bs[2]) * 256 + bs[3] }

  /** The bytes of a line: as many as the first one says, which add up to 0xFF. */
  function LoadBytes(kind: char, bs: seq<byte>, ps: seq<Piece>): Option<seq<Piece>> {
    if |bs| == 0 || bs[0] != |bs| - 1 || Sum(bs) % 256 != 0xFF then None
    else if kind == '3' then if |bs| < 6 then None else Some(ps + [Piece(Address(bs[1..5]), bs[5..|bs| - 1])])
    else if kind == '0' || kind == '7' then Some(ps)
    else None
  }

  function LoadLine(line: string, ps: seq<Piece>): Option<seq<Piece>> {
    if |line| < 2 || line[0] != 'S' then None else
      match UnHex(line[2..])
      case None => None
      case Some(bs) => LoadBytes(line[1], bs, ps)
  }

  function LineEnd(text: string): (n: nat)
    ensures n <= |text|
  { if |text| == 0 || text[0] == '\n' then 0 else LineEnd(text[1..]) + 1 }

  /** A reader of S-records: the pieces of memory that it gets, after others. */
  function Load(text: string, ps: seq<Piece>): Option<seq<Piece>> {
    var n := LineEnd(text);
    if |text| == 0 then Some(ps)
    else if n == |text| then None
    else
      match LoadLine(text[..n], ps)
      case None => None
      case Some(ps') => Load(text[n + 1..], ps')
  }

  function Read(text: string, ps: seq<Piece>): Option<seq<Piece>> { Load(text, ps) }

  // ----- what is written is what is read -----

  function Line(kind: char, bs: seq<byte>): string { ['S', kind] + HexAll(bs) }

  lemma {:induction false} DigitsOnly(bs: seq<byte>, i: nat)
    requires i < |HexAll(bs)|
    ensures HexAll(bs)[i] != '\n' && HexAll(bs)[i] != '\0'
    decreases |bs|
  {
    var n := |bs| - 1;
    DigitBack(bs[n] / 16);
    DigitBack(bs[n] % 16);
    if i < 2 * n { DigitsOnly(bs[..n], i); }
  }

  lemma {:induction false} LineEndIs(line: string, rest: string)
    requires forall i {:trigger line[i]} :: 0 <= i < |line| ==> line[i] != '\n'
    ensures LineEnd(line + "\n" + rest) == |line|
    decreases |line|
  {
    var text := line + "\n" + rest;
    if |line| > 0 {
      assert text[1..] == line[1..] + "\n" + rest && text[0] == line[0];
      LineEndIs(line[1..], rest);
    } else {
      assert text[0] == '\n';
    }
  }

  lemma LineEnds(kind: char, bs: seq<byte>, rest: string)
    requires kind != '\n'
    ensures LineEnd(Line(kind, bs) + "\n" + rest) == |Line(kind, bs)|
  {
    var line := Line(kind, bs);
    forall i | 0 <= i < |line|
      ensures line[i] != '\n'
    {
      if i >= 2 { DigitsOnly(bs, i - 2); }
    }
    LineEndIs(line, rest);
  }

  /** The next line. */
  lemma LineLoads(kind: char, bs: seq<byte>, rest: string, ps: seq<Piece>)
    requires kind != '\n' && LoadBytes(kind, bs, ps).Some?
    ensures Read(Line(kind, bs) + "\n" + rest, ps) == Read(rest, LoadBytes(kind, bs, ps).value)
  {
    var line := Line(kind, bs);
    var text := line + "\n" + rest;
    LineEnds(kind, bs, rest);
    UnHexBack(bs);
    assert line[2..] == HexAll(bs);
    assert text[..|line|] == line && text[|line| + 1..] == rest;
  }

  lemma AddressBack(a: nat)
    requires a < 0x1_0000_0000
    ensures Address(AddressBytes(a)) == a
  {}

  lemma RecordLoads(address: nat, data: seq<byte>, rest: string, ps: seq<Piece>)
    requires |data| <= SREC_BYTES_PER_RECORD && address < 0x1_0000_0000
    ensures Read(Record(address, data) + rest, ps) == Read(rest, ps + [Piece(address, data)])
  {
    var bs := RecordBytes(address, data);
    RecordSums(address, data);
    AddressBack(address);
    assert bs[1..5] == AddressBytes(address) && bs[5..|bs| - 1] == data;
    LineLoads('3', bs, rest, ps);
    assert Record(address, data) + rest == Line('3', bs) + "\n" + rest;
  }

  /** The first and the last record have no data. */
  lemma StartLoads(rest: string, ps: seq<Piece>)
    ensures Read(SREC3_START + rest, ps) == Read(rest, ps)
  {
    var bs: seq<byte> := [3, 0, 0, 0xFC];
    assert SREC3_START == Line('0', bs) + "\n" by { StartIs(3, 0, 0, 0xFC); }
    assert LoadBytes('0', bs, ps) == Some(ps) by { SumFour(3, 0, 0, 0xFC); }
    LineLoads('0', bs, rest, ps);
  }

  lemma StartIs(a: byte, b: byte, c: byte, d: byte)
    requires a == 3 && b == c == 0 && d == 0xFC
    ensures SREC3_START == Line('0', [a, b, c, d]) + "\n"
  {
    HexFour(a, b, c, d);
  }

  lemma SumFour(a: byte, b: byte, c: byte, d: byte)
    ensures Sum([a, b, c, d]) == a as int + b + c + d
  {
    SumOne(a);
    SumAdds([a], [b]);
    SumOne(b);
    SumAdds([a] + [b], [c]);
    SumOne(c);
    SumAdds([a] + [b] + [c], [d]);
    SumOne(d);
    assert [a] + [b] + [c] + [d] == [a, b, c, d];
  }

  lemma SumSix(a: byte, b: byte, c: byte, d: byte, e: byte, f: byte)
    ensures Sum([a, b, c, d, e, f]) == a as int + b + c + d + e + f
  {
    SumFour(a, b, c, d);
    SumOne(e);
    SumAdds([a, b, c, d], [e]);
    SumOne(f);
    SumAdds([a, b, c, d] + [e], [f]);
    assert [a, b, c, d] + [e] + [f] == [a, b, c, d, e, f];
  }

  lemma HexSix(a: byte, b: byte, c: byte, d: byte, e: byte, f: byte)
    ensures HexAll([a, b, c, d, e, f]) == HexByte(a) + HexByte(b) + HexByte(c) + HexByte(d) + HexByte(e) + HexByte(f)
  {
    HexFour(a, b, c, d);
    HexOne(e);
    HexAdds([a, b, c, d], [e]);
    HexOne(f);
    HexAdds([a, b, c, d] + [e], [f]);
    assert [a, b, c, d] + [e] + [f] == [a, b, c, d, e, f];
  }

  lemma EndIs(a: byte, b: byte, c: byte, d: byte, e: byte, f: byte)
    requires a == 5 && b == c == d == e == 0 && f == 0xFA
    ensures SREC3_END == Line('7', [a, b, c, d, e, f]) + "\n"
  {
    HexSix(a, b, c, d, e, f);
  }

  lemma EndLoads(ps: seq<Piece>)
    ensures Read(SREC3_END, ps) == Some(ps)
  {
    var bs: seq<byte> := [5, 0, 0, 0, 0, 0xFA];
    assert SREC3_END == Line('7', bs) + "\n" by { EndIs(5, 0, 0, 0, 0, 0xFA); }
    assert LoadBytes('7', bs, ps) == Some(ps) by { SumSix(5, 0, 0, 0, 0, 0xFA); }
    LineLoads('7', bs, "", ps);
    assert Line('7', bs) + "\n" + "" == Line('7', bs) + "\n";
  }

  // ----- all records -----

  /** A record, whatever is before and after it, gives a piece. */
  ghost predicate Next(record: string, p: Piece, rest: string, ps: seq<Piece>) {
    Read(record + rest, ps) == Read(rest, ps + [p])
  }

  ghost predicate Gives(record: string, p: Piece) {
    forall rest, ps {:trigger Next(record, p, rest, ps)} :: Next(record, p, rest, ps)
  }

  lemma RecordGives(address: nat, data: seq<byte>)
    requires |data| <= SREC_BYTES_PER_RECORD && address < 0x1_0000_0000
    ensures Gives(Record(address, data), Piece(address, data))
  {
    forall rest: string, ps: seq<Piece>
      ensures Next(Record(address, data), Piece(address, data), rest, ps)
    {
      RecordLoads(address, data, rest, ps);
    }
  }

  lemma FirstLoads(record: string, rest: string, piece: Piece, ps: seq<Piece>)
    requires Gives(record, piece)
    ensures Read(record + rest + SREC3_END, ps) == Read(rest + SREC3_END, ps + [piece])
  {
    assert Next(record, piece, rest + SREC3_END, ps);
    assert record + rest + SREC3_END == record + (rest + SREC3_END);
  }

  lemma {:induction false} JoinLoads(records: seq<string>, pieces: seq<Piece>, ps: seq<Piece>)
    requires |records| == |pieces| && forall k {:trigger records[k]} :: 0 <= k < |records| ==>
      Gives(records[k], pieces[k])
    ensures Read(Join(records) + SREC3_END, ps) == Some(ps + pieces)
    decreases |records|
  {
    if |records| == 0 {
      EndLoads(ps);
      assert "" + SREC3_END == SREC3_END && ps + pieces == ps;
    } else {
      JoinLoads(records[1..], pieces[1..], ps + [pieces[0]]);
      FirstLoads(records[0], Join(records[1..]), pieces[0], ps);
      assert ps + [pieces[0]] + pieces[1..] == ps + pieces;
    }
  }

  function PieceAt(mem: seq<byte>, address: nat, count: nat, k: nat): Piece
    requires address + count <= |mem|
  { Piece(address + Cut(count, k), mem[address + Cut(count, k)..address + Cut(count, k + 1)]) }

  function Pieces(mem: seq<byte>, address: nat, count: nat): seq<Piece>
    requires address + count <= |mem|
  { seq(HowMany(count), k requires 0 <= k < HowMany(count) => PieceAt(mem, address, count, k)) }

  /** A reader gets exactly these pieces... */
  lemma LoadsBack(mem: seq<byte>, address: nat, count: nat)
    requires address + count <= |mem| <= 0x1_0000_0000
    ensures Read(Whole(Records(mem, address, count)), []) == Some(Pieces(mem, address, count))
  {
    var records, ps := Records(mem, address, count), Pieces(mem, address, count);
    forall k {:trigger records[k]} | 0 <= k < |records|
      ensures Gives(records[k], ps[k])
    {
      PieceGives(mem, address, count, k);
    }
    WholeLoads(records, ps);
  }

  lemma PieceGives(mem: seq<byte>, address: nat, count: nat, k: nat)
    requires address + count <= |mem| <= 0x1_0000_0000 && k < HowMany(count)
    ensures Gives(Records(mem, address, count)[k], Pieces(mem, address, count)[k])
  {
    var piece := PieceAt(mem, address, count, k);
    RecordGives(piece.address, piece.data);
  }

  lemma WholeLoads(records: seq<string>, ps: seq<Piece>)
    requires |records| == |ps| && forall k {:trigger records[k]} :: 0 <= k < |records| ==> Gives(records[k], ps[k])
    ensures Read(Whole(records), []) == Some(ps)
  {
    StartLoads(Join(records) + SREC3_END, []);
    JoinLoads(records, ps, []);
    assert SREC3_START + Join(records) + SREC3_END == SREC3_START + (Join(records) + SREC3_END) && [] + ps == ps;
  }

  /** What the pieces leave at an address. */
  function At(ps: seq<Piece>, a: nat): Option<byte> {
    if |ps| == 0 then None else
      var p := ps[|ps| - 1];
      if p.address <= a < p.address + |p.data| then Some(p.data[a - p.address]) else At(ps[..|ps| - 1], a)
  }

  /** ... which are the bytes of memory at their addresses, and nothing at others. */
  lemma {:induction false} PiecesAt(mem: seq<byte>, address: nat, count: nat, k: nat, a: nat)
    requires address + count <= |mem| && k <= HowMany(count)
    ensures At(Pieces(mem, address, count)[..k], a) == if address <= a < address + Cut(count, k) then Some(mem[a])
      else None
    decreases k
  {
    if k > 0 {
      PiecesAt(mem, address, count, k - 1, a);
      OnePiece(mem, address, count, k - 1, Pieces(mem, address, count)[..k], a);
    }
  }

  lemma OnePiece(mem: seq<byte>, address: nat, count: nat, k: nat, ps: seq<Piece>, a: nat)
    requires address + count <= |mem| && k < HowMany(count) && |ps| == k + 1 && ps[k] == PieceAt(mem, address, count, k)
    requires ps[..k] == Pieces(mem, address, count)[..k]
    ensures At(ps, a) ==
      if address + Cut(count, k) <= a < address + Cut(count, k + 1) then Some(mem[a])
        else At(Pieces(mem, address, count)[..k], a)
  {}

  lemma MemoryBack(mem: seq<byte>, address: nat, count: nat, a: nat)
    requires address + count <= |mem| <= 0x1_0000_0000
    ensures var o := Read(Whole(Records(mem, address, count)), []);
      o.Some? && At(o.value, a) == if address <= a < address + count then Some(mem[a]) else None
  {
    LoadsBack(mem, address, count);
    var ps := Pieces(mem, address, count);
    PiecesAt(mem, address, count, |ps|, a);
    assert ps[..|ps|] == ps;
  }
}
