/** save_serial: the loop that collects memory and writes S-records. */
module SaveSerial {
  import opened Basics
  import opened ByteSums
  import opened SRecords

  /** A string ends at its NUL. */
  function CString(s: seq<char>): string { if |s| == 0 || s[0] == '\0' then "" else [s[0]] + CString(s[1..]) }

  lemma {:induction false} CStringIs(s: seq<char>, n: nat)
    requires n < |s| && s[n] == '\0' && forall i {:trigger s[i]} :: 0 <= i < n ==> s[i] != '\0'
    ensures CString(s) == s[..n]
    decreases n
  {
    if n > 0 {
      CStringIs(s[1..], n - 1);
      assert s[..n] == [s[0]] + s[1..][..n - 1];
    }
  }

  /** Byte i of a number: (v >> (8*i)) & 0xff. */
  function ByteOf(v: nat, i: nat): byte { if i == 0 then v % 256 else ByteOf(v / 256, i - 1) }

  function SumOfBytes(v: nat, n: nat): nat { if n == 0 then 0 else SumOfBytes(v, n - 1) + ByteOf(v, n - 1) }

  lemma {:induction false} SumFirst(v: nat, n: nat)
    ensures SumOfBytes(v, n + 1) == v % 256 + SumOfBytes(v / 256, n)
  {
    if n > 0 { SumFirst(v, n - 1); }
  }

  lemma SumOfTwo(v: nat, n: nat)
    requires v < 256 && n == 0
    ensures SumOfBytes(v, n + 2) == v
  {
    SumFirst(v, n + 1);
    SumFirst(v / 256, n);
  }

  lemma SumOfFour(v: nat, n: nat)
    requires n == 0
    ensures SumOfBytes(v, n + 4) == Sum(AddressBytes(v))
  {
    SumFirst(v, n + 3);
    SumFirst(v / 256, n + 2);
    SumFirst(v / 256 / 256, n + 1);
    SumFirst(v / 256 / 256 / 256, n);
    SumFour(v / 256 / 256 / 256 % 256, v / 256 / 256 % 256, v / 256 % 256, v % 256);
  }

  // named, so that the verifier does not compute with them
  const TWO: nat := 2
  const FOUR: nat := 4
  const EIGHT: nat := 8

  /** What sprintf makes of SREC3_FORMAT, S3%02X%08lX%s%02X. */
  function Format(length: nat, address: nat, data: string, checksum: nat): string {
    "S3" + Hex(length, TWO) + Hex(address, EIGHT) + data + Hex(checksum, TWO) + "\n"
  }

  lemma HexIs(b: byte)
    ensures Hex(b, TWO) == HexAll([b])
  {
    HexLast(b, TWO - 2);
    var c := b % 256;
    assert c == b;
    HexOne(b);
  }

  lemma SummedTotal(address: nat, data: seq<byte>)
    requires |data| <= SREC_BYTES_PER_RECORD
    ensures Sum(Summed(address, data)) == |data| + 5 + Sum(AddressBytes(address)) + Sum(data)
  {
    var length: byte := |data| + 5;
    SumOne(length);
    SumAdds([length], AddressBytes(address));
    SumAdds([length] + AddressBytes(address), data);
  }

  lemma RecordParts(address: nat, data: seq<byte>, length: byte, checksum: byte)
    requires |data| <= SREC_BYTES_PER_RECORD && length == |data| + 5
    requires checksum == 255 - (|data| + 5 + Sum(AddressBytes(address)) + Sum(data)) % 256
    ensures Record(address, data) ==
      "S3" + (HexAll([length]) + HexAll(AddressBytes(address)) + HexAll(data) + HexAll([checksum])) + "\n"
  {
    SummedTotal(address, data);
    BytesAre(address, data, length, checksum, |data| + 5 + Sum(AddressBytes(address)) + Sum(data));
    RecordHex(length, AddressBytes(address), data, checksum);
  }

  lemma BytesAre(address: nat, data: seq<byte>, length: byte, checksum: byte, total: nat)
    requires |data| <= SREC_BYTES_PER_RECORD && length == |data| + 5 && total == Sum(Summed(address, data))
    requires checksum == 255 - total % 256
    ensures RecordBytes(address, data) == [length] + AddressBytes(address) + data + [checksum]
  {}

  lemma Regroup(l: string, a: string, d: string, c: string)
    ensures "S3" + (l + a + d + c) + "\n" == "S3" + l + a + d + c + "\n"
  {}

  lemma FormatParts(l: byte, address: nat, data: string, c: byte)
    requires address < 0x1_0000_0000
    ensures Format(l, address, data, c) == "S3" + HexAll([l]) + HexAll(AddressBytes(address)) + data + HexAll([c])
      + "\n"
  {
    HexIs(l);
    HexIs(c);
    HexAddress(address, EIGHT - 8);
  }

  lemma FormatIs(address: nat, data: seq<byte>, checksum: byte)
    requires |data| <= SREC_BYTES_PER_RECORD && address < 0x1_0000_0000
    requires checksum == 255 - (|data| + 5 + Sum(AddressBytes(address)) + Sum(data)) % 256
    ensures Format(|data| + 5, address, HexAll(data), checksum) == Record(address, data)
  {
    var length: byte := |data| + 5;
    RecordParts(address, data, length, checksum);
    Regroup(HexAll([length]), HexAll(AddressBytes(address)), HexAll(data), HexAll([checksum]));
    FormatParts(length, address, HexAll(data), checksum);
  }

  lemma RecordHex(length: byte, a: seq<byte>, data: seq<byte>, checksum: byte)
    ensures HexAll([length] + a + data + [checksum]) == HexAll([length]) + HexAll(a) + HexAll(data) + HexAll([checksum])
  {
    HexAdds([length], a);
    HexAdds([length] + a, data);
    HexAdds([length] + a + data, [checksum]);
  }

  lemma {:induction false} JoinAdds(records: seq<string>, r: string)
    ensures Join(records + [r]) == Join(records) + r
    decreases |records|
  {
    if |records| > 0 {
      JoinAdds(records[1..], r);
      assert (records + [r])[1..] == records[1..] + [r];
    } else {
      assert ([] + [r])[1..] == [] && Join([]) == "";
    }
  }

  lemma JoinNext(records: seq<string>, k: nat)
    requires k < |records|
    ensures Join(records[..k + 1]) == Join(records[..k]) + records[k]
  {
    JoinAdds(records[..k], records[k]);
    assert records[..k + 1] == records[..k] + [records[k]];
  }

  /** What has been written after the first n + 1 records, the header being the first and the end the last. */
  function Written(records: seq<string>, n: nat): string {
    if n <= |records| then SREC3_START + Join(records[..n]) else Whole(records)
  }

  /** The bytes of a number are added to the checksum. */
  method AddBytes(checksum: nat, v: nat, n: nat) returns (sum: nat)
    ensures sum == checksum + SumOfBytes(v, n)
  {
    sum := checksum;
    for i := 0 to n
      invariant sum == checksum + SumOfBytes(v, i)
    {
      sum := sum + ByteOf(v, i);
    }
  }

  /** The buffer for the hex data. */
  ghost predicate Collected(buffer: seq<char>, bs: seq<byte>) {
    |buffer| == 2 * SREC_BYTES_PER_RECORD + 1 && |bs| <= SREC_BYTES_PER_RECORD && buffer[..2 * |bs|] == HexAll(bs)
  }

  lemma CollectedNext(buffer: seq<char>, buffer': seq<char>, bs: seq<byte>, c: byte)
    requires Collected(buffer, bs) && |buffer'| == |buffer| && |bs| < SREC_BYTES_PER_RECORD
    requires buffer'[..2 * |bs|] == buffer[..2 * |bs|] && buffer'[2 * |bs|] == HexDigit(c / 16)
      && buffer'[2 * |bs| + 1] == HexDigit(c % 16)
    ensures Collected(buffer', bs + [c])
  {
    assert (bs + [c])[..|bs|] == bs;
    assert buffer'[..2 * |bs| + 2] == buffer[..2 * |bs|] + HexByte(c);
  }

  /** One byte, as two digits and a NUL. */
  method Collect(buffer: array<char>, reclen: nat, c: byte, ghost bs: seq<byte>)
    requires Collected(buffer[..], bs) && reclen == |bs| < SREC_BYTES_PER_RECORD
    modifies buffer
    ensures Collected(buffer[..], bs + [c]) && buffer[2 * reclen + 2] == '\0'
  {
    ghost var was := buffer[..];
    buffer[2 * reclen] := HexDigit(c / 16);
    buffer[2 * reclen + 1] := HexDigit(c % 16);
    buffer[2 * reclen + 2] := '\0';
    CollectedNext(was, buffer[..], bs, c);
  }

  /** Build a data record. */
  method Build(buffer: array<char>, reclen: nat, address: nat, sum: nat, ghost bs: seq<byte>) returns (record: string)
    requires Collected(buffer[..], bs) && reclen == |bs| && buffer[2 * reclen] == '\0' && sum == Sum(bs)
      && address < 0x1_0000_0000
    ensures record == Record(address, bs) && |record| + 1 <= 2 * SREC_BYTES_PER_RECORD + 16
  {
    var length := 4 + reclen + 1;
    var checksum := AddBytes(sum, length, TWO);
    checksum := AddBytes(checksum, address, FOUR);
    checksum := 255 - checksum % 256;              // ~checksum & 0xff
    SumOfTwo(length, TWO - 2);
    SumOfFour(address, FOUR - 4);
    record := Format(length, address, CString(buffer[..]), checksum);
    HexString(buffer[..], bs);
    FormatIs(address, bs, checksum);
    RecordSums(address, bs);
  }

  lemma HexString(buffer: seq<char>, bs: seq<byte>)
    requires Collected(buffer, bs) && buffer[2 * |bs|] == '\0'
    ensures CString(buffer) == HexAll(bs)
  {
    forall i {:trigger buffer[i]} | 0 <= i < 2 * |bs|
      ensures buffer[i] != '\0'
    {
      DigitsOnly(bs, i);
      assert buffer[i] == buffer[..2 * |bs|][i];
    }
    CStringIs(buffer, 2 * |bs|);
  }

  /** Where the loop is: k records have been written, and there are so many bytes in the buffer. */
  ghost predicate Position(count0: nat, count: nat, k: nat, reclen: nat) {
    Cut(count0, k) + reclen + count == count0 && reclen < SREC_BYTES_PER_RECORD && k <= HowMany(count0)
  }

  lemma PositionNext(count0: nat, count: nat, k: nat, reclen: nat)
    requires Position(count0, count, k, reclen) && count > 0
    ensures k < HowMany(count0) && Cut(count0, k) == SREC_BYTES_PER_RECORD * k
    ensures reclen + 1 == SREC_BYTES_PER_RECORD || count == 1 ==>
      Cut(count0, k + 1) == Cut(count0, k) + reclen + 1 && Position(count0, count - 1, k + 1, 0)
    ensures !(reclen + 1 == SREC_BYTES_PER_RECORD || count == 1) ==> Position(count0, count - 1, k, reclen + 1)
  {}

  lemma PositionDone(count0: nat, k: nat)
    requires Position(count0, 0, k, 0)
    ensures k == HowMany(count0)
  {}

  lemma OneMore(mem: seq<byte>, a: nat, n: nat)
    requires a + n < |mem|
    ensures mem[a..a + n + 1] == mem[a..a + n] + [mem[a + n]]
      && Sum(mem[a..a + n + 1]) == Sum(mem[a..a + n]) + mem[a + n]
  {
    assert mem[a..a + n + 1] == mem[a..a + n] + [mem[a + n]];
    assert (mem[a..a + n] + [mem[a + n]])[..n] == mem[a..a + n];
  }

  /** The buffer and the checksum after so many bytes. */
  ghost predicate Gathered(buffer: seq<char>, sum: nat, mem: seq<byte>, address: nat, reclen: nat) {
    address + reclen <= |mem| && Collected(buffer, mem[address..address + reclen])
      && sum == Sum(mem[address..address + reclen])
  }

  method Gather(mem: array<byte>, buffer: array<char>, address: nat, reclen: nat, sum: nat) returns (sum': nat)
    requires address + reclen < mem.Length && reclen < SREC_BYTES_PER_RECORD
      && Gathered(buffer[..], sum, mem[..], address, reclen)
    modifies buffer
    ensures Gathered(buffer[..], sum', mem[..], address, reclen + 1) && buffer[2 * reclen + 2] == '\0'
  {
    var c := mem[address + reclen];
    sum' := sum + c;
    Collect(buffer, reclen, c, mem[address..address + reclen]);
    assert mem[..][address..address + reclen] == mem[address..address + reclen];
    OneMore(mem[..], address, reclen);
  }

  lemma WrittenNext(mem: seq<byte>, address: nat, count: nat, k: nat, a: nat, data: seq<byte>)
    requires address + count <= |mem| && k < HowMany(count) && a == address + Cut(count, k)
    requires data == mem[a..address + Cut(count, k + 1)] && |data| <= SREC_BYTES_PER_RECORD
    ensures Written(Records(mem, address, count), k + 1) ==
      Written(Records(mem, address, count), k) + Record(a, data)
  {
    assert Records(mem, address, count)[k] == Record(a, data);
    OneMoreWritten(Records(mem, address, count), k, Record(a, data));
  }

  lemma OneMoreWritten(records: seq<string>, k: nat, record: string)
    requires k < |records| && records[k] == record
    ensures Written(records, k + 1) == Written(records, k) + record
  {
    JoinNext(records, k);
    Associates(SREC3_START, Join(records[..k]), record);
  }

  lemma Associates(x: string, y: string, z: string)
    ensures x + (y + z) == x + y + z
  {}

  /** Where the loop is, and what it has in its buffer. */
  ghost predicate Going(mem: seq<byte>, address0: nat, count0: nat, buffer: seq<char>, k: nat, address: nat, count: nat,
                        reclen: nat, sum: nat) {
    && address0 + count0 <= |mem| <= 0x1_0000_0000
    && Position(count0, count, k, reclen) && address == address0 + Cut(count0, k)
    && Gathered(buffer, sum, mem, address, reclen)
  }

  /** Record k is in the buffer, with its NUL. */
  ghost predicate Ready(mem: seq<byte>, address0: nat, count0: nat, buffer: seq<char>, k: nat, address: nat,
                        reclen: nat, sum: nat) {
    && address0 + count0 <= |mem| <= 0x1_0000_0000 && k < HowMany(count0)
    && address == address0 + Cut(count0, k) && address + reclen == address0 + Cut(count0, k + 1) && reclen > 0
    && Gathered(buffer, sum, mem, address, reclen) && buffer[2 * reclen] == '\0'
  }

  lemma StartOf(mem: seq<byte>, address0: nat, count0: nat, buffer: seq<char>, k: nat, address: nat, count: nat)
    requires address0 + count0 <= |mem| <= 0x1_0000_0000 && |buffer| == 2 * SREC_BYTES_PER_RECORD + 1
    requires Position(count0, count, k, 0) && address == address0 + Cut(count0, k)
    ensures Going(mem, address0, count0, buffer, k, address, count, 0, 0)
  {
    assert mem[address..address + 0] == [];
  }

  /** Get one byte. */
  method Get(mem: array<byte>, buffer: array<char>, address: nat, count: nat, reclen: nat, sum: nat,
             ghost address0: nat, ghost count0: nat, ghost k: nat)
    returns (sum': nat)
    requires Going(mem[..], address0, count0, buffer[..], k, address, count, reclen, sum) && count > 0
    modifies buffer
    ensures if reclen + 1 == SREC_BYTES_PER_RECORD || count == 1
      then Ready(mem[..], address0, count0, buffer[..], k, address, reclen + 1, sum')
        && Position(count0, count - 1, k + 1, 0)
      else Going(mem[..], address0, count0, buffer[..], k, address, count - 1, reclen + 1, sum')
  {
    PositionNext(count0, count, k, reclen);
    sum' := Gather(mem, buffer, address, reclen, sum);
  }

  /** A record that is dumped is the next one. */
  method Dump(mem: array<byte>, buffer: array<char>, address: nat, reclen: nat, sum: nat, out: string,
              ghost address0: nat, ghost count0: nat, ghost k: nat, ghost count: nat)
    returns (out': string)
    requires Ready(mem[..], address0, count0, buffer[..], k, address, reclen, sum)
    requires out == Written(Records(mem[..], address0, count0), k) && Position(count0, count, k + 1, 0)
    ensures out' == Written(Records(mem[..], address0, count0), k + 1)
    ensures Going(mem[..], address0, count0, buffer[..], k + 1, address + reclen, count, 0, 0)
  {
    ghost var bytes, data := mem[..], mem[address..address + reclen];
    assert data == bytes[address..address + reclen];
    StartOf(bytes, address0, count0, buffer[..], k + 1, address + reclen, count);
    var record := Build(buffer, reclen, address, sum, data);
    out' := out + record;
    WrittenNext(bytes, address0, count0, k, address, data);
  }

  lemma WrittenLast(records: seq<string>, n: nat)
    requires n > |records|
    ensures Written(records, n) == Written(records, |records|) + SREC3_END
  {
    assert records[..|records|] == records;
  }

  /** The loop; k counts the data records. It stops when the console has been interrupted. */
  method SaveData(mem: array<byte>, buffer: array<char>, address0: nat, count0: nat, calm: nat)
    returns (ok: bool, out: string)
    requires address0 + count0 <= mem.Length <= 0x1_0000_0000 && calm > 0
      && buffer.Length == 2 * SREC_BYTES_PER_RECORD + 1
    modifies buffer
    ensures ok <==> calm > HowMany(count0)
    ensures out == Written(Records(mem[..], address0, count0), if ok then HowMany(count0) else calm)
  {
    var address, count, reclen, sum, k, more := address0, count0, 0, 0, 0, true;
    out := SREC3_START;
    StartOf(mem[..], address0, count0, buffer[..], k, address, count);
    while more
      invariant Going(mem[..], address0, count0, buffer[..], k, address, count, reclen, sum)
      invariant k < calm && out == Written(Records(mem[..], address0, count0), k)
      invariant (count == 0 ==> reclen == 0) && (!more ==> count == 0)
      decreases more, count
    {
      if count != 0 {
        sum := Get(mem, buffer, address, count, reclen, sum, address0, count0, k);
        reclen, count := reclen + 1, count - 1;
      }
      if reclen == SREC_BYTES_PER_RECORD || count == 0 {
        if reclen != 0 {
          out := Dump(mem, buffer, address, reclen, sum, out, address0, count0, k, count);
          k := k + 1;
          if calm == k { return false, out; }
        }
        address, sum, reclen := address + reclen, 0, 0;
      }
      more := count != 0;
    }
    PositionDone(count0, k);
    ok := true;
  }

  /** The header, the records of memory, and the end; as far as the console lets us. */
  method Save(mem: array<byte>, address: nat, count: nat, calm: nat) returns (ok: bool, out: string)
    requires address + count <= mem.Length <= 0x1_0000_0000
    ensures ok <==> calm > HowMany(count) + 1
    ensures out == Written(Records(mem[..], address, count), calm)
  {
    if calm == 0 { return false, SREC3_START; }
    var buffer := new char[2 * SREC_BYTES_PER_RECORD + 1](_ => ' ');
    ok, out := SaveData(mem, buffer, address, count, calm);
    if ok {
      WrittenLast(Records(mem[..], address, count), calm);
      out := out + SREC3_END;
      ok := calm != HowMany(count) + 1;
    }
  }

  // ----- two bytes, in all their characters -----

  lemma ExampleSum(a: byte, b: byte, c: byte, d: byte, e: byte, x: byte, y: byte)
    ensures Sum([a] + [b, c, d, e] + [x, y]) == a as int + b + c + d + e + x + y
  {
    SumOne(a);
    SumFour(b, c, d, e);
    SumAdds([a], [b, c, d, e]);
    SumOne(x);
    SumAdds([x], [y]);
    SumOne(y);
    assert [x] + [y] == [x, y];
    SumAdds([a] + [b, c, d, e], [x, y]);
  }

  lemma ExampleBytes(data: seq<byte>, a: byte, b: byte, c: byte, d: byte, e: byte, f: byte, g: byte, h: byte)
    requires data == [f, g] && f == 171 && g == 12 && a == 7 && b == c == d == 0 && e == 1 && h == 64
    ensures RecordBytes(1, data) == [a] + [b, c, d, e] + data + [h]
  {
    assert AddressBytes(1) == [b, c, d, e];
    assert Summed(1, data) == [a] + [b, c, d, e] + data;
    ExampleSum(a, b, c, d, e, f, g);
  }

  lemma ExampleRecord(data: seq<byte>, a: byte, b: byte, c: byte, d: byte, e: byte, f: byte, g: byte, h: byte)
    requires data == [f, g] && f == 171 && g == 12 && a == 7 && b == c == d == 0 && e == 1 && h == 64
    ensures Record(1, data) == "S3" + "07" + "00000001" + "AB0C" + "40" + "\n"
  {
    ExampleBytes(data, a, b, c, d, e, f, g, h);
    RecordHex(a, [b, c, d, e], data, h);
    HexFour(b, c, d, e);
    HexOne(a);
    HexOne(h);
    HexOne(f);
    HexOne(g);
    HexAdds([f], [g]);
    assert [f] + [g] == data;
    Regroup("07", "00000001", "AB0C", "40");
  }

  /** The bytes AB and 0C, at address 1. */
  method SaveExample(mem: array<byte>) returns (ok: bool, out: string)
    requires mem.Length == 3 && mem[1] == 0xAB && mem[2] == 0x0C
    ensures ok && out == "S0030000FC\n" + "S30700000001AB0C40\n" + "S70500000000FA\n"
  {
    ghost var data := mem[..][1..3];
    assert data == [171, 12];
    ExampleRecord(data, 7, 0, 0, 0, 1, 171, 12, 64);
    OneRecord(mem[..], data);
    ok, out := Save(mem, 1, 2, 3);
  }

  lemma OneRecord(mem: seq<byte>, data: seq<byte>)
    requires |mem| == 3 && data == mem[1..3]
    ensures HowMany(2) == 1 && Written(Records(mem, 1, 2), 3) == SREC3_START + Record(1, data) + SREC3_END
  {
    var records := Records(mem, 1, 2);
    assert Cut(2, 0) == 0 && Cut(2, 1) == 2;
    assert records == [Record(1, data)];
    assert records[1..] == [] && Join(records[1..]) == "";
    assert Join(records) == Record(1, data) + "";
  }
}
