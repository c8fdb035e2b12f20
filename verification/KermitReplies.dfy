/** The replies, put together in the buffer a_b. */
module KermitReplies {
  import opened Basics
  import opened ByteSums
  import opened KermitPackets
  import opened KermitProtocol

  const BUFFER_SIZE := 24

  /** The bytes from `first` up to the NUL at `last`. */
  ghost predicate TextAt(a: seq<byte>, first: nat, last: nat) {
    first <= last < |a| && a[last] == 0 && forall i {:trigger a[i]} :: first <= i < last ==> a[i] != 0
  }

  lemma SumNext(s: seq<byte>, first: nat, i: nat)
    requires first <= i < |s|
    ensures Sum(s[first..i + 1]) == Sum(s[first..i]) + s[i] as int
  {
    assert s[first..i + 1][..i - first] == s[first..i];
  }

  /** chk1, from index 1 on. */
  method Chk1(a: array<byte>, ghost last: nat) returns (c: int)
    requires TextAt(a[..], 1, last)
    ensures ToChar(c) == Check(Sum(a[1..last]))
  {
    var total: nat, i: nat := 0, 1;
    while a[i] != 0
      invariant 1 <= i <= last && total == Sum(a[1..i])
      decreases last - i
    {
      SumNext(a[..], 1, i);
      assert a[1..i + 1] == a[..][1..i + 1] && a[1..i] == a[..][1..i];
      total, i := total + a[i] as int, i + 1;
    }
    c := (total + total / 64 % 4) % 64;
  }

  /** The end of a reply: the NUL for chk1, the check in its place, the end of line and a NUL. */
  method Seal(a: array<byte>, length: nat, eol: byte)
    requires a.Length == BUFFER_SIZE && 3 <= length && length + 3 < BUFFER_SIZE && forall i {:trigger a[i]} ::
      0 <= i <= length ==> a[i] != 0
    modifies a
    ensures a[..length + 1] == old(a[..length + 1])
    ensures a[length + 1] == Check(Sum(old(a[1..length + 1]))) != 0 && a[length + 2] == eol && a[length + 3] == 0
  {
    ghost var was := a[..length + 1];
    a[length + 1] := 0;
    assert a[..length + 1] == was;
    var c := Chk1(a, length + 1);
    assert a[1..length + 1] == was[1..];
    a[length + 1] := ToChar(c);
    a[length + 2] := eol;
    a[length + 3] := 0;
    assert a[..length + 1] == was;
    CheckNotNul(Sum(was[1..]));
  }

  lemma CheckNotNul(sum: nat)
    ensures Check(sum) != 0
  {
    ToCharBack((sum + sum / 64 % 4) % 64);
  }

  /** s1_sendpacket: up to the NUL. */
  method ReadOut(a: array<byte>, ghost last: nat) returns (text: seq<byte>)
    requires TextAt(a[..], 0, last)
    ensures text == a[..last]
  {
    text := [];
    var i := 0;
    while a[i] != 0
      invariant i <= last && text == a[..i]
      decreases last - i
    {
      text, i := text + [a[i]], i + 1;
    }
  }

  /** send_pad */
  method Pad(count: int, c: byte) returns (text: seq<byte>)
    ensures text == Padding(count, c)
  {
    text := [];
    var left := count;
    while left > 0
      invariant left <= count && text == Padding(count - left, c) && (count <= 0 ==> left == count)
      invariant count > 0 ==> left >= 0
      decreases left
    {
      text, left := text + [c], left - 1;
    }
  }

  /** The first bytes of the buffer are the body of the reply. */
  ghost predicate Started(a: seq<byte>, n: int, typ: byte, data: seq<byte>) {
    && |a| == BUFFER_SIZE && |data| + 7 <= BUFFER_SIZE && a[0] == START_CHAR
    && a[1..|data| + 4] == [ToChar(|data| + 3), ToChar(n), typ] + data
  }

  lemma StartedText(a: seq<byte>, n: int, typ: byte, data: seq<byte>)
    requires Started(a, n, typ, data) && 0 <= n < 224 && typ != 0 && forall i {:trigger data[i]} :: 0 <= i < |data| ==>
      data[i] != 0
    ensures forall i {:trigger a[i]} :: 0 <= i <= |data| + 3 ==> a[i] != 0
  {
    ToCharBack(n);
    ToCharBack(|data| + 3);
    var body := [ToChar(|data| + 3), ToChar(n), typ] + data;
    forall i {:trigger a[i]} | 0 <= i <= |data| + 3 ensures a[i] != 0 {
      if i > 0 { assert a[i] == a[1..|data| + 4][i - 1] == body[i - 1]; }
    }
  }

  /** What is read out of a sealed buffer is the reply. */
  lemma SealedIs(was: seq<byte>, a: seq<byte>, n: int, typ: byte, data: seq<byte>, eol: byte) returns (last: nat)
    requires Started(was, n, typ, data) && 0 <= n < 224 && typ != 0 && forall i {:trigger data[i]} ::
      0 <= i < |data| ==> data[i] != 0
    requires |a| == BUFFER_SIZE && a[..|data| + 4] == was[..|data| + 4]
      && a[|data| + 4] == Check(Sum(was[1..|data| + 4])) != 0
    requires a[|data| + 5] == eol && a[|data| + 6] == 0
    ensures TextAt(a, 0, last) && a[..last] == Reply(n, typ, data, eol)
  {
    StartedText(was, n, typ, data);
    last := if eol == 0 then |data| + 5 else |data| + 6;
    forall i {:trigger a[i]} | 0 <= i < last ensures a[i] != 0 {
      if i < |data| + 4 { assert a[i] == a[..|data| + 4][i] == was[..|data| + 4][i]; }
    }
    assert a[..|data| + 4] == [a[0]] + a[1..|data| + 4] && a[1..|data| + 4] == was[1..|data| + 4];
    assert a[..last] == a[..|data| + 4] + [a[|data| + 4]] + (if eol == 0 then [] else [eol]);
  }

  method Finish(a: array<byte>, length: nat, n: int, typ: byte, eol: byte, ghost data: seq<byte>)
    returns (text: seq<byte>)
    requires Started(a[..], n, typ, data) && length == |data| + 3 && 0 <= n < 224 && typ != 0
    requires forall i {:trigger data[i]} :: 0 <= i < |data| ==> data[i] != 0
    modifies a
    ensures text == Reply(n, typ, data, eol)
  {
    ghost var was := a[..];
    StartedText(was, n, typ, data);
    Seal(a, length, eol);
    assert was[..length + 1] == a[..length + 1] && was[1..length + 1] == was[..length + 1][1..];
    ghost var last := SealedIs(was, a[..], n, typ, data, eol);
    text := ReadOut(a, last);
  }

  /** send_ack and send_nack */
  method BuildReply(n: int, typ: byte, eol: byte) returns (text: seq<byte>)
    requires 0 <= n < 224 && typ != 0
    ensures text == Reply(n, typ, [], eol)
  {
    var a := new byte[BUFFER_SIZE](_ => 0);
    a[0], a[1], a[2], a[3] := START_CHAR, ToChar(3), ToChar(n), typ;
    text := Finish(a, 3, n, typ, eol, []);
  }

  /** The parameters of handle_send_packet: one for each of the first nine that are asked for, and four for the tenth.
      */
  method PutAnswers(a: array<byte>, bytes: nat) returns (length: nat)
    requires a.Length == BUFFER_SIZE
    modifies a
    ensures length == |OurParameters(bytes)| + 3 <= 16 && a[4..length + 1] == OurParameters(bytes)
  {
    var all := OurParameters(10);
    length := 3;
    while length - 3 < bytes && length < 12
      invariant 3 <= length <= 12 && length - 3 <= bytes
      invariant a[4..length + 1] == all[..length - 3]
    {
      length := length + 1;
      a[length] := all[length - 4];
      assert a[4..length + 1] == a[4..length] + [a[length]];
      assert all[..length - 3] == all[..length - 4] + [all[length - 4]];
    }
    if bytes > 9 {
      a[13], a[14], a[15], a[16] := all[9], all[10], all[11], all[12];
      length := 16;
      assert a[4..17] == a[4..13] + [a[13], a[14], a[15], a[16]];
      assert all == all[..9] + [all[9], all[10], all[11], all[12]];
    }
    assert OurParameters(bytes) == all[..length - 3];
  }

  /** The acknowledgement of handle_send_packet. */
  method BuildAnswer(n: int, bytes: nat, eol: byte) returns (text: seq<byte>)
    requires 0 <= n < 224
    ensures text == Reply(n, ACK_TYPE, OurParameters(bytes), eol)
  {
    var a := new byte[BUFFER_SIZE](_ => 0);
    var length := PutAnswers(a, bytes);
    ghost var data := OurParameters(bytes);
    assert a[4..length + 1] == data;
    a[0], a[1], a[2], a[3] := START_CHAR, ToChar(length), ToChar(n), ACK_TYPE;
    assert a[4..length + 1] == data;
    assert a[1..length + 1] == [ToChar(length), ToChar(n), ACK_TYPE] + a[4..length + 1];
    AnswersNotNul(bytes);
    text := Finish(a, length, n, ACK_TYPE, eol, data);
  }

  lemma AnswersNotNul(n: nat)
    ensures var data := OurParameters(n); forall i {:trigger data[i]} :: 0 <= i < |data| ==> data[i] != 0
  {
    ToCharBack(94);
    ToCharBack(2);
    ToCharBack(13);
  }
}
