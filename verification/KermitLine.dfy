/** From the bytes on the line to the file in memory. */
module KermitLine {
  import opened Basics
  import opened ByteSums
  import opened KermitPackets
  import opened KermitProtocol
  import opened KermitReceiver

  ghost predicate Stands(line: seq<byte>, i: nat, s: seq<byte>) {
    i + |s| <= |line| && forall l {:trigger line[l]} :: i <= l < i + |s| ==> line[l] == s[l - i]
  }

  /** A packet (section 6.1): what follows the start character up to the data, the data, the block check, the end of
      line. */
  function Framed(head: seq<byte>, data: seq<byte>): seq<byte> { WithCheck(head, data, Check(Sum(head + data))) }

  function WithCheck(head: seq<byte>, data: seq<byte>, check: byte): seq<byte> {
    [START_CHAR] + (head + data) + [check, END_CHAR]
  }

  function ShortHead(n: int, typ: byte, length: nat): seq<byte> { [ToChar(length + 3), ToChar(n), typ] }

  /** A long packet has a zero for its length, and two more characters for the length, with a check. */
  function LongHead(n: int, typ: byte, length: nat): seq<byte> {
    var h := [ToChar(0), ToChar(n), typ, ToChar((length + 1) / 95), ToChar((length + 1) % 95)];
    h + [Check(Sum(h))]
  }

  function ShortPacket(n: int, typ: byte, data: seq<byte>): seq<byte> { Framed(ShortHead(n, typ, |data|), data) }

  function LongPacket(n: int, typ: byte, data: seq<byte>): seq<byte> { Framed(LongHead(n, typ, |data|), data) }

  /** Our replies have the form of packets, too. */
  lemma ReplyIsPacket(n: int, typ: byte, data: seq<byte>)
    ensures Reply(n, typ, data, END_CHAR) == ShortPacket(n, typ, data)
  {}

  lemma FramedIs(line: seq<byte>, i: nat, head: seq<byte>, data: seq<byte>, sum: nat)
    requires Stands(line, i, Framed(head, data)) && sum == Sum(head + data)
    ensures Stands(line, i, [START_CHAR]) && Stands(line, i + 1, head) && Stands(line, i + 1 + |head|, data)
    ensures i + |head| + |data| + 3 <= |line| && line[i + |head| + |data| + 1] == Check(sum)
      && line[i + |head| + |data| + 2] == END_CHAR
  {
    FrameParts(line, i, head, data, Check(sum));
  }

  lemma FrameParts(line: seq<byte>, i: nat, head: seq<byte>, data: seq<byte>, c: byte)
    requires Stands(line, i, WithCheck(head, data, c))
    ensures Stands(line, i, [START_CHAR]) && Stands(line, i + 1, head) && Stands(line, i + 1 + |head|, data)
    ensures i + |head| + |data| + 3 <= |line| && line[i + |head| + |data| + 1] == c
      && line[i + |head| + |data| + 2] == END_CHAR
  {
    var body := head + data;
    Apart(line, i, [START_CHAR] + body, [c, END_CHAR]);
    Apart(line, i, [START_CHAR], body);
    Apart(line, i + 1, head, data);
    StandsAt(line, i + 1 + |body|, [c, END_CHAR], 0);
    StandsAt(line, i + 1 + |body|, [c, END_CHAR], 1);
  }

  lemma Apart(line: seq<byte>, i: nat, s: seq<byte>, t: seq<byte>)
    requires Stands(line, i, s + t)
    ensures Stands(line, i, s) && Stands(line, i + |s|, t)
  {}

  lemma StandsAt(line: seq<byte>, i: nat, s: seq<byte>, l: nat)
    requires Stands(line, i, s) && l < |s|
    ensures i + l < |line| && line[i + l] == s[l]
  {}

  ghost predicate AllPrintable(s: seq<byte>) { forall i {:trigger s[i]} :: 0 <= i < |s| ==> Printable(s[i]) }

  /** The first j characters of the data. */
  lemma {:induction false} BodyReads(line: seq<byte>, i: nat, n: int, typ: byte, sum: nat, data: seq<byte>, j: nat)
    requires Stands(line, i, data) && AllPrintable(data) && j <= |data|
    ensures Body(line, i, n, typ, |data| + 1, sum, []) ==
      Body(line, i + j, n, typ, |data| + 1 - j, sum + Sum(data[..j]), data[..j])
    decreases j
  {
    if j > 0 {
      BodyReads(line, i, n, typ, sum, data, j - 1);
      assert data[..j][..j - 1] == data[..j - 1] && data[..j] == data[..j - 1] + [data[j - 1]];
      assert line[i + j - 1] == data[j - 1];
    }
  }

  /** The data, the check and the end. */
  lemma BodyParses(line: seq<byte>, i: nat, n: int, typ: byte, sum: nat, data: seq<byte>, total: nat)
    requires Stands(line, i, data) && AllPrintable(data) && total == sum + Sum(data)
    requires i + |data| + 2 <= |line| && line[i + |data|] == Check(total) && line[i + |data| + 1] == END_CHAR
    ensures Body(line, i, n, typ, |data| + 1, sum, []) == Ended(Packet(n, typ, data, true), i + |data| + 2)
  {
    BodyReads(line, i, n, typ, sum, data, |data|);
    assert data[..|data|] == data;
  }

  /** Where nothing but what comes between packets is before it. */
  lemma {:induction false} NoiseSkipped(line: seq<byte>, at: nat, i: nat)
    requires at <= i < |line| && line[i] == START_CHAR
    requires forall l {:trigger line[l]} :: at <= l < i ==> line[l] != START_CHAR
    ensures AfterStart(line, at) == i + 1
    decreases i - at
  {
    if at < i { NoiseSkipped(line, at + 1, i); }
  }

  lemma SumThree(a: byte, b: byte, c: byte)
    ensures Sum([a, b, c]) == a as int + b + c
  {
    SumOne(a);
    SumAdds([a], [b]);
    SumOne(b);
    assert [a] + [b] == [a, b];
    SumAdds([a, b], [c]);
    SumOne(c);
    assert [a, b] + [c] == [a, b, c];
  }

  lemma ShortHeader(line: seq<byte>, i: nat, n: int, typ: byte, length: nat)
    requires i + 4 < |line| && line[i + 1] == length + 35 && line[i + 2] == n + 32 && line[i + 3] == typ
    requires 0 <= n < 64 && length <= 91 && Printable(typ)
    ensures Header(line, i + 1) == Body(line, i + 4, n, typ, length + 1, length + 35 + (n + 32) + typ, [])
  {
    assert Header(line, i + 1) == TypeField(line, i + 3, n, length + 2, length + 35 + (n + 32));
  }

  lemma ShortHeaderAt(line: seq<byte>, i: nat, n: int, typ: byte, length: nat)
    requires Stands(line, i + 1, ShortHead(n, typ, length)) && i + 4 < |line|
    requires 0 <= n < 64 && length <= 91 && Printable(typ)
    ensures Header(line, i + 1) == Body(line, i + 4, n, typ, length + 1, Sum(ShortHead(n, typ, length)), [])
  {
    var head := ShortHead(n, typ, length);
    SumThree(head[0], head[1], typ);
    assert line[i + 1] == head[0] && line[i + 2] == head[1] && line[i + 3] == typ by {
      StandsAt(line, i + 1, head, 0);
      StandsAt(line, i + 1, head, 1);
      StandsAt(line, i + 1, head, 2);
    }
    ToCharBack(n);
    ToCharBack(length + 3);
    ShortHeader(line, i, n, typ, length);
  }

  /** What the sender sends is what the receiver reads... */
  lemma ShortParses(line: seq<byte>, i: nat, n: int, typ: byte, data: seq<byte>)
    requires Stands(line, i, ShortPacket(n, typ, data)) && 0 <= n < 64 && |data| <= 91
    requires Printable(typ) && AllPrintable(data)
    ensures Header(line, i + 1) == Ended(Packet(n, typ, data, true), i + |data| + 6)
  {
    var head := ShortHead(n, typ, |data|);
    FramedIs(line, i, head, data, Sum(head + data));
    ShortHeaderAt(line, i, n, typ, |data|);
    SumAdds(head, data);
    BodyParses(line, i + 4, n, typ, Sum(head), data, Sum(head + data));
  }

  // ----- long packets -----

  lemma LongHeadSum(n: int, typ: byte, length: nat)
    ensures var hi, lo := ToChar((length + 1) / 95), ToChar((length + 1) % 95);
      var sum := ToChar(0) + ToChar(n) as int + typ + hi + lo;
        LongHead(n, typ, length)[5] == Check(sum) && Sum(LongHead(n, typ, length)) == sum + Check(sum)
  {
    var hi, lo := ToChar((length + 1) / 95), ToChar((length + 1) % 95);
    SumFive(ToChar(0), ToChar(n), typ, hi, lo);
    var h := [ToChar(0), ToChar(n), typ, hi, lo];
    SumAdds(h, [Check(Sum(h))]);
    SumOne(Check(Sum(h)));
  }

  lemma SumFive(a: byte, b: byte, c: byte, d: byte, e: byte)
    ensures Sum([a, b, c, d, e]) == a as int + b + c + d + e
  {
    SumThree(a, b, c);
    SumAdds([a, b, c], [d]);
    SumOne(d);
    SumAdds([a, b, c] + [d], [e]);
    SumOne(e);
    assert [a, b, c] + [d] + [e] == [a, b, c, d, e];
  }

  lemma LongExtended(line: seq<byte>, i: nat, n: int, typ: byte, length: nat, sum: nat)
    requires i + 6 < |line| && Printable(line[i + 4]) && Printable(line[i + 5])
      && length == UnToChar(line[i + 4]) * 95 + UnToChar(line[i + 5])
    requires line[i + 6] == Check(sum + line[i + 4] + line[i + 5])
    ensures Extended(line, i + 4, n, typ, sum) ==
      Body(line, i + 7, n, typ, length, sum + line[i + 4] + line[i + 5] + line[i + 6], [])
  {
    CheckPrintable(sum + line[i + 4] + line[i + 5]);
  }

  lemma CheckPrintable(sum: nat)
    ensures Printable(Check(sum))
  {
    ToCharBack((sum + sum / 64 % 4) % 64);
  }

  lemma LongTyped(line: seq<byte>, i: nat, n: int, typ: byte)
    requires i + 3 < |line| && line[i + 1] == 32 && line[i + 2] == n + 32 && line[i + 3] == typ && 0 <= n < 64
      && Printable(typ)
    ensures Header(line, i + 1) == Extended(line, i + 4, n, typ, 32 + (n + 32) as int + typ)
  {
    assert Header(line, i + 1) == TypeField(line, i + 3, n, -1, 32 + (n + 32));
  }

  lemma SixStand(line: seq<byte>, i: nat, s: seq<byte>)
    requires Stands(line, i, s) && |s| == 6
    ensures i + 6 <= |line| && line[i] == s[0] && line[i + 1] == s[1] && line[i + 2] == s[2] && line[i + 3] == s[3]
      && line[i + 4] == s[4] && line[i + 5] == s[5]
  {}

  lemma LongHeader(line: seq<byte>, i: nat, n: int, typ: byte, length: nat)
    requires Stands(line, i + 1, LongHead(n, typ, length)) && i + 7 < |line|
    requires 0 <= n < 64 && length + 1 < 95 * 95 && Printable(typ)
    ensures Header(line, i + 1) == Body(line, i + 7, n, typ, length + 1, Sum(LongHead(n, typ, length)), [])
  {
    LongHeadSum(n, typ, length);
    SixStand(line, i + 1, LongHead(n, typ, length));
    ToCharBack(0);
    ToCharBack(n);
    ToCharBack((length + 1) / 95);
    ToCharBack((length + 1) % 95);
    LongTyped(line, i, n, typ);
    LongExtended(line, i, n, typ, length + 1, 32 + (n + 32) + typ);
  }

  /** ... and for a long packet, too. */
  lemma LongParses(line: seq<byte>, i: nat, n: int, typ: byte, data: seq<byte>)
    requires Stands(line, i, LongPacket(n, typ, data)) && 0 <= n < 64 && |data| + 1 < 95 * 95
    requires Printable(typ) && AllPrintable(data)
    ensures Header(line, i + 1) == Ended(Packet(n, typ, data, true), i + |data| + 9)
  {
    var head := LongHead(n, typ, |data|);
    FramedIs(line, i, head, data, Sum(head + data));
    LongHeader(line, i, n, typ, |data|);
    SumAdds(head, data);
    BodyParses(line, i + 7, n, typ, Sum(head), data, Sum(head + data));
  }

  // ----- errors on the line -----

  lemma SumChanged(s: seq<byte>, i: nat, c: byte)
    requires i < |s|
    ensures Sum(s[i := c]) == Sum(s) - s[i] + c
  {
    var a, b := s[..i], s[i + 1..];
    SumAdds(a, [s[i]]);
    SumAdds(a, [c]);
    SumAdds(a + [s[i]], b);
    SumAdds(a + [c], b);
    SumOne(s[i]);
    SumOne(c);
    assert s == a + [s[i]] + b && s[i := c] == a + [c] + b;
  }

  /** One wrong bit in one character changes the block check, ... */
  lemma CheckChanges(s: seq<byte>, i: nat, c: byte)
    requires i < |s| && OneBitOff(s[i], c)
    ensures Check(Sum(s[i := c])) != Check(Sum(s))
  {
    SumChanged(s, i, c);
    OneBitShows(Sum(s), Sum(s[i := c]));
  }

  /** ... so that the packet is refused: here for a character of the data. */
  lemma OneBitRefused(line: seq<byte>, i: nat, n: int, typ: byte, data: seq<byte>, j: nat, c: byte)
    requires 0 <= n < 64 && |data| <= 91 && Printable(typ) && AllPrintable(data) && Printable(c)
    requires j < |data| && OneBitOff(data[j], c)
    requires var head := ShortHead(n, typ, |data|);
      Stands(line, i, WithCheck(head, data[j := c], Check(Sum(head + data))))
    ensures Header(line, i + 1) == Ended(Packet(n, typ, data[j := c], false), i + |data| + 5)
  {
    var head, damaged := ShortHead(n, typ, |data|), data[j := c];
    OneChanged(head, data, j, c);
    FrameParts(line, i, head, damaged, Check(Sum(head + data)));
    assert i + 1 + |head| == i + 4;
    WrongCheck(line, i, n, typ, damaged);
  }

  lemma OneChanged(head: seq<byte>, data: seq<byte>, j: nat, c: byte)
    requires j < |data| && OneBitOff(data[j], c)
    ensures Check(Sum(head + data[j := c])) != Check(Sum(head + data))
  {
    assert (head + data)[|head| + j := c] == head + data[j := c];
    CheckChanges(head + data, |head| + j, c);
  }

  lemma WrongCheck(line: seq<byte>, i: nat, n: int, typ: byte, data: seq<byte>)
    requires 0 <= n < 64 && |data| <= 91 && Printable(typ) && AllPrintable(data) && i + 4 + |data| < |line|
    requires Stands(line, i + 1, ShortHead(n, typ, |data|)) && Stands(line, i + 4, data)
    requires line[i + 4 + |data|] != Check(Sum(ShortHead(n, typ, |data|) + data))
    ensures Header(line, i + 1) == Ended(Packet(n, typ, data, false), i + |data| + 5)
  {
    ShortHeaderAt(line, i, n, typ, |data|);
    WrongAfter(line, i + 4, n, typ, ShortHead(n, typ, |data|), data, line[i + 4 + |data|]);
  }

  lemma WrongAfter(line: seq<byte>, k: nat, n: int, typ: byte, head: seq<byte>, data: seq<byte>, check: byte)
    requires Stands(line, k, data) && AllPrintable(data) && k + |data| < |line| && line[k + |data|] == check
      && check != Check(Sum(head + data))
    ensures Body(line, k, n, typ, |data| + 1, Sum(head), []) == Ended(Packet(n, typ, data, false), k + |data| + 1)
  {
    SumAdds(head, data);
    BodyRefused(line, k, n, typ, Sum(head), data, Sum(head + data));
  }

  /** The data, and a wrong check. */
  lemma BodyRefused(line: seq<byte>, i: nat, n: int, typ: byte, sum: nat, data: seq<byte>, total: nat)
    requires Stands(line, i, data) && AllPrintable(data) && total == sum + Sum(data)
    requires i + |data| < |line| && line[i + |data|] != Check(total)
    ensures Body(line, i, n, typ, |data| + 1, sum, []) == Ended(Packet(n, typ, data, false), i + |data| + 1)
  {
    BodyReads(line, i, n, typ, sum, data, |data|);
    assert data[..|data|] == data;
  }

  // ----- runs -----

  /** A packet arrives: what is before its start character does not matter. */
  ghost predicate Arrived(line: seq<byte>, at: nat, p: Packet, next: nat) {
    AfterStart(line, at) <= |line| && Header(line, AfterStart(line, at)) == Ended(p, next)
  }

  ghost predicate ArrivedSpoiled(line: seq<byte>, at: nat, next: nat) {
    AfterStart(line, at) <= |line| && Header(line, AfterStart(line, at)) == Early(next)
  }

  ghost predicate ArrivedAs(line: seq<byte>, at: nat, t: Try, next: nat) {
    if t.Spoiled? then ArrivedSpoiled(line, at, next) else Arrived(line, at, t.packet, next)
  }

  /** An intact packet, after bytes that are no start characters. */
  lemma ShortArrives(line: seq<byte>, at: nat, i: nat, n: int, typ: byte, data: seq<byte>)
    requires at <= i && forall l {:trigger line[l]} :: at <= l < i && l < |line| ==> line[l] != START_CHAR
    requires Stands(line, i, ShortPacket(n, typ, data)) && 0 <= n < 64 && |data| <= 91 && Printable(typ)
      && AllPrintable(data)
    ensures Arrived(line, at, Packet(n, typ, data, true), i + |data| + 6)
  {
    FramedIs(line, i, ShortHead(n, typ, |data|), data, Sum(ShortHead(n, typ, |data|) + data));
    ShortParses(line, i, n, typ, data);
    StandsAt(line, i, [START_CHAR], 0);
    NoiseSkipped(line, at, i);
  }

  lemma LongArrives(line: seq<byte>, at: nat, i: nat, n: int, typ: byte, data: seq<byte>)
    requires at <= i && forall l {:trigger line[l]} :: at <= l < i && l < |line| ==> line[l] != START_CHAR
    requires Stands(line, i, LongPacket(n, typ, data)) && 0 <= n < 64 && |data| + 1 < 95 * 95 && Printable(typ)
      && AllPrintable(data)
    ensures Arrived(line, at, Packet(n, typ, data, true), i + |data| + 9)
  {
    FramedIs(line, i, LongHead(n, typ, |data|), data, Sum(LongHead(n, typ, |data|) + data));
    LongParses(line, i, n, typ, data);
    StandsAt(line, i, [START_CHAR], 0);
    NoiseSkipped(line, at, i);
  }

  // ----- what the sender reads in the replies -----

  lemma {:induction false} PaddingIs(count: int, c: byte)
    ensures |Padding(count, c)| == (if count <= 0 then 0 else count)
    ensures forall l {:trigger Padding(count, c)[l]} :: 0 <= l < |Padding(count, c)| ==> Padding(count, c)[l] == c
    decreases count
  {
    if count > 0 { PaddingIs(count - 1, c); }
  }

  lemma OurParametersFit(n: nat)
    ensures |OurParameters(n)| <= 91 && AllPrintable(OurParameters(n))
  {
    ToCharBack(94);
    ToCharBack(13);
    ToCharBack(2);
    ToCharBack(0);
  }

  lemma ReplyArrives(count: int, c: byte, n: int, typ: byte, data: seq<byte>)
    requires c != START_CHAR && 0 <= n < 64 && Printable(typ) && |data| <= 91 && AllPrintable(data)
    ensures var sent := Padding(count, c) + Reply(n, typ, data, END_CHAR);
      Arrived(sent, 0, Packet(n, typ, data, true), |sent|)
  {
    var pad, packet := Padding(count, c), ShortPacket(n, typ, data);
    PaddingIs(count, c);
    ReplyIsPacket(n, typ, data);
    StandsLast(pad, packet);
    FramedSize(ShortHead(n, typ, |data|), data);
    ShortArrives(pad + packet, 0, |pad|, n, typ, data);
  }

  /** After padding that is not taken for a start: an intact packet with the number of the packet answered, of type 'Y'
      if that was good, and of type 'N' otherwise. */
  lemma AnswerReads(k: Receiver, p: Packet)
    requires k.eol == END_CHAR && k.padChar != START_CHAR && 0 <= p.n < 64
    ensures var data := if p.good && p.typ == SEND_TYPE then OurParameters(|p.data|) else [];
      Arrived(Answer(k, p), 0, Packet(p.n, if p.good then 89 else 78, data, true), |Answer(k, p)|)
  {
    var data := if p.good && p.typ == SEND_TYPE then OurParameters(|p.data|) else [];
    OurParametersFit(|p.data|);
    ReplyArrives(k.padCount, k.padChar, p.n, if p.good then ACK_TYPE else NACK_TYPE, data);
  }

  /** An error before the number is answered by a packet of type 'N'. */
  lemma EarlyAnswerReads(k: Receiver)
    requires k.eol == END_CHAR && k.padChar != START_CHAR && k.lastN < 64
    ensures Arrived(EarlyAnswer(k), 0, Packet(if k.lastN < 0 then 0 else k.lastN, 78, [], true), |EarlyAnswer(k)|)
  {
    ReplyArrives(k.padCount, k.padChar, if k.lastN < 0 then 0 else k.lastN, NACK_TYPE, []);
  }

  /** A sender that gets the answer and goes on for 'Y' alone does what is assumed of it in the runs. */
  lemma GoesOnFor(ms: seq<Message>, g: Global, t: Try, g': Global, answer: Packet, next: nat)
    requires GlobalStep(ms, g, t, g') && t.Try? && t.heard && g'.k.eol == END_CHAR && g'.k.padChar != START_CHAR
    requires Arrived(Answer(g'.k, t.packet), 0, answer, next)
    ensures answer.n == Number(g.i) && (g'.i == g.i + 1 <==> answer.typ == 89) && (g'.i == g.i <==> answer.typ == 78)
  {
    AnswerReads(g'.k, t.packet);
  }

  /** Each transmission is read as a packet, which is the one sent or is found to be damaged; or it is spoiled. */
  ghost predicate Arrives(line: seq<byte>, ats: seq<nat>, tries: seq<Try>) {
    && |ats| == |tries| + 1 && ats[0] == 0
    && forall j {:trigger tries[j]} :: 0 <= j < |tries| ==> ArrivedAs(line, ats[j], tries[j], ats[j + 1])
  }

  /** The receiver goes through the states of the run. */
  lemma {:induction false} RunFollows(line: seq<byte>, ats: seq<nat>, ms: seq<Message>, tries: seq<Try>,
                                      gs: seq<Global>, j: nat)
    returns (sent: seq<byte>)
    requires IsRun(ms, tries, gs) && Arrives(line, ats, tries) && j <= |tries|
    ensures Run(Initial(), line, 0, []) == Run(gs[j].k, line, ats[j], sent)
  {
    if j == 0 {
      sent := [];
    } else {
      sent := RunFollows(line, ats, ms, tries, gs, j - 1);
      var t := tries[j - 1];
      assert GlobalStep(ms, gs[j - 1], t, gs[j]) && ArrivedAs(line, ats[j - 1], t, ats[j]);
      RunNext(gs[j - 1].k, line, ats[j - 1], sent);
      sent := sent + if t.Spoiled? then EarlyAnswer(gs[j - 1].k) else Answer(gs[j].k, t.packet);
    }
  }

  /** The messages of a session: the parts of a file, quoted, then the end of transmission. */
  ghost predicate Sends(ms: seq<Message>, file: seq<byte>) {
    && IsSession(ms) && LegalQuote(QuoteOf(ms)) && Concat(DataOf(ms, |ms|)) == Encode(QuoteOf(ms), file)
    && forall j, l {:trigger ms[j], ms[l]} :: 0 <= j < l < |ms| && ms[j].typ == BREAK_TYPE ==> ms[l].typ != DATA_TYPE
  }

  lemma FileRun(line: seq<byte>, ats: seq<nat>, ms: seq<Message>, tries: seq<Try>, gs: seq<Global>, file: seq<byte>)
    requires IsRun(ms, tries, gs) && Arrives(line, ats, tries) && Sends(ms, file) && gs[|tries|].k.done
    ensures var o := Run(Initial(), line, 0, []); o.k.done && o.k.d == Decoded(file, false)
  {
    var sent := RunFollows(line, ats, ms, tries, gs, |tries|);
    ReceivedOnce(ms, tries, gs, file);
  }

  /** load_serial_bin: if the last message gets through, the file is in memory, whatever happens on the line. */
  method LoadSerialBin(line: seq<byte>, mem: array<byte>, offset: nat, ghost ats: seq<nat>, ghost ms: seq<Message>,
                       ghost tries: seq<Try>, ghost gs: seq<Global>, ghost file: seq<byte>)
    returns (size: nat)
    requires offset + |line| <= mem.Length
    requires IsRun(ms, tries, gs) && Arrives(line, ats, tries) && Sends(ms, file) && gs[|tries|].k.done
    modifies mem
    ensures size == |file| && offset + size <= mem.Length && mem[offset..offset + size] == file
      && mem[..offset] == old(mem[..offset])
  {
    FileRun(line, ats, ms, tries, gs, file);
    var r := new Receive(line, mem, offset);
    var ok;
    ok, size := r.KRecv();
    assert r.View().d == Decoded(file, false);
  }

  // ----- a transfer in all its bytes -----

  /** The check of the three characters of a packet without data. */
  lemma EmptyBody(line: seq<byte>, i: nat, n: int, typ: byte, sum: nat)
    requires i + 1 < |line| && line[i] == Check(sum) && line[i + 1] == END_CHAR
    ensures Body(line, i, n, typ, 1, sum, []) == Ended(Packet(n, typ, [], true), i + 2)
  {
    CheckPrintable(sum);
  }

  /** A data packet, number 0, with three characters; and a break packet, number 1. */
  ghost predicate TwoPackets(line: seq<byte>) {
    line == [1, 38, 32, 68, 65, 35, 77, 91, 13, 1, 35, 33, 66, 40, 13]
  }

  lemma FirstOfTwo(line: seq<byte>)
    requires TwoPackets(line)
    ensures AfterStart(line, 0) == 1 && Header(line, 1) == Ended(Packet(0, DATA_TYPE, [65, 35, 77], true), 9)
  {
    CheckIs(315, 1, 0, 59);
    var sum, none: seq<byte> := 38 + 32 + 68, [];
    assert none + [65] == [65] && [65] + [35] == [65, 35] && [65, 35] + [77] == [65, 35, 77];
    assert Header(line, 1) == Body(line, 4, 0, 68, 4, sum, []);
    assert Body(line, 4, 0, 68, 4, sum, []) == Body(line, 5, 0, 68, 3, sum + 65, [65]);
    assert Body(line, 5, 0, 68, 3, sum + 65, [65]) == Body(line, 6, 0, 68, 2, sum + 100, [65] + [35]);
    assert Body(line, 6, 0, 68, 2, sum + 100, [65, 35]) == Body(line, 7, 0, 68, 1, sum + 177, [65, 35] + [77]);
  }

  lemma SecondOfTwo(line: seq<byte>)
    requires TwoPackets(line)
    ensures AfterStart(line, 9) == 10 && Header(line, 10) == Ended(Packet(1, BREAK_TYPE, [], true), 15)
  {
    CheckIs(134, 0, 2, 6);
    assert Header(line, 10) == Body(line, 13, 1, 66, 1, 35 + 33 + 66, []);
    EmptyBody(line, 13, 1, 66, 134);
  }

  /** The reply to a packet that is no send-initiate. */
  lemma Acknowledges(k: Receiver, p: Packet)
    requires k.eol == END_CHAR && k.padCount == 0 && p.good && p.typ != SEND_TYPE && (p.n == 0 || p.n == 1)
    ensures Answer(k, p) == [1, 35, 32 + p.n, 89, 62 + p.n, 13]
  {
    var none: seq<byte>, body: seq<byte> := [], [35, 32 + p.n, 89];
    CheckIs(156 + p.n, 0, 2, 28 + p.n);
    SumThree(35, 32 + p.n as byte, 89);
    assert body + none == body;
    assert Reply(p.n, ACK_TYPE, none, END_CHAR) == [1] + body + [62 + p.n] + [13];
    assert none + Reply(p.n, ACK_TYPE, none, END_CHAR) == Reply(p.n, ACK_TYPE, none, END_CHAR);
  }

  lemma StepIs(line: seq<byte>, k: Receiver, at: nat, sent: seq<byte>, p: Packet, next: nat, answer: seq<byte>)
    requires !k.done && Arrived(line, at, p, next) && Answer(Step(k, p), p) == answer
    ensures Run(k, line, at, sent) == Run(Step(k, p), line, next, sent + answer)
  {
    RunNext(k, line, at, sent);
  }

  function AfterFirst(): Receiver { Step(Initial(), Packet(0, DATA_TYPE, [65, 35, 77], true)) }

  lemma AfterFirstIs(k: Receiver)
    requires k == AfterFirst()
    ensures k.d == Decoded([65, 13], false) && !k.done && k.eol == END_CHAR && k.padCount == 0 && k.lastN == 0
  {
    ThreeChars();
  }

  lemma StepOne(line: seq<byte>, k0: Receiver, k: Receiver)
    requires TwoPackets(line) && !k0.done && k == Step(k0, Packet(0, DATA_TYPE, [65, 35, 77], true))
    requires k.eol == END_CHAR && k.padCount == 0
    ensures Run(k0, line, 0, []) == Run(k, line, 9, [1, 35, 32, 89, 62, 13])
  {
    var p, none: seq<byte>, a: seq<byte> := Packet(0, DATA_TYPE, [65, 35, 77], true), [], [1, 35, 32, 89, 62, 13];
    FirstOfTwo(line);
    Acknowledges(k, p);
    StepIs(line, k0, 0, none, p, 9, a);
    assert none + a == a;
  }

  lemma StepTwo(line: seq<byte>, k: Receiver, sent: seq<byte>)
    requires TwoPackets(line) && !k.done && k.eol == END_CHAR && k.padCount == 0 && k.lastN == 0
    ensures var o := Run(k, line, 9, sent);
      o.k.done && o.k.d == k.d && o.sent == sent + [1, 35, 33, 89, 63, 13]
  {
    var p := Packet(1, BREAK_TYPE, [], true);
    SecondOfTwo(line);
    Acknowledges(Step(k, p), p);
    StepIs(line, k, 9, sent, p, 15, [1, 35, 33, 89, 63, 13]);
  }

  lemma TwoSteps(line: seq<byte>)
    requires TwoPackets(line)
    ensures var o := Run(Initial(), line, 0, []);
      o.k.done && o.k.d == Decoded([65, 13], false) && o.sent == [1, 35, 32, 89, 62, 13] + [1, 35, 33, 89, 63, 13]
  {
    var k := AfterFirst();
    AfterFirstIs(k);
    StepOne(line, Initial(), k);
    StepTwo(line, k, [1, 35, 32, 89, 62, 13]);
  }

  lemma ThreeChars()
    ensures Feed(Decoded([], false), K_ESCAPE, [65, 35, 77]) == Decoded([65, 13], false)
  {
    var d := Decoded([], false);
    FeedAdds(d, K_ESCAPE, [65, 35], [77]);
    FeedAdds(d, K_ESCAPE, [65], [35]);
    FeedChar(d, K_ESCAPE, 65);
    FeedChar(Decoded([65], false), K_ESCAPE, 35);
    FeedChar(Decoded([65], true), K_ESCAPE, 77);
    assert [65] + [35] == [65, 35] && [65, 35] + [77] == [65, 35, 77];
  }

  /** k_recv gets these bytes: 'A' and a quoted 'M', which is a carriage return, in memory; two acknowledgements. */
  method TransferExample(line: seq<byte>, mem: array<byte>, offset: nat)
    returns (ok: bool, size: nat, sent: seq<byte>)
    requires TwoPackets(line) && offset + 15 <= mem.Length
    modifies mem
    ensures ok && size == 2 && offset + 2 <= mem.Length && mem[offset..offset + 2] == [65, 13]
      && mem[..offset] == old(mem[..offset])
    ensures sent == [1, 35, 32, 89, 62, 13] + [1, 35, 33, 89, 63, 13]
  {
    TwoSteps(line);
    var r := new Receive(line, mem, offset);
    ok, size := r.KRecv();
    sent := r.sent;
    assert r.View().d.out == [65, 13];
  }

  /** A send-initiate packet ('S') asks for two NULs as padding, a carriage return at the end, and '&' as quote; we
      answer for each of its six parameters. */
  lemma ParametersExample(k: Receiver, p: Packet)
    requires p == Packet(0, 83, [126, 34, 34, 64, 45, 38], true) && k == Step(Initial(), p)
    ensures k.padCount == 2 && k.padChar == 0 && k.eol == 13 && k.quote == 38 && !k.done
    ensures Answer(k, p) == [0, 0] + Reply(0, 89, [126, 33, 32, 64, 45, 35], 13)
  {
    var none: seq<byte> := [];
    assert none + [0] == [0] && [0] + [0] == [0, 0];
    assert Padding(1, 0) == Padding(0, 0) + [0] && Padding(2, 0) == Padding(1, 0) + [0];
    assert OurParameters(6) == [126, 33, 32, 64, 45, 35];
  }

  // ----- a line without errors -----

  function PacketOf(n: int, m: Message): seq<byte> {
    if |m.data| <= 91 then ShortPacket(n, m.typ, m.data) else LongPacket(n, m.typ, m.data)
  }

  ghost predicate Sendable(m: Message) { Printable(m.typ) && AllPrintable(m.data) && |m.data| + 1 < 95 * 95 }

  function PacketsOf(ms: seq<Message>): (parts: seq<seq<byte>>)
    ensures |parts| == |ms|
  { seq(|ms|, j requires 0 <= j < |ms| => PacketOf(Number(j), ms[j])) }

  lemma StandsLast(s: seq<byte>, p: seq<byte>)
    ensures Stands(s + p, |s|, p)
  {}

  lemma StandsLonger(s: seq<byte>, i: nat, p: seq<byte>, t: seq<byte>)
    requires Stands(s, i, p)
    ensures Stands(s + t, i, p)
  {}

  /** Where part j is, when all are one after the other. */
  function Place(parts: seq<seq<byte>>, j: nat): nat
    requires j <= |parts|
  { |Concat(parts[..j])| }

  lemma {:induction false} PartStands(parts: seq<seq<byte>>, j: nat, n: nat)
    requires j < n <= |parts|
    ensures Stands(Concat(parts[..n]), Place(parts, j), parts[j]) && Place(parts, j + 1) == Place(parts, j) + |parts[j]|
    decreases n
  {
    assert parts[..n][..n - 1] == parts[..n - 1];
    if j < n - 1 {
      PartStands(parts, j, n - 1);
      StandsLonger(Concat(parts[..n - 1]), Place(parts, j), parts[j], parts[n - 1]);
    } else {
      StandsLast(Concat(parts[..j]), parts[j]);
    }
  }

  /** An intact packet at the place where the receiver is. */
  lemma PacketArrives(line: seq<byte>, at: nat, n: int, m: Message)
    requires Stands(line, at, PacketOf(n, m)) && 0 <= n < 64 && Sendable(m)
    ensures Arrived(line, at, Packet(n, m.typ, m.data, true), at + |PacketOf(n, m)|)
  {
    if |m.data| <= 91 {
      ShortArrives(line, at, at, n, m.typ, m.data);
      FramedSize(ShortHead(n, m.typ, |m.data|), m.data);
    } else {
      LongArrives(line, at, at, n, m.typ, m.data);
      FramedSize(LongHead(n, m.typ, |m.data|), m.data);
    }
  }

  /** Every message arrives as it was sent. */
  lemma MessageArrives(ms: seq<Message>, parts: seq<seq<byte>>, line: seq<byte>, j: nat)
    requires j < |ms| && Sendable(ms[j]) && parts == PacketsOf(ms) && line == Concat(parts)
    ensures Arrived(line, Place(parts, j), Packet(Number(j), ms[j].typ, ms[j].data, true), Place(parts, j + 1))
  {
    assert parts[..|parts|] == parts;
    PartStands(parts, j, |parts|);
    PacketArrives(line, Place(parts, j), Number(j), ms[j]);
  }

  lemma FramedSize(head: seq<byte>, data: seq<byte>)
    ensures |Framed(head, data)| == |head| + |data| + 3
  {}

  /** The receiver after j messages. */
  function Quiet(ms: seq<Message>, j: nat): Receiver
    requires j <= |ms|
  { if j == 0 then Initial() else Step(Quiet(ms, j - 1), Packet(Number(j - 1), ms[j - 1].typ, ms[j - 1].data, true)) }

  lemma {:induction false} QuietDone(ms: seq<Message>, j: nat)
    requires j <= |ms| && EndsOnce(ms)
    ensures Quiet(ms, j).done <==> j == |ms|
    decreases j
  {
    if j > 0 { QuietDone(ms, j - 1); }
  }

  function QuietPlaces(parts: seq<seq<byte>>): seq<nat> {
    seq(|parts| + 1, j requires 0 <= j <= |parts| => Place(parts, j))
  }
  function QuietTries(ms: seq<Message>): seq<Try> {
    seq(|ms|, j requires 0 <= j < |ms| => Try(Packet(Number(j), ms[j].typ, ms[j].data, true), true))
  }
  function QuietStates(ms: seq<Message>): seq<Global> {
    seq(|ms| + 1, j requires 0 <= j <= |ms| => Global(Quiet(ms, j), j))
  }

  ghost predicate EndsOnce(ms: seq<Message>) {
    |ms| > 0 && forall l {:trigger ms[l]} :: 0 <= l < |ms| ==> (ms[l].typ == BREAK_TYPE <==> l == |ms| - 1)
  }

  lemma QuietIsRun(ms: seq<Message>)
    requires EndsOnce(ms)
    ensures IsRun(ms, QuietTries(ms), QuietStates(ms)) && QuietStates(ms)[|ms|].k.done
  {
    var tries, gs := QuietTries(ms), QuietStates(ms);
    QuietDone(ms, |ms|);
    forall j {:trigger tries[j]} | 0 <= j < |ms|
      ensures GlobalStep(ms, gs[j], tries[j], gs[j + 1])
    {
      QuietDone(ms, j);
      QuietStep(ms, j);
    }
  }

  lemma QuietStep(ms: seq<Message>, j: nat)
    requires j < |ms| && !Quiet(ms, j).done
    ensures GlobalStep(ms, Global(Quiet(ms, j), j), Try(Packet(Number(j), ms[j].typ, ms[j].data, true), true),
        Global(Quiet(ms, j + 1), j + 1))
  {}

  lemma QuietArrives(ms: seq<Message>, parts: seq<seq<byte>>, line: seq<byte>)
    requires parts == PacketsOf(ms) && line == Concat(parts) && forall l {:trigger ms[l]} :: 0 <= l < |ms| ==>
      Sendable(ms[l])
    ensures Arrives(line, QuietPlaces(parts), QuietTries(ms))
  {
    var ats, tries := QuietPlaces(parts), QuietTries(ms);
    assert parts[..0] == [];
    forall j {:trigger tries[j]} | 0 <= j < |ms|
      ensures ArrivedAs(line, ats[j], tries[j], ats[j + 1])
    {
      MessageArrives(ms, parts, line, j);
    }
  }

  /** On a line without errors any file in any packets is received: the assumptions on runs can be met. */
  lemma QuietLine(ms: seq<Message>, file: seq<byte>)
    requires Sends(ms, file) && EndsOnce(ms) && forall l {:trigger ms[l]} :: 0 <= l < |ms| ==> Sendable(ms[l])
    ensures var o := Run(Initial(), Concat(PacketsOf(ms)), 0, []); o.k.done && o.k.d == Decoded(file, false)
  {
    var parts := PacketsOf(ms);
    QuietIsRun(ms);
    QuietArrives(ms, parts, Concat(parts));
    FileRun(Concat(parts), QuietPlaces(parts), ms, QuietTries(ms), QuietStates(ms), file);
  }
}
