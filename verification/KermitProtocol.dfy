/** The receiver as a state machine, and what it makes of the bytes on the line. */
module KermitProtocol {
  import opened Basics
  import opened ByteSums
  import opened KermitPackets

  /** A packet as received: its number; its type, -1 if that did not arrive; and as many data
      characters as were read before the end, or before an error. */
  datatype Packet = Packet(n: int, typ: int, data: seq<byte>, good: bool)

  /** Reading a packet: the line may have no more bytes; and an error may come before the number. */
  datatype Read = Blocked | Early(next: nat) | Ended(packet: Packet, next: nat)

  // ----- reading a packet from the line -----

  /** The place after the next start character; beyond the end, if there is none. */
  function AfterStart(line: seq<byte>, i: nat): nat
    decreases |line| - i
  { if i >= |line| then i + 1 else if line[i] == START_CHAR then i + 1 else AfterStart(line, i + 1) }

  function Header(line: seq<byte>, i: nat): Read {
    if i >= |line| then Blocked
    else if !Printable(line[i]) then Early(i + 1)
    else if i + 1 >= |line| then Blocked
    else if !Printable(line[i + 1]) then Early(i + 2)
    else TypeField(line, i + 2, UnToChar(line[i + 1]), UnToChar(line[i]) - 1, line[i] as int + line[i + 1])
  }

  function TypeField(line: seq<byte>, i: nat, n: int, length: int, sum: nat): Read {
    if i >= |line| then Blocked
    else if !Printable(line[i]) then Ended(Packet(n, -1, [], false), i + 1)
    else if length - 1 == -2 then Extended(line, i + 1, n, line[i], sum + line[i])
    else Body(line, i + 1, n, line[i], length - 1, sum + line[i], [])
  }

  /** The three extra fields of a long packet. */
  function Extended(line: seq<byte>, i: nat, n: int, typ: byte, sum: nat): Read {
    if i >= |line| then Blocked
    else if !Printable(line[i]) then Ended(Packet(n, typ, [], false), i + 1)
    else if i + 1 >= |line| then Blocked
    else if !Printable(line[i + 1]) then Ended(Packet(n, typ, [], false), i + 2)
    else if i + 2 >= |line| then Blocked
    else if !Printable(line[i + 2]) || line[i + 2] != Check(sum + line[i] + line[i + 1])
      then Ended(Packet(n, typ, [], false), i + 3)
    else Body(line, i + 3, n, typ, UnToChar(line[i]) * 95 + UnToChar(line[i + 1]), sum + line[i] + line[i + 1]
        + line[i + 2], [])
  }

  /** The data, the block check and the end of line. */
  function Body(line: seq<byte>, i: nat, n: int, typ: byte, length: int, sum: nat, data: seq<byte>): Read
    decreases |line| - i
  {
    if i >= |line| then Blocked
    else if length > 1 then
      if !Printable(line[i]) then Ended(Packet(n, typ, data, false), i + 1)
      else Body(line, i + 1, n, typ, length - 1, sum + line[i], data + [line[i]])
    else if !Printable(line[i]) || line[i] != Check(sum) then Ended(Packet(n, typ, data, false), i + 1)
    else if i + 1 >= |line| then Blocked
    else Ended(Packet(n, typ, data, line[i + 1] == END_CHAR), i + 2)
  }

  lemma {:induction false} BodyNext(line: seq<byte>, i: nat, n: int, typ: byte, length: int, sum: nat, data: seq<byte>)
    ensures var r := Body(line, i, n, typ, length, sum, data);
      !r.Early? && (r.Ended? ==> i < r.next <= |line| && r.packet.n == n && r.packet.typ == typ)
    decreases |line| - i
  {
    if i < |line| && length > 1 && Printable(line[i]) {
      BodyNext(line, i + 1, n, typ, length - 1, sum + line[i], data + [line[i]]);
    }
  }

  lemma HeaderNext(line: seq<byte>, i: nat)
    ensures var r := Header(line, i); !r.Blocked? ==> i < r.next <= |line|
  {
    if i + 2 < |line| {
      var n, length, sum: int := UnToChar(line[i + 1]), UnToChar(line[i]) - 1, line[i] as int + line[i + 1];
      BodyNext(line, i + 3, n, line[i + 2], length - 1, sum + line[i + 2], []);
      if i + 5 < |line| {
        var hi, lo := UnToChar(line[i + 3]), UnToChar(line[i + 4]);
        BodyNext(line, i + 6, n, line[i + 2], hi * 95 + lo, sum + line[i + 2] + line[i + 3] + line[i + 4] + line[i + 5],
                 []);
      }
    }
  }

  // ----- the state machine -----

  /** What has been received, and the checkpoint; the number of the last packet; the sender's parameters. */
  datatype Receiver = Receiver(d: Decoded, saved: Decoded, lastN: int, quote: byte, eol: byte, padCount: int,
                               padChar: byte, done: bool)

  function Initial(): Receiver { Receiver(Decoded([], false), Decoded([], false), -1, K_ESCAPE, END_CHAR, 0, 0, false) }

  /** A packet with the number of the last one: go back; with another one: remember where we are. */
  function Numbered(k: Receiver, n: int): Receiver {
    if n == k.lastN then k.(d := k.saved) else k.(saved := k.d, lastN := n)
  }

  /** The parameters that a send-initiate packet gives; the defaults for those it does not. */
  function Parameters(k: Receiver, data: seq<byte>): Receiver {
    k.(padCount := if |data| > 2 then UnToChar(data[2]) else 0,
       padChar := if |data| > 3 then KTrans(data[3]) else 0,
       eol := if |data| > 4 then UnToChar(data[4]) else END_CHAR,
       quote := if |data| > 5 then data[5] else K_ESCAPE)
  }

  function Delivered(k: Receiver, p: Packet): Receiver {
    if p.typ == DATA_TYPE then k.(d := Feed(k.d, k.quote, p.data)) else k
  }

  /** What the end of a packet does. */
  function Concluded(k: Receiver, p: Packet): Receiver {
    if !p.good then k.(d := k.saved)
    else if p.typ == SEND_TYPE then Parameters(k, p.data)
    else k.(done := k.done || p.typ == BREAK_TYPE)
  }

  function Step(k: Receiver, p: Packet): Receiver { Concluded(Delivered(Numbered(k, p.n), p), p) }

  /** An error before the number: back to the checkpoint there is, that of the packet before. */
  function EarlyError(k: Receiver): Receiver { k.(d := k.saved) }

  // ----- replies -----

  const ACK_TYPE: byte := 89         // 'Y'
  const NACK_TYPE: byte := 78        // 'N'

  function Padding(count: int, c: byte): seq<byte> { if count <= 0 then [] else Padding(count - 1, c) + [c] }

  /** A reply, as far as it is sent: up to a NUL, which the end of line may be. */
  function Reply(n: int, typ: byte, data: seq<byte>, eol: byte): seq<byte> {
    var body := [ToChar(|data| + 3), ToChar(n), typ] + data;
    [START_CHAR] + body + [Check(Sum(body))] + (if eol == 0 then [] else [eol])
  }

  /** What we answer to a send-initiate packet that has this many characters of data. */
  function OurParameters(n: nat): seq<byte> {
    var all: seq<byte> :=
      [ToChar(94), ToChar(1), ToChar(0), 0x40, ToChar(13), 35, 78, 49, 78, ToChar(2), ToChar(0), ToChar(94),
        ToChar(94)];
    if n < 10 then all[..n] else all
  }

  /** The reply to a packet that leaves the receiver in this state. */
  function Answer(k: Receiver, p: Packet): seq<byte> {
    Padding(k.padCount, k.padChar) +
    if !p.good then Reply(p.n, NACK_TYPE, [], k.eol)
    else if p.typ == SEND_TYPE then Reply(p.n, ACK_TYPE, OurParameters(|p.data|), k.eol)
    else Reply(p.n, ACK_TYPE, [], k.eol)
  }

  /** The reply to an error before the number has the number of the packet before. */
  function EarlyAnswer(k: Receiver): seq<byte> {
    Padding(k.padCount, k.padChar) + Reply(if k.lastN < 0 then 0 else k.lastN, NACK_TYPE, [], k.eol)
  }

  datatype Outcome = Outcome(k: Receiver, at: nat, sent: seq<byte>)

  /** After one packet. */
  function After(k: Receiver, r: Read, sent: seq<byte>): Outcome
    requires !r.Blocked?
  {
    match r
    case Early(next) => Outcome(EarlyError(k), next, sent + EarlyAnswer(k))
    case Ended(p, next) => var k' := Step(k, p); Outcome(k', next, sent + Answer(k', p))
  }

  /** All that is on the line, until the end of transmission; or until there is no more. */
  function Run(k: Receiver, line: seq<byte>, at: nat, sent: seq<byte>): Outcome
    decreases |line| + 2 - at
  {
    var i := AfterStart(line, at);
    AfterStartNext(line, at);
    if k.done || i > |line| then Outcome(k, at, sent) else
      HeaderNext(line, i);
      var r := Header(line, i);
      if r.Blocked? then Outcome(k, at, sent) else
        var o := After(k, r, sent);
        Run(o.k, line, o.at, o.sent)
  }

  lemma RunNext(k: Receiver, line: seq<byte>, at: nat, sent: seq<byte>)
    requires !k.done
    ensures AfterStart(line, at) > at
    ensures AfterStart(line, at) > |line| || Header(line, AfterStart(line, at)).Blocked? ==>
      Run(k, line, at, sent) == Outcome(k, at, sent)
    ensures AfterStart(line, at) <= |line| && !Header(line, AfterStart(line, at)).Blocked? ==>
      var o := After(k, Header(line, AfterStart(line, at)), sent);
      Run(k, line, at, sent) == Run(o.k, line, o.at, o.sent) && at < o.at
  {
    AfterStartNext(line, at);
    HeaderNext(line, AfterStart(line, at));
  }

  lemma {:induction false} AfterStartNext(line: seq<byte>, at: nat)
    ensures AfterStart(line, at) > at
      && (AfterStart(line, at) <= |line| ==> line[AfterStart(line, at) - 1] == START_CHAR)
    decreases |line| - at
  {
    if at < |line| && line[at] != START_CHAR { AfterStartNext(line, at + 1); }
  }

  // ----- a sender that repeats until it is told to go on -----

  /** What the sender sends. */
  datatype Message = Message(typ: byte, data: seq<byte>)

  /** One transmission as it arrives: intact, or with an error that is found; and whether the sender gets
      the reply. Or with an error before the number. */
  datatype Try = Try(packet: Packet, heard: bool) | Spoiled

  /** The number of message i. */
  function Number(i: nat): int { i % 64 }

  /** A transmission of message i whose number has arrived. */
  ghost predicate TryOf(ms: seq<Message>, i: nat, t: Try) {
    t.Try? && i < |ms| && t.packet.n == Number(i)
      && (t.packet.good ==> t.packet.typ == ms[i].typ && t.packet.data == ms[i].data)
  }

  /** Stop and wait: the next message, when the acknowledgement of this one arrives. */
  function NextMessage(i: nat, t: Try): nat { if t.Try? && t.packet.good && t.heard then i + 1 else i }

  datatype Global = Global(k: Receiver, i: nat)

  /** An error before the number does no harm: the packet before is to be repeated anyway, or has left no data. */
  predicate Harmless(g: Global) { g.k.lastN == Number(g.i) || g.k.d == g.k.saved }

  ghost predicate GlobalStep(ms: seq<Message>, g: Global, t: Try, g': Global) {
    && !g.k.done && g'.i == NextMessage(g.i, t)
    && if t.Spoiled? then Harmless(g) && g'.k == EarlyError(g.k) else TryOf(ms, g.i, t) && g'.k == Step(g.k, t.packet)
  }

  /** States one after the other, from the beginning. */
  ghost predicate IsRun(ms: seq<Message>, tries: seq<Try>, gs: seq<Global>) {
    && |gs| == |tries| + 1 && gs[0] == Global(Initial(), 0)
    && forall j {:trigger tries[j]} :: 0 <= j < |tries| ==> GlobalStep(ms, gs[j], tries[j], gs[j + 1])
  }

  /** What there is to be received after the first i messages. */
  function Expected(ms: seq<Message>, i: nat): Receiver
    requires i <= |ms|
  {
    if i == 0 then Initial() else
      var k, m := Expected(ms, i - 1), ms[i - 1];
      if m.typ == DATA_TYPE then k.(d := Feed(k.d, k.quote, m.data))
      else if m.typ == SEND_TYPE then Parameters(k, m.data)
      else k.(done := k.done || m.typ == BREAK_TYPE)
  }

  /** The decoded data and the parameters. */
  ghost predicate Agrees(k: Receiver, e: Receiver) {
    k.d == e.d && k.quote == e.quote && k.eol == e.eol && k.padCount == e.padCount && k.padChar == e.padChar
      && k.done == e.done
  }

  /** Before any transmission of message i has arrived, the receiver has the first i messages; after
      that it has these at its checkpoint, and has received message i either not at all or once. */
  ghost predicate Safe(ms: seq<Message>, g: Global) {
    && g.i <= |ms|
    && if g.k.lastN != Number(g.i) then
         Agrees(g.k, Expected(ms, g.i)) && g.k.lastN == (if g.i == 0 then -1 else Number(g.i - 1))
       else
         g.i < |ms| && g.k.saved == Expected(ms, g.i).d
           && (Agrees(g.k, Expected(ms, g.i)) || Agrees(g.k, Expected(ms, g.i + 1)))
  }

  lemma SafeStart(ms: seq<Message>)
    ensures Safe(ms, Global(Initial(), 0))
  {}

  /** After the number has been read, whatever came before: the state after the first i messages. */
  lemma Rewound(ms: seq<Message>, g: Global, t: Try)
    requires Safe(ms, g) && !g.k.done && TryOf(ms, g.i, t)
    ensures var k1 := Numbered(g.k, t.packet.n);
      k1.d == k1.saved == Expected(ms, g.i).d && k1.lastN == Number(g.i) && !Expected(ms, g.i).done && !k1.done
  {}

  lemma SafeStep(ms: seq<Message>, g: Global, t: Try, g': Global)
    requires Safe(ms, g) && GlobalStep(ms, g, t, g')
    ensures Safe(ms, g')
  {
    if t.Spoiled? {
      EarlyErrorHarmless(ms, g);
    } else {
      Rewound(ms, g, t);
      assert if t.packet.good then Agrees(g'.k, Expected(ms, g.i + 1)) else g'.k.d == Expected(ms, g.i).d;
    }
  }

  /** The invariant of every run: however often packets are repeated, damaged or, where that is harmless, spoiled, and
      replies are lost. */
  lemma {:induction false} AlwaysSafe(ms: seq<Message>, tries: seq<Try>, gs: seq<Global>, j: nat)
    requires IsRun(ms, tries, gs) && j < |gs|
    ensures Safe(ms, gs[j])
  {
    if j == 0 {
      SafeStart(ms);
    } else {
      AlwaysSafe(ms, tries, gs, j - 1);
      assert GlobalStep(ms, gs[j - 1], tries[j - 1], gs[j]);
      SafeStep(ms, gs[j - 1], tries[j - 1], gs[j]);
    }
  }

  // ----- an error before the number -----

  /** It does no harm if, and only if, the packet before is to be repeated anyway, or has left no data. */
  lemma EarlyErrorHarmless(ms: seq<Message>, g: Global)
    requires Safe(ms, g)
    ensures Safe(ms, Global(EarlyError(g.k), g.i)) <==> Harmless(g)
  {
    if g.k.lastN == Number(g.i) {
      var e, e1 := Expected(ms, g.i), Expected(ms, g.i + 1);
      assert Agrees(g.k, e) || e1.d == e.d || (e1.d == g.k.d && Agrees(EarlyError(g.k), e));
    }
  }

  /** Otherwise data is lost for good: three messages, the second one acknowledged, a spoiled packet
      after that, and all of it again with no errors. The second message is missing. */
  lemma EarlyErrorLoses(ms: seq<Message>, k1: Receiver, k2: Receiver, k3: Receiver)
    requires ms == [Message(SEND_TYPE, []), Message(DATA_TYPE, [65]), Message(DATA_TYPE, [66])]
    requires k1 == Step(Step(Initial(), Packet(0, SEND_TYPE, [], true)), Packet(1, DATA_TYPE, [65], true))
    requires k2 == EarlyError(k1) && k3 == Step(k2, Packet(2, DATA_TYPE, [66], true))
    ensures k1.d.out == [65] && Expected(ms, 2).d.out == [65]
    ensures k3.d.out == [66] && Expected(ms, 3).d.out == [65, 66] && k3.saved.out == []
  {
    var d := Decoded([], false);
    FeedChar(d, K_ESCAPE, 65);
    FeedChar(d, K_ESCAPE, 66);
    FeedChar(Decoded([65], false), K_ESCAPE, 66);
    var k0 := Step(Initial(), Packet(0, SEND_TYPE, [], true));
    assert Expected(ms, 0) == Initial();
    assert Expected(ms, 1).d == d && Expected(ms, 1).quote == K_ESCAPE;
    assert Expected(ms, 2).d == Decoded([65], false);
  }

  // ----- what has been received in the end -----

  /** The data fields of the data packets among the first i messages. */
  function DataOf(ms: seq<Message>, i: nat): seq<seq<byte>>
    requires i <= |ms|
  {
    if i == 0 then [] else if ms[i - 1].typ == DATA_TYPE then DataOf(ms, i - 1) + [ms[i - 1].data]
      else DataOf(ms, i - 1)
  }

  function QuoteOf(ms: seq<Message>): byte {
    if |ms| > 0 && ms[0].typ == SEND_TYPE && |ms[0].data| > 5 then ms[0].data[5] else K_ESCAPE
  }

  /** Only the first message may set parameters. */
  ghost predicate IsSession(ms: seq<Message>) { forall j {:trigger ms[j]} :: 0 < j < |ms| ==> ms[j].typ != SEND_TYPE }

  lemma {:induction false} ExpectedData(ms: seq<Message>, i: nat)
    requires IsSession(ms) && i <= |ms|
    ensures i > 0 ==> Expected(ms, i).quote == QuoteOf(ms)
    ensures Expected(ms, i).d == FeedAll(Decoded([], false), QuoteOf(ms), DataOf(ms, i))
  {
    if i > 0 {
      ExpectedData(ms, i - 1);
      var parts := DataOf(ms, i);
      if ms[i - 1].typ == DATA_TYPE {
        assert parts[..|parts| - 1] == DataOf(ms, i - 1);
      }
    }
  }

  lemma {:induction false} FirstBreak(ms: seq<Message>, i: nat)
    requires i <= |ms| && Expected(ms, i).done
    ensures exists j :: 0 <= j < i && ms[j].typ == BREAK_TYPE
  {
    if ms[i - 1].typ != BREAK_TYPE { FirstBreak(ms, i - 1); }
  }

  /** The state is that after some number of messages, the one before which is the end of transmission. */
  lemma DoneAt(ms: seq<Message>, g: Global) returns (i: nat)
    requires Safe(ms, g) && g.k.done
    ensures i <= |ms| && Agrees(g.k, Expected(ms, i)) && Expected(ms, i).done
  {
    i := if g.k.lastN != Number(g.i) || Agrees(g.k, Expected(ms, g.i)) then g.i else g.i + 1;
  }

  lemma {:induction false} SameData(ms: seq<Message>, i: nat, j: nat)
    requires i <= j <= |ms| && forall l {:trigger ms[l]} :: i <= l < j ==> ms[l].typ != DATA_TYPE
    ensures DataOf(ms, j) == DataOf(ms, i)
  {
    if i < j { SameData(ms, i, j - 1); }
  }

  /** When the transmission is over, what has been received is the file, each part once and in order. */
  lemma {:induction false} ReceivedOnce(ms: seq<Message>, tries: seq<Try>, gs: seq<Global>, file: seq<byte>)
    requires IsSession(ms) && LegalQuote(QuoteOf(ms)) && IsRun(ms, tries, gs) && gs[|gs| - 1].k.done
    requires forall j, l {:trigger ms[j], ms[l]} :: 0 <= j < l < |ms| && ms[j].typ == BREAK_TYPE ==>
      ms[l].typ != DATA_TYPE
    requires Concat(DataOf(ms, |ms|)) == Encode(QuoteOf(ms), file)
    ensures gs[|gs| - 1].k.d == Decoded(file, false)
  {
    var g := gs[|gs| - 1];
    AlwaysSafe(ms, tries, gs, |gs| - 1);
    var i := DoneAt(ms, g);
    FirstBreak(ms, i);
    SameData(ms, i, |ms|);
    ExpectedData(ms, i);
    FeedParts(Decoded([], false), QuoteOf(ms), DataOf(ms, i));
    EncodeBack(Decoded([], false), QuoteOf(ms), file);
  }
}
