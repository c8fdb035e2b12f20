/** k_recv: the receiver, which writes what it receives straight to memory. */
module KermitReceiver {
  import opened Basics
  import opened KermitPackets
  import opened KermitProtocol
  import opened KermitReplies

  const SEND_DATA_SIZE := 20

  /** The parameters of a send-initiate packet, as far as they fit the buffer. */
  ghost predicate Buffered(parms: seq<byte>, ptr: nat, data: seq<byte>) {
    && |parms| == SEND_DATA_SIZE && ptr == (if |data| < SEND_DATA_SIZE then |data| else SEND_DATA_SIZE - 1)
    && forall i {:trigger parms[i]} :: 0 <= i < ptr && i < SEND_DATA_SIZE - 1 ==> parms[i] == data[i]
  }

  /** How many of them we look at. */
  function Used(n: nat): nat { if n < SEND_DATA_SIZE - 1 then n else SEND_DATA_SIZE - 2 }

  lemma SameAnswer(n: nat)
    ensures OurParameters(Used(n)) == OurParameters(n)
  {}

  /** How reading went: there is no more, an error has been found, or neither. */
  datatype Status = NoMore | Wrong | Fine

  class Receive {
    const line: seq<byte>            // what arrives
    var at: nat                      // how far it has been read
    const mem: array<byte>
    const start: nat                 // bin_start_address
    var addr: nat                    // os_data_addr
    var addrSaved: nat
    var escape: bool
    var escapeSaved: bool
    var n: int                       // of the last packet
    var lastN: int
    var quote: byte
    var eol: byte
    var padCount: int
    var padChar: byte
    const parms: array<byte>         // send_parms
    var ptr: nat                     // send_ptr
    var sent: seq<byte>              // what is sent back
    var done: bool

    /** There is memory for all that may come. */
    ghost predicate Valid()
      reads this
    {
      && start <= addrSaved <= addr && at <= |line| && addr + (|line| - at) <= mem.Length
      && parms.Length == SEND_DATA_SIZE && parms != mem && ptr < SEND_DATA_SIZE
      && n == (if lastN < 0 then 0 else lastN) && n < 224
    }

    ghost function View(): Receiver
      requires Valid()
      reads this, mem
    {
      Receiver(Decoded(mem[start..addr], escape), Decoded(mem[start..addrSaved], escapeSaved), lastN, quote, eol,
          padCount, padChar, done)
    }

    constructor (line: seq<byte>, mem: array<byte>, start: nat)
      requires start + |line| <= mem.Length
      ensures Valid() && View() == Initial() && at == 0 && sent == [] && fresh(parms)
      ensures this.line == line && this.mem == mem && this.start == start
    {
      this.line, this.mem, this.start, at := line, mem, start, 0;
      addr, addrSaved, escape, escapeSaved, lastN := start, start, false, false, -1;
      n := 0;
      quote, eol, padCount, padChar, done := K_ESCAPE, END_CHAR, 0, 0, false;
      parms := new byte[SEND_DATA_SIZE](_ => 0);
      ptr, sent := 0, [];
    }

    /** The next byte, if there is one. */
    method Getc() returns (ok: bool, c: byte)
      requires Valid()
      modifies this`at
      ensures Valid() && View() == old(View())
      ensures ok <==> old(at) < |line|
      ensures ok ==> c == line[old(at)] && at == old(at) + 1
      ensures !ok ==> at == old(at)
    {
      if at == |line| {
        return false, 0;
      }
      ok, c, at := true, line[at], at + 1;
    }

    /** k_data_char and bin_data_char */
    method PutData(c: byte)
      requires Valid() && addr < mem.Length && addr + (|line| - at) < mem.Length
      modifies this`addr, this`escape, mem
      ensures Valid() && View() == old(View()).(d := DataChar(old(View()).d, quote, c))
      ensures mem[..start] == old(mem[..start])
    {
      if escape {
        mem[addr] := KTrans(c);
        addr, escape := addr + 1, false;
      } else if c == quote {
        escape := true;
      } else {
        mem[addr] := c;
        addr := addr + 1;
      }
    }

    /** k_data_restore */
    method Restore()
      requires Valid()
      modifies this`addr, this`escape
      ensures Valid() && View() == old(View()).(d := old(View()).saved)
    {
      addr, escape := addrSaved, escapeSaved;
    }

    /** Check the number of the packet; restore the state, or save it. */
    method Renumber(n: nat)
      requires Valid() && n < 224
      modifies this`addr, this`escape, this`addrSaved, this`escapeSaved, this`n, this`lastN
      ensures Valid() && View() == Numbered(old(View()), n) && lastN == n
    {
      this.n := n;
      if n == lastN {
        Restore();
      } else {
        lastN, addrSaved, escapeSaved := n, addr, escape;
      }
    }

    // ----- replies -----

    /** send_pad, and the packet up to its NUL. */
    method SendPacket(packet: seq<byte>)
      requires Valid()
      modifies this`sent
      ensures Valid() && View() == old(View()) && sent == old(sent) + (Padding(padCount, padChar) + packet)
    {
      var pad := Pad(padCount, padChar);
      sent := sent + (pad + packet);
    }

    method SendAck()
      requires Valid()
      modifies this`sent
      ensures Valid() && View() == old(View())
        && sent == old(sent) + (Padding(padCount, padChar) + Reply(n, ACK_TYPE, [], eol))
    {
      var packet := BuildReply(n, ACK_TYPE, eol);
      SendPacket(packet);
    }

    method SendNack()
      requires Valid()
      modifies this`sent
      ensures Valid() && View() == old(View())
        && sent == old(sent) + (Padding(padCount, padChar) + Reply(n, NACK_TYPE, [], eol))
    {
      var packet := BuildReply(n, NACK_TYPE, eol);
      SendPacket(packet);
    }

    /** What the parameters in the buffer say about padding... */
    method PaddingGiven(ghost data: seq<byte>) returns (count: int, c: byte)
      requires Valid() && Buffered(parms[..], ptr, data)
      ensures count == (if |data| > 2 then UnToChar(data[2]) else 0) && c == (if |data| > 3 then KTrans(data[3]) else 0)
    {
      assert forall i {:trigger data[i]} :: 0 <= i < ptr && i < SEND_DATA_SIZE - 1 ==> parms[..][i] == data[i];
      count, c := 0, 0;
      if ptr > 2 { count := UnToChar(parms[2]); }
      if ptr > 3 { c := KTrans(parms[3]); }
    }

    /** ... and about the end of line and quoting. */
    method QuotingGiven(ghost data: seq<byte>) returns (eol: byte, quote: byte)
      requires Valid() && Buffered(parms[..], ptr, data)
      ensures eol == (if |data| > 4 then UnToChar(data[4]) else END_CHAR)
        && quote == (if |data| > 5 then data[5] else K_ESCAPE)
    {
      assert forall i {:trigger data[i]} :: 0 <= i < ptr && i < SEND_DATA_SIZE - 1 ==> parms[..][i] == data[i];
      eol, quote := END_CHAR, K_ESCAPE;
      if ptr > 4 { eol := UnToChar(parms[4]); }
      if ptr > 5 { quote := parms[5]; }
    }

    /** handle_send_packet: note the parameters of the sender... */
    method TakeParameters(ghost data: seq<byte>)
      requires Valid() && Buffered(parms[..], ptr, data)
      modifies this`quote, this`eol, this`padCount, this`padChar, this`ptr
      ensures Valid() && View() == Parameters(old(View()), data)
      ensures ptr == Used(|data|)
    {
      padCount, padChar := PaddingGiven(data);
      eol, quote := QuotingGiven(data);
      if ptr == SEND_DATA_SIZE - 1 {
        ptr := ptr - 1;
      }
    }

    /** ... and answer with ours. */
    method HandleSendPacket(ghost data: seq<byte>)
      requires Valid() && Buffered(parms[..], ptr, data)
      modifies this`quote, this`eol, this`padCount, this`padChar, this`ptr, this`sent
      ensures Valid() && View() == Parameters(old(View()), data)
      ensures sent == old(sent) + (Padding(padCount, padChar) + Reply(n, ACK_TYPE, OurParameters(|data|), eol))
    {
      TakeParameters(data);
      SameAnswer(|data|);
      var packet := BuildAnswer(n, ptr, eol);
      SendPacket(packet);
    }

    // ----- a packet -----

    /** The data of a packet: to memory, or into the buffer for parameters. */
    method ReadData(n: int, typ: byte, length0: int, sum0: nat)
      returns (st: Status, length: int, sum: nat, ghost data: seq<byte>)
      requires Valid()
      modifies this`at, this`addr, this`escape, this`ptr, mem, parms
      ensures Valid() && mem[..start] == old(mem[..start])
      ensures View() == Delivered(old(View()), Packet(n, typ, data, false))
      ensures typ == SEND_TYPE && old(ptr) == 0 ==> Buffered(parms[..], ptr, data)
      ensures st == NoMore ==> Body(line, old(at), n, typ, length0, sum0, []) == Blocked
      ensures st == Wrong ==> Body(line, old(at), n, typ, length0, sum0, []) == Ended(Packet(n, typ, data, false), at)
      ensures st == Fine ==>
        length <= 1 && Body(line, old(at), n, typ, length0, sum0, []) == Body(line, at, n, typ, length, sum, data)
    {
      st, length, sum, data := Fine, length0, sum0, [];
      while length > 1
        invariant Valid() && mem[..start] == old(mem[..start])
        invariant View() == Delivered(old(View()), Packet(n, typ, data, false))
        invariant typ == SEND_TYPE && old(ptr) == 0 ==> Buffered(parms[..], ptr, data)
        invariant Body(line, old(at), n, typ, length0, sum0, []) == Body(line, at, n, typ, length, sum, data)
      {
        var ok, c := Getc();
        if !ok {
          st := NoMore;
          return;
        }
        if !Printable(c) {
          st := Wrong;
          return;
        }
        sum, length := sum + c, length - 1;
        assert (data + [c])[..|data|] == data;
        data := data + [c];
        if typ == DATA_TYPE {
          PutData(c);
        } else if typ == SEND_TYPE {
          PutParameter(c, data[..|data| - 1]);
        }
      }
    }

    /** Save a character in the buffer; at its end the pointer backs off. */
    method PutParameter(c: byte, ghost data: seq<byte>)
      requires Valid() && ptr < SEND_DATA_SIZE
      modifies this`ptr, parms
      ensures Valid() && View() == old(View()) && mem[..] == old(mem[..]) && ptr < SEND_DATA_SIZE
      ensures Buffered(old(parms[..]), old(ptr), data) ==> Buffered(parms[..], ptr, data + [c])
    {
      parms[ptr] := c;
      ptr := ptr + 1;
      if ptr >= SEND_DATA_SIZE {
        ptr := ptr - 1;
      }
    }

    /** The extra length of a long packet, and the check of the header. */
    method ReadExtended(typ: byte, sum0: nat) returns (st: Status, length: int, sum: nat)
      requires Valid()
      modifies this`at
      ensures Valid() && View() == old(View())
      ensures st == NoMore ==> Extended(line, old(at), n, typ, sum0) == Blocked
      ensures st == Wrong ==> Extended(line, old(at), n, typ, sum0) == Ended(Packet(n, typ, [], false), at)
      ensures st == Fine ==> Extended(line, old(at), n, typ, sum0) == Body(line, at, n, typ, length, sum, [])
    {
      st, length, sum := NoMore, 0, sum0;
      var ok, c := Getc();
      if !ok { return; }
      if !Printable(c) { return Wrong, 0, 0; }
      sum, length := sum + c, UnToChar(c) * 95;
      ok, c := Getc();
      if !ok { return; }
      if !Printable(c) { return Wrong, 0, 0; }
      sum, length := sum + c, length + UnToChar(c);
      ok, c := Getc();
      if !ok { return; }
      if !Printable(c) || c != Check(sum) { return Wrong, 0, 0; }
      st, sum := Fine, sum + c;
    }

    /** The block check and the end of line. */
    method ReadCheck(typ: byte, length: int, sum: nat, ghost data: seq<byte>) returns (st: Status)
      requires Valid() && length <= 1
      modifies this`at
      ensures Valid() && View() == old(View())
      ensures st == NoMore ==> Body(line, old(at), n, typ, length, sum, data) == Blocked
      ensures st != NoMore ==>
        Body(line, old(at), n, typ, length, sum, data) == Ended(Packet(n, typ, data, st == Fine), at)
    {
      var ok, c := Getc();
      if !ok { return NoMore; }
      if !Printable(c) || c != Check(sum) { return Wrong; }
      ok, c := Getc();
      if !ok { return NoMore; }
      st := if c == END_CHAR then Fine else Wrong;
    }

    /** The rest of a packet after its number. */
    method ReadRest(length0: int, sum0: nat) returns (st: Status, typ: int, ghost p: Packet)
      requires Valid() && ptr == 0
      modifies this`at, this`addr, this`escape, this`ptr, mem, parms
      ensures Valid() && mem[..start] == old(mem[..start])
      ensures View() == Delivered(old(View()), p)
      ensures st == NoMore ==> TypeField(line, old(at), n, length0, sum0) == Blocked
      ensures st != NoMore ==> TypeField(line, old(at), n, length0, sum0) == Ended(p, at)
      ensures p.n == n && p.typ == typ && p.good == (st == Fine)
      ensures st == Fine && typ == SEND_TYPE ==> Buffered(parms[..], ptr, p.data)
    {
      st, typ, p := NoMore, -1, Packet(n, -1, [], false);
      var ok, c := Getc();
      if !ok { return; }
      if !Printable(c) {
        st := Wrong;
        return;
      }
      typ := c;
      st, p := ReadTyped(c, length0 - 1, sum0 + c);
    }

    /** What a packet is read as from after its type on. */
    ghost function Typed(i: nat, typ: byte, length: int, sum: nat): Read
      reads this`n
    { if length == -2 then Extended(line, i, n, typ, sum) else Body(line, i, n, typ, length, sum, []) }

    /** The rest of a packet after its type. */
    method ReadTyped(typ: byte, length0: int, sum0: nat) returns (st: Status, ghost p: Packet)
      requires Valid() && ptr == 0
      modifies this`at, this`addr, this`escape, this`ptr, mem, parms
      ensures Valid() && mem[..start] == old(mem[..start])
      ensures View() == Delivered(old(View()), p)
      ensures st == NoMore ==> Typed(old(at), typ, length0, sum0) == Blocked
      ensures st != NoMore ==> Typed(old(at), typ, length0, sum0) == Ended(p, at)
      ensures p.n == n && p.typ == typ && p.good == (st == Fine)
      ensures st == Fine && typ == SEND_TYPE ==> Buffered(parms[..], ptr, p.data)
    {
      p := Packet(n, typ, [], false);
      st := Fine;
      var length, sum := length0, sum0;
      if length == -2 {
        st, length, sum := ReadExtended(typ, sum);
      }
      if st == Fine {
        ghost var data;
        st, length, sum, data := ReadData(n, typ, length, sum);
        if st == Fine {
          st := ReadCheck(typ, length, sum, data);
        }
        p := Packet(n, typ, data, st == Fine);
      }
    }

    /** What follows a packet: an acknowledgement, or the checkpoint and a negative one. */
    method Conclude(good: bool, typ: int, ghost p: Packet)
      requires Valid() && p.n == n && p.typ == typ && p.good == good
      requires good && typ == SEND_TYPE ==> Buffered(parms[..], ptr, p.data)
      modifies this`addr, this`escape, this`quote, this`eol, this`padCount, this`padChar, this`ptr, this`sent, this`done
      ensures Valid() && View() == Concluded(old(View()), p) && sent == old(sent) + Answer(View(), p)
    {
      if !good {
        Restore();
        SendNack();
      } else if typ == SEND_TYPE {
        HandleSendPacket(p.data);
      } else {
        SendAck();
        if typ == BREAK_TYPE {
          done := true;
        }
      }
    }

    /** An error before the number. */
    method ConcludeEarly()
      requires Valid()
      modifies this`addr, this`escape, this`sent
      ensures Valid() && View() == EarlyError(old(View())) && sent == old(sent) + EarlyAnswer(old(View()))
    {
      Restore();
      SendNack();
    }

    /** The length and the number. */
    method ReadHeader() returns (st: Status, number: nat, length: int, sum: nat)
      requires Valid()
      modifies this`at
      ensures Valid() && View() == old(View())
      ensures st == NoMore ==> Header(line, old(at)) == Blocked
      ensures st == Wrong ==> Header(line, old(at)) == Early(at)
      ensures st == Fine ==> Header(line, old(at)) == TypeField(line, at, number, length, sum) && number < 224
    {
      st, number, length, sum := NoMore, 0, 0, 0;
      var ok, c := Getc();
      if !ok { return; }
      if !Printable(c) { return Wrong, 0, 0, 0; }
      sum, length := c, UnToChar(c);
      ok, c := Getc();
      if !ok { return; }
      if !Printable(c) { return Wrong, 0, 0, 0; }
      st, number, length, sum := Fine, UnToChar(c), length - 1, sum + c;
    }

    /** A packet from its type on. */
    method ReceiveNumbered(number: nat, length: int, sum: nat) returns (ok: bool)
      requires Valid() && ptr == 0 && number < 224
      modifies this`at, this`addr, this`addrSaved, this`escape, this`escapeSaved, this`n, this`lastN
      modifies this`quote, this`eol, this`padCount, this`padChar, this`ptr, this`sent, this`done, mem, parms
      ensures Valid() && mem[..start] == old(mem[..start])
      ensures var r := TypeField(line, old(at), number, length, sum);
        if ok then r.Ended? && After(old(View()), r, old(sent)) == Outcome(View(), at, sent) else r.Blocked?
    {
      Renumber(number);
      var st, typ;
      ghost var p;
      st, typ, p := ReadRest(length, sum);
      if st == NoMore { return false; }
      Conclude(st == Fine, typ, p);
      ok := true;
    }

    /** One packet, after its start character. */
    method ReceivePacket() returns (ok: bool)
      requires Valid()
      modifies this`at, this`addr, this`addrSaved, this`escape, this`escapeSaved, this`n, this`lastN
      modifies this`quote, this`eol, this`padCount, this`padChar, this`ptr, this`sent, this`done, mem, parms
      ensures Valid() && mem[..start] == old(mem[..start])
      ensures ok <==> !Header(line, old(at)).Blocked?
      ensures ok ==> After(old(View()), Header(line, old(at)), old(sent)) == Outcome(View(), at, sent)
    {
      ptr := 0;
      var st, number, length, sum := ReadHeader();
      if st == NoMore { return false; }
      if st == Wrong {
        ConcludeEarly();
        return true;
      }
      ok := ReceiveNumbered(number, length, sum);
    }

    /** Wait for the start of a packet. */
    method Skip() returns (ok: bool)
      requires Valid()
      modifies this`at
      ensures Valid() && View() == old(View())
      ensures ok <==> AfterStart(line, old(at)) <= |line|
      ensures ok ==> at == AfterStart(line, old(at))
    {
      var c;
      ok, c := Getc();
      while ok && c != START_CHAR
        invariant Valid() && View() == old(View())
        invariant ok ==> 0 < at && c == line[at - 1] && AfterStart(line, old(at)) == AfterStart(line, at - 1)
        invariant !ok ==> AfterStart(line, old(at)) > |line|
        decreases |line| - at, ok
      {
        ok, c := Getc();
      }
    }

    /** One turn of the main loop. */
    method Turn() returns (ok: bool)
      requires Valid() && !done
      modifies this`at, this`addr, this`addrSaved, this`escape, this`escapeSaved, this`n, this`lastN
      modifies this`quote, this`eol, this`padCount, this`padChar, this`ptr, this`sent, this`done, mem, parms
      ensures Valid() && mem[..start] == old(mem[..start])
      ensures ok ==> at > old(at) && Run(old(View()), line, old(at), old(sent)) == Run(View(), line, at, sent)
      ensures !ok ==> !Run(old(View()), line, old(at), old(sent)).k.done
    {
      RunNext(View(), line, at, sent);
      ok := Skip();
      if ok {
        ok := ReceivePacket();
      }
    }

    /** k_recv: until the end of transmission; false if the line ends first. */
    method KRecv() returns (ok: bool, size: nat)
      requires Valid()
      modifies this`at, this`addr, this`addrSaved, this`escape, this`escapeSaved, this`n, this`lastN
      modifies this`quote, this`eol, this`padCount, this`padChar, this`ptr, this`sent, this`done, mem, parms
      ensures Valid() && mem[..start] == old(mem[..start])
      ensures ok <==> Run(old(View()), line, old(at), old(sent)).k.done
      ensures ok ==> Run(old(View()), line, old(at), old(sent)) == Outcome(View(), at, sent) && size == |View().d.out|
    {
      ok, size := true, 0;
      while ok && !done
        invariant Valid() && mem[..start] == old(mem[..start])
        invariant ok ==> Run(old(View()), line, old(at), old(sent)) == Run(View(), line, at, sent)
        invariant !ok ==> !Run(old(View()), line, old(at), old(sent)).k.done
        decreases ok, |line| - at
      {
        ok := Turn();
      }
      size := addr - start;
    }
  }
}
