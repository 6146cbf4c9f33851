/**
  protocol/module.hpp and the six modules of client.cc and server.cc: one packet object is
  checked by all modules and then handled by all of them in turn. `p.b` is the range of the
  16-bit sequence field, as in both programs.
 */
module Connections {
  import opened Modular
  import opened Window
  import opened Protocol
  import opened Packets
  import opened Options

  datatype Datagram = Datagram(bytes: string, to: Endpoint)

  /** The control bits of `make_data_packet`: the sixth is the terminator of the literal. */
  const DATA_CONTROL := "00100\0"
  const ACK_CONTROL := "01100\0"

  function DataFields(start: nat, data: string): Fields {
    Fields(start, 0, DATA_CONTROL, 0, 0, data)
  }

  /** A segment on the wire. */
  function SegmentBytes(m: Segment): string {
    Encode(DataFields(m.start, m.data))
  }

  function AckPacket(ack: nat): Fields {
    Fields(0, ack, ACK_CONTROL, 0, 0, "")
  }

  /** The acknowledgement of a segment on the wire. */
  function AckBytes(ack: nat): string {
    Encode(AckPacket(ack))
  }

  lemma NoBits(k: nat)
    requires k < 16
    ensures 0 / Pow(2, 15 - k) % 2 == 0
  {
  }

  /** Every byte of a segment on the wire, `k` being the place in a number field. */
  lemma SegmentOnWire(m: Segment, k: nat)
    requires m.start < 0x10000 && k < 16
    ensures var s := SegmentBytes(m);
            && |s| == 70 + |m.data| && s[32..38] == "00100\0" && s[70..] == m.data
            && s[k] == (if m.start / Pow(2, 15 - k) % 2 == 1 then '1' else '0')
            && s[16 + k] == s[38 + k] == s[54 + k] == '0'
  {
    NoBits(k);
    EncodedBits(DataFields(m.start, m.data), k);
  }

  /** Every byte of an acknowledgement on the wire. */
  lemma AckOnWire(ack: nat, k: nat)
    requires ack < 0x10000 && k < 16
    ensures var s := AckBytes(ack);
            && |s| == 70 && s[32..38] == "01100\0"
            && s[16 + k] == (if ack / Pow(2, 15 - k) % 2 == 1 then '1' else '0')
            && s[k] == s[38 + k] == s[54 + k] == '0'
  {
    NoBits(k);
    EncodedBits(AckPacket(ack), k);
  }

  /** lost_packet_module.hpp; `lose` is what the random number decides. */
  method LosePacket(packet: MsgPacket, lose: bool)
    requires packet.Valid()
    modifies packet
    ensures packet.Valid() && packet.message == old(packet.message)
    ensures packet.Kind() == if old(packet.Kind()) == RecvData && lose then ErrorPacket else old(packet.Kind())
    ensures packet.Kind() == old(packet.Kind()) ==>
              packet.View() == old(packet.View()) && packet.src == old(packet.src) && packet.des == old(packet.des)
  {
    if packet.Kind() == RecvData {
      if lose {
        packet.SetErrorPacket();
      }
    }
  }

  /** modify_module.hpp: received data becomes an acknowledgement to where it came from. */
  method ModifyPacket(packet: MsgPacket)
    requires packet.Valid()
    modifies packet
    ensures packet.Valid()
    ensures packet.Kind() == if old(packet.Kind()) == RecvData then SendAck else old(packet.Kind())
    ensures if old(packet.Kind()) == RecvData then
              && packet.des == old(packet.src) && packet.src == packet.local
              && packet.View() == old(packet.View()).(control := old(packet.control)[1 := '1'], message := "")
            else
              && packet.des == old(packet.des) && packet.View() == old(packet.View())
              && packet.src == if packet.Kind() in {SendData, SendAck} then packet.local else old(packet.src)
  {
    if packet.Kind() == ErrorPacket {
    } else if packet.Kind() == RecvData {
      packet.des := packet.src;
      packet.src := packet.local;
      packet.SetAckFlag();
      packet.message := "";
    } else if packet.Kind() == RecvAck {
    } else if packet.Kind() == SendData {
      packet.src := packet.local;
    } else if packet.Kind() == SendAck {
      packet.src := packet.local;
    }
  }

  class RecvModule {
    const p: Params
    const window: SlideWindow
    var peer: Endpoint

    ghost predicate Valid()
      reads window, window.window, window.buffer
    {
      window.Receiving() && window.b == p.b == 0x10000 && window.w == p.w
    }

    constructor (p: Params, local: Endpoint)
      requires p.b == 0x10000
      ensures Valid() && this.p == p && window.View() == EmptyInbox
      ensures fresh(window) && fresh(window.window) && fresh(window.buffer)
    {
      this.p := p;
      peer := local;
      window := new SlideWindow(p.b, p.w);
    }

    method Handle(packet: MsgPacket)
      requires Valid() && packet.Valid()
      requires packet.Kind() == RecvData ==> |packet.message| <= p.d
      modifies this, window, window.window, window.buffer, packet
      ensures Valid() && packet.Valid() && packet.Kind() == old(packet.Kind())
      ensures packet.src == old(packet.src) && packet.des == old(packet.des)
      ensures if old(packet.Kind()) == RecvData then
                && window.View() == Receive(p.b, p.w, old(window.View()), old(packet.seqNo), old(packet.message))
                && packet.View() == old(packet.View()).(seqNo := 0, ack := Res(window.left, p.b))
                && peer == packet.src
              else
                window.View() == old(window.View()) && packet.View() == old(packet.View()) && peer == old(peer)
    {
      if packet.Kind() == ErrorPacket {
      } else if packet.Kind() == RecvData {
        TakeData(packet);
      }
    }

    /** The branch for received data. */
    method TakeData(packet: MsgPacket)
      requires Valid() && packet.Valid() && |packet.message| <= p.d
      modifies this, window, window.window, window.buffer, packet
      ensures Valid() && packet.Valid() && peer == packet.src
      ensures packet.src == old(packet.src) && packet.des == old(packet.des)
      ensures window.View() == Receive(p.b, p.w, old(window.View()), old(packet.seqNo), old(packet.message))
      ensures packet.View() == old(packet.View()).(seqNo := 0, ack := Res(window.left, p.b))
    {
      peer := packet.src;
      var stored := window.SetFlagIfValid(packet.message, packet.seqNo);
      packet.seqNo := 0;
      packet.ack := window.winLeft;
    }

    method RecvAll() returns (info: string)
      requires Valid() && window.left - window.read <= p.w
      modifies window
      ensures Valid() && window.View() == old(window.View()).(read := window.left)
      ensures info == Bytes(window.cells, old(window.read), window.left)
    {
      info := window.RecvAll();
    }
  }

  class SendModule {
    const p: Params
    const window: SlideWindow
    var seqNo: nat
    ghost var next: nat

    ghost predicate Valid()
      reads this, window
    {
      window.Valid() && window.b == p.b == 0x10000 && window.w == p.w && seqNo == Res(next, p.b)
    }

    constructor (p: Params)
      requires p.b == 0x10000
      ensures Valid() && this.p == p && window.left == 0 && next == 0
      ensures fresh(window) && fresh(window.window) && fresh(window.buffer)
    {
      this.p := p;
      window := new SlideWindow(p.b, p.w);
      seqNo, next := 0, 0;
      new;
      ResSmall(0, p.b);
    }

    method Check(packet: MsgPacket) returns (ok: bool)
      requires Valid() && packet.Valid()
      ensures ok == (packet.Kind() == SendData ==> Admits(p, window.left, next, |packet.message|))
    {
      ok := true;
      if packet.Kind() == SendData {
        ok := window.InValidRange(seqNo, seqNo + |packet.message|);
      }
    }

    method Handle(packet: MsgPacket)
      requires Valid() && packet.Valid()
      requires packet.Kind() == SendData ==> |packet.message| <= p.d
      modifies this, window, packet
      ensures Valid() && packet.Valid() && packet.Kind() == old(packet.Kind())
      ensures packet.src == old(packet.src) && packet.des == old(packet.des)
      ensures window.left == if old(packet.Kind()) == RecvAck then Move(p.b, p.w, old(window.left), old(packet.ack))
                             else old(window.left)
      ensures if old(packet.Kind()) == SendData then
                next == old(next) + |packet.message| && packet.View() == old(packet.View()).(seqNo := Res(old(next), p.b))
              else
                next == old(next) && packet.View() == old(packet.View())
    {
      if packet.Kind() == ErrorPacket {
      } else if packet.Kind() == RecvData {
      } else if packet.Kind() == RecvAck {
        var moved := window.MoveIfValid(packet.ack);
      } else if packet.Kind() == SendData {
        packet.seqNo := seqNo;
        ResAdd(next, |packet.message|, p.b);
        if p.b - seqNo > |packet.message| {
          seqNo := seqNo + |packet.message|;
        } else {
          seqNo := |packet.message| - (p.b - seqNo);
        }
        next := next + |packet.message|;
      }
    }
  }

  /** A tuple of `timers_` with what its closure captured. */
  datatype Entry = Entry(start: nat, end: nat, bytes: string, to: Endpoint)

  lemma CancelledIs(timers: seq<Timer>, ack: nat, n: nat)
    requires n <= |timers| && forall k :: 0 <= k < n ==> timers[k].start != ack
    requires n < |timers| ==> timers[n].start == ack
    ensures n == Cancelled(timers, ack)
  {
  }

  /** `timers` are among `before`, except for the last one if a segment has just been recorded. */
  ghost predicate InheritedFrom(timers: seq<Entry>, before: seq<Entry>, recorded: bool) {
    forall k :: 0 <= k < |timers| ==> timers[k] in before || (recorded && k == |timers| - 1)
  }

  lemma SuffixInherits(timers: seq<Entry>, n: nat)
    requires n <= |timers|
    ensures InheritedFrom(timers[n..], timers, false)
  {
  }

  class ResendModule {
    const p: Params
    var timers: seq<Entry>
    ghost var sent: seq<string>

    ghost predicate Valid()
      reads this
    {
      |timers| == |sent| &&
      forall k :: 0 <= k < |timers| ==> timers[k].bytes == SegmentBytes(Segment(timers[k].start, sent[k]))
    }

    ghost function View(): (r: seq<Timer>)
      requires Valid()
      reads this
      ensures |r| == |timers|
      ensures forall k :: 0 <= k < |r| ==> r[k] == Timer(timers[k].start, timers[k].end, sent[k])
    {
      seq(|timers|, k requires 0 <= k < |timers| && |timers| == |sent| reads this =>
        Timer(timers[k].start, timers[k].end, sent[k]))
    }

    constructor (p: Params)
      ensures Valid() && this.p == p && timers == []
    {
      this.p := p;
      timers, sent := [], [];
    }

    method CancelTimer(ack: nat)
      requires Valid()
      modifies this
      ensures Valid() && View() == old(View())[Cancelled(old(View()), ack)..]
      ensures timers == old(timers)[Cancelled(old(View()), ack)..]
    {
      ghost var view, timers0, sent0, n := View(), timers, sent, 0;
      while timers != []
        invariant 0 <= n <= |timers0|
        invariant timers == timers0[n..] && sent == sent0[n..]
        invariant forall k :: 0 <= k < n ==> view[k].start != ack
        decreases |timers|
      {
        if timers[0].start == ack {
          break;
        }
        timers := timers[1..];
        sent := sent[1..];
        n := n + 1;
      }
      CancelledIs(view, ack, n);
    }

    method SetTimer(packet: MsgPacket)
      requires Valid() && packet.Valid() && packet.View() == DataFields(packet.seqNo, packet.message)
      modifies this
      ensures Valid()
      ensures timers == old(timers) + [Entry(packet.seqNo, Mod(packet.seqNo + |packet.message|, p.b),
                                             SegmentBytes(Segment(packet.seqNo, packet.message)), packet.des)]
      ensures View() == old(View()) + [Timer(packet.seqNo, Mod(packet.seqNo + |packet.message|, p.b), packet.message)]
      ensures InheritedFrom(timers, old(timers), true)
    {
      var end := Mod(packet.seqNo + |packet.message|, p.b);
      var packetStr := packet.ToString();
      timers := timers + [Entry(packet.seqNo, end, packetStr, packet.des)];
      sent := sent + [packet.message];
    }

    method Handle(packet: MsgPacket)
      requires Valid() && packet.Valid()
      requires packet.Kind() == SendData ==> packet.View() == DataFields(packet.seqNo, packet.message)
      modifies this
      ensures Valid()
      ensures if old(packet.Kind()) == RecvAck then
                && View() == old(View())[Cancelled(old(View()), packet.ack)..]
                && timers == old(timers)[Cancelled(old(View()), packet.ack)..]
              else if old(packet.Kind()) == SendData then
                && View() == old(View()) + [Timer(packet.seqNo, Mod(packet.seqNo + |packet.message|, p.b), packet.message)]
                && timers == old(timers) + [Entry(packet.seqNo, Mod(packet.seqNo + |packet.message|, p.b),
                                                  SegmentBytes(Segment(packet.seqNo, packet.message)), packet.des)]
              else
                View() == old(View()) && timers == old(timers)
      ensures InheritedFrom(timers, old(timers), old(packet.Kind()) == SendData)
    {
      if packet.Kind() == ErrorPacket {
      } else if packet.Kind() == RecvData {
      } else if packet.Kind() == RecvAck {
        SuffixInherits(timers, Cancelled(View(), packet.ack));
        CancelTimer(packet.ack);
      } else if packet.Kind() == SendData {
        SetTimer(packet);
      }
    }
  }

  class Connection {
    const p: Params
    const local: Endpoint
    const recv: RecvModule
    const send: SendModule
    const resend: ResendModule
    /** What the socket was given to send, in order. */
    var outbox: seq<Datagram>

    ghost predicate Valid()
      reads recv, recv.window, recv.window.window, recv.window.buffer, send, send.window, resend
    {
      && recv.Valid() && send.Valid() && resend.Valid()
      && recv.p == p && send.p == p && resend.p == p
      && recv.window != send.window
    }

    /** Every object a connection may change. */
    ghost function Frame(): set<object> {
      {this, recv, recv.window, recv.window.window, recv.window.buffer, send, send.window, resend}
    }

    lemma OutsideFrame(o: object)
      requires o != this && o != recv && o != recv.window && o != recv.window.window && o != recv.window.buffer
      requires o != send && o != send.window && o != resend
      ensures o !in Frame()
    {
    }

    /** The receiving end of the incoming pipe. */
    ghost function Inbox(): Inbox
      reads recv, recv.window
    {
      recv.window.View()
    }

    /** The sending end of the outgoing pipe. */
    ghost function Outgoing(): Sender
      requires resend.Valid()
      reads send, send.window, resend
    {
      Sender(send.window.left, send.next, resend.View())
    }

    constructor (p: Params, local: Endpoint)
      requires p.b == 0x10000
      ensures Valid() && this.p == p && this.local == local
      ensures Inbox() == Start.rx && Outgoing() == Start.tx && outbox == [] && AllSent()
      ensures fresh(recv) && fresh(recv.window) && fresh(recv.window.window) && fresh(recv.window.buffer)
      ensures fresh(send) && fresh(send.window) && fresh(resend)
    {
      this.p, this.local := p, local;
      recv := new RecvModule(p, local);
      send := new SendModule(p);
      resend := new ResendModule(p);
      outbox := [];
    }

    method MakeDataPacket(data: string, to: Endpoint) returns (packet: MsgPacket)
      ensures fresh(packet) && packet.Valid()
      ensures packet.local == local && packet.src == local && packet.des == to
      ensures packet.View() == DataFields(0, data)
    {
      packet := new MsgPacket(local, local, to);
      packet.control := DATA_CONTROL;
      packet.message := data;
    }

    ghost predicate Proper(packet: MsgPacket)
      reads packet
    {
      packet.Valid() && packet.local == local && |packet.message| <= p.d &&
      packet.Kind() in {ErrorPacket, RecvData, RecvAck, SendData} &&
      (packet.Kind() == SendData ==> packet.View() == DataFields(packet.seqNo, packet.message))
    }

    /** Every timer holds a datagram that was sent before, bytes and destination. */
    ghost predicate AllSent()
      reads this, resend
    {
      forall x :: x in resend.timers ==> Datagram(x.bytes, x.to) in outbox
    }

    /** Send module, then resend module. */
    method PassSender(packet: MsgPacket)
      requires send.Valid() && resend.Valid() && send.p == p && resend.p == p && Proper(packet)
      modifies packet, send, send.window, resend
      ensures InheritedFrom(resend.timers, old(resend.timers), old(packet.Kind()) == SendData)
      ensures send.Valid() && resend.Valid()
      ensures packet.Valid() && packet.Kind() == old(packet.Kind())
      ensures packet.src == old(packet.src) && packet.des == old(packet.des)
      ensures if old(packet.Kind()) == RecvAck then
                packet.View() == old(packet.View()) && Outgoing() == Acknowledge(p, old(Outgoing()), packet.ack)
              else if old(packet.Kind()) == SendData then
                && packet.View() == old(packet.View()).(seqNo := Res(old(Outgoing()).next, p.b))
                && Outgoing() == Record(p, old(Outgoing()), packet.message) && Remembers(packet)
              else
                packet.View() == old(packet.View()) && Outgoing() == old(Outgoing())
    {
      send.Handle(packet);
      EndOfSegment(old(send.next), |packet.message|);
      resend.Handle(packet);
    }

    /** Where a segment ends on the ring. */
    lemma EndOfSegment(start: nat, len: nat)
      requires len <= p.d
      ensures Mod(Res(start, p.b) + len, p.b) == Res(start + len, p.b)
    {
      ResAdd(start, len, p.b);
    }

    /** The three modules that keep state, in the order of the tuple. */
    method PassState(packet: MsgPacket)
      requires Valid() && Proper(packet)
      modifies packet, recv, recv.window, recv.window.window, recv.window.buffer, send, send.window, resend
      ensures Valid() && packet.Valid() && packet.Kind() == old(packet.Kind())
      ensures packet.src == old(packet.src) && packet.des == old(packet.des)
      ensures recv.peer == if old(packet.Kind()) == RecvData then packet.src else old(recv.peer)
      ensures if old(packet.Kind()) == RecvData then
                && Outgoing() == old(Outgoing())
                && Inbox() == Receive(p.b, p.w, old(Inbox()), old(packet.seqNo), old(packet.message))
                && packet.View() == old(packet.View()).(seqNo := 0, ack := Res(Inbox().left, p.b))
              else if old(packet.Kind()) == RecvAck then
                && Inbox() == old(Inbox()) && packet.View() == old(packet.View())
                && Outgoing() == Acknowledge(p, old(Outgoing()), packet.ack)
              else if old(packet.Kind()) == SendData then
                && Inbox() == old(Inbox()) && Outgoing() == Record(p, old(Outgoing()), packet.message)
                && packet.View() == old(packet.View()).(seqNo := Res(old(Outgoing()).next, p.b))
                && Remembers(packet)
              else
                Inbox() == old(Inbox()) && Outgoing() == old(Outgoing()) && packet.View() == old(packet.View())
      ensures InheritedFrom(resend.timers, old(resend.timers), old(packet.Kind()) == SendData)
    {
      recv.Handle(packet);
      PassSender(packet);
    }

    /** The newest timer would resend exactly this packet. */
    ghost predicate Remembers(packet: MsgPacket)
      reads packet, resend
    {
      resend.timers != [] &&
      resend.timers[|resend.timers| - 1].bytes == SegmentBytes(Segment(packet.seqNo, packet.message)) &&
      resend.timers[|resend.timers| - 1].to == packet.des
    }

    /** The two modules behind them. */
    method PassBack(packet: MsgPacket, lose: bool)
      requires Proper(packet)
      modifies packet
      ensures packet.Valid()
      ensures if old(packet.Kind()) == RecvData then
                if lose then packet.Kind() == ErrorPacket else
                  && packet.Kind() == SendAck && packet.des == old(packet.src)
                  && packet.View() == old(packet.View()).(control := old(packet.control)[1 := '1'], message := "")
              else if old(packet.Kind()) == RecvAck then
                packet.Kind() == RecvAck
              else if old(packet.Kind()) == SendData then
                packet.Kind() == SendData && packet.des == old(packet.des) && packet.View() == old(packet.View())
              else
                packet.Kind() == ErrorPacket
    {
      LosePacket(packet, lose);
      ModifyPacket(packet);
    }

    /** All six modules in the order of the tuple. */
    method PassAll(packet: MsgPacket, loseFront: bool, loseBack: bool)
      requires Valid() && Proper(packet)
      modifies packet, recv, recv.window, recv.window.window, recv.window.buffer, send, send.window, resend
      ensures Valid() && packet.Valid()
      ensures recv.peer == if old(packet.Kind()) == RecvData && !loseFront then old(packet.src) else old(recv.peer)
      ensures if old(packet.Kind()) == RecvData then
                && Outgoing() == old(Outgoing())
                && Inbox() == (if loseFront then old(Inbox())
                               else Receive(p.b, p.w, old(Inbox()), old(packet.seqNo), old(packet.message)))
                && (if loseFront || loseBack then packet.Kind() == ErrorPacket else
                      && packet.Kind() == SendAck && packet.des == old(packet.src)
                      && packet.View() == AckFields(old(packet.View()), Res(Inbox().left, p.b)))
              else if old(packet.Kind()) == RecvAck then
                && Inbox() == old(Inbox()) && packet.Kind() == RecvAck
                && Outgoing() == Acknowledge(p, old(Outgoing()), old(packet.ack))
              else if old(packet.Kind()) == SendData then
                && Inbox() == old(Inbox()) && Outgoing() == Record(p, old(Outgoing()), old(packet.message))
                && packet.Kind() == SendData && packet.des == old(packet.des)
                && packet.View() == DataFields(Res(old(Outgoing()).next, p.b), old(packet.message))
                && Remembers(packet)
              else
                Inbox() == old(Inbox()) && Outgoing() == old(Outgoing()) && packet.Kind() == ErrorPacket
      ensures InheritedFrom(resend.timers, old(resend.timers), old(packet.Kind()) == SendData)
    {
      LosePacket(packet, loseFront);
      PassState(packet);
      PassBack(packet, loseBack);
    }

    /** Sends what the packet has become, if that is a packet to send. */
    method SendOut(packet: MsgPacket) returns (ok: bool)
      requires packet.Valid()
      modifies this`outbox
      ensures ok == (packet.Kind() != ErrorPacket)
      ensures outbox == if packet.Kind() == SendAck || packet.Kind() == SendData
                        then old(outbox) + [Datagram(Encode(packet.View()), packet.des)] else old(outbox)
    {
      if packet.Kind() == ErrorPacket {
        return false;
      } else if packet.Kind() == SendAck || packet.Kind() == SendData {
        var packetStr := packet.ToString();
        outbox := outbox + [Datagram(packetStr, packet.des)];
      }
      return true;
    }

    /** `handle_packet`, which ends by sending what the packet has become. */
    method HandlePacket(packet: MsgPacket, loseFront: bool, loseBack: bool) returns (ok: bool)
      requires Valid() && Proper(packet)
      modifies this`outbox, packet, recv, recv.window, recv.window.window, recv.window.buffer, send, send.window, resend
      ensures InheritedFrom(resend.timers, old(resend.timers), old(packet.Kind()) == SendData)
      ensures !ok && old(packet.Kind()) == SendData ==> resend.timers == old(resend.timers)
      ensures Valid()
      ensures recv.peer == if old(packet.Kind()) == RecvData && !loseFront then old(packet.src) else old(recv.peer)
      ensures if old(packet.Kind()) == RecvData then
                && ok == (!loseFront && !loseBack) && Outgoing() == old(Outgoing())
                && Inbox() == (if loseFront then old(Inbox())
                               else Receive(p.b, p.w, old(Inbox()), old(packet.seqNo), old(packet.message)))
                && outbox == (if ok then
                                old(outbox) +
                                [Datagram(Encode(AckFields(old(packet.View()), Res(Inbox().left, p.b))), old(packet.src))]
                              else
                                old(outbox))
              else if old(packet.Kind()) == RecvAck then
                && ok && Inbox() == old(Inbox()) && outbox == old(outbox)
                && Outgoing() == Acknowledge(p, old(Outgoing()), old(packet.ack))
              else if old(packet.Kind()) == SendData then
                && Inbox() == old(Inbox())
                && ok == Admits(p, old(Outgoing()).left, old(Outgoing()).next, |old(packet.message)|)
                && Outgoing() == (if ok then Record(p, old(Outgoing()), old(packet.message)) else old(Outgoing()))
                && (if ok then
                      var segment := Segment(Res(old(Outgoing()).next, p.b), old(packet.message));
                      var sent := Datagram(SegmentBytes(segment), old(packet.des));
                      && outbox == old(outbox) + [sent]
                      && resend.timers != [] && Resent(|resend.timers| - 1) == sent
                    else
                      outbox == old(outbox))
              else
                !ok && Inbox() == old(Inbox()) && Outgoing() == old(Outgoing()) && outbox == old(outbox)
    {
      ok := send.Check(packet);
      if !ok {
        return;
      }
      PassAll(packet, loseFront, loseBack);
      ok := SendOut(packet);
    }

    lemma AllStaysSent(before: seq<Entry>, sent: seq<Datagram>, recorded: bool)
      requires InheritedFrom(resend.timers, before, recorded) && (forall x :: x in sent ==> x in outbox)
      requires recorded && resend.timers != [] ==> Resent(|resend.timers| - 1) in outbox
      ensures (forall x :: x in before ==> Datagram(x.bytes, x.to) in sent) ==> AllSent()
    {
    }

    /** `recv` into a buffer of MAX_SIZE characters. */
    function Received(bytes: string): string {
      if |bytes| > MIN_SIZE + p.d then bytes[..MIN_SIZE + p.d] else bytes
    }

    /** The packet read from a datagram, if it is one that a peer could mean. */
    function Parsed(bytes: string, from: Endpoint): Option<Fields> {
      match Decode(Received(bytes))
      case None => None
      case Some(f) => if from != local && (f.control[1] == '0' || f.control[1] == '1') then Some(f) else None
    }

    /** A datagram is read from 70 bytes on, and of a longer one than any segment no more than a segment holds. */
    lemma ParsedMessage(bytes: string, from: Endpoint)
      ensures Parsed(bytes, from).Some? <==> 70 <= |bytes| && from != local && bytes[33] in {'0', '1'}
      ensures Parsed(bytes, from).Some? ==>
                && Parsed(bytes, from).value.message == bytes[70..if |bytes| > 70 + p.d then 70 + p.d else |bytes|]
                && Parsed(bytes, from).value.control == bytes[32..38]
    {
    }

    /** `handle_read`, for the datagram `bytes` that `recv` reports from `from`. */
    method HandleRead(bytes: string, from: Endpoint, loseFront: bool, loseBack: bool) returns (ok: bool)
      requires Valid()
      modifies Frame()
      ensures Valid()
      ensures recv.peer == match Parsed(bytes, from)
                           case None => old(recv.peer)
                           case Some(f) => if f.control[1] == '0' && !loseFront then from else old(recv.peer)
      ensures match Parsed(bytes, from)
              case None => !ok && Inbox() == old(Inbox()) && Outgoing() == old(Outgoing()) && outbox == old(outbox)
              case Some(f) =>
                if f.control[1] == '0' then
                  && ok == (!loseFront && !loseBack) && Outgoing() == old(Outgoing())
                  && Inbox() == (if loseFront then old(Inbox()) else Receive(p.b, p.w, old(Inbox()), f.seqNo, f.message))
                  && outbox == (if ok then old(outbox) + [Datagram(Encode(AckFields(f, Res(Inbox().left, p.b))), from)]
                                else old(outbox))
                else
                  && ok && Inbox() == old(Inbox()) && outbox == old(outbox)
                  && Outgoing() == Acknowledge(p, old(Outgoing()), f.ack)
      ensures InheritedFrom(resend.timers, old(resend.timers), false) && old(outbox) <= outbox
    {
      var buffer := Received(bytes);
      if buffer == "" {
        return false;
      }
      var packet := new MsgPacket(local, from, local);
      var fed := packet.Feed(buffer);
      if !fed {
        return false;
      }
      if packet.Kind() != RecvAck && packet.Kind() != RecvData {
        return false;
      }
      ok := HandleForeign(packet, loseFront, loseBack);
    }

    /** `handle_packet` on what arrives. */
    method HandleForeign(packet: MsgPacket, loseFront: bool, loseBack: bool) returns (ok: bool)
      requires Valid() && Proper(packet) && packet.Kind() in {RecvData, RecvAck}
      modifies this`outbox, packet, recv, recv.window, recv.window.window, recv.window.buffer, send, send.window, resend
      ensures Valid() && InheritedFrom(resend.timers, old(resend.timers), false) && old(outbox) <= outbox
      ensures recv.peer == if old(packet.Kind()) == RecvData && !loseFront then old(packet.src) else old(recv.peer)
      ensures if old(packet.Kind()) == RecvData then
                && ok == (!loseFront && !loseBack) && Outgoing() == old(Outgoing())
                && Inbox() == (if loseFront then old(Inbox())
                               else Receive(p.b, p.w, old(Inbox()), old(packet.seqNo), old(packet.message)))
                && outbox == (if ok then
                                old(outbox) +
                                [Datagram(Encode(AckFields(old(packet.View()), Res(Inbox().left, p.b))), old(packet.src))]
                              else
                                old(outbox))
              else
                && ok && Inbox() == old(Inbox()) && outbox == old(outbox)
                && Outgoing() == Acknowledge(p, old(Outgoing()), old(packet.ack))
    {
      ok := HandlePacket(packet, loseFront, loseBack);
    }

    /** `handle_read` on a segment. */
    method HandleSegment(bytes: string, from: Endpoint, loseFront: bool, loseBack: bool, ghost f: Fields) returns (ok: bool)
      requires Valid() && Parsed(bytes, from) == Some(f) && f.Fits() && f.control[1] == '0'
      modifies Frame()
      ensures Valid() && from != local && recv.peer == if loseFront then old(recv.peer) else from
      ensures ok == (!loseFront && !loseBack) && Outgoing() == old(Outgoing())
      ensures Inbox() == if loseFront then old(Inbox()) else Receive(p.b, p.w, old(Inbox()), f.seqNo, f.message)
      ensures outbox == old(outbox) + if ok then [Datagram(Encode(AckFields(f, Res(Inbox().left, p.b))), from)] else []
      ensures InheritedFrom(resend.timers, old(resend.timers), false)
    {
      ok := HandleRead(bytes, from, loseFront, loseBack);
    }

    /** `handle_read` on an acknowledgement. */
    method HandleAck(bytes: string, from: Endpoint, ghost f: Fields) returns (ok: bool)
      requires Valid() && Parsed(bytes, from) == Some(f) && f.Fits() && f.control[1] == '1'
      modifies Frame()
      ensures Valid() && recv.peer == old(recv.peer)
      ensures ok && Inbox() == old(Inbox()) && outbox == old(outbox)
      ensures Outgoing() == Acknowledge(p, old(Outgoing()), f.ack)
      ensures old(AllSent()) ==> AllSent()
    {
      ok := HandleRead(bytes, from, false, false);
      AllStaysSent(old(resend.timers), old(outbox), false);
    }

    /** `recv_all` of the receive module. */
    method Drain() returns (info: string)
      requires Valid() && Inbox().left - Inbox().read <= p.w
      modifies recv.window
      ensures Valid() && Outgoing() == old(Outgoing())
      ensures Inbox() == old(Inbox()).(read := Inbox().left)
      ensures info == Bytes(Inbox().cells, old(Inbox()).read, Inbox().left)
    {
      info := recv.RecvAll();
    }

    /** `make_data_packet` and `handle_packet`, as both programs send. */
    method Transmit(data: string, to: Endpoint) returns (ok: bool)
      requires Valid() && |data| <= p.d && to != local
      modifies Frame()
      ensures Valid() && Inbox() == old(Inbox()) && recv.peer == old(recv.peer)
      ensures ok == Admits(p, old(Outgoing()).left, old(Outgoing()).next, |data|)
      ensures if ok then
                var sent := Datagram(SegmentBytes(Segment(Res(old(Outgoing()).next, p.b), data)), to);
                && Outgoing() == Record(p, old(Outgoing()), data) && outbox == old(outbox) + [sent]
                && resend.timers != [] && Resent(|resend.timers| - 1) == sent
              else
                Outgoing() == old(Outgoing()) && outbox == old(outbox)
      ensures old(AllSent()) ==> AllSent()
    {
      var packet := MakeDataPacket(data, to);
      ok := HandleOwn(packet);
      AllStaysSent(old(resend.timers), old(outbox), ok);
    }

    /** `handle_packet` on outgoing data. */
    method HandleOwn(packet: MsgPacket) returns (ok: bool)
      requires Valid() && Proper(packet) && packet.Kind() == SendData
      modifies this`outbox, packet, recv, recv.window, recv.window.window, recv.window.buffer, send, send.window, resend
      ensures Valid() && Inbox() == old(Inbox()) && recv.peer == old(recv.peer)
      ensures ok == Admits(p, old(Outgoing()).left, old(Outgoing()).next, |old(packet.message)|)
      ensures Outgoing() == if ok then Record(p, old(Outgoing()), old(packet.message)) else old(Outgoing())
      ensures InheritedFrom(resend.timers, old(resend.timers), ok)
      ensures if ok then
                var sent := Datagram(SegmentBytes(Segment(Res(old(Outgoing()).next, p.b), old(packet.message))), old(packet.des));
                outbox == old(outbox) + [sent] && resend.timers != [] && Resent(|resend.timers| - 1) == sent
              else
                outbox == old(outbox)
    {
      ok := HandlePacket(packet, false, false);
    }

    /** What timer `i` sends when it fires. */
    function Resent(i: nat): Datagram
      requires i < |resend.timers|
      reads resend
    {
      Datagram(resend.timers[i].bytes, resend.timers[i].to)
    }

    /** A timer of the event loop fires: the segment it was set for leaves again. */
    method FireTimer(i: nat)
      requires Valid() && i < |resend.timers|
      modifies this`outbox
      ensures Valid() && outbox == old(outbox) + [Resent(i)]
      ensures Resent(i).bytes == SegmentBytes(Segment(Outgoing().timers[i].start, Outgoing().timers[i].data))
      ensures old(AllSent()) ==> Resent(i) in old(outbox) && AllSent()
    {
      outbox := outbox + [Datagram(resend.timers[i].bytes, resend.timers[i].to)];
    }
  }

  /** What answers a segment is the acknowledgement as it travels. */
  lemma AnswerIsAck(m: Segment, ack: nat)
    ensures AckFields(DataFields(m.start, m.data), ack) == AckPacket(ack)
  {
    assert DATA_CONTROL[1 := '1'] == ACK_CONTROL;
  }

  /** An acknowledgement reuses the header of the data packet it answers. */
  function AckFields(fields: Fields, ack: nat): Fields {
    if |fields.control| == 6 then
      fields.(seqNo := 0, ack := ack, control := fields.control[1 := '1'], message := "")
    else
      fields
  }
}
