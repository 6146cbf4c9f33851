/**
  protocol/server.cc and protocol/client.cc on top of the connection, with the event handler of
  net/udp_service.hpp: the objects, with their rings, lists and wire strings, take the steps of
  the echo system. The ghost parameter `e` is the system's state before the step.
 */
module Programs {
  import opened Modular
  import opened Window
  import opened Protocol
  import opened Safety
  import opened Packets
  import opened Options
  import opened Connections
  import opened Buffers
  import E = Echo

  class Server {
    const p: Params
    const conn: Connection
    const sendBuffer: BaseBuffer

    ghost predicate Valid()
      reads this, conn.Frame(), sendBuffer, sendBuffer.buffer
    {
      && conn.Valid() && conn.AllSent() && conn.p == p
      && sendBuffer.Valid() && sendBuffer !in conn.Frame() && sendBuffer.buffer !in conn.Frame()
      && (conn.recv.peer != conn.local || (conn.Inbox() == EmptyInbox && sendBuffer.Contents() == ""))
    }

    /** The objects are in the state that `e` describes. */
    ghost predicate Shows(e: E.World)
      requires Valid()
      reads this, conn.Frame(), sendBuffer, sendBuffer.buffer
    {
      conn.Inbox() == e.up.rx && conn.Outgoing() == e.down.tx && sendBuffer.Contents() == e.queue
    }

    constructor (p: Params, local: Endpoint)
      requires p.b == 0x10000
      ensures Valid() && Shows(E.Begin(""))
    {
      this.p := p;
      conn := new Connection(p, local);
      sendBuffer := new BaseBuffer(2048);
      new;
      conn.OutsideFrame(sendBuffer);
      conn.OutsideFrame(sendBuffer.buffer);
    }

    /** The first half of the read callback: everything in order joins the queue. */
    method Collect(ghost e: E.World)
      requires Valid() && Shows(e) && e.up.rx.left - e.up.rx.read <= p.w
      modifies conn.recv.window, sendBuffer, sendBuffer.buffer
      ensures Valid() && Shows(E.Collected(e, TakeAll(e.up)))
      ensures conn.outbox == old(conn.outbox) && conn.recv.peer == old(conn.recv.peer)
    {
      E.FreshOfTakeAll(e.up);
      var str := conn.Drain();
      Enqueue(str);
    }

    method Enqueue(str: string)
      requires Valid() && (conn.recv.peer == conn.local ==> str == "")
      modifies sendBuffer, sendBuffer.buffer
      ensures Valid() && sendBuffer.Contents() == old(sendBuffer.Contents()) + str
      ensures conn.Inbox() == old(conn.Inbox()) && conn.Outgoing() == old(conn.Outgoing())
    {
      if str != "" {
        sendBuffer.Append(str);
      }
    }

    /** The second half: one chunk of the queue is sent back, if the window admits it. */
    method Answer(ghost e: E.World)
      requires Valid() && Shows(e)
      modifies conn.Frame(), sendBuffer
      ensures Valid() && Shows(E.Reply(p, e))
      ensures conn.outbox == old(conn.outbox) + OnWire(E.Fresh(e.down.segments, E.Reply(p, e).down.segments), conn.recv.peer)
      ensures conn.recv.peer == old(conn.recv.peer)
    {
      E.ReplyCases(p, e);
      if sendBuffer.Empty() {
        return;
      }
      var str := FirstChunk(p, sendBuffer);
      var ok := SendBack(str);
      if ok {
        Forget(|str|);
      }
    }

    /** `handle_packet` on a data packet, seen from the program. */
    method SendBack(str: string) returns (ok: bool)
      requires Valid() && |str| <= p.d && conn.recv.peer != conn.local
      modifies conn.Frame()
      ensures Valid() && conn.recv.peer == old(conn.recv.peer) && sendBuffer.Contents() == old(sendBuffer.Contents())
      ensures conn.Inbox() == old(conn.Inbox())
      ensures ok == Admits(p, old(conn.Outgoing()).left, old(conn.Outgoing()).next, |str|)
      ensures conn.Outgoing() == if ok then Record(p, old(conn.Outgoing()), str) else old(conn.Outgoing())
      ensures conn.outbox == old(conn.outbox) +
        if ok then [Datagram(SegmentBytes(Segment(Res(old(conn.Outgoing()).next, p.b), str)), conn.recv.peer)] else []
    {
      ok := conn.Transmit(str, conn.recv.peer);
    }

    /** `retrieve_read_bytes` of what was sent. */
    method Forget(n: nat)
      requires Valid() && n <= sendBuffer.Size()
      modifies sendBuffer
      ensures Valid() && sendBuffer.Contents() == old(sendBuffer.Contents())[n..]
      ensures conn.Inbox() == old(conn.Inbox()) && conn.Outgoing() == old(conn.Outgoing())
    {
      sendBuffer.RetrieveReadBytes(n);
    }

    /** `UdpService::handle_read` when the next segment from the client arrives. */
    method HandleData(bytes: string, from: Endpoint, loseFront: bool, loseBack: bool, ghost e: E.World)
      requires Valid() && Shows(e) && E.Pipes(p, e) && !e.quit && from != conn.local
      requires e.up.segments != [] && bytes == SegmentBytes(e.up.segments[0])
      modifies conn.Frame(), sendBuffer, sendBuffer.buffer
      ensures conn.outbox == old(conn.outbox) + Reaction(p, e.up, loseFront, loseBack, from) +
        OnWire(E.Fresh(e.down.segments, E.Happens(p, e, E.ServerGetsData(FateOf(loseFront, loseBack))).down.segments), conn.recv.peer)
      ensures Valid() && Shows(E.Happens(p, e, E.ServerGetsData(FateOf(loseFront, loseBack))))
    {
      ServerDataOutcome(p, e, loseFront, loseBack);
      ParsedSegment(conn, e.up, bytes, from);
      var ok := ReadData(bytes, from, loseFront, loseBack, e.up);
      if ok {
        OnRead(e.(up := Taken(p, e.up)));
      }
    }

    /** `Connection::handle_read` on a segment, seen from the program. */
    method ReadData(bytes: string, from: Endpoint, loseFront: bool, loseBack: bool, ghost c: Pipe) returns (ok: bool)
      requires Valid() && c.segments != [] && conn.Inbox() == c.rx
      requires conn.Parsed(bytes, from) == Some(DataFields(c.segments[0].start, c.segments[0].data))
      modifies conn.Frame()
      ensures Valid() && sendBuffer.Contents() == old(sendBuffer.Contents())
      ensures ok == (!loseFront && !loseBack) && conn.Outgoing() == old(conn.Outgoing())
      ensures conn.Inbox() == if loseFront then c.rx else Taken(p, c).rx
      ensures conn.outbox == old(conn.outbox) + Reaction(p, c, loseFront, loseBack, from)
    {
      ok := conn.HandleSegment(bytes, from, loseFront, loseBack, DataFields(c.segments[0].start, c.segments[0].data));
      conn.AllStaysSent(old(conn.resend.timers), old(conn.outbox), false);
    }

    /** `UdpService::handle_read` when the next acknowledgement from the client arrives; see ParsedAck. */
    method HandleAck(bytes: string, from: Endpoint, ghost f: Fields, ghost e: E.World)
      requires Valid() && Shows(e) && E.Pipes(p, e) && !e.quit && e.down.acks != []
      requires conn.Parsed(bytes, from) == Some(f) && f.Fits() && f.control[1] == '1' && f.ack == e.down.acks[0]
      modifies conn.Frame(), sendBuffer, sendBuffer.buffer
      ensures conn.outbox == old(conn.outbox) +
        OnWire(E.Fresh(e.down.segments, E.Happens(p, e, E.ServerGetsAck).down.segments), conn.recv.peer)
      ensures Valid() && Shows(E.Happens(p, e, E.ServerGetsAck))
    {
      ghost var e1 := ServerGetsAckCases(p, e);
      ReadAck(bytes, from, f);
      OnRead(e1);
    }

    /** `Connection::handle_read` on an acknowledgement, seen from the program. */
    method ReadAck(bytes: string, from: Endpoint, ghost f: Fields)
      requires Valid() && conn.Parsed(bytes, from) == Some(f) && f.Fits() && f.control[1] == '1'
      modifies conn.Frame()
      ensures Valid() && sendBuffer.Contents() == old(sendBuffer.Contents())
      ensures conn.Inbox() == old(conn.Inbox()) && conn.Outgoing() == Acknowledge(p, old(conn.Outgoing()), f.ack)
      ensures conn.outbox == old(conn.outbox)
    {
      var ok := conn.HandleAck(bytes, from, f);
    }

    /** A timer of the event loop fires. */
    method Resend(i: nat, ghost e: E.World)
      requires Valid() && Shows(e) && !e.quit && i < |conn.resend.timers|
      modifies conn`outbox
      ensures Valid() && Shows(E.Happens(p, e, E.DownTimer(i)))
      ensures conn.outbox == old(conn.outbox) + [conn.Resent(i)] && conn.Resent(i) in old(conn.outbox)
      ensures [conn.Resent(i).bytes] == WireBytes(E.Fresh(e.down.segments, E.Happens(p, e, E.DownTimer(i)).down.segments))
    {
      conn.FireTimer(i);
    }

    /** The read callback. */
    method OnRead(ghost e: E.World)
      requires Valid() && Shows(e) && e.up.rx.left - e.up.rx.read <= p.w
      modifies conn.Frame(), sendBuffer, sendBuffer.buffer
      ensures Valid() && Shows(E.ServerReads(p, e, TakeAll(e.up)))
      ensures conn.outbox == old(conn.outbox) +
        OnWire(E.Fresh(e.down.segments, E.ServerReads(p, e, TakeAll(e.up)).down.segments), conn.recv.peer)
      ensures conn.recv.peer == old(conn.recv.peer)
    {
      Collect(e);
      Answer(E.Collected(e, TakeAll(e.up)));
    }
  }

  class Client {
    const p: Params
    const conn: Connection
    const sendBuffer: BaseBuffer
    const server: Endpoint
    /** What is left of the input file, and whether a read has hit its end. */
    var rest: string
    var eof: bool
    var sendBytes: nat
    var recvBytes: nat
    /** What was written to the output file. */
    var output: string
    var fatal: bool
    var quit: bool

    ghost predicate Valid()
      reads this, conn.Frame(), sendBuffer, sendBuffer.buffer
    {
      && conn.Valid() && conn.AllSent() && conn.p == p && server != conn.local && this !in conn.Frame()
      && sendBuffer.Valid() && sendBuffer !in conn.Frame() && sendBuffer.buffer !in conn.Frame()
    }

    ghost predicate Shows(e: E.World)
      requires Valid()
      reads this, conn.Frame(), sendBuffer, sendBuffer.buffer
    {
      && conn.Outgoing() == e.up.tx && conn.Inbox() == e.down.rx && sendBuffer.Contents() == e.pending
      && Counters(e)
    }

    ghost predicate Counters(e: E.World)
      reads this
    {
      && rest == e.rest && eof == e.eof && sendBytes == e.sendBytes && recvBytes == e.recvBytes
      && output == e.output && fatal == e.fatal && quit == e.quit
    }

    constructor (p: Params, local: Endpoint, server: Endpoint, file: string)
      requires p.b == 0x10000 && server != local
      ensures Valid() && Shows(E.Begin(file))
    {
      this.p, this.server := p, server;
      conn := new Connection(p, local);
      sendBuffer := new BaseBuffer(2048);
      rest, eof, sendBytes, recvBytes, output, fatal, quit := file, false, 0, 0, "", false, false;
      new;
      conn.OutsideFrame(this);
      conn.OutsideFrame(sendBuffer);
      conn.OutsideFrame(sendBuffer.buffer);
    }

    /** The timer callback of the event loop. */
    method Tick(ghost e: E.World)
      requires Valid() && Shows(e) && !e.quit
      modifies this, conn.Frame(), sendBuffer, sendBuffer.buffer
      ensures Valid() && Shows(E.Happens(p, e, E.Tick))
      ensures conn.outbox == old(conn.outbox) + OnWire(E.Fresh(e.up.segments, E.Happens(p, e, E.Tick).up.segments), server)
    {
      ghost var e' := E.Happens(p, e, E.Tick);
      if eof {
        if sendBytes == recvBytes {
          quit := true;
        }
      } else {
        ghost var e1, offered := E.TickOffers(p, e);
        OfferedOnWire(p, e1, offered, e.pending == [], e', server);
        SendNext(e, e1, offered, e');
      }
    }

    /** The next chunk is what was refused before or, if nothing was, comes from the file. */
    method SendNext(ghost e: E.World, ghost e1: E.World, ghost offered: string, ghost e': E.World)
      requires Valid() && Shows(e) && offered == E.Chunk(p, if e.pending != [] then e.pending else e.rest)
      requires e1 == if e.pending != [] then e else e.(rest := e.rest[|offered|..], eof := |offered| < p.d)
      requires E.Offered(p, e1, offered, e.pending == [], e')
      modifies this, conn.Frame(), sendBuffer, sendBuffer.buffer
      ensures Valid() && Shows(e') && conn.outbox == old(conn.outbox) + OneOnWire(p, e1, offered, server)
    {
      if !sendBuffer.Empty() {
        var data := FirstChunk(p, sendBuffer);
        Offer(data, false, e1, e');
      } else {
        var data := E.Chunk(p, rest);
        rest, eof := rest[|data|..], |data| < p.d;
        Offer(data, true, e1, e');
      }
    }

    /** Offers `data`, as the echo system does. */
    method Offer(data: string, readFile: bool, ghost e: E.World, ghost e': E.World)
      requires Valid() && Shows(e) && |data| <= p.d && (readFile || data <= e.pending)
      requires E.Offered(p, e, data, readFile, e')
      modifies this`sendBytes, conn.Frame(), sendBuffer, sendBuffer.buffer
      ensures conn.outbox == old(conn.outbox) + OneOnWire(p, e, data, server)
      ensures Valid() && Shows(e')
    {
      SendOrKeep(data, readFile);
    }

    /** Sends `data`, or keeps it for later if it was read from the file just now. */
    method SendOrKeep(data: string, readFile: bool)
      requires Valid() && |data| <= p.d && (readFile || data <= sendBuffer.Contents())
      modifies this`sendBytes, conn.Frame(), sendBuffer, sendBuffer.buffer
      ensures Valid() && conn.Inbox() == old(conn.Inbox())
      ensures var ok := Admits(p, old(conn.Outgoing()).left, old(conn.Outgoing()).next, |data|);
              && conn.Outgoing() == (if ok then Record(p, old(conn.Outgoing()), data) else old(conn.Outgoing()))
              && conn.outbox == old(conn.outbox) +
                (if ok then [Datagram(SegmentBytes(Segment(Res(old(conn.Outgoing()).next, p.b), data)), server)] else [])
              && sendBytes == old(sendBytes) + (if ok then |data| else 0)
              && sendBuffer.Contents() ==
                if ok == readFile then old(sendBuffer.Contents())
                else if ok then old(sendBuffer.Contents())[|data|..] else old(sendBuffer.Contents()) + data
    {
      var ok := Send(data);
      Settle(data, readFile, ok);
    }

    /** `handle_packet` on a data packet, seen from the program. */
    method Send(data: string) returns (ok: bool)
      requires Valid() && |data| <= p.d
      modifies conn.Frame()
      ensures Valid() && sendBuffer.Contents() == old(sendBuffer.Contents()) && conn.Inbox() == old(conn.Inbox())
      ensures ok == Admits(p, old(conn.Outgoing()).left, old(conn.Outgoing()).next, |data|)
      ensures conn.Outgoing() == if ok then Record(p, old(conn.Outgoing()), data) else old(conn.Outgoing())
      ensures conn.outbox == old(conn.outbox) +
        if ok then [Datagram(SegmentBytes(Segment(Res(old(conn.Outgoing()).next, p.b), data)), server)] else []
    {
      ok := conn.Transmit(data, server);
    }

    /** The bookkeeping after an attempt to send. */
    method Settle(data: string, readFile: bool, ok: bool)
      requires Valid() && (readFile || data <= sendBuffer.Contents())
      modifies this`sendBytes, sendBuffer, sendBuffer.buffer
      ensures Valid() && conn.Outgoing() == old(conn.Outgoing()) && conn.Inbox() == old(conn.Inbox())
      ensures conn.outbox == old(conn.outbox)
      ensures sendBytes == old(sendBytes) + (if ok then |data| else 0)
      ensures sendBuffer.Contents() ==
        if ok == readFile then old(sendBuffer.Contents())
        else if ok then old(sendBuffer.Contents())[|data|..] else old(sendBuffer.Contents()) + data
    {
      if !ok {
        if readFile {
          sendBuffer.Append(data);
        }
      } else {
        sendBytes := sendBytes + |data|;
        if !readFile {
          sendBuffer.RetrieveReadBytes(|data|);
        }
      }
    }

    /** A timer of the event loop fires. */
    method Resend(i: nat, ghost e: E.World)
      requires Valid() && Shows(e) && !e.quit && i < |conn.resend.timers|
      modifies conn`outbox
      ensures Valid() && Shows(E.Happens(p, e, E.UpTimer(i)))
      ensures conn.outbox == old(conn.outbox) + [conn.Resent(i)] && conn.Resent(i) in old(conn.outbox)
      ensures [conn.Resent(i).bytes] == WireBytes(E.Fresh(e.up.segments, E.Happens(p, e, E.UpTimer(i)).up.segments))
    {
      conn.FireTimer(i);
    }

    /** The read callback. */
    method OnRead(ghost e: E.World)
      requires Valid() && Shows(e) && e.down.rx.left - e.down.rx.read <= p.w
      modifies this`recvBytes, this`output, this`fatal, conn.recv.window
      ensures Valid() && Shows(E.ClientReads(p, e, TakeAll(e.down)))
      ensures conn.outbox == old(conn.outbox)
    {
      E.ClientReadsCases(p, e);
      var str := Drain();
      Hear(str);
    }

    /** `recv_all`, seen from the program. */
    method Drain() returns (str: string)
      requires Valid() && conn.Inbox().left - conn.Inbox().read <= p.w
      modifies conn.recv.window
      ensures Valid() && sendBuffer.Contents() == old(sendBuffer.Contents())
      ensures conn.Outgoing() == old(conn.Outgoing()) && conn.outbox == old(conn.outbox)
      ensures conn.Inbox() == old(conn.Inbox()).(read := conn.Inbox().left)
      ensures str == Bytes(conn.Inbox().cells, old(conn.Inbox()).read, conn.Inbox().left)
    {
      str := conn.Drain();
    }

    /** What the read callback does with what it drained. */
    method Hear(str: string)
      requires Valid()
      modifies this`recvBytes, this`output, this`fatal
      ensures Valid()
      ensures recvBytes == old(recvBytes) + |str| && output == old(output) + str
      ensures fatal == (old(fatal) || (str != "" && recvBytes > sendBytes))
    {
      if str != "" {
        recvBytes := recvBytes + |str|;
        output := output + str;
        if recvBytes > sendBytes {
          fatal := true;
        }
      }
    }

    /** `UdpService::handle_read` when the next segment from the server arrives. */
    method HandleData(bytes: string, loseFront: bool, loseBack: bool, ghost e: E.World)
      requires Valid() && Shows(e) && E.Pipes(p, e) && !e.quit
      requires e.down.segments != [] && bytes == SegmentBytes(e.down.segments[0])
      modifies this, conn.Frame()
      ensures Valid() && Shows(E.Happens(p, e, E.ClientGetsData(FateOf(loseFront, loseBack))))
      ensures conn.outbox == old(conn.outbox) + Reaction(p, e.down, loseFront, loseBack, server)
    {
      ClientGetsDataCases(p, e);
      ParsedSegment(conn, e.down, bytes, server);
      var ok := ReadData(bytes, loseFront, loseBack, e.down);
      if ok {
        OnRead(e.(down := Taken(p, e.down)));
      }
    }

    /** `Connection::handle_read` on a segment, seen from the program. */
    method ReadData(bytes: string, loseFront: bool, loseBack: bool, ghost c: Pipe) returns (ok: bool)
      requires Valid() && c.segments != [] && conn.Inbox() == c.rx
      requires conn.Parsed(bytes, server) == Some(DataFields(c.segments[0].start, c.segments[0].data))
      modifies conn.Frame()
      ensures Valid() && sendBuffer.Contents() == old(sendBuffer.Contents())
      ensures ok == (!loseFront && !loseBack) && conn.Outgoing() == old(conn.Outgoing())
      ensures conn.Inbox() == if loseFront then c.rx else Taken(p, c).rx
      ensures conn.outbox == old(conn.outbox) + Reaction(p, c, loseFront, loseBack, server)
    {
      ok := conn.HandleSegment(bytes, server, loseFront, loseBack, DataFields(c.segments[0].start, c.segments[0].data));
      conn.AllStaysSent(old(conn.resend.timers), old(conn.outbox), false);
    }

    /** `UdpService::handle_read` when the next acknowledgement from the server arrives; see ParsedAck. */
    method HandleAck(bytes: string, ghost f: Fields, ghost e: E.World)
      requires Valid() && Shows(e) && E.Pipes(p, e) && !e.quit && e.up.acks != []
      requires conn.Parsed(bytes, server) == Some(f) && f.Fits() && f.control[1] == '1' && f.ack == e.up.acks[0]
      modifies this, conn.Frame()
      ensures Valid() && Shows(E.Happens(p, e, E.ClientGetsAck)) && conn.outbox == old(conn.outbox)
    {
      ghost var e1 := ClientGetsAckCases(p, e);
      var ok := conn.HandleAck(bytes, server, f);
      OnRead(e1);
    }
  }

  /** The datagrams that an offer puts on the wire: one if it is admitted. */
  ghost function OneOnWire(p: Params, e: E.World, data: string, to: Endpoint): seq<Datagram> {
    if Admits(p, e.up.tx.left, e.up.tx.next, |data|) then
      [Datagram(SegmentBytes(Segment(Res(e.up.tx.next, p.b), data)), to)]
    else []
  }

  lemma OfferedOnWire(p: Params, e: E.World, data: string, readFile: bool, e': E.World, to: Endpoint)
    requires (readFile || data <= e.pending) && E.Offered(p, e, data, readFile, e')
    ensures OnWire(E.Fresh(e.up.segments, e'.up.segments), to) == OneOnWire(p, e, data, to)
  {
  }

  lemma ClientGetsAckCases(p: Params, e: E.World) returns (e1: E.World)
    requires E.Pipes(p, e) && !e.quit && e.up.acks != []
    ensures e1 == e.(up := e1.up) && e1.down.rx.left - e1.down.rx.read <= p.w
    ensures e1.up.tx == Acknowledge(p, e.up.tx, e.up.acks[0])
    ensures E.Happens(p, e, E.ClientGetsAck) == E.ClientReads(p, e1, TakeAll(e1.down))
  {
    NothingOverwritten(p, e.down);
    e1 := e.(up := Next(p, e.up, DeliverAck));
  }

  lemma ClientGetsDataCases(p: Params, e: E.World)
    requires E.Pipes(p, e) && !e.quit && e.down.segments != []
    ensures E.Happens(p, e, E.ClientGetsData(Dropped)) == e.(down := e.down.(segments := e.down.segments[1..]))
    ensures var down := E.Happens(p, e, E.ClientGetsData(Stored)).down;
            && down.rx == Taken(p, e.down).rx
            && E.Happens(p, e, E.ClientGetsData(Stored)) == e.(down := down)
    ensures var e1 := e.(down := Taken(p, e.down));
            && e1.down.rx.left - e1.down.rx.read <= p.w
            && E.Happens(p, e, E.ClientGetsData(Acked)) == E.ClientReads(p, e1, TakeAll(e1.down))
  {
    TakenFits(p, e.down);
  }

  /** The pipe when a segment has been stored and acknowledged but not yet handed over. */
  ghost function Taken(p: Params, c: Pipe): Pipe
    requires c.segments != []
  {
    var rx := Receive(p.b, p.w, c.rx, c.segments[0].start, c.segments[0].data);
    c.(segments := c.segments[1..], rx := rx, acks := c.acks + [Res(rx.left, p.b)])
  }

  /** The acknowledgement that a segment draws, unless one of the loss modules drops it. */
  ghost function Reaction(p: Params, c: Pipe, loseFront: bool, loseBack: bool, to: Endpoint): seq<Datagram>
    requires c.segments != []
  {
    if loseFront || loseBack then []
    else
      var answer := AckFields(DataFields(c.segments[0].start, c.segments[0].data), Res(Taken(p, c).rx.left, p.b));
      [Datagram(Encode(answer), to)]
  }

  /** What leaves is what joins the channel of acknowledgements. */
  lemma ReactionIsOnItsWay(p: Params, c: Pipe, loseFront: bool, loseBack: bool, to: Endpoint)
    requires c.segments != []
    ensures var acks := E.Fresh(c.acks, Next(p, c, DeliverSegment(FateOf(loseFront, loseBack))).acks);
            && |acks| == |Reaction(p, c, loseFront, loseBack, to)|
            && forall k :: 0 <= k < |acks| ==> Reaction(p, c, loseFront, loseBack, to)[k] == Datagram(AckBytes(acks[k]), to)
  {
    AnswerIsAck(c.segments[0], Res(Taken(p, c).rx.left, p.b));
  }

  lemma TakenFits(p: Params, c: Pipe)
    requires Reachable(p, c) && c.segments != []
    ensures Taken(p, c).rx.left - Taken(p, c).rx.read <= p.w
    ensures TakeAll(Taken(p, c)) == Next(p, c, DeliverSegment(Acked))
  {
    E.NextReachable(p, c, DeliverSegment(Stored));
    NothingOverwritten(p, Next(p, c, DeliverSegment(Stored)));
  }

  lemma ServerGetsDataCases(p: Params, e: E.World)
    requires E.Pipes(p, e) && !e.quit && e.up.segments != []
    ensures E.Happens(p, e, E.ServerGetsData(Dropped)) == e.(up := e.up.(segments := e.up.segments[1..]))
    ensures var up := E.Happens(p, e, E.ServerGetsData(Stored)).up;
            && up.rx == Taken(p, e.up).rx
            && E.Happens(p, e, E.ServerGetsData(Stored)) == e.(up := up)
    ensures var e1 := e.(up := Taken(p, e.up));
            && e1.up.rx.left - e1.up.rx.read <= p.w
            && E.Happens(p, e, E.ServerGetsData(Acked)) == E.ServerReads(p, e1, TakeAll(e1.up))
  {
    TakenFits(p, e.up);
  }

  lemma ServerDataOutcome(p: Params, e: E.World, loseFront: bool, loseBack: bool)
    requires E.Pipes(p, e) && !e.quit && e.up.segments != []
    ensures var e' := E.Happens(p, e, E.ServerGetsData(FateOf(loseFront, loseBack)));
            var e1 := e.(up := Taken(p, e.up));
            if loseFront || loseBack then
              e'.down == e.down && e'.queue == e.queue && e'.up.rx == if loseFront then e.up.rx else e1.up.rx
            else
              e1.up.rx.left - e1.up.rx.read <= p.w && e' == E.ServerReads(p, e1, TakeAll(e1.up))
  {
    ServerGetsDataCases(p, e);
  }

  lemma ServerGetsAckCases(p: Params, e: E.World) returns (e1: E.World)
    requires E.Pipes(p, e) && !e.quit && e.down.acks != []
    ensures e1.up == e.up && e1.queue == e.queue && e1.up.rx.left - e1.up.rx.read <= p.w
    ensures e1.down.segments == e.down.segments
    ensures e1.down.tx == Acknowledge(p, e.down.tx, e.down.acks[0])
    ensures E.Happens(p, e, E.ServerGetsAck) == E.ServerReads(p, e1, TakeAll(e1.up))
  {
    NothingOverwritten(p, e.up);
    e1 := e.(down := Next(p, e.down, DeliverAck));
    AckArrives(p, e.down);
    ServerDrains(p, e);
  }

  lemma AckArrives(p: Params, c: Pipe)
    requires c.acks != []
    ensures Next(p, c, DeliverAck) == c.(tx := Acknowledge(p, c.tx, c.acks[0]), acks := c.acks[1..])
  {
  }

  lemma ServerDrains(p: Params, e: E.World)
    requires !e.quit && e.down.acks != []
    ensures E.Happens(p, e, E.ServerGetsAck) == E.ServerReads(p, e.(down := Next(p, e.down, DeliverAck)), TakeAll(e.up))
  {
  }

  /** An acknowledgement in flight is read from the wire as it was sent. */
  lemma ParsedAck(conn: Connection, c: Pipe, bytes: string, from: Endpoint)
    requires Reachable(conn.p, c) && conn.p.b == 0x10000 && from != conn.local
    requires c.acks != [] && bytes == AckBytes(c.acks[0])
    ensures AckPacket(c.acks[0]).Fits() && conn.Parsed(bytes, from) == Some(AckPacket(c.acks[0]))
  {
    AckResidues(conn.p, c, 0);
    AckIsParsed(conn, c.acks[0], from);
  }

  lemma AckIsParsed(conn: Connection, ack: nat, from: Endpoint)
    requires ack < 0x10000 && from != conn.local
    ensures AckPacket(ack).Fits() && conn.Parsed(AckBytes(ack), from) == Some(AckPacket(ack))
  {
    DecodeOfEncode(AckPacket(ack));
  }

  /** A segment in flight is read from the wire as it was sent. */
  lemma ParsedSegment(conn: Connection, c: Pipe, bytes: string, from: Endpoint)
    requires Reachable(conn.p, c) && conn.p.b == 0x10000 && from != conn.local
    requires c.segments != [] && bytes == SegmentBytes(c.segments[0])
    ensures conn.Parsed(bytes, from) == Some(DataFields(c.segments[0].start, c.segments[0].data))
  {
    SegmentFields(conn.p, c, 0);
    DataIsParsed(conn, c.segments[0], from);
  }

  lemma DataIsParsed(conn: Connection, m: Segment, from: Endpoint)
    requires m.start < 0x10000 && |m.data| <= conn.p.d && from != conn.local
    ensures conn.Parsed(SegmentBytes(m), from) == Some(DataFields(m.start, m.data))
  {
    DecodeOfEncode(DataFields(m.start, m.data));
  }

  /** What becomes of a data packet, by the two loss modules around the receive module. */
  function FateOf(loseFront: bool, loseBack: bool): Fate {
    if loseFront then Dropped else if loseBack then Stored else Acked
  }

  /** `data.assign(send_buffer.data(), ...)` with at most MaxDataSize bytes. */
  method FirstChunk(p: Params, buffer: BaseBuffer) returns (str: string)
    requires buffer.Valid()
    ensures str == E.Chunk(p, buffer.Contents())
  {
    if buffer.Size() > p.d {
      str := buffer.Contents()[..p.d];
    } else {
      str := buffer.Contents();
    }
  }

  function WireBytes(segments: seq<Segment>): (r: seq<string>)
    ensures |r| == |segments| && forall k :: 0 <= k < |r| ==> r[k] == SegmentBytes(segments[k])
  {
    seq(|segments|, k requires 0 <= k < |segments| => SegmentBytes(segments[k]))
  }

  /** The datagrams that carry `segments` to `to`. */
  function OnWire(segments: seq<Segment>, to: Endpoint): (r: seq<Datagram>)
    ensures |r| == |segments|
    ensures forall k :: 0 <= k < |r| ==> r[k] == Datagram(SegmentBytes(segments[k]), to)
  {
    seq(|segments|, k requires 0 <= k < |segments| => Datagram(SegmentBytes(segments[k]), to))
  }
}
