/**
  protocol/client.cc and protocol/server.cc: the client sends a file through one pipe, the
  server's read callback queues what arrives and sends it back through another. Each direction
  of the network carries data and acknowledgements in two independent FIFO channels, which
  allows every interleaving that one shared channel does.
 */
module Echo {
  import opened Modular
  import opened Window
  import opened Protocol
  import opened Runs
  import opened Safety

  datatype World = World(
    up: Pipe,              // client to server
    down: Pipe,            // server to client
    queue: seq<char>,      // the server's send_buffer
    rest: seq<char>,       // what the client has not read from the file yet
    eof: bool,
    pending: seq<char>,    // the client's send_buffer
    sendBytes: nat,
    recvBytes: nat,
    output: seq<char>,     // what the client wrote to recv_file
    fatal: bool,           // the client saw more bytes come back than it sent
    quit: bool)

  datatype Event =
    | Tick
    | ClientGetsData(fate: Fate)
    | ClientGetsAck
    | ServerGetsData(fate: Fate)
    | ServerGetsAck
    | UpTimer(timer: nat)
    | DownTimer(timer: nat)
    | UpLoss(segment: bool, at: nat)
    | DownLoss(segment: bool, at: nat)

  function Begin(file: seq<char>): World {
    World(Start, Start, [], file, false, [], 0, 0, [], false, false)
  }

  function Chunk(p: Params, s: seq<char>): (r: seq<char>)
    ensures r <= s && |r| <= p.d && (s != [] ==> r != [])
  {
    if |s| > p.d then s[..p.d] else s
  }

  /** What was appended to a sequence. */
  function Fresh<T>(before: seq<T>, after: seq<T>): seq<T> {
    if |before| <= |after| then after[|before|..] else []
  }

  /** Offers `data` to the client's connection. */
  ghost function ClientSends(p: Params, e: World, data: seq<char>, readFile: bool): World
    requires readFile || data <= e.pending
  {
    if |data| <= p.d && Admits(p, e.up.tx.left, e.up.tx.next, |data|) then
      e.(up := Next(p, e.up, Submit(data)), sendBytes := e.sendBytes + |data|,
         pending := if readFile then e.pending else e.pending[|data|..])
    else
      e.(pending := if readFile then e.pending + data else e.pending)
  }

  ghost function ClientTicks(p: Params, e: World): World {
    if e.eof then
      e.(quit := e.sendBytes == e.recvBytes)
    else if e.pending != [] then
      ClientSends(p, e, Chunk(p, e.pending), false)
    else
      var data := Chunk(p, e.rest);
      ClientSends(p, e.(rest := e.rest[|data|..], eof := |data| < p.d), data, true)
  }

  ghost function ClientReads(p: Params, e: World, down: Pipe): World {
    var str := Fresh(e.down.returned, down.returned);
    var recvBytes := e.recvBytes + |str|;
    e.(down := down, output := e.output + str, recvBytes := recvBytes,
       fatal := e.fatal || (str != [] && recvBytes > e.sendBytes))
  }

  ghost function Reply(p: Params, e: World): World {
    var data := Chunk(p, e.queue);
    if e.queue != [] && Admits(p, e.down.tx.left, e.down.tx.next, |data|) then
      e.(down := Next(p, e.down, Submit(data)), queue := e.queue[|data|..])
    else
      e
  }

  function Collected(e: World, up: Pipe): World {
    e.(up := up, queue := e.queue + Fresh(e.up.returned, up.returned))
  }

  ghost function ServerReads(p: Params, e: World, up: Pipe): World {
    Reply(p, Collected(e, up))
  }

  ghost function Loss(segment: bool, at: nat): Action {
    if segment then LoseSegment(at) else LoseAck(at)
  }

  ghost function Happens(p: Params, e: World, event: Event): World {
    if e.quit then e else
      match event
      case Tick => ClientTicks(p, e)
      case ClientGetsData(fate) =>
        ClientReads(p, e, Next(p, e.down, DeliverSegment(fate)))
      case ClientGetsAck =>
        if e.up.acks == [] then e
        else ClientReads(p, e.(up := Next(p, e.up, DeliverAck)), Next(p, e.down, Drain))
      case ServerGetsData(fate) =>
        var up := Next(p, e.up, DeliverSegment(fate));
        if e.up.segments != [] && fate.Acked? then ServerReads(p, e, up) else e.(up := up)
      case ServerGetsAck =>
        if e.down.acks == [] then e
        else ServerReads(p, e.(down := Next(p, e.down, DeliverAck)), Next(p, e.up, Drain))
      case UpTimer(i) => e.(up := Next(p, e.up, Fire(i)))
      case DownTimer(i) => e.(down := Next(p, e.down, Fire(i)))
      case UpLoss(segment, i) => e.(up := Next(p, e.up, Loss(segment, i)))
      case DownLoss(segment, i) => e.(down := Next(p, e.down, Loss(segment, i)))
  }

  ghost function Events(p: Params): (World, Event) -> World {
    (e, event) => Happens(p, e, event)
  }

  ghost predicate Occurs(p: Params, file: seq<char>, e: World) {
    Leads<World, Event>(Events(p), Begin(file), e)
  }

  // ---- what one pipe contributes ----

  /** What an action can do to the two byte streams of a pipe. */
  ghost predicate Grows(c: Pipe, a: Action, c': Pipe) {
    && c.returned <= c'.returned
    && c'.accepted == (if a.Submit? && c' != c then c.accepted + a.data else c.accepted)
    && (a.Submit? || a.Fire? || a.LoseSegment? || a.LoseAck? || a.DeliverAck? ==> c'.returned == c.returned)
  }

  lemma NextGrows(p: Params, c: Pipe, a: Action)
    ensures Grows(c, a, Next(p, c, a))
  {
  }

  lemma NextReachable(p: Params, c: Pipe, a: Action)
    requires Reachable(p, c)
    ensures Reachable(p, Next(p, c, a)) && Grows(c, a, Next(p, c, a))
  {
    LeadsNext(Steps(p), Start, c, a);
    NextGrows(p, c, a);
  }

  lemma FreshOfTakeAll(c: Pipe)
    ensures Fresh(c.returned, TakeAll(c).returned) == Bytes(c.rx.cells, c.rx.read, c.rx.left)
  {
  }

  lemma ClientReadsCases(p: Params, e: World)
    ensures var str := Bytes(e.down.rx.cells, e.down.rx.read, e.down.rx.left);
            ClientReads(p, e, TakeAll(e.down)) ==
              e.(down := TakeAll(e.down), output := e.output + str, recvBytes := e.recvBytes + |str|,
                 fatal := e.fatal || (str != [] && e.recvBytes + |str| > e.sendBytes))
  {
    FreshOfTakeAll(e.down);
  }

  /** `e'` is `e` after the client offered `data`: field by field, for the objects. */
  ghost predicate Offered(p: Params, e: World, data: seq<char>, readFile: bool, e': World)
    requires readFile || data <= e.pending
  {
    if Admits(p, e.up.tx.left, e.up.tx.next, |data|) then
      && e'.up.tx == Record(p, e.up.tx, data) && e'.sendBytes == e.sendBytes + |data|
      && e'.up.segments == e.up.segments + [Segment(Res(e.up.tx.next, p.b), data)]
      && e'.pending == (if readFile then e.pending else e.pending[|data|..])
      && e' == e.(up := e'.up, sendBytes := e'.sendBytes, pending := e'.pending)
    else
      && e'.pending == (if readFile then e.pending + data else e.pending)
      && e' == e.(pending := e'.pending)
  }

  /** An offer moves `data` into the pipe, or leaves it with the client. */
  lemma ClientSendsCases(p: Params, e: World, data: seq<char>, readFile: bool)
    requires |data| <= p.d && (readFile || data <= e.pending)
    ensures Offered(p, e, data, readFile, ClientSends(p, e, data, readFile))
  {
  }

  /** What a tick before the end of the file offers, and to which state. */
  lemma TickOffers(p: Params, e: World) returns (e1: World, data: seq<char>)
    requires !e.quit && !e.eof
    ensures data == Chunk(p, if e.pending != [] then e.pending else e.rest)
    ensures e1 == if e.pending != [] then e else e.(rest := e.rest[|data|..], eof := |data| < p.d)
    ensures Offered(p, e1, data, e.pending == [], Happens(p, e, Tick))
  {
    data := Chunk(p, if e.pending != [] then e.pending else e.rest);
    e1 := if e.pending != [] then e else e.(rest := e.rest[|data|..], eof := |data| < p.d);
    ClientSendsCases(p, e1, data, e.pending == []);
  }

  /** A reply moves one chunk from the queue to the pipe, or does nothing. */
  lemma ReplyCases(p: Params, e: World)
    ensures var data := Chunk(p, e.queue);
            var e' := Reply(p, e);
            if e.queue != [] && Admits(p, e.down.tx.left, e.down.tx.next, |data|) then
              && e'.up == e.up && e'.queue == e.queue[|data|..]
              && e'.down.tx == Record(p, e.down.tx, data)
              && e'.down.segments == e.down.segments + [Segment(Res(e.down.tx.next, p.b), data)]
            else
              e' == e
  {
  }

  // ---- what every event keeps ----

  ghost predicate Pipes(p: Params, e: World) {
    Reachable(p, e.up) && Reachable(p, e.down)
  }

  ghost predicate Streams(file: seq<char>, e: World) {
    && e.up.returned == e.down.accepted + e.queue
    && file == e.up.accepted + e.pending + e.rest
    && e.output == e.down.returned && e.recvBytes == |e.output| && e.sendBytes == |e.up.accepted|
    && (e.eof ==> e.rest == [])
    && !e.fatal && (e.quit ==> e.eof && e.sendBytes == e.recvBytes)
  }

  ghost predicate Kept(p: Params, file: seq<char>, e: World) {
    Pipes(p, e) && Streams(file, e)
  }

  lemma Regroup(x: seq<char>, y: seq<char>, z: seq<char>)
    ensures x + y + z == x + (y + z)
  {
  }

  lemma RetryKeeps(p: Params, file: seq<char>, e: World, data: seq<char>)
    requires Kept(p, file, e) && data <= e.pending && !e.quit
    ensures Kept(p, file, ClientSends(p, e, data, false))
  {
    NextReachable(p, e.up, Submit(data));
    var later := e.pending[|data|..];
    assert e.pending == data + later;
    Regroup(e.up.accepted, data, later);
  }

  lemma FirstTryKeeps(p: Params, file: seq<char>, e: World, data: seq<char>)
    requires Kept(p, file, e) && data <= e.rest && e.pending == [] && !e.quit
    ensures Kept(p, file, ClientSends(p, e.(rest := e.rest[|data|..]), data, true))
  {
    NextReachable(p, e.up, Submit(data));
    FirstTrySplits(e.up.accepted, e.rest, data);
  }

  /** Whether the first bytes of the file are sent or kept, they come before the rest. */
  lemma FirstTrySplits(accepted: seq<char>, rest: seq<char>, data: seq<char>)
    requires data <= rest
    ensures accepted + [] + rest == accepted + data + [] + rest[|data|..]
    ensures accepted + [] + rest == accepted + ([] + data) + rest[|data|..]
  {
    var later := rest[|data|..];
    assert rest == data + later;
    assert accepted + [] == accepted && [] + data == data && accepted + data + [] == accepted + data;
    Regroup(accepted, data, later);
  }

  lemma ClientTicksKeeps(p: Params, file: seq<char>, e: World)
    requires Kept(p, file, e) && !e.quit
    ensures Kept(p, file, ClientTicks(p, e))
  {
    if !e.eof {
      if e.pending != [] {
        RetryKeeps(p, file, e, Chunk(p, e.pending));
      } else {
        var data := Chunk(p, e.rest);
        FirstTryKeeps(p, file, e, data);
        var e' := ClientSends(p, e.(rest := e.rest[|data|..]), data, true);
        assert ClientTicks(p, e) == e'.(eof := |data| < p.d);
      }
    }
  }

  lemma ReplyKeeps(p: Params, file: seq<char>, e: World)
    requires Kept(p, file, e)
    ensures Kept(p, file, Reply(p, e))
  {
    var data := Chunk(p, e.queue);
    NextReachable(p, e.down, Submit(data));
    var later := e.queue[|data|..];
    assert e.queue == data + later;
    Regroup(e.down.accepted, data, later);
  }

  lemma ServerReadsKeeps(p: Params, file: seq<char>, e: World, a: Action)
    requires Kept(p, file, e) && !a.Submit?
    ensures var e' := ServerReads(p, e, Next(p, e.up, a));
            Kept(p, file, e')
  {
    var up := Next(p, e.up, a);
    NextReachable(p, e.up, a);
    var str := Fresh(e.up.returned, up.returned);
    assert up.returned == e.up.returned + str;
    Regroup(e.down.accepted, e.queue, str);
    ReplyKeeps(p, file, Collected(e, up));
  }

  /** The chain of prefixes between the five byte streams. */
  lemma Chain(p: Params, file: seq<char>, e: World)
    requires Kept(p, file, e)
    ensures e.output <= e.down.accepted <= e.up.returned <= e.up.accepted <= file
  {
    ReturnedIsPrefix(p, e.up);
    ReturnedIsPrefix(p, e.down);
  }

  lemma ClientReadsKeeps(p: Params, file: seq<char>, e: World, a: Action)
    requires Kept(p, file, e) && !a.Submit? && !e.quit
    ensures var e' := ClientReads(p, e, Next(p, e.down, a));
            Kept(p, file, e')
  {
    var down := Next(p, e.down, a);
    NextReachable(p, e.down, a);
    ReturnedIsPrefix(p, down);
    ReturnedIsPrefix(p, e.up);
  }

  lemma UnackedReturnsNothing(p: Params, c: Pipe, fate: Fate)
    requires c.segments == [] || !fate.Acked?
    ensures Next(p, c, DeliverSegment(fate)).returned == c.returned
  {
  }

  lemma ServerGetsDataKeeps(p: Params, file: seq<char>, e: World, fate: Fate)
    requires Kept(p, file, e) && !e.quit
    ensures Kept(p, file, Happens(p, e, ServerGetsData(fate)))
  {
    if e.up.segments != [] && fate.Acked? {
      ServerReadsKeeps(p, file, e, DeliverSegment(fate));
    } else {
      NextReachable(p, e.up, DeliverSegment(fate));
      UnackedReturnsNothing(p, e.up, fate);
    }
  }

  lemma UpKeeps(p: Params, file: seq<char>, e: World, a: Action)
    requires Kept(p, file, e) && (a.Fire? || a.LoseSegment? || a.LoseAck? || a.DeliverAck?)
    ensures Kept(p, file, e.(up := Next(p, e.up, a)))
  {
    NextReachable(p, e.up, a);
  }

  lemma DownKeeps(p: Params, file: seq<char>, e: World, a: Action)
    requires Kept(p, file, e) && (a.Fire? || a.LoseSegment? || a.LoseAck? || a.DeliverAck?)
    ensures Kept(p, file, e.(down := Next(p, e.down, a)))
  {
    NextReachable(p, e.down, a);
  }

  lemma ClientGetsAckKeeps(p: Params, file: seq<char>, e: World)
    requires Kept(p, file, e) && !e.quit
    ensures Kept(p, file, Happens(p, e, ClientGetsAck))
  {
    UpKeeps(p, file, e, DeliverAck);
    ClientReadsKeeps(p, file, e.(up := Next(p, e.up, DeliverAck)), Drain);
  }

  lemma ServerGetsAckKeeps(p: Params, file: seq<char>, e: World)
    requires Kept(p, file, e) && !e.quit
    ensures Kept(p, file, Happens(p, e, ServerGetsAck))
  {
    if e.down.acks != [] {
      var e1 := e.(down := Next(p, e.down, DeliverAck));
      DownKeeps(p, file, e, DeliverAck);
      ServerReadsKeeps(p, file, e1, Drain);
      assert Happens(p, e, ServerGetsAck) == ServerReads(p, e1, Next(p, e1.up, Drain));
    }
  }

  lemma HappensKeeps(p: Params, file: seq<char>, e: World, event: Event)
    requires Kept(p, file, e)
    ensures Kept(p, file, Happens(p, e, event))
  {
    if !e.quit {
      match event
      case Tick => ClientTicksKeeps(p, file, e);
      case ClientGetsData(fate) => ClientReadsKeeps(p, file, e, DeliverSegment(fate));
      case ClientGetsAck => ClientGetsAckKeeps(p, file, e);
      case ServerGetsData(fate) => ServerGetsDataKeeps(p, file, e, fate);
      case ServerGetsAck => ServerGetsAckKeeps(p, file, e);
      case UpTimer(i) => UpKeeps(p, file, e, Fire(i));
      case DownTimer(i) => DownKeeps(p, file, e, Fire(i));
      case UpLoss(segment, i) => UpKeeps(p, file, e, Loss(segment, i));
      case DownLoss(segment, i) => DownKeeps(p, file, e, Loss(segment, i));
    }
  }

  // ---- what holds in every state of every run ----

  lemma BeginKept(p: Params, file: seq<char>)
    ensures Kept(p, file, Begin(file))
  {
    LeadsNowhere<Pipe, Action>(Steps(p), Start);
  }

  lemma OccursKept(p: Params, file: seq<char>, e: World)
    requires Occurs(p, file, e)
    ensures Kept(p, file, e)
  {
    BeginKept(p, file);
    forall e, event | Kept(p, file, e)
      ensures Kept(p, file, Happens(p, e, event))
    {
      HappensKeeps(p, file, e, event);
    }
    InvariantHolds(Events(p), (e: World) => Kept(p, file, e), Begin(file), e);
  }

  /** Nothing is ever lost, added or reordered between the file and what comes back. */
  lemma EchoesAreFaithful(p: Params, file: seq<char>, e: World)
    requires Occurs(p, file, e)
    ensures e.output <= e.down.accepted <= e.up.returned <= e.up.accepted <= file
    ensures !e.fatal && e.recvBytes <= e.sendBytes
  {
    OccursKept(p, file, e);
    Chain(p, file, e);
  }

  /**
    When the client quits, everything it sent has come back. That is the whole file exactly
    if nothing is left in its send buffer: a last chunk that was refused is never retried,
    because the end of the file is tested before the send buffer.
   */
  lemma QuitsWithWholeFile(p: Params, file: seq<char>, e: World)
    requires Occurs(p, file, e) && e.quit
    ensures e.output == e.up.accepted
    ensures e.output == file <==> e.pending == []
  {
    OccursKept(p, file, e);
    Chain(p, file, e);
    assert file == e.up.accepted + e.pending;
  }
}
