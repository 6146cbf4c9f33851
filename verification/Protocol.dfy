/**
  One direction of the protocol: a sender, a FIFO channel for segments, a receiver and a FIFO
  channel for acknowledgements. Only residues travel on the channels, and every decision is
  taken on residues.
 */
module Protocol {
  import opened Modular
  import opened Runs
  import opened Window

  /** Size of the sequence space, of the window and of the largest segment. */
  datatype Sizes = Sizes(b: nat, w: nat, d: nat)

  type Params = p: Sizes | 0 < p.w && 2 * p.w < p.b && 0 < p.d <= p.b - p.w witness Sizes(3, 1, 1)

  datatype Segment = Segment(start: nat, data: seq<char>)

  /** An entry of `timers_` with the packet its closure resends. */
  datatype Timer = Timer(start: nat, end: nat, data: seq<char>)

  datatype Sender = Sender(left: nat, next: nat, timers: seq<Timer>)

  /** What becomes of a segment that reaches the receiver's pipeline. */
  datatype Fate =
    | Dropped   // by the loss module in front
    | Stored    // by the loss module behind: the window took it, but no ack leaves
    | Acked     // not dropped: an ack leaves and the read callback drains the window

  datatype Action =
    | Submit(data: seq<char>)
    | Fire(timer: nat)
    | LoseSegment(at: nat)
    | LoseAck(at: nat)
    | DeliverSegment(fate: Fate)
    | DeliverAck
    | Drain

  datatype Pipe = Pipe(
    tx: Sender,
    segments: seq<Segment>,
    rx: Inbox,
    acks: seq<nat>,
    accepted: seq<char>,   // every byte the sender admitted so far
    returned: seq<char>)   // every byte handed to the receiving application so far

  const Start := Pipe(Sender(0, 0, []), [], EmptyInbox, [], [], [])

  function Without<T>(s: seq<T>, i: nat): (r: seq<T>)
  {
    if i < |s| then s[..i] + s[i + 1..] else s
  }

  ghost predicate Admits(p: Params, left: nat, next: nat, len: nat)
  {
    InRange(p.b, Res(left, p.b), Res(left + p.w, p.b), Res(next, p.b), Res(next, p.b) + len)
  }

  ghost function Record(p: Params, tx: Sender, data: seq<char>): Sender
  {
    var timer := Timer(Res(tx.next, p.b), Res(tx.next + |data|, p.b), data);
    Sender(tx.left, tx.next + |data|, tx.timers + [timer])
  }

  /** How many timers `cancel_timer` pops: all before the first that starts at `ack`. */
  function Cancelled(timers: seq<Timer>, ack: nat, i: nat := 0): (n: nat)
    requires i <= |timers|
    ensures i <= n <= |timers|
    ensures n < |timers| ==> timers[n].start == ack
    ensures forall k :: i <= k < n ==> timers[k].start != ack
    decreases |timers| - i
  {
    if i < |timers| && timers[i].start != ack then Cancelled(timers, ack, i + 1) else i
  }

  ghost function Acknowledge(p: Params, tx: Sender, ack: nat): Sender
  {
    Sender(Move(p.b, p.w, tx.left, ack), tx.next, tx.timers[Cancelled(tx.timers, ack)..])
  }

  /** The read callback: the application takes everything that is in order. */
  ghost function TakeAll(s: Pipe): (r: Pipe)
  {
    s.(returned := s.returned + Bytes(s.rx.cells, s.rx.read, s.rx.left), rx := s.rx.(read := s.rx.left))
  }

  ghost function Next(p: Params, s: Pipe, a: Action): (r: Pipe)
  {
    match a
    case Submit(data) =>
      if |data| <= p.d && Admits(p, s.tx.left, s.tx.next, |data|) then
        s.(tx := Record(p, s.tx, data),
           segments := s.segments + [Segment(Res(s.tx.next, p.b), data)],
           accepted := s.accepted + data)
      else
        s
    case Fire(i) =>
      if i < |s.tx.timers| then
        s.(segments := s.segments + [Segment(s.tx.timers[i].start, s.tx.timers[i].data)])
      else
        s
    case LoseSegment(i) => s.(segments := Without(s.segments, i))
    case LoseAck(i) => s.(acks := Without(s.acks, i))
    case DeliverSegment(fate) =>
      if s.segments == [] then s else
        var m, s1 := s.segments[0], s.(segments := s.segments[1..]);
        if fate.Dropped? then s1 else
          var rx := Receive(p.b, p.w, s.rx, m.start, m.data);
          var s2 := s1.(rx := rx);
          if fate.Stored? then s2 else
            TakeAll(s2.(acks := s.acks + [Res(rx.left, p.b)]))
    case DeliverAck =>
      if s.acks == [] then s else
        s.(tx := Acknowledge(p, s.tx, s.acks[0]), acks := s.acks[1..])
    case Drain => TakeAll(s)
  }

  ghost function Steps(p: Params): (Pipe, Action) -> Pipe {
    (c, a) => Next(p, c, a)
  }

  ghost predicate Reachable(p: Params, c: Pipe) {
    Leads<Pipe, Action>(Steps(p), Start, c)
  }
}
