/** What the echo can still do, and how the client's end-of-file test cuts it short. */
module EchoProgress {
  import opened Protocol
  import opened Refinement
  import opened Runs
  import opened Safety
  import opened Progress
  import opened Echo

  lemma PipeFacts(p: Params, c: Pipe)
    requires Reachable(p, c)
    ensures |c.accepted| == c.tx.next && c.tx.left <= c.tx.next <= c.tx.left + p.w
    ensures c.tx.left <= |c.returned| <= |c.accepted|
  {
    var s := Origin(p, c);
  }

  // ---- the server never stalls ----

  /** While the server has bytes to send back, an acknowledgement that would wake it is due. */
  ghost predicate Busy(e: World) {
    e.queue != [] ==> e.down.tx.left < e.down.tx.next
  }

  lemma ReplyIsBusy(p: Params, e: World)
    requires p.d < p.w && Reachable(p, e.down)
    ensures Busy(Reply(p, e))
  {
    PipeFacts(p, e.down);
    var data := Chunk(p, e.queue);
    AdmittedFits(p, e.down.tx.left, e.down.tx.next, |data|);
  }

  lemma QuietKeepsSender(p: Params, c: Pipe, a: Action)
    requires !a.Submit? && !a.DeliverAck?
    ensures Next(p, c, a).tx == c.tx
  {
  }

  lemma HappensKeepsBusy(p: Params, file: seq<char>, e: World, event: Event)
    requires p.d < p.w && Kept(p, file, e) && Busy(e)
    ensures Busy(Happens(p, e, event))
  {
    if !e.quit {
      match event
      case Tick =>
      case ClientGetsData(fate) => QuietKeepsSender(p, e.down, DeliverSegment(fate));
      case ClientGetsAck => QuietKeepsSender(p, e.down, Drain);
      case ServerGetsData(fate) =>
        var up := Next(p, e.up, DeliverSegment(fate));
        ReplyIsBusy(p, Collected(e, up));
      case ServerGetsAck =>
        if e.down.acks != [] {
          var e1 := e.(down := Next(p, e.down, DeliverAck));
          NextReachable(p, e.down, DeliverAck);
          var up := Next(p, e.up, Drain);
          ReplyIsBusy(p, Collected(e1, up));
        }
      case UpTimer(i) =>
      case DownTimer(i) => QuietKeepsSender(p, e.down, Fire(i));
      case UpLoss(segment, i) =>
      case DownLoss(segment, i) => QuietKeepsSender(p, e.down, Loss(segment, i));
    }
  }

  /**
    The server answers only when a packet arrives, so queued bytes could wait forever. They do
    not, provided a segment is smaller than the window: an outstanding segment will be acknowledged.
   */
  lemma ServerNeverStalls(p: Params, file: seq<char>, e: World)
    requires p.d < p.w && Occurs(p, file, e)
    ensures Busy(e)
  {
    BeginKept(p, file);
    var inv := (e: World) => Kept(p, file, e) && Busy(e);
    forall e, event | inv(e)
      ensures inv(Events(p)(e, event))
    {
      HappensKeeps(p, file, e, event);
      HappensKeepsBusy(p, file, e, event);
    }
    InvariantHolds(Events(p), inv, Begin(file), e);
  }

  // ---- everything sent can come back ----

  ghost predicate Onward(p: Params, file: seq<char>, e: World, e': World) {
    && Occurs(p, file, e) && Occurs(p, file, e')
    && Leads<World, Event>(Events(p), e, e')
    && e'.up.accepted == e.up.accepted && e'.quit == e.quit && SameInput(e, e')
  }

  /** What is left of the file is as it was. */
  ghost predicate SameInput(e: World, e': World) {
    e'.rest == e.rest && e'.eof == e.eof && e'.pending == e.pending
  }

  lemma OnwardOn(p: Params, file: seq<char>, e: World, e': World, e'': World)
    requires Onward(p, file, e, e') && Onward(p, file, e', e'')
    ensures Onward(p, file, e, e'')
  {
    LeadsOn<World, Event>(Events(p), e, e', e'');
  }

  lemma OnwardNext(p: Params, file: seq<char>, e: World, event: Event)
    requires Occurs(p, file, e) && !e.quit && !event.Tick?
    ensures Onward(p, file, e, Happens(p, e, event))
  {
    LeadsNowhere<World, Event>(Events(p), e);
    LeadsNext(Events(p), e, e, event);
    LeadsOn<World, Event>(Events(p), Begin(file), e, Happens(p, e, event));
    OnlyTicksSubmit(p, e, event);
  }

  lemma OnlyTicksSubmit(p: Params, e: World, event: Event)
    requires !event.Tick?
    ensures Happens(p, e, event).up.accepted == e.up.accepted && Happens(p, e, event).quit == e.quit
    ensures SameInput(e, Happens(p, e, event))
  {
    match event
    case ClientGetsAck => NextGrows(p, e.up, DeliverAck);
    case ServerGetsData(fate) => NextGrows(p, e.up, DeliverSegment(fate));
    case ServerGetsAck => NextGrows(p, e.up, Drain);
    case UpTimer(i) => NextGrows(p, e.up, Fire(i));
    case UpLoss(segment, i) => NextGrows(p, e.up, Loss(segment, i));
    case _ =>
  }

  lemma OnwardNowhere(p: Params, file: seq<char>, e: World)
    requires Occurs(p, file, e)
    ensures Onward(p, file, e, e)
  {
    LeadsNowhere<World, Event>(Events(p), e);
  }

  lemma {:induction false} FlushUp(p: Params, file: seq<char>, e: World)
    requires Occurs(p, file, e) && !e.quit
    ensures Onward(p, file, e, e.(up := e.up.(segments := [], acks := [])))
    decreases |e.up.segments| + |e.up.acks|
  {
    if e.up.segments == [] && e.up.acks == [] {
      OnwardNowhere(p, file, e);
      assert e == e.(up := e.up.(segments := [], acks := []));
    } else {
      var loss := UpLoss(e.up.segments != [], 0);
      var e1 := Happens(p, e, loss);
      assert e1.up == if e.up.segments != [] then e.up.(segments := e.up.segments[1..]) else e.up.(acks := e.up.acks[1..]);
      OnwardNext(p, file, e, loss);
      FlushUp(p, file, e1);
      OnwardOn(p, file, e, e1, e1.(up := e1.up.(segments := [], acks := [])));
    }
  }

  lemma {:induction false} FlushDown(p: Params, file: seq<char>, e: World)
    requires Occurs(p, file, e) && !e.quit
    ensures Onward(p, file, e, e.(down := e.down.(segments := [], acks := [])))
    decreases |e.down.segments| + |e.down.acks|
  {
    if e.down.segments == [] && e.down.acks == [] {
      OnwardNowhere(p, file, e);
      assert e == e.(down := e.down.(segments := [], acks := []));
    } else {
      var loss := DownLoss(e.down.segments != [], 0);
      var e1 := Happens(p, e, loss);
      assert e1.down == if e.down.segments != [] then e.down.(segments := e.down.segments[1..]) else e.down.(acks := e.down.acks[1..]);
      OnwardNext(p, file, e, loss);
      FlushDown(p, file, e1);
      OnwardOn(p, file, e, e1, e1.(down := e1.down.(segments := [], acks := [])));
    }
  }

  /** A segment that is on its way up is stored, and its acknowledgement comes back. */
  lemma UpDelivery(p: Params, file: seq<char>, e: World) returns (e': World)
    requires Occurs(p, file, e) && !e.quit && e.up.segments != []
    requires Next(p, e.up, DeliverSegment(Acked)).acks != []
    ensures Onward(p, file, e, e')
    ensures e'.up == Next(p, Next(p, e.up, DeliverSegment(Acked)), DeliverAck)
  {
    var e1 := Happens(p, e, ServerGetsData(Acked));
    OnwardNext(p, file, e, ServerGetsData(Acked));
    e' := Happens(p, e1, ClientGetsAck);
    OnwardNext(p, file, e1, ClientGetsAck);
    OnwardOn(p, file, e, e1, e');
  }

  /** A segment that is on its way down is stored, and its acknowledgement comes back. */
  lemma DownDelivery(p: Params, file: seq<char>, e: World) returns (e': World)
    requires Occurs(p, file, e) && !e.quit && e.down.segments != []
    requires Next(p, e.down, DeliverSegment(Acked)).acks != []
    ensures Onward(p, file, e, e') && e'.up.tx == e.up.tx
    ensures e'.down.tx.left == Next(p, Next(p, e.down, DeliverSegment(Acked)), DeliverAck).tx.left
  {
    var e1 := Happens(p, e, ClientGetsData(Acked));
    OnwardNext(p, file, e, ClientGetsData(Acked));
    e' := Happens(p, e1, ServerGetsAck);
    OnwardNext(p, file, e1, ServerGetsAck);
    OnwardOn(p, file, e, e1, e');
    QuietKeepsSender(p, e.up, Drain);
  }

  /** One retransmission by the client, stored and acknowledged by the server. */
  lemma UpRound(p: Params, file: seq<char>, e: World) returns (e': World)
    requires Occurs(p, file, e) && !e.quit && e.up.tx.left < |e.up.accepted|
    ensures Onward(p, file, e, e') && e'.up.tx.left > e.up.tx.left
  {
    FlushUp(p, file, e);
    var e0 := e.(up := e.up.(segments := [], acks := []));
    OccursKept(p, file, e0);
    var n := QuietRoundTrip(p, e0.up);
    OnwardNext(p, file, e0, UpTimer(n));
    var e1 := Happens(p, e0, UpTimer(n));
    e' := UpDelivery(p, file, e1);
    OnwardOn(p, file, e, e0, e1);
    OnwardOn(p, file, e, e1, e');
  }

  /** One retransmission by the server, stored and acknowledged by the client. */
  lemma DownRound(p: Params, file: seq<char>, e: World) returns (e': World)
    requires Occurs(p, file, e) && !e.quit && e.down.tx.left < |e.down.accepted|
    ensures Onward(p, file, e, e') && e'.down.tx.left > e.down.tx.left && e'.up.tx == e.up.tx
  {
    FlushDown(p, file, e);
    var e0 := e.(down := e.down.(segments := [], acks := []));
    OccursKept(p, file, e0);
    var n := QuietRoundTrip(p, e0.down);
    OnwardNext(p, file, e0, DownTimer(n));
    var e1 := Happens(p, e0, DownTimer(n));
    e' := DownDelivery(p, file, e1);
    OnwardOn(p, file, e, e0, e1);
    OnwardOn(p, file, e, e1, e');
  }

  lemma {:induction false} SettleUp(p: Params, file: seq<char>, e: World) returns (e': World)
    requires Occurs(p, file, e) && !e.quit
    ensures Onward(p, file, e, e') && e'.up.tx.left == |e'.up.accepted|
    decreases |e.up.accepted| - e.up.tx.left
  {
    OccursKept(p, file, e);
    PipeFacts(p, e.up);
    if e.up.tx.left == |e.up.accepted| {
      OnwardNowhere(p, file, e);
      e' := e;
    } else {
      var e1 := UpRound(p, file, e);
      e' := SettleUp(p, file, e1);
      OnwardOn(p, file, e, e1, e');
    }
  }

  lemma {:induction false} SettleDown(p: Params, file: seq<char>, e: World) returns (e': World)
    requires p.d < p.w && Occurs(p, file, e) && !e.quit && e.up.tx.left == |e.up.accepted|
    ensures Onward(p, file, e, e') && e'.output == e.up.accepted
    decreases |e.up.accepted| - e.down.tx.left
  {
    OccursKept(p, file, e);
    Chain(p, file, e);
    PipeFacts(p, e.up);
    PipeFacts(p, e.down);
    if e.down.tx.left == |e.down.accepted| {
      ServerNeverStalls(p, file, e);
      OnwardNowhere(p, file, e);
      e' := e;
    } else {
      var e1 := DownRound(p, file, e);
      OccursKept(p, file, e1);
      Chain(p, file, e1);
      PipeFacts(p, e1.down);
      e' := SettleDown(p, file, e1);
      OnwardOn(p, file, e, e1, e');
    }
  }

  /** Whatever the network lost so far, every byte the client sent can still come back to it. */
  lemma EchoCompletes(p: Params, file: seq<char>, e: World) returns (e': World)
    requires p.d < p.w && Occurs(p, file, e) && !e.quit
    ensures Onward(p, file, e, e') && e'.output == e.up.accepted
  {
    var e1 := SettleUp(p, file, e);
    e' := SettleDown(p, file, e1);
    OnwardOn(p, file, e, e1, e');
  }

  // ---- the whole file ----

  /** What a tick before the end of the file does. */
  lemma TickOutcome(p: Params, e: World) returns (data: seq<char>)
    requires !e.quit && !e.eof
    ensures data == Chunk(p, if e.pending != [] then e.pending else e.rest)
    ensures var e' := Happens(p, e, Tick);
            var admitted := Admits(p, e.up.tx.left, e.up.tx.next, |data|);
            && e'.up.tx.left == e.up.tx.left
            && e'.up.tx.next == e.up.tx.next + (if admitted then |data| else 0)
            && e'.up.accepted == (if admitted then e.up.accepted + data else e.up.accepted)
    ensures var e' := Happens(p, e, Tick);
            var admitted := Admits(p, e.up.tx.left, e.up.tx.next, |data|);
            if e.pending != [] then
              && e'.rest == e.rest && !e'.eof && !e'.quit
              && e'.pending == if admitted then e.pending[|data|..] else e.pending
            else
              && e'.rest == e.rest[|data|..] && e'.eof == (|data| < p.d) && !e'.quit
              && e'.pending == if admitted then [] else data
  {
    data := Chunk(p, if e.pending != [] then e.pending else e.rest);
  }

  lemma OccursNext(p: Params, file: seq<char>, e: World, event: Event)
    requires Occurs(p, file, e)
    ensures Occurs(p, file, Happens(p, e, event)) && Leads<World, Event>(Events(p), e, Happens(p, e, event))
  {
    LeadsNext(Events(p), Begin(file), e, event);
    LeadsNowhere<World, Event>(Events(p), e);
    LeadsNext(Events(p), e, e, event);
  }

  /** With everything acknowledged, a tick makes headway through the file. */
  lemma IdleTick(p: Params, e: World)
    requires p.d < p.w && !e.quit && !e.eof && e.up.tx.left == e.up.tx.next
    ensures var e' := Happens(p, e, Tick);
            && !e'.quit && (e'.eof ==> e'.pending == [])
            && (if e'.eof then |e'.pending| + |e'.rest| <= |e.pending| + |e.rest|
                else |e'.pending| + |e'.rest| < |e.pending| + |e.rest|)
  {
    var data := TickOutcome(p, e);
    if data != [] {
      IdleAdmits(p, e.up.tx.left, |data|);
    }
  }

  /** As long as nothing was refused at the end of the file, all of it can still be sent. */
  lemma {:induction false} SendEverything(p: Params, file: seq<char>, e: World) returns (e': World)
    requires p.d < p.w && Occurs(p, file, e) && !e.quit && (e.eof ==> e.pending == [])
    ensures Occurs(p, file, e') && Leads<World, Event>(Events(p), e, e')
    ensures !e'.quit && e'.eof && e'.up.accepted == file
    decreases !e.eof, |e.pending| + |e.rest|
  {
    if e.eof {
      OccursKept(p, file, e);
      LeadsNowhere<World, Event>(Events(p), e);
      e' := e;
    } else {
      var e1 := SettleUp(p, file, e);
      OccursKept(p, file, e1);
      PipeFacts(p, e1.up);
      IdleTick(p, e1);
      OccursNext(p, file, e1, Tick);
      var e2 := Happens(p, e1, Tick);
      LeadsOn<World, Event>(Events(p), e, e1, e2);
      e' := SendEverything(p, file, e2);
      LeadsOn<World, Event>(Events(p), e, e2, e');
    }
  }

  /** After the end of the file the client can quit with everything that it sent. */
  lemma QuitsWithWhatWasSent(p: Params, file: seq<char>, e: World) returns (e': World)
    requires p.d < p.w && Occurs(p, file, e) && !e.quit && e.eof
    ensures Occurs(p, file, e') && Leads<World, Event>(Events(p), e, e')
    ensures e'.quit && e'.output == e.up.accepted
  {
    var e1 := EchoCompletes(p, file, e);
    OccursKept(p, file, e1);
    OccursNext(p, file, e1, Tick);
    e' := Happens(p, e1, Tick);
    LeadsOn<World, Event>(Events(p), e, e1, e');
    LastTick(p, file, e1);
  }

  lemma LastTick(p: Params, file: seq<char>, e: World)
    requires Kept(p, file, e) && !e.quit && e.eof && e.output == e.up.accepted
    ensures Happens(p, e, Tick).quit && Happens(p, e, Tick).output == e.output
  {
  }

  /** After the end of the file the send buffer never changes again. */
  lemma PendingIsFinal(p: Params, e: World, e': World)
    requires e.eof && Leads<World, Event>(Events(p), e, e')
    ensures e'.eof && e'.pending == e.pending
  {
    var inv := (x: World) => x.eof && x.pending == e.pending;
    forall x, event | inv(x)
      ensures inv(Events(p)(x, event))
    {
      if !event.Tick? {
        OnlyTicksSubmit(p, x, event);
      }
    }
    InvariantHolds(Events(p), inv, e, e');
  }

  /** The run can still end as it should: the client quits and the whole file has come back. */
  ghost predicate CanSucceed(p: Params, file: seq<char>, e: World) {
    exists e' :: Leads<World, Event>(Events(p), e, e') && e'.quit && e'.output == file
  }

  /**
    It can in every state of every run but those in which the end of the file was reached with a refused chunk
    in the send buffer: two variables that the client could test.
   */
  lemma SucceedsIff(p: Params, file: seq<char>, e: World)
    requires p.d < p.w && Occurs(p, file, e)
    ensures CanSucceed(p, file, e) <==> (e.eof ==> e.pending == [])
  {
    OccursKept(p, file, e);
    if e.eof && e.pending != [] {
      forall e' | Leads<World, Event>(Events(p), e, e') && e'.quit
        ensures e'.output != file
      {
        LeadsOn<World, Event>(Events(p), Begin(file), e, e');
        QuitsWithWholeFile(p, file, e');
        PendingIsFinal(p, e, e');
      }
    } else if e.quit {
      QuitsWithWholeFile(p, file, e);
      LeadsNowhere<World, Event>(Events(p), e);
    } else {
      var e1 := SendEverything(p, file, e);
      var e2 := QuitsWithWhatWasSent(p, file, e1);
      LeadsOn<World, Event>(Events(p), e, e1, e2);
    }
  }
}
