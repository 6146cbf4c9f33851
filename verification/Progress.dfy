/** From every reachable state the protocol can still deliver everything it accepted. */
module Progress {
  import opened Modular
  import opened Window
  import opened Protocol
  import opened Refinement
  import opened Runs
  import opened Safety
  import U = Unbounded

  /** The first timer that carries data starts at the left edge. */
  lemma {:induction false} FrontTimer(p: Params, s: U.State, k: nat) returns (n: nat)
    requires Good(p, s) && k <= |s.timers|
    requires s.left == if k < |s.timers| then s.timers[k].start else s.next
    requires s.left < s.next
    ensures k <= n < |s.timers| && s.timers[n].start == s.left && s.timers[n].data != []
    ensures forall j :: k <= j < n ==> s.timers[j].data == []
    decreases |s.timers| - k
  {
    if s.timers[k].data == [] {
      n := FrontTimer(p, s, k + 1);
    } else {
      n := k;
    }
  }

  lemma StoredAtLeft(p: Params, s: U.State, piece: U.Piece)
    requires U.ReceiverInv(s.accepted, s.cuts, s.rx, s.returned) && U.Sound(p.d, s.accepted, s.cuts, piece)
    requires piece.start <= s.rx.left
    ensures U.Store(s.rx, piece).left >= piece.End()
  {
    if piece.start == s.rx.left {
      var cells := Put(s.rx.cells, piece.start, piece.data);
      assert FirstGap(cells, s.rx.left) !in cells;
    }
  }

  // ---- a round trip, whatever is in the channels ----

  function Arrivals(fates: seq<Fate>): (r: seq<Action>)
    ensures |r| == |fates| && forall k :: 0 <= k < |r| ==> r[k] == DeliverSegment(fates[k])
  {
    seq(|fates|, k requires 0 <= k < |fates| => DeliverSegment(fates[k]))
  }

  function AckArrivals(n: nat): (r: seq<Action>)
    ensures |r| == n && forall k :: 0 <= k < n ==> r[k] == DeliverAck
  {
    seq(n, k => DeliverAck)
  }

  ghost function Run(p: Params, c: Pipe, actions: seq<Action>): Pipe {
    After(Steps(p), c, actions, |actions|)
  }

  /**
    Timer `n` fires; the segments that were under way before it meet `fates`, the one it sent arrives
    and is acknowledged, and then every acknowledgement arrives.
   */
  ghost function Trip(p: Params, c: Pipe, n: nat, fates: seq<Fate>): Pipe {
    var c1 := Run(p, Next(p, c, Fire(n)), Arrivals(fates));
    var c2 := Next(p, c1, DeliverSegment(Acked));
    Run(p, c2, AckArrivals(|c2.acks|))
  }

  lemma FireOutcome(p: Params, s: U.State, n: nat)
    requires Good(p, s) && n < |s.timers|
    ensures var s' := s.(flights := s.flights + [U.Flight(s.timers[n], s.next)]);
            Good(p, s') && Next(p, Image(p, s), Fire(n)) == Image(p, s')
  {
    var s' := Simulate(p, s, Fire(n));
  }

  lemma DeliverOutcome(p: Params, c: Pipe, s: U.State, fate: Fate)
    requires Showing(p)(c, s) && s.flights != []
    ensures Showing(p)(Steps(p)(c, DeliverSegment(fate)), U.Delivered(s, fate))
  {
    var s' := Simulate(p, s, DeliverSegment(fate));
  }

  ghost function DeliveredTimes(s: U.State, fates: seq<Fate>, k: nat): (r: U.State)
    requires k <= |fates| && k <= |s.flights|
    ensures r.flights == s.flights[k..] && r.left == s.left && r.accepted == s.accepted
    decreases k
  {
    if k == 0 then s else U.Delivered(DeliveredTimes(s, fates, k - 1), fates[k - 1])
  }

  ghost predicate DeliveriesKeep(p: Params, rel: (Pipe, U.State) -> bool) {
    forall c, s, fate :: rel(c, s) && s.flights != [] ==> rel(Steps(p)(c, DeliverSegment(fate)), U.Delivered(s, fate))
  }

  lemma DeliverMany(p: Params, rel: (Pipe, U.State) -> bool, c: Pipe, s: U.State, fates: seq<Fate>)
    requires rel(c, s) && |fates| <= |s.flights| && DeliveriesKeep(p, rel)
    ensures rel(Run(p, c, Arrivals(fates)), DeliveredTimes(s, fates, |fates|))
  {
    var answer := (k: nat) => if k <= |fates| then DeliveredTimes(s, fates, k) else s;
    Tracks(Steps(p), rel, c, answer, Arrivals(fates), |fates|);
  }

  /** The state after the next acknowledgement. */
  ghost function AckNext(p: Params, s: U.State): U.State
    requires s.acks != []
  {
    U.Acknowledged(s, Cancelled(TimersOf(p, s.timers), Res(s.acks[0], p.b)))
  }

  ghost predicate Ascending(left: nat, acks: seq<nat>) {
    && (forall k :: 0 <= k < |acks| ==> left <= acks[k])
    && (forall j, k :: 0 <= j < k < |acks| ==> acks[j] <= acks[k])
  }

  ghost function AckedTimes(p: Params, s: U.State, k: nat): (r: U.State)
    requires k <= |s.acks| && Ascending(s.left, s.acks)
    ensures r.acks == s.acks[k..] && r.accepted == s.accepted
    ensures r.left == if k == 0 then s.left else s.acks[k - 1]
    decreases k
  {
    if k == 0 then s else AckNext(p, AckedTimes(p, s, k - 1))
  }

  lemma AckOutcome(p: Params, c: Pipe, s: U.State)
    requires Showing(p)(c, s) && s.acks != []
    ensures Showing(p)(Steps(p)(c, DeliverAck), AckNext(p, s))
  {
    CancelsRightly(p, s, s.acks[0]);
    var s' := Simulate(p, s, DeliverAck);
    var n: nat :| U.Splits(s.timers, s.acks[0], n) && s' == U.Acknowledged(s, n);
    U.SplitUnique(s.timers, s.acks[0], n, Cancelled(TimersOf(p, s.timers), Res(s.acks[0], p.b)));
  }

  ghost predicate AcksKeep(p: Params, rel: (Pipe, U.State) -> bool) {
    forall c, s :: rel(c, s) && s.acks != [] ==> rel(Steps(p)(c, DeliverAck), AckNext(p, s))
  }

  lemma AckMany(p: Params, rel: (Pipe, U.State) -> bool, c: Pipe, s: U.State)
    requires rel(c, s) && Ascending(s.left, s.acks) && AcksKeep(p, rel)
    ensures rel(Run(p, c, AckArrivals(|s.acks|)), AckedTimes(p, s, |s.acks|))
  {
    var n := |s.acks|;
    var answer := (k: nat) => if k <= n then AckedTimes(p, s, k) else s;
    Tracks(Steps(p), rel, c, answer, AckArrivals(n), n);
  }

  lemma ShowingIsKept(p: Params)
    ensures DeliveriesKeep(p, Showing(p)) && AcksKeep(p, Showing(p))
  {
    forall c, s, fate | Showing(p)(c, s) && s.flights != []
      ensures Showing(p)(Steps(p)(c, DeliverSegment(fate)), U.Delivered(s, fate))
    {
      DeliverOutcome(p, c, s, fate);
    }
    forall c, s | Showing(p)(c, s) && s.acks != []
      ensures Showing(p)(Steps(p)(c, DeliverAck), AckNext(p, s))
    {
      AckOutcome(p, c, s);
    }
  }

  /** The segment that fills the gap at the sender's left edge is acknowledged beyond that edge. */
  lemma LastAckIsNews(p: Params, s: U.State)
    requires Good(p, s) && |s.flights| == 1
    requires var piece := s.flights[0].piece; piece.start <= s.left < piece.End()
    ensures var acks := U.Delivered(s, Acked).acks;
            |acks| > 0 && acks[|acks| - 1] > s.left
  {
    StoredAtLeft(p, s, s.flights[0].piece);
  }

  lemma GapIsFilled(p: Params, c: Pipe, s: U.State)
    requires Showing(p)(c, s) && |s.flights| == 1
    requires var piece := s.flights[0].piece; piece.start <= s.left < piece.End()
    ensures var c1 := Next(p, c, DeliverSegment(Acked));
            var c2 := Run(p, c1, AckArrivals(|c1.acks|));
            c2.tx.left > s.left && c2.accepted == s.accepted
  {
    LastAckIsNews(p, s);
    ShowingIsKept(p);
    DeliverOutcome(p, c, s, Acked);
    var c1, s1 := Next(p, c, DeliverSegment(Acked)), U.Delivered(s, Acked);
    AckMany(p, Showing(p), c1, s1);
    assert Showing(p)(Run(p, c1, AckArrivals(|s1.acks|)), AckedTimes(p, s1, |s1.acks|));
  }

  lemma TripAdvances(p: Params, s: U.State, n: nat, fates: seq<Fate>)
    requires Good(p, s) && n < |s.timers| && s.timers[n].start <= s.left < s.timers[n].End()
    requires |fates| == |s.flights|
    ensures var c' := Trip(p, Image(p, s), n, fates);
            c'.tx.left > s.left && c'.accepted == s.accepted
  {
    FireOutcome(p, s, n);
    ShowingIsKept(p);
    var s1 := s.(flights := s.flights + [U.Flight(s.timers[n], s.next)]);
    var c1 := Next(p, Image(p, s), Fire(n));
    DeliverMany(p, Showing(p), c1, s1, fates);
    GapIsFilled(p, Run(p, c1, Arrivals(fates)), DeliveredTimes(s1, fates, |fates|));
  }

  /**
    In every reachable state with unacknowledged bytes there is a timer to fire: when its segment has arrived
    behind whatever was under way, and the acknowledgements have, the left edge has moved.
   */
  lemma RoundTrip(p: Params, c: Pipe) returns (n: nat)
    requires Reachable(p, c) && c.tx.left < |c.accepted|
    ensures n < |c.tx.timers| && c.tx.timers[n].data != [] && forall j :: 0 <= j < n ==> c.tx.timers[j].data == []
    ensures forall fates: seq<Fate> :: |fates| == |c.segments| ==>
              var c' := Trip(p, c, n, fates);
              c'.tx.left > c.tx.left && c'.accepted == c.accepted
  {
    var s := Origin(p, c);
    n := FrontTimer(p, s, 0);
    forall fates: seq<Fate> | |fates| == |c.segments|
      ensures Trip(p, c, n, fates).tx.left > c.tx.left && Trip(p, c, n, fates).accepted == c.accepted
    {
      TripAdvances(p, s, n, fates);
    }
  }

  /** With nothing under way, a round trip is three steps. */
  lemma QuietRoundTrip(p: Params, c: Pipe) returns (n: nat)
    requires Reachable(p, c) && c.segments == [] && c.acks == [] && c.tx.left < |c.accepted|
    ensures var c1 := Next(p, c, Fire(n));
            var c2 := Next(p, c1, DeliverSegment(Acked));
            var c3 := Next(p, c2, DeliverAck);
            && c1.segments != [] && c2.acks != []
            && c3.tx.left > c.tx.left && c3.accepted == c.accepted
  {
    n := RoundTrip(p, c);
    var c1 := Next(p, c, Fire(n));
    var c2 := Next(p, c1, DeliverSegment(Acked));
    QuietSteps(p, c, n);
    var none: seq<Fate> := [];
    assert Run(p, c1, Arrivals(none)) == c1;
    OneAck(p, c2);
    assert Trip(p, c, n, none).tx.left > c.tx.left;
  }

  lemma QuietSteps(p: Params, c: Pipe, n: nat)
    requires c.segments == [] && c.acks == [] && n < |c.tx.timers|
    ensures var c1 := Next(p, c, Fire(n));
            |c1.segments| == 1 && |Next(p, c1, DeliverSegment(Acked)).acks| == 1
  {
  }

  lemma OneAck(p: Params, c: Pipe)
    ensures Run(p, c, AckArrivals(1)) == Next(p, c, DeliverAck)
  {
    assert After(Steps(p), c, AckArrivals(1), 0) == c;
  }

  lemma RunLeads(p: Params, c: Pipe, c': Pipe, actions: seq<Action>)
    requires Leads<Pipe, Action>(Steps(p), c, c')
    ensures Leads<Pipe, Action>(Steps(p), c, Run(p, c', actions))
  {
    LeadsOn<Pipe, Action>(Steps(p), c, c', Run(p, c', actions));
  }

  lemma TripLeads(p: Params, c: Pipe, n: nat, fates: seq<Fate>)
    ensures Leads<Pipe, Action>(Steps(p), c, Trip(p, c, n, fates))
  {
    var c0 := Next(p, c, Fire(n));
    LeadsNowhere<Pipe, Action>(Steps(p), c);
    LeadsNext(Steps(p), c, c, Fire(n));
    RunLeads(p, c, c0, Arrivals(fates));
    var c1 := Run(p, c0, Arrivals(fates));
    LeadsNext(Steps(p), c, c1, DeliverSegment(Acked));
    var c2 := Next(p, c1, DeliverSegment(Acked));
    RunLeads(p, c, c2, AckArrivals(|c2.acks|));
  }

  /** While bytes are unacknowledged, one retransmission can move the sender's left edge. */
  lemma Advances(p: Params, c: Pipe) returns (c': Pipe)
    requires Reachable(p, c) && c.tx.left < |c.accepted|
    ensures Leads<Pipe, Action>(Steps(p), c, c') && c'.tx.left > c.tx.left && c'.accepted == c.accepted
  {
    var n := RoundTrip(p, c);
    var fates := seq(|c.segments|, i => Acked);
    c' := Trip(p, c, n, fates);
    TripLeads(p, c, n, fates);
  }

  /** No reachable state is a dead end: everything accepted can still be returned and acknowledged. */
  lemma {:induction false} Completes(p: Params, c: Pipe) returns (c': Pipe)
    requires Reachable(p, c)
    ensures Leads<Pipe, Action>(Steps(p), c, c') && c'.accepted == c.accepted
    ensures c'.returned == c.accepted && c'.tx.left == |c.accepted|
    decreases |c.accepted| - c.tx.left
  {
    var s := Origin(p, c);
    if c.tx.left == |c.accepted| {
      LeadsNowhere<Pipe, Action>(Steps(p), c);
      c' := c;
    } else {
      var c1 := Advances(p, c);
      LeadsOn<Pipe, Action>(Steps(p), Start, c, c1);
      c' := Completes(p, c1);
      LeadsOn<Pipe, Action>(Steps(p), c, c1, c');
    }
  }
}
