/** The protocol on residues is the protocol on positions, seen modulo the ring size. */
module Refinement {
  import opened Modular
  import opened Window
  import opened Protocol
  import opened Runs
  import U = Unbounded

  ghost function TimersOf(p: Params, pieces: seq<U.Piece>): (r: seq<Timer>)
    ensures |r| == |pieces|
    ensures forall k :: 0 <= k < |r| ==>
      r[k] == Timer(Res(pieces[k].start, p.b), Res(pieces[k].End(), p.b), pieces[k].data)
  {
    seq(|pieces|, k requires 0 <= k < |pieces| =>
      Timer(Res(pieces[k].start, p.b), Res(pieces[k].End(), p.b), pieces[k].data))
  }

  ghost function SegmentsOf(p: Params, flights: seq<U.Flight>): (r: seq<Segment>)
    ensures |r| == |flights|
    ensures forall k :: 0 <= k < |r| ==> r[k] == Segment(Res(flights[k].piece.start, p.b), flights[k].piece.data)
  {
    seq(|flights|, k requires 0 <= k < |flights| =>
      Segment(Res(flights[k].piece.start, p.b), flights[k].piece.data))
  }

  ghost function ResiduesOf(p: Params, acks: seq<nat>): (r: seq<nat>)
    ensures |r| == |acks| && forall k :: 0 <= k < |r| ==> r[k] == Res(acks[k], p.b)
  {
    seq(|acks|, k requires 0 <= k < |acks| => Res(acks[k], p.b))
  }

  ghost function Image(p: Params, s: U.State): Pipe
  {
    Pipe(Sender(s.left, s.next, TimersOf(p, s.timers)), SegmentsOf(p, s.flights), s.rx,
         ResiduesOf(p, s.acks), s.accepted, s.returned)
  }

  ghost predicate Wraps(p: Params, left: nat)
  {
    Res(left + p.w, p.b) <= Res(left, p.b)
  }

  /** The sender fills its window to the brim only while the window does not wrap around. */
  ghost predicate Brim(p: Params, s: U.State)
  {
    s.next == s.left + p.w ==> !Wraps(p, s.left)
  }

  ghost predicate Good(p: Params, s: U.State) {
    U.Inv(p, s) && Brim(p, s)
  }

  // ---- the three decisions ----

  /** The test on a segment that starts at most one window ahead of the left edge. */
  lemma TestAhead(b: nat, w: nat, left: nat, pos: nat, len: nat)
    requires 0 < w && 2 * w < b && left <= pos <= left + w && len <= b - w
    ensures InRange(b, Res(left, b), Res(left + w, b), Res(pos, b), Mod(Res(pos, b) + len, b)) <==>
            if Res(left + w, b) <= Res(left, b) then pos + len < left + w
            else pos < left + w && left < pos + len <= left + w
  {
    OffsetOfRes(left, pos, b);
    ResAdd(left, w, b);
    InRangeIsInclusion(b, w, Res(left, b), Res(pos, b), len);
  }

  /** The test refuses a segment that starts at most one window behind. */
  lemma TestBehind(b: nat, w: nat, left: nat, pos: nat, len: nat)
    requires 0 < w && 2 * w < b && pos < left <= pos + w && len <= b - w
    ensures !InRange(b, Res(left, b), Res(left + w, b), Res(pos, b), Mod(Res(pos, b) + len, b))
  {
    OffsetBehind(left, pos, b);
    ResAdd(left, w, b);
    InRangeIsInclusion(b, w, Res(left, b), Res(pos, b), len);
  }

  /** Admission: what passes the test fits the window. */
  lemma AdmittedFits(p: Params, left: nat, next: nat, len: nat)
    requires left <= next <= left + p.w && len <= p.d
    ensures Admits(p, left, next, len) <==>
            if Wraps(p, left) then next + len < left + p.w
            else next < left + p.w && left < next + len <= left + p.w
  {
    TestAhead(p.b, p.w, left, next, len);
  }

  /** With nothing outstanding, a segment as large as the window can be refused for good. */
  lemma IdleAdmits(p: Params, left: nat, len: nat)
    requires 0 < len <= p.d
    ensures Admits(p, left, left, len) <==> len < p.w || (len == p.w && !Wraps(p, left))
  {
    AdmittedFits(p, left, left, len);
  }

  lemma AcceptNothing(rx: Inbox, pos: nat)
    requires rx.left !in rx.cells
    ensures Accept(rx, pos, []) == rx
  {
    assert Put(rx.cells, pos, []) == rx.cells;
  }

  lemma ReceivesAhead(b: nat, w: nat, rx: Inbox, pos: nat, data: seq<char>)
    requires 0 < w && 2 * w < b && 0 < |data| <= b - w
    requires rx.left <= pos && pos + |data| <= rx.left + w
    requires pos + |data| == rx.left + w ==> Res(rx.left, b) < Res(rx.left + w, b)
    ensures Receive(b, w, rx, Res(pos, b), data) == Accept(rx, pos, data)
  {
    TestAhead(b, w, rx.left, pos, |data|);
    OffsetOfRes(rx.left, pos, b);
  }

  lemma ReceivesNothing(b: nat, w: nat, rx: Inbox, start: nat)
    requires 0 < b && start < b && rx.left !in rx.cells
    ensures Receive(b, w, rx, start, []) == rx
  {
    AcceptNothing(rx, rx.left + Offset(Res(rx.left, b), start, b));
  }

  lemma ReceivesBehind(b: nat, w: nat, rx: Inbox, pos: nat, data: seq<char>)
    requires 0 < w && 2 * w < b && |data| <= b - w && pos < rx.left <= pos + w
    ensures Receive(b, w, rx, Res(pos, b), data) == rx
  {
    TestBehind(b, w, rx.left, pos, |data|);
  }

  /**
    Reception: although only the residue of a segment's start is known, the window stores the
    segment where it belongs if it starts at or beyond the left edge, and refuses it otherwise.
   */
  lemma ReceivesRightly(p: Params, left: nat, next: nat, rx: Inbox, f: U.Flight)
    requires left <= rx.left && next <= left + p.w && (next == left + p.w ==> !Wraps(p, left))
    requires rx.left !in rx.cells
    requires U.Recent(p.w, next, rx, f) && |f.piece.data| <= p.d
    ensures Receive(p.b, p.w, rx, Res(f.piece.start, p.b), f.piece.data) == U.Store(rx, f.piece)
  {
    var pos, data := f.piece.start, f.piece.data;
    if pos < rx.left {
      ReceivesBehind(p.b, p.w, rx, pos, data);
    } else if data == [] {
      ReceivesNothing(p.b, p.w, rx, Res(pos, p.b));
      AcceptNothing(rx, pos);
    } else {
      assert pos + |data| == rx.left + p.w ==> left == rx.left;
      ReceivesAhead(p.b, p.w, rx, pos, data);
    }
  }

  /** Acknowledgement: the window accepts every ack that is news and moves to it. */
  lemma MovesRightly(p: Params, left: nat, next: nat, ack: nat)
    requires left <= ack <= next <= left + p.w && (next == left + p.w ==> !Wraps(p, left))
    ensures Move(p.b, p.w, left, Res(ack, p.b)) == ack
    ensures ack > left ==>
      InRange(p.b, Res(left, p.b), Res(left + p.w, p.b), Res(left, p.b), Res(ack, p.b))
  {
    OffsetOfRes(left, ack, p.b);
    ResAdd(left, p.w, p.b);
    InRangeExact(p.b, p.w, Res(left, p.b), Res(left, p.b), Res(ack, p.b));
  }

  lemma CancelsAt(p: Params, left: nat, next: nat, timers: seq<U.Piece>, ack: nat, m: nat)
    requires left <= ack <= next < left + p.b && m <= |timers|
    requires ack == if m < |timers| then timers[m].start else next
    requires forall k :: 0 <= k < |timers| ==> left <= timers[k].start <= next
    requires forall k :: 0 <= k < m ==> timers[k].start < ack
    ensures Cancelled(TimersOf(p, timers), Res(ack, p.b)) == m
  {
    var n := Cancelled(TimersOf(p, timers), Res(ack, p.b));
    assert m < |timers| ==> TimersOf(p, timers)[m].start == Res(ack, p.b);
    if n < m {
      ResInjective(timers[n].start, ack, p.b);
    }
  }

  lemma TimersBetween(p: Params, s: U.State)
    requires U.SenderInv(p, s.left, s.next, s.timers, s.accepted, s.cuts)
    ensures forall k :: 0 <= k < |s.timers| ==> s.left <= s.timers[k].start <= s.next
  {
  }

  /** Cancellation: comparing residues pops exactly the timers of acknowledged pieces. */
  lemma CancelsRightly(p: Params, s: U.State, ack: nat)
    requires U.SenderInv(p, s.left, s.next, s.timers, s.accepted, s.cuts) && s.left <= ack <= s.next && ack in s.cuts
    ensures U.Splits(s.timers, ack, Cancelled(TimersOf(p, s.timers), Res(ack, p.b)))
  {
    TimersBetween(p, s);
    var m := U.CutIsTimer(p.d, s.left, s.next, s.timers, s.accepted, s.cuts, ack, 0);
    CancelsAt(p, s.left, s.next, s.timers, ack, m);
    U.CutSplits(s.left, s.next, s.timers, ack, m);
  }

  // ---- lockstep ----

  lemma ImageOfSubmitted(p: Params, s: U.State, data: seq<char>)
    requires |data| <= p.d && Admits(p, s.left, s.next, |data|)
    ensures Next(p, Image(p, s), Submit(data)) == Image(p, U.Submitted(s, data))
  {
    var s' := U.Submitted(s, data);
    assert TimersOf(p, s'.timers) == Record(p, Image(p, s).tx, data).timers;
    assert SegmentsOf(p, s'.flights) == SegmentsOf(p, s.flights) + [Segment(Res(s.next, p.b), data)];
  }

  lemma BrimAfterSubmit(p: Params, s: U.State, data: seq<char>)
    requires s.left <= s.next <= s.left + p.w && |data| <= p.d && Admits(p, s.left, s.next, |data|)
    ensures U.Step(p, s, Submit(data), U.Submitted(s, data)) && Brim(p, U.Submitted(s, data))
  {
    AdmittedFits(p, s.left, s.next, |data|);
  }

  lemma SimulateSubmit(p: Params, s: U.State, data: seq<char>) returns (s': U.State)
    requires Good(p, s)
    ensures U.Step(p, s, Submit(data), s') && Brim(p, s')
    ensures Next(p, Image(p, s), Submit(data)) == Image(p, s')
  {
    if |data| <= p.d && Admits(p, s.left, s.next, |data|) {
      BrimAfterSubmit(p, s, data);
      ImageOfSubmitted(p, s, data);
      s' := U.Submitted(s, data);
    } else {
      s' := s;
    }
  }

  lemma ImageOfDelivered(p: Params, s: U.State, fate: Fate)
    requires s.flights != []
    requires var f := s.flights[0];
             Receive(p.b, p.w, s.rx, Res(f.piece.start, p.b), f.piece.data) == U.Store(s.rx, f.piece)
    ensures Next(p, Image(p, s), DeliverSegment(fate)) == Image(p, U.Delivered(s, fate))
  {
    var left := U.Store(s.rx, s.flights[0].piece).left;
    assert SegmentsOf(p, s.flights[1..]) == SegmentsOf(p, s.flights)[1..];
    assert ResiduesOf(p, s.acks + [left]) == ResiduesOf(p, s.acks) + [Res(left, p.b)];
  }

  lemma SimulateDeliver(p: Params, s: U.State, fate: Fate) returns (s': U.State)
    requires Good(p, s)
    ensures U.Step(p, s, DeliverSegment(fate), s') && Brim(p, s')
    ensures Next(p, Image(p, s), DeliverSegment(fate)) == Image(p, s')
  {
    s' := s;
    if s.flights != [] {
      s' := U.Delivered(s, fate);
      ReceivesRightly(p, s.left, s.next, s.rx, s.flights[0]);
      ImageOfDelivered(p, s, fate);
    }
  }

  /** What an arriving acknowledgement does to the sender. */
  lemma AcknowledgesRightly(p: Params, s: U.State, ack: nat) returns (n: nat)
    requires Good(p, s) && s.left <= ack <= s.next && ack in s.cuts
    ensures U.Splits(s.timers, ack, n)
    ensures Acknowledge(p, Image(p, s).tx, Res(ack, p.b)) == Sender(ack, s.next, TimersOf(p, s.timers[n..]))
  {
    n := Cancelled(TimersOf(p, s.timers), Res(ack, p.b));
    MovesRightly(p, s.left, s.next, ack);
    CancelsRightly(p, s, ack);
    assert TimersOf(p, s.timers[n..]) == TimersOf(p, s.timers)[n..];
  }

  lemma ImageOfAcknowledged(p: Params, s: U.State, n: nat)
    requires s.acks != [] && s.left <= s.acks[0] && n <= |s.timers|
    requires Acknowledge(p, Image(p, s).tx, Res(s.acks[0], p.b)) == Sender(s.acks[0], s.next, TimersOf(p, s.timers[n..]))
    ensures Next(p, Image(p, s), DeliverAck) == Image(p, U.Acknowledged(s, n))
  {
    ResiduesOfRest(p, s.acks);
  }

  /** A left edge that moves towards the end of the stream leaves room in the window. */
  lemma BrimAfterAck(p: Params, s: U.State, n: nat)
    requires s.acks != [] && s.left <= s.acks[0] && n <= |s.timers|
    requires s.next <= s.left + p.w && Brim(p, s)
    ensures Brim(p, U.Acknowledged(s, n))
  {
  }

  lemma SimulateAck(p: Params, s: U.State) returns (s': U.State)
    requires Good(p, s)
    ensures U.Step(p, s, DeliverAck, s') && Brim(p, s')
    ensures Next(p, Image(p, s), DeliverAck) == Image(p, s')
  {
    s' := s;
    if s.acks != [] {
      var n := AcknowledgesRightly(p, s, s.acks[0]);
      s' := U.Acknowledged(s, n);
      AckStep(p, s, n);
      ImageOfAcknowledged(p, s, n);
      BrimAfterAck(p, s, n);
    }
  }

  lemma AckStep(p: Params, s: U.State, n: nat)
    requires s.acks != [] && U.Splits(s.timers, s.acks[0], n)
    ensures U.Step(p, s, DeliverAck, U.Acknowledged(s, n))
  {
  }

  lemma ResiduesOfRest(p: Params, acks: seq<nat>)
    requires acks != []
    ensures ResiduesOf(p, acks[1..]) == ResiduesOf(p, acks)[1..]
  {
  }

  lemma SimulateFire(p: Params, s: U.State, i: nat) returns (s': U.State)
    requires Good(p, s)
    ensures U.Step(p, s, Fire(i), s') && Brim(p, s')
    ensures Next(p, Image(p, s), Fire(i)) == Image(p, s')
  {
    s' := s;
    if i < |s.timers| {
      s' := s.(flights := s.flights + [U.Flight(s.timers[i], s.next)]);
      assert SegmentsOf(p, s'.flights) ==
        SegmentsOf(p, s.flights) + [Segment(Res(s.timers[i].start, p.b), s.timers[i].data)];
    }
  }

  lemma SimulateLoseSegment(p: Params, s: U.State, i: nat) returns (s': U.State)
    requires Good(p, s)
    ensures U.Step(p, s, LoseSegment(i), s') && Brim(p, s')
    ensures Next(p, Image(p, s), LoseSegment(i)) == Image(p, s')
  {
    s' := s.(flights := Without(s.flights, i));
    assert SegmentsOf(p, s'.flights) == Without(SegmentsOf(p, s.flights), i);
  }

  lemma SimulateLoseAck(p: Params, s: U.State, i: nat) returns (s': U.State)
    requires Good(p, s)
    ensures U.Step(p, s, LoseAck(i), s') && Brim(p, s')
    ensures Next(p, Image(p, s), LoseAck(i)) == Image(p, s')
  {
    s' := s.(acks := Without(s.acks, i));
    assert ResiduesOf(p, s'.acks) == Without(ResiduesOf(p, s.acks), i);
  }

  lemma Lockstep(p: Params, s: U.State, a: Action) returns (s': U.State)
    requires Good(p, s)
    ensures U.Step(p, s, a, s') && Brim(p, s')
    ensures Next(p, Image(p, s), a) == Image(p, s')
  {
    match a
    case Submit(data) => s' := SimulateSubmit(p, s, data);
    case DeliverSegment(fate) => s' := SimulateDeliver(p, s, fate);
    case DeliverAck => s' := SimulateAck(p, s);
    case Fire(i) => s' := SimulateFire(p, s, i);
    case LoseSegment(i) => s' := SimulateLoseSegment(p, s, i);
    case LoseAck(i) => s' := SimulateLoseAck(p, s, i);
    case Drain => s' := U.TakeAll(s);
  }

  lemma Simulate(p: Params, s: U.State, a: Action) returns (s': U.State)
    requires Good(p, s)
    ensures U.Step(p, s, a, s') && Good(p, s')
    ensures Next(p, Image(p, s), a) == Image(p, s')
  {
    s' := Lockstep(p, s, a);
    U.StepKeepsInv(p, s, a, s');
  }

  ghost predicate Shows(p: Params, c: Pipe, s: U.State) {
    Good(p, s) && c == Image(p, s)
  }

  ghost function Showing(p: Params): (Pipe, U.State) -> bool {
    (c, s) => Shows(p, c, s)
  }

  /** Whatever the protocol does on residues, the unbounded protocol can do on positions. */
  lemma StepsSimulate(p: Params)
    ensures Simulates(Steps(p), U.Steps(p), Showing(p))
  {
    forall c, s, a | Showing(p)(c, s)
      ensures Answered(Steps(p), U.Steps(p), Showing(p), c, s, a)
    {
      var s' := Simulate(p, s, a);
      assert U.Steps(p)(s, a, s') && Showing(p)(Steps(p)(c, a), s');
    }
  }
}
