/**
  The protocol as it would be with unbounded sequence numbers: segments and acknowledgements
  carry stream positions, the receiver stores a segment iff it does not start before its left
  edge, and an acknowledgement releases everything before it.
 */
module Unbounded {
  import opened Window
  import opened Protocol

  datatype Piece = Piece(start: nat, data: seq<char>) {
    function End(): nat { start + |data| }
  }

  /** A piece on its way; `sent` is how far the sender had got when it left. */
  datatype Flight = Flight(piece: Piece, sent: nat)

  datatype State = State(
    left: nat,
    next: nat,
    timers: seq<Piece>,
    flights: seq<Flight>,
    rx: Inbox,
    acks: seq<nat>,
    accepted: seq<char>,
    returned: seq<char>,
    cuts: set<nat>)        // the ends of all pieces admitted so far

  const Initial := State(0, 0, [], [], EmptyInbox, [], [], [], {0})

  ghost predicate Readable(rx: Inbox) {
    rx.read <= rx.left && forall i: nat :: i < rx.left ==> i in rx.cells
  }

  ghost function TakeAll(s: State): State
  {
    s.(returned := s.returned + Bytes(s.rx.cells, s.rx.read, s.rx.left), rx := s.rx.(read := s.rx.left))
  }

  ghost function Store(rx: Inbox, piece: Piece): Inbox {
    if piece.start >= rx.left then Accept(rx, piece.start, piece.data) else rx
  }

  /** `n` separates the timers of acknowledged pieces from the others. */
  ghost predicate Splits(timers: seq<Piece>, ack: nat, n: nat) {
    && n <= |timers|
    && (forall k :: 0 <= k < n ==> timers[k].start < ack)
    && (forall k :: n <= k < |timers| ==> timers[k].start >= ack)
  }

  function Acknowledged(s: State, n: nat): State
    requires s.acks != [] && n <= |s.timers|
  {
    s.(left := if s.acks[0] > s.left then s.acks[0] else s.left, timers := s.timers[n..], acks := s.acks[1..])
  }

  function Submitted(s: State, data: seq<char>): State {
    var piece := Piece(s.next, data);
    s.(next := piece.End(), timers := s.timers + [piece], flights := s.flights + [Flight(piece, piece.End())],
       accepted := s.accepted + data, cuts := s.cuts + {piece.End()})
  }

  ghost function Delivered(s: State, fate: Fate): State
    requires s.flights != []
  {
    var s1 := s.(flights := s.flights[1..]);
    if fate.Dropped? then s1 else
      var rx := Store(s.rx, s.flights[0].piece);
      if fate.Stored? then s1.(rx := rx) else
        TakeAll(s1.(rx := rx, acks := s.acks + [rx.left]))
  }

  ghost predicate Step(p: Params, s: State, a: Action, s': State) {
    match a
    case Submit(data) =>
      || s' == s
      || (|data| <= p.d && s.next + |data| <= s.left + p.w && s' == Submitted(s, data))
    case Fire(i) =>
      s' == if i < |s.timers| then s.(flights := s.flights + [Flight(s.timers[i], s.next)]) else s
    case LoseSegment(i) => s' == s.(flights := Without(s.flights, i))
    case LoseAck(i) => s' == s.(acks := Without(s.acks, i))
    case DeliverSegment(fate) =>
      s' == if s.flights == [] then s else Delivered(s, fate)
    case DeliverAck =>
      if s.acks == [] then s' == s else
        exists n: nat :: Splits(s.timers, s.acks[0], n) && s' == Acknowledged(s, n)
    case Drain => s' == TakeAll(s)
  }

  ghost function Steps(p: Params): (State, Action, State) -> bool {
    (s, a, s') => Step(p, s, a, s')
  }

  // ---- what every step keeps ----

  /** The timers tile [left, next) in order. */
  ghost predicate Tiled(left: nat, next: nat, timers: seq<Piece>) {
    && (if timers == [] then left == next else timers[0].start == left && timers[|timers| - 1].End() == next)
    && (forall k :: 0 < k < |timers| ==> timers[k].start == timers[k - 1].End())
    && (forall j, k :: 0 <= j < k < |timers| ==> timers[j].End() <= timers[k].start)
  }

  /** A piece of the accepted stream that ends at a cut and does not contain one. */
  ghost predicate Sound(d: nat, accepted: seq<char>, cuts: set<nat>, piece: Piece) {
    && |piece.data| <= d && piece.End() <= |accepted|
    && piece.data == accepted[piece.start..piece.End()]
    && piece.End() in cuts
    && forall c :: c in cuts ==> c <= piece.start || c >= piece.End()
  }

  ghost predicate SenderInv(p: Params, left: nat, next: nat, timers: seq<Piece>, accepted: seq<char>, cuts: set<nat>) {
    && left <= next <= left + p.w && |accepted| == next
    && Tiled(left, next, timers)
    && (forall k :: 0 <= k < |timers| ==> Sound(p.d, accepted, cuts, timers[k]))
    && next in cuts && (forall c :: c in cuts ==> c <= next)
  }

  /** Everything received so far had been sent before the piece in flight left. */
  ghost predicate Recent(w: nat, next: nat, rx: Inbox, f: Flight) {
    && f.piece.End() <= f.sent <= next && f.sent <= f.piece.start + w
    && rx.left <= f.sent && (forall i: nat :: i in rx.cells ==> i < f.sent)
  }

  ghost predicate FlightInv(p: Params, next: nat, flights: seq<Flight>, accepted: seq<char>, cuts: set<nat>, rx: Inbox) {
    && (forall k :: 0 <= k < |flights| ==> Sound(p.d, accepted, cuts, flights[k].piece))
    && (forall k :: 0 <= k < |flights| ==> Recent(p.w, next, rx, flights[k]))
    && (forall j, k :: 0 <= j < k < |flights| ==> flights[j].sent <= flights[k].sent)
  }

  ghost predicate ReceiverInv(accepted: seq<char>, cuts: set<nat>, rx: Inbox, returned: seq<char>) {
    && Readable(rx) && rx.left !in rx.cells
    && rx.left in cuts
    && (forall i: nat :: i in rx.cells ==> i < |accepted| && rx.cells[i] == accepted[i])
    && (forall i: nat :: i in rx.cells ==> i + 1 in rx.cells || i + 1 in cuts)
    && rx.left <= |accepted| && returned == accepted[..rx.read]
  }

  ghost predicate AckInv(left: nat, acks: seq<nat>, read: nat, cuts: set<nat>) {
    && left <= read
    && (forall k :: 0 <= k < |acks| ==> left <= acks[k] <= read && acks[k] in cuts)
    && (forall j, k :: 0 <= j < k < |acks| ==> acks[j] <= acks[k])
  }

  ghost predicate Inv(p: Params, s: State) {
    && SenderInv(p, s.left, s.next, s.timers, s.accepted, s.cuts)
    && FlightInv(p, s.next, s.flights, s.accepted, s.cuts, s.rx)
    && ReceiverInv(s.accepted, s.cuts, s.rx, s.returned)
    && AckInv(s.left, s.acks, s.rx.read, s.cuts)
  }

  lemma InitialInv(p: Params)
    ensures Inv(p, Initial)
  {
  }

  lemma StepKeepsInv(p: Params, s: State, a: Action, s': State)
    requires Inv(p, s) && Step(p, s, a, s')
    ensures Inv(p, s')
  {
    match a
    case Submit(data) =>
      if s' != s { SubmitKeepsInv(p, s, data); }
    case Fire(i) =>
      if i < |s.timers| { FireKeepsInv(p, s, i); }
    case LoseSegment(i) => LossKeepsInv(p, s, i);
    case LoseAck(i) => AckLossKeepsInv(p, s, i);
    case DeliverSegment(fate) =>
      if s.flights != [] { DeliverKeepsInv(p, s, fate); }
    case DeliverAck =>
      if s.acks != [] {
        var n: nat :| Splits(s.timers, s.acks[0], n) && s' == Acknowledged(s, n);
        AckKeepsInv(p, s, n);
      }
    case Drain => TakeAllKeepsInv(p, s);
  }

  lemma SoundAfterSubmit(d: nat, accepted: seq<char>, cuts: set<nat>, data: seq<char>, piece: Piece)
    requires Sound(d, accepted, cuts, piece)
    ensures Sound(d, accepted + data, cuts + {|accepted| + |data|}, piece)
  {
    assert (accepted + data)[piece.start..piece.End()] == accepted[piece.start..piece.End()];
  }

  lemma TiledAppend(left: nat, next: nat, timers: seq<Piece>, data: seq<char>)
    requires Tiled(left, next, timers)
    ensures Tiled(left, next + |data|, timers + [Piece(next, data)])
  {
  }

  lemma SubmitKeepsSenderInv(p: Params, left: nat, next: nat, timers: seq<Piece>, accepted: seq<char>,
                             cuts: set<nat>, data: seq<char>)
    requires SenderInv(p, left, next, timers, accepted, cuts)
    requires |data| <= p.d && next + |data| <= left + p.w
    ensures SenderInv(p, left, next + |data|, timers + [Piece(next, data)], accepted + data, cuts + {next + |data|})
  {
    forall k | 0 <= k < |timers|
      ensures Sound(p.d, accepted + data, cuts + {next + |data|}, timers[k])
    {
      SoundAfterSubmit(p.d, accepted, cuts, data, timers[k]);
    }
    assert Sound(p.d, accepted + data, cuts + {next + |data|}, Piece(next, data));
    TiledAppend(left, next, timers, data);
  }

  lemma SubmitKeepsFlightInv(p: Params, s: State, data: seq<char>)
    requires Inv(p, s) && |data| <= p.d && s.next + |data| <= s.left + p.w
    ensures var s' := Submitted(s, data);
            FlightInv(p, s'.next, s'.flights, s'.accepted, s'.cuts, s'.rx)
  {
    var s' := Submitted(s, data);
    var piece := Piece(s.next, data);
    forall k | 0 <= k < |s.flights|
      ensures Sound(p.d, s'.accepted, s'.cuts, s.flights[k].piece)
      ensures Recent(p.w, s'.next, s.rx, s.flights[k])
    {
      SoundAfterSubmit(p.d, s.accepted, s.cuts, data, s.flights[k].piece);
    }
    assert Sound(p.d, s'.accepted, s'.cuts, piece);
    assert Recent(p.w, s'.next, s.rx, Flight(piece, piece.End()));
  }

  lemma SubmitKeepsInv(p: Params, s: State, data: seq<char>)
    requires Inv(p, s) && |data| <= p.d && s.next + |data| <= s.left + p.w
    ensures Inv(p, Submitted(s, data))
  {
    SubmitKeepsSenderInv(p, s.left, s.next, s.timers, s.accepted, s.cuts, data);
    SubmitKeepsFlightInv(p, s, data);
    assert (s.accepted + data)[..s.rx.read] == s.accepted[..s.rx.read];
  }

  lemma FireKeepsInv(p: Params, s: State, i: nat)
    requires Inv(p, s) && i < |s.timers|
    ensures Inv(p, s.(flights := s.flights + [Flight(s.timers[i], s.next)]))
  {
    assert s.left <= s.timers[i].start;
    assert Recent(p.w, s.next, s.rx, Flight(s.timers[i], s.next));
  }

  lemma LossKeepsInv(p: Params, s: State, i: nat)
    requires Inv(p, s)
    ensures Inv(p, s.(flights := Without(s.flights, i)))
  {
  }

  lemma AckLossKeepsInv(p: Params, s: State, i: nat)
    requires Inv(p, s)
    ensures Inv(p, s.(acks := Without(s.acks, i)))
  {
  }

  lemma TakeAllKeepsInv(p: Params, s: State)
    requires Inv(p, s)
    ensures Inv(p, TakeAll(s))
  {
    assert s.accepted[..s.rx.read] + Bytes(s.rx.cells, s.rx.read, s.rx.left) == s.accepted[..s.rx.left];
  }

  /** An outstanding cut is where a timer starts, or the end of the stream. */
  lemma {:induction false} CutIsTimer(d: nat, left: nat, next: nat, timers: seq<Piece>, accepted: seq<char>,
                                      cuts: set<nat>, cut: nat, k: nat) returns (n: nat)
    requires Tiled(left, next, timers) && cut in cuts && k <= |timers|
    requires forall j :: 0 <= j < |timers| ==> Sound(d, accepted, cuts, timers[j])
    requires (if k < |timers| then timers[k].start else next) <= cut <= next
    ensures k <= n <= |timers| && cut == if n < |timers| then timers[n].start else next
    ensures forall j :: k <= j < n ==> timers[j].start < cut
    decreases |timers| - k
  {
    if k == |timers| || timers[k].start == cut {
      n := k;
    } else {
      n := CutIsTimer(d, left, next, timers, accepted, cuts, cut, k + 1);
    }
  }

  lemma TiledSuffix(left: nat, next: nat, timers: seq<Piece>, n: nat)
    requires Tiled(left, next, timers) && n <= |timers|
    ensures Tiled(if n < |timers| then timers[n].start else next, next, timers[n..])
  {
  }

  lemma CutSplits(left: nat, next: nat, timers: seq<Piece>, cut: nat, n: nat)
    requires Tiled(left, next, timers) && n <= |timers|
    requires cut == if n < |timers| then timers[n].start else next
    requires forall j :: 0 <= j < n ==> timers[j].start < cut
    ensures Splits(timers, cut, n)
  {
    forall k | n <= k < |timers|
      ensures timers[k].start >= cut
    {
      assert k > n ==> timers[n].End() <= timers[k].start;
    }
  }

  lemma SplitUnique(timers: seq<Piece>, ack: nat, m: nat, n: nat)
    requires Splits(timers, ack, m) && Splits(timers, ack, n)
    ensures m == n
  {
    var i := if m < n then m else n;
    if i < |timers| {
      assert timers[i].start < ack || timers[i].start >= ack;
    }
  }

  lemma AckKeepsSenderInv(p: Params, left: nat, next: nat, timers: seq<Piece>, accepted: seq<char>,
                          cuts: set<nat>, ack: nat, n: nat)
    requires SenderInv(p, left, next, timers, accepted, cuts) && left <= ack <= next && ack in cuts
    requires Splits(timers, ack, n)
    ensures SenderInv(p, ack, next, timers[n..], accepted, cuts)
  {
    var m := CutIsTimer(p.d, left, next, timers, accepted, cuts, ack, 0);
    SplitUnique(timers, ack, m, n);
    TiledSuffix(left, next, timers, n);
  }

  lemma AckKeepsInv(p: Params, s: State, n: nat)
    requires Inv(p, s) && s.acks != [] && Splits(s.timers, s.acks[0], n)
    ensures Inv(p, Acknowledged(s, n))
  {
    AckKeepsSenderInv(p, s.left, s.next, s.timers, s.accepted, s.cuts, s.acks[0], n);
    assert Acknowledged(s, n).left == s.acks[0];
  }

  lemma StoreKeepsReceiverInv(p: Params, accepted: seq<char>, cuts: set<nat>, rx: Inbox, returned: seq<char>, piece: Piece)
    requires ReceiverInv(accepted, cuts, rx, returned) && Sound(p.d, accepted, cuts, piece) && piece.start >= rx.left
    ensures var rx' := Store(rx, piece);
            ReceiverInv(accepted, cuts, rx', returned) && rx.left <= rx'.left
  {
    var rx' := Store(rx, piece);
    if rx'.left > rx.left {
      assert rx'.left - 1 in rx'.cells;
    }
    forall i: nat | i in rx'.cells && i + 1 !in rx'.cells
      ensures i + 1 in cuts
    {
      assert i in rx.cells || i + 1 == piece.End();
    }
  }

  lemma StoreKeepsRecent(w: nat, next: nat, rx: Inbox, f: Flight, g: Flight)
    requires Readable(rx) && Recent(w, next, rx, f) && Recent(w, next, rx, g) && f.sent <= g.sent
    ensures Recent(w, next, Store(rx, f.piece), g)
  {
    var rx' := Store(rx, f.piece);
    if rx'.left > rx.left {
      assert rx'.left - 1 in rx'.cells;
    }
  }

  lemma StoreKeepsInv(p: Params, s: State)
    requires Inv(p, s) && s.flights != []
    ensures Inv(p, s.(flights := s.flights[1..], rx := Store(s.rx, s.flights[0].piece)))
  {
    var f := s.flights[0];
    if f.piece.start >= s.rx.left {
      StoreKeepsReceiverInv(p, s.accepted, s.cuts, s.rx, s.returned, f.piece);
    }
    forall k | 0 <= k < |s.flights[1..]|
      ensures Recent(p.w, s.next, Store(s.rx, f.piece), s.flights[1..][k])
    {
      StoreKeepsRecent(p.w, s.next, s.rx, f, s.flights[k + 1]);
    }
  }

  lemma SendAckKeepsInv(p: Params, s: State)
    requires Inv(p, s)
    ensures Inv(p, TakeAll(s.(acks := s.acks + [s.rx.left])))
  {
    TakeAllKeepsInv(p, s);
    assert AckInv(s.left, s.acks + [s.rx.left], s.rx.left, s.cuts);
  }

  lemma DeliverKeepsInv(p: Params, s: State, fate: Fate)
    requires Inv(p, s) && s.flights != []
    ensures Inv(p, Delivered(s, fate))
  {
    match fate
    case Dropped => LossKeepsInv(p, s, 0);
    case Stored => StoreKeepsInv(p, s);
    case Acked =>
      StoreKeepsInv(p, s);
      SendAckKeepsInv(p, s.(flights := s.flights[1..], rx := Store(s.rx, s.flights[0].piece)));
  }
}
