/** What holds in every state that the protocol can reach, whatever the channels lose. */
module Safety {
  import opened Modular
  import opened Window
  import opened Protocol
  import opened Refinement
  import opened Runs
  import U = Unbounded

  /** Every run on residues is a run of the protocol with unbounded sequence numbers. */
  lemma RunsRefine(p: Params, actions: seq<Action>) returns (run: seq<U.State>)
    ensures |run| == |actions| + 1 && IsRun(U.Steps(p), U.Initial, actions, run)
    ensures forall k :: 0 <= k <= |actions| ==> Shows(p, After(Steps(p), Start, actions, k), run[k])
  {
    StepsSimulate(p);
    U.InitialInv(p);
    assert Image(p, U.Initial) == Start;
    run := Simulation(Steps(p), U.Steps(p), Showing(p), Start, U.Initial, actions, |actions|);
    forall k | 0 <= k <= |actions|
      ensures Shows(p, After(Steps(p), Start, actions, k), run[k])
    {
      assert Showing(p)(After(Steps(p), Start, actions, k), run[k]);
    }
  }

  /** Every reachable state shows a good state of the unbounded protocol. */
  lemma Origin(p: Params, c: Pipe) returns (s: U.State)
    requires Reachable(p, c)
    ensures Good(p, s) && c == Image(p, s)
  {
    var actions: seq<Action> :| c == After(Steps(p), Start, actions, |actions|);
    var run := RunsRefine(p, actions);
    s := run[|actions|];
    assert Shows(p, After(Steps(p), Start, actions, |actions|), s);
  }

  /** The receiving application has always got a prefix of what the sender accepted. */
  lemma ReturnedIsPrefix(p: Params, c: Pipe)
    requires Reachable(p, c)
    ensures c.returned <= c.accepted
  {
    var s := Origin(p, c);
  }

  /** The unread bytes and the window never share a cell of the ring. */
  lemma NothingOverwritten(p: Params, c: Pipe)
    requires Reachable(p, c)
    ensures c.rx.left - c.rx.read <= p.w && c.rx.left + p.w - c.rx.read < p.b
  {
    var s := Origin(p, c);
  }

  /** `pos` is the one position near the receiver's left edge that a segment can stand for. */
  ghost predicate StandsFor(p: Params, c: Pipe, m: Segment, pos: nat)
  {
    && Res(pos, p.b) == m.start
    && c.rx.left <= pos + p.w && pos + |m.data| <= c.rx.left + p.w
    && (forall q: nat :: Res(q, p.b) == m.start && c.rx.left <= q + p.w && q <= c.rx.left + p.w ==> q == pos)
    && pos + |m.data| <= |c.accepted| && m.data == c.accepted[pos..pos + |m.data|]
  }

  lemma FlightStandsFor(p: Params, s: U.State, k: nat)
    requires Good(p, s) && k < |s.flights|
    ensures StandsFor(p, Image(p, s), Image(p, s).segments[k], s.flights[k].piece.start)
  {
    var f := s.flights[k];
    assert U.Recent(p.w, s.next, s.rx, f) && U.Sound(p.d, s.accepted, s.cuts, f.piece);
    OnePositionNearby(p, s.rx.left, f.piece.start);
  }

  lemma FlightReceived(p: Params, s: U.State, k: nat)
    requires Good(p, s) && k < |s.flights|
    ensures var f := s.flights[k];
            && Receive(p.b, p.w, s.rx, Res(f.piece.start, p.b), f.piece.data) == U.Store(s.rx, f.piece)
            && (f.piece.start < s.rx.left ==> f.piece.End() <= s.rx.left)
  {
    var f := s.flights[k];
    assert U.Recent(p.w, s.next, s.rx, f) && U.Sound(p.d, s.accepted, s.cuts, f.piece);
    ReceivesRightly(p, s.left, s.next, s.rx, f);
  }

  /**
    The residue of a segment in flight stands for one position near the receiver's left edge.
    The receiver stores the segment there, or refuses it because it has all of it already.
   */
  lemma SegmentsUnambiguous(p: Params, c: Pipe, k: nat) returns (pos: nat)
    requires Reachable(p, c) && k < |c.segments|
    ensures var m := c.segments[k];
            && StandsFor(p, c, m, pos)
            && Receive(p.b, p.w, c.rx, m.start, m.data) ==
               (if pos >= c.rx.left then Accept(c.rx, pos, m.data) else c.rx)
            && (pos < c.rx.left ==> pos + |m.data| <= c.rx.left)
  {
    var s := Origin(p, c);
    pos := s.flights[k].piece.start;
    FlightStandsFor(p, s, k);
    FlightReceived(p, s, k);
  }

  lemma OnePositionNearby(p: Params, left: nat, pos: nat)
    requires left <= pos + p.w && pos <= left + p.w
    ensures forall q: nat :: Res(q, p.b) == Res(pos, p.b) && left <= q + p.w && q <= left + p.w ==> q == pos
  {
    forall q: nat | Res(q, p.b) == Res(pos, p.b) && left <= q + p.w && q <= left + p.w
      ensures q == pos
    {
      ResInjective(if q < pos then q else pos, if q < pos then pos else q, p.b);
    }
  }

  /** Segments in flight fit the fields of a packet. */
  lemma SegmentFields(p: Params, c: Pipe, k: nat)
    requires Reachable(p, c) && k < |c.segments|
    ensures c.segments[k].start < p.b && |c.segments[k].data| <= p.d
  {
    var s := Origin(p, c);
    assert U.Sound(p.d, s.accepted, s.cuts, s.flights[k].piece);
  }

  lemma AckResidues(p: Params, c: Pipe, k: nat)
    requires Reachable(p, c) && k < |c.acks|
    ensures c.acks[k] < p.b
  {
    var s := Origin(p, c);
  }

  /** The bytes covered by the first `n` timers. */
  function Covered(timers: seq<Timer>, n: nat): nat
    requires n <= |timers|
  {
    if n == 0 then 0 else Covered(timers, n - 1) + |timers[n - 1].data|
  }

  lemma {:induction false} CoveredIsTiling(p: Params, left: nat, next: nat, timers: seq<U.Piece>, n: nat)
    requires U.Tiled(left, next, timers) && n <= |timers|
    ensures left + Covered(TimersOf(p, timers), n) == if n < |timers| then timers[n].start else next
  {
    if n > 0 {
      CoveredIsTiling(p, left, next, timers, n - 1);
    }
  }

  /** The `k`-th timer covers its share of the unacknowledged bytes; all together cover all of them. */
  ghost predicate Covers(p: Params, left: nat, timers: seq<Timer>, accepted: seq<char>, k: nat)
    requires k < |timers|
  {
    var from, to := left + Covered(timers, k), left + Covered(timers, k + 1);
    && left + Covered(timers, |timers|) == |accepted| && to <= |accepted|
    && timers[k].start == Res(from, p.b) && timers[k].end == Res(to, p.b)
    && timers[k].data == accepted[from..to]
  }

  lemma PieceCovers(p: Params, left: nat, next: nat, timers: seq<U.Piece>, accepted: seq<char>, cuts: set<nat>, k: nat)
    requires U.Tiled(left, next, timers) && |accepted| == next && k < |timers|
    requires U.Sound(p.d, accepted, cuts, timers[k])
    ensures Covers(p, left, TimersOf(p, timers), accepted, k)
  {
    var all, t := TimersOf(p, timers), timers[k];
    CoveredIsTiling(p, left, next, timers, k);
    CoveredIsTiling(p, left, next, timers, |timers|);
    assert all[k] == Timer(Res(t.start, p.b), Res(t.End(), p.b), t.data);
    assert left + Covered(all, k + 1) == t.End();
  }

  /** Every accepted byte that is not yet acknowledged is covered by exactly one timer, in order. */
  lemma TimersTile(p: Params, c: Pipe)
    requires Reachable(p, c)
    ensures forall k :: 0 <= k < |c.tx.timers| ==> Covers(p, c.tx.left, c.tx.timers, c.accepted, k)
    ensures c.tx.timers == [] ==> c.tx.left == |c.accepted|
  {
    var s := Origin(p, c);
    forall k | 0 <= k < |c.tx.timers|
      ensures Covers(p, c.tx.left, c.tx.timers, c.accepted, k)
    {
      PieceCovers(p, s.left, s.next, s.timers, s.accepted, s.cuts, k);
    }
  }

  /** Position `ack` lies between the `n`-th timer and the one before it, or at either end of them all. */
  lemma CutIsCovered(p: Params, s: U.State, ack: nat) returns (n: nat)
    requires U.SenderInv(p, s.left, s.next, s.timers, s.accepted, s.cuts)
    requires s.left <= ack <= s.next && ack in s.cuts
    ensures n <= |s.timers| && ack == s.left + Covered(TimersOf(p, s.timers), n)
    ensures U.Splits(s.timers, ack, n)
  {
    n := U.CutIsTimer(p.d, s.left, s.next, s.timers, s.accepted, s.cuts, ack, 0);
    CoveredIsTiling(p, s.left, s.next, s.timers, n);
  }

  /** `ack` stands for the end of the bytes of the first `n` timers, which were returned already. */
  ghost predicate IsBoundary(p: Params, c: Pipe, ack: nat, n: nat) {
    && n <= |c.tx.timers| && ack == Res(c.tx.left + Covered(c.tx.timers, n), p.b)
    && c.tx.left + Covered(c.tx.timers, n) <= |c.returned|
  }

  /** Every acknowledgement in flight stands for a boundary of the tiling that was returned already. */
  lemma AcksAreBoundaries(p: Params, c: Pipe, k: nat) returns (n: nat)
    requires Reachable(p, c) && k < |c.acks|
    ensures IsBoundary(p, c, c.acks[k], n)
  {
    var s := Origin(p, c);
    n := FlyingAckIsCovered(p, s, k);
  }

  lemma FlyingAckIsCovered(p: Params, s: U.State, k: nat) returns (n: nat)
    requires Good(p, s) && k < |s.acks|
    ensures IsBoundary(p, Image(p, s), Image(p, s).acks[k], n)
  {
    FlyingAckIsCut(p, s, k);
    n := CutIsCovered(p, s, s.acks[k]);
  }

  lemma FlyingAckIsCut(p: Params, s: U.State, k: nat)
    requires Good(p, s) && k < |s.acks|
    ensures s.left <= s.acks[k] <= s.next && s.acks[k] in s.cuts && s.acks[k] <= |s.returned|
  {
  }

  /**
    An arriving acknowledgement moves the left edge to the position it stands for, which the
    receiving application has read up to, and pops exactly the timers of the bytes before it.
   */
  lemma AckReleases(p: Params, c: Pipe) returns (n: nat)
    requires Reachable(p, c) && c.acks != []
    ensures var tx := Acknowledge(p, c.tx, c.acks[0]);
            && n <= |c.tx.timers| && tx.timers == c.tx.timers[n..]
            && tx.left == c.tx.left + Covered(c.tx.timers, n) <= |c.returned|
            && Res(tx.left, p.b) == c.acks[0]
  {
    var s := Origin(p, c);
    n := AckPops(p, s, s.acks[0]);
  }

  lemma AckPops(p: Params, s: U.State, ack: nat) returns (n: nat)
    requires Good(p, s) && s.left <= ack <= s.next && ack in s.cuts
    ensures n <= |s.timers| && ack == s.left + Covered(TimersOf(p, s.timers), n)
    ensures Acknowledge(p, Image(p, s).tx, Res(ack, p.b)) == Sender(ack, s.next, TimersOf(p, s.timers)[n..])
  {
    n := CutIsCovered(p, s, ack);
    CancelsRightly(p, s, ack);
    MovesRightly(p, s.left, s.next, ack);
    U.SplitUnique(s.timers, ack, n, Cancelled(TimersOf(p, s.timers), Res(ack, p.b)));
  }

  /**
    Why the channel must not reorder acknowledgements: one that is older than the left edge
    is refused by the window, and yet pops every timer.
   */
  lemma StaleAckDropsEveryTimer(p: Params, s: U.State, ack: nat)
    requires Good(p, s) && ack < s.left < ack + p.b - p.w
    ensures Acknowledge(p, Image(p, s).tx, Res(ack, p.b)) == Sender(s.left, s.next, [])
  {
    var timers := TimersOf(p, s.timers);
    var n := Cancelled(timers, Res(ack, p.b));
    if n < |timers| {
      assert timers[n].start == Res(s.timers[n].start, p.b);
      ResInjective(ack, s.timers[n].start, p.b);
    }
    StaleAckRefused(p, s.left, ack);
  }

  /** What an acknowledgement should do: move the edge forward only, and drop what lies before it. */
  ghost predicate Releases(p: Params, s: U.State, ack: nat, tx: Sender) {
    exists n: nat ::
      && U.Splits(s.timers, ack, n)
      && tx == Sender(if ack > s.left then ack else s.left, s.next, TimersOf(p, s.timers[n..]))
  }

  lemma NewAckReleases(p: Params, s: U.State, ack: nat)
    requires Good(p, s) && ack in s.cuts && s.left <= ack
    ensures Releases(p, s, ack, Acknowledge(p, Image(p, s).tx, Res(ack, p.b)))
  {
    var n := AcknowledgesRightly(p, s, ack);
  }

  /** The residue of `ack` lies ahead of the left edge, where the window takes it for news. */
  ghost predicate LooksNew(p: Params, left: nat, ack: nat) {
    var o := Offset(Res(left, p.b), Res(ack, p.b), p.b);
    0 < o && (o < p.w || (o == p.w && !Wraps(p, left)))
  }

  lemma MovesIffLooksNew(p: Params, left: nat, ack: nat)
    ensures Move(p.b, p.w, left, Res(ack, p.b)) ==
            if LooksNew(p, left, ack) then left + Offset(Res(left, p.b), Res(ack, p.b), p.b) else left
  {
    ResAdd(left, p.w, p.b);
    InRangeExact(p.b, p.w, Res(left, p.b), Res(left, p.b), Res(ack, p.b));
  }

  /** An acknowledgement that does not look new pops no timer if its residue is the left edge, and else all. */
  lemma PopsAllOrNone(p: Params, s: U.State, ack: nat)
    requires Good(p, s) && !LooksNew(p, s.left, ack)
    ensures Cancelled(TimersOf(p, s.timers), Res(ack, p.b)) == if Res(ack, p.b) == Res(s.left, p.b) then 0 else |s.timers|
  {
    var timers := TimersOf(p, s.timers);
    var n := Cancelled(timers, Res(ack, p.b));
    assert s.timers != [] ==> timers[0].start == Res(s.left, p.b);
    if n < |timers| {
      assert U.Sound(p.d, s.accepted, s.cuts, s.timers[n]);
      OffsetOfRes(s.left, s.timers[n].start, p.b);
    }
  }

  /**
    An acknowledgement does that exactly if it is not older than the left edge, or has the residue of the left
    edge, or if no timer is outstanding and the window refuses it.
   */
  lemma AckReleasesIff(p: Params, s: U.State, ack: nat)
    requires Good(p, s) && ack in s.cuts
    ensures Releases(p, s, ack, Acknowledge(p, Image(p, s).tx, Res(ack, p.b))) <==>
            s.left <= ack || Res(ack, p.b) == Res(s.left, p.b) || (s.timers == [] && !LooksNew(p, s.left, ack))
  {
    if s.left <= ack {
      NewAckReleases(p, s, ack);
    } else {
      OldAckReleasesIff(p, s, ack);
    }
  }

  lemma OldAckReleasesIff(p: Params, s: U.State, ack: nat)
    requires Good(p, s) && ack < s.left
    ensures Releases(p, s, ack, Acknowledge(p, Image(p, s).tx, Res(ack, p.b))) <==>
            Res(ack, p.b) == Res(s.left, p.b) || (s.timers == [] && !LooksNew(p, s.left, ack))
  {
    MovesIffLooksNew(p, s.left, ack);
    if !LooksNew(p, s.left, ack) {
      PopsAllOrNone(p, s, ack);
      if s.timers == [] || Res(ack, p.b) == Res(s.left, p.b) {
        KeptTimersReleased(p, s, ack);
      } else {
        StaleAckKeepsTimers(p, s, ack);
      }
    }
  }

  lemma KeptTimersReleased(p: Params, s: U.State, ack: nat)
    requires Good(p, s) && ack < s.left
    ensures Releases(p, s, ack, Sender(s.left, s.next, TimersOf(p, s.timers)))
  {
    assert U.Splits(s.timers, ack, 0);
    assert s.timers[0..] == s.timers;
  }

  lemma StaleAckKeepsTimers(p: Params, s: U.State, ack: nat)
    requires Good(p, s) && ack < s.left && s.timers != []
    ensures !Releases(p, s, ack, Sender(s.left, s.next, []))
  {
    assert s.timers[0].start == s.left;
    forall n: nat | U.Splits(s.timers, ack, n)
      ensures |TimersOf(p, s.timers[n..])| > 0
    {
      assert n == 0;
    }
  }

  lemma StaleAckRefused(p: Params, left: nat, ack: nat)
    requires ack < left < ack + p.b - p.w
    ensures Move(p.b, p.w, left, Res(ack, p.b)) == left
  {
    OffsetBehind(left, ack, p.b);
    ResAdd(left, p.w, p.b);
    InRangeExact(p.b, p.w, Res(left, p.b), Res(left, p.b), Res(ack, p.b));
  }
}
