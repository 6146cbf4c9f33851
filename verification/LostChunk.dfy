/** The chunk that the client never sends: exactly which files can lose their end. */
module LostChunk {
  import opened Modular
  import opened Protocol
  import opened Refinement
  import opened Runs
  import opened Safety
  import opened Echo
  import opened EchoProgress

  /** The length of `n` full chunks. */
  function Chunks(n: nat, d: nat): nat {
    if n == 0 then 0 else Chunks(n - 1, d) + d
  }

  lemma {:induction false} ChunksIsProduct(n: nat, d: nat)
    ensures Chunks(n, d) == n * d
  {
    if n > 0 {
      ChunksIsProduct(n - 1, d);
    }
  }

  lemma {:induction false} ChunksAdd(m: nat, n: nat, d: nat)
    ensures Chunks(m + n, d) == Chunks(m, d) + Chunks(n, d)
  {
    if n > 0 {
      ChunksAdd(m, n - 1, d);
    }
  }

  lemma ChunksApart(m: nat, left: nat, j: nat, d: nat)
    requires 0 < d && left + Chunks(j, d) == Chunks(m, d)
    ensures j <= m && left == Chunks(m - j, d)
  {
    if j > m {
      ChunksAdd(m, j - m, d);
    } else {
      ChunksAdd(m - j, j, d);
    }
  }

  // ---- the condition ----

  /** After `m` full chunks, `j` of them outstanding, the window refuses a last chunk of `r` bytes. */
  ghost predicate Refuses(p: Params, m: nat, j: nat, r: nat) {
    && j <= m && 0 < r < p.d && Chunks(j, p.d) <= p.w
    && (Chunks(j, p.d) == p.w ==> !Wraps(p, Chunks(m - j, p.d)))
    && !Admits(p, Chunks(m - j, p.d), Chunks(m, p.d), r)
  }

  /** The last `r` of `n` bytes can be refused. */
  ghost predicate Refusable(p: Params, n: nat, r: nat) {
    exists m: nat, j: nat :: n == Chunks(m, p.d) + r && Refuses(p, m, j, r)
  }

  /** The length of the short chunk at the end of `n` bytes. */
  function Tail(p: Params, n: nat): (r: nat)
    ensures r < p.d && r <= n
  {
    n % p.d
  }

  /**
    A file of `n` bytes is at risk if it ends in a short chunk, has at least as many full ones as a window can
    hold, and these leave too little of the window, which depends on where on the ring that window lies.
   */
  ghost predicate AtRisk(p: Params, n: nat) {
    LeavesTooLittle(p, n / p.d, p.w / p.d, Tail(p, n))
  }

  ghost predicate LeavesTooLittle(p: Params, full: nat, held: nat, r: nat) {
    && 0 < r && held <= full
    && if Wraps(p, (full - held) * p.d) then held * p.d < p.w <= held * p.d + r else p.w < held * p.d + r
  }

  // ---- before the end of the file all chunks are full ----

  ghost predicate FullTimers(p: Params, tx: Sender) {
    forall k :: 0 <= k < |tx.timers| ==> |tx.timers[k].data| == p.d
  }

  lemma {:induction false} FullTimersCover(p: Params, tx: Sender, n: nat)
    requires FullTimers(p, tx) && n <= |tx.timers|
    ensures Covered(tx.timers, n) == Chunks(n, p.d)
  {
    if n > 0 {
      FullTimersCover(p, tx, n - 1);
    }
  }

  /** What the client sent before the end of the file are full chunks, and so is what it keeps. */
  ghost predicate Even(p: Params, e: World) {
    && FullTimers(p, e.up.tx) && (e.pending == [] || |e.pending| == p.d)
    && exists m: nat :: e.up.tx.next == Chunks(m, p.d)
  }

  ghost predicate Explained(p: Params, file: seq<char>, e: World) {
    if e.eof then e.pending != [] ==> Refusable(p, |file|, |e.pending|) else Even(p, e)
  }

  /** The outstanding chunks in a state before the end of the file. */
  lemma Outstanding(p: Params, c: Pipe) returns (m: nat, j: nat)
    requires Reachable(p, c) && FullTimers(p, c.tx) && exists m: nat :: c.tx.next == Chunks(m, p.d)
    ensures j <= m && c.tx.next == Chunks(m, p.d) && c.tx.left == Chunks(m - j, p.d)
    ensures Chunks(j, p.d) <= p.w && (Chunks(j, p.d) == p.w ==> !Wraps(p, c.tx.left))
  {
    var s := Origin(p, c);
    m :| c.tx.next == Chunks(m, p.d);
    j := |c.tx.timers|;
    CoveredIsTiling(p, s.left, s.next, s.timers, j);
    FullTimersCover(p, c.tx, j);
    ChunksApart(m, c.tx.left, j, p.d);
  }

  /** A short chunk is kept only if the window refused it: it is the last one. */
  lemma ShortChunkRefused(p: Params, file: seq<char>, e: World)
    requires Kept(p, file, e) && Even(p, e) && e.pending == []
    requires 0 < |e.rest| < p.d && !Admits(p, e.up.tx.left, e.up.tx.next, |e.rest|)
    ensures Refusable(p, |file|, |e.rest|)
  {
    var m, j := Outstanding(p, e.up);
    assert |e.up.accepted| == e.up.tx.next by {
      PipeFacts(p, e.up);
    }
    assert Refuses(p, m, j, |e.rest|);
  }

  lemma TickTimers(p: Params, e: World) returns (t: Timer)
    requires !e.quit && !e.eof
    ensures t.data == Chunk(p, if e.pending != [] then e.pending else e.rest)
    ensures Happens(p, e, Tick).up.tx.timers in {e.up.tx.timers, e.up.tx.timers + [t]}
  {
    var e1, data := TickOffers(p, e);
    t := Timer(Res(e.up.tx.next, p.b), Res(e.up.tx.next + |data|, p.b), data);
  }

  lemma TickKeepsFull(p: Params, e: World)
    requires !e.quit && !e.eof && FullTimers(p, e.up.tx) && (e.pending == [] || |e.pending| == p.d)
    requires !Happens(p, e, Tick).eof
    ensures FullTimers(p, Happens(p, e, Tick).up.tx)
  {
    var t := TickTimers(p, e);
    var data := TickOutcome(p, e);
  }

  lemma TickKeepsEven(p: Params, e: World)
    requires !e.quit && !e.eof && Even(p, e) && !Happens(p, e, Tick).eof
    ensures Even(p, Happens(p, e, Tick))
  {
    TickKeepsFull(p, e);
    var data := TickOutcome(p, e);
    var m: nat :| e.up.tx.next == Chunks(m, p.d);
    assert Chunks(m + 1, p.d) == Chunks(m, p.d) + p.d;
  }

  lemma TickExplained(p: Params, file: seq<char>, e: World)
    requires Kept(p, file, e) && Explained(p, file, e) && !e.quit
    ensures Explained(p, file, Happens(p, e, Tick))
  {
    if !e.eof {
      if !Happens(p, e, Tick).eof {
        TickKeepsEven(p, e);
      } else {
        var data := TickOutcome(p, e);
        if data != [] && !Admits(p, e.up.tx.left, e.up.tx.next, |data|) {
          ShortChunkRefused(p, file, e);
        }
      }
    }
  }

  lemma SenderBetweenTicks(p: Params, e: World, event: Event)
    requires !event.Tick?
    ensures var tx := Happens(p, e, event).up.tx;
            tx.next == e.up.tx.next && exists n :: 0 <= n <= |e.up.tx.timers| && tx.timers == e.up.tx.timers[n..]
  {
    assert e.up.tx.timers[0..] == e.up.tx.timers;
    match event
    case ServerGetsData(fate) => QuietKeepsSender(p, e.up, DeliverSegment(fate));
    case ServerGetsAck => QuietKeepsSender(p, e.up, Drain);
    case UpTimer(i) => QuietKeepsSender(p, e.up, Fire(i));
    case UpLoss(segment, i) => QuietKeepsSender(p, e.up, Loss(segment, i));
    case _ =>
  }

  lemma HappensExplained(p: Params, file: seq<char>, e: World, event: Event)
    requires Kept(p, file, e) && Explained(p, file, e)
    ensures Explained(p, file, Happens(p, e, event))
  {
    if !e.quit {
      if event.Tick? {
        TickExplained(p, file, e);
      } else {
        OnlyTicksSubmit(p, e, event);
        SenderBetweenTicks(p, e, event);
      }
    }
  }

  lemma AlwaysExplained(p: Params, file: seq<char>, e: World)
    requires Occurs(p, file, e)
    ensures Kept(p, file, e) && Explained(p, file, e)
  {
    BeginKept(p, file);
    assert Start.tx.next == Chunks(0, p.d);
    var inv := (e: World) => Kept(p, file, e) && Explained(p, file, e);
    forall e, event | inv(e)
      ensures inv(Events(p)(e, event))
    {
      HappensKeeps(p, file, e, event);
      HappensExplained(p, file, e, event);
    }
    InvariantHolds(Events(p), inv, Begin(file), e);
  }

  // ---- how the last chunk gets refused ----

  /** The client has sent `next` bytes in full chunks; those up to `left` are acknowledged. */
  ghost predicate Sending(p: Params, file: seq<char>, e: World, left: nat, next: nat) {
    && Occurs(p, file, e) && e.up.tx.left == left && e.up.tx.next == next && e.pending == [] && !e.eof && !e.quit
  }

  lemma SentSoFar(p: Params, file: seq<char>, e: World, left: nat, next: nat)
    requires Sending(p, file, e, left, next)
    ensures next <= |file| && e.up.accepted == file[..next] && e.rest == file[next..]
  {
    OccursKept(p, file, e);
    PipeFacts(p, e.up);
    assert file == e.up.accepted + e.rest;
  }

  /** There is room for a full chunk. */
  predicate Room(p: Params, left: nat, next: nat, wraps: bool) {
    left <= next && next + p.d <= left + p.w && (next + p.d == left + p.w ==> !wraps)
  }

  lemma FullChunkGoes(p: Params, e: World, left: nat, next: nat)
    requires e.pending == [] && !e.eof && !e.quit && p.d <= |e.rest|
    requires e.up.tx.left == left && e.up.tx.next == next && Room(p, left, next, Wraps(p, left))
    ensures var e' := Happens(p, e, Tick);
            && e'.up.tx.left == left && e'.up.tx.next == next + p.d && e'.pending == [] && !e'.eof && !e'.quit
  {
    AdmittedFits(p, left, next, p.d);
    var data := TickOutcome(p, e);
  }

  lemma FullTick(p: Params, file: seq<char>, e: World, left: nat, next: nat) returns (e': World)
    requires Sending(p, file, e, left, next) && next + p.d <= |file| && Room(p, left, next, Wraps(p, left))
    ensures Sending(p, file, e', left, next + p.d)
  {
    SentSoFar(p, file, e, left, next);
    FullChunkGoes(p, e, left, next);
    OccursNext(p, file, e, Tick);
    e' := Happens(p, e, Tick);
  }

  lemma Settled(p: Params, file: seq<char>, e: World, left: nat, next: nat) returns (e': World)
    requires Sending(p, file, e, left, next)
    ensures Sending(p, file, e', next, next)
  {
    e' := SettleUp(p, file, e);
    OccursKept(p, file, e);
    OccursKept(p, file, e');
    PipeFacts(p, e.up);
    PipeFacts(p, e'.up);
  }

  /** Chunk after chunk is sent and acknowledged. */
  lemma {:induction false} OneByOne(p: Params, file: seq<char>, n: nat) returns (e: World)
    requires p.d < p.w && Chunks(n, p.d) <= |file|
    ensures Sending(p, file, e, Chunks(n, p.d), Chunks(n, p.d))
    decreases n
  {
    if n == 0 {
      e := Begin(file);
      LeadsNowhere<World, Event>(Events(p), e);
    } else {
      var at := Chunks(n - 1, p.d);
      var e0 := OneByOne(p, file, n - 1);
      var e1 := FullTick(p, file, e0, at, at);
      e := Settled(p, file, e1, at, at + p.d);
    }
  }

  /** From `left` on, chunks are sent without one coming back. */
  lemma {:induction false} InARow(p: Params, file: seq<char>, left: nat, j: nat, e0: World) returns (e: World)
    requires Sending(p, file, e0, left, left) && left + Chunks(j, p.d) <= |file|
    requires Chunks(j, p.d) <= p.w && (Chunks(j, p.d) == p.w ==> !Wraps(p, left))
    ensures Sending(p, file, e, left, left + Chunks(j, p.d))
    decreases j
  {
    if j == 0 {
      e := e0;
    } else {
      var next := left + Chunks(j - 1, p.d);
      var e1 := InARow(p, file, left, j - 1, e0);
      e := FullTick(p, file, e1, left, next);
    }
  }

  lemma RefusedTick(p: Params, file: seq<char>, e: World, left: nat, next: nat) returns (e': World)
    requires Sending(p, file, e, left, next) && 0 < |file| - next < p.d
    requires !Admits(p, left, next, |file| - next)
    ensures Occurs(p, file, e') && !e'.quit && e'.eof && e'.up.accepted == file[..next]
  {
    SentSoFar(p, file, e, left, next);
    var data := TickOutcome(p, e);
    assert data == e.rest;
    OccursNext(p, file, e, Tick);
    e' := Happens(p, e, Tick);
  }

  lemma RefusedChunkIsLost(p: Params, file: seq<char>, m: nat, j: nat, r: nat) returns (e: World)
    requires p.d < p.w && |file| == Chunks(m, p.d) + r && Refuses(p, m, j, r)
    ensures Occurs(p, file, e) && e.quit && e.output == file[..|file| - r]
  {
    var left := Chunks(m - j, p.d);
    ChunksAdd(m - j, j, p.d);
    var e0 := OneByOne(p, file, m - j);
    var e1 := InARow(p, file, left, j, e0);
    var e2 := RefusedTick(p, file, e1, left, Chunks(m, p.d));
    e := QuitsWithWhatWasSent(p, file, e2);
  }

  // ---- the two conditions are one ----

  lemma QuotientIs(n: nat, d: nat, q: nat, r: nat)
    requires r < d && n == q * d + r
    ensures n / d == q && n % d == r
  {
    Divided(n, d);
    Unique(d, n / d, n % d, q, r);
  }

  lemma Divided(n: nat, d: nat)
    requires 0 < d
    ensures n == n / d * d + n % d
  {
  }

  /** What the window test refuses, in terms of lengths. */
  lemma RefusedLengths(p: Params, m: nat, j: nat, r: nat)
    requires j <= m && 0 < r < p.d && j * p.d <= p.w
    ensures Refuses(p, m, j, r) <==>
            if Wraps(p, (m - j) * p.d) then j * p.d < p.w <= j * p.d + r else p.w < j * p.d + r
  {
    ChunksIsProduct(j, p.d);
    ChunksIsProduct(m - j, p.d);
    ChunksAdd(m - j, j, p.d);
    AdmittedFits(p, Chunks(m - j, p.d), Chunks(m, p.d), r);
  }

  lemma RefusableIsAtRisk(p: Params, n: nat, r: nat)
    requires Refusable(p, n, r)
    ensures AtRisk(p, n) && r == Tail(p, n)
  {
    var m: nat, j: nat :| n == Chunks(m, p.d) + r && Refuses(p, m, j, r);
    ChunksIsProduct(m, p.d);
    ChunksIsProduct(j, p.d);
    RefusedLengths(p, m, j, r);
    QuotientIs(n, p.d, m, r);
    QuotientIs(p.w, p.d, j, p.w - j * p.d);
  }

  lemma AtRiskIsRefusable(p: Params, n: nat) returns (m: nat, j: nat)
    requires AtRisk(p, n)
    ensures n == Chunks(m, p.d) + Tail(p, n) && Refuses(p, m, j, Tail(p, n))
  {
    m, j := n / p.d, p.w / p.d;
    Divided(n, p.d);
    HeldFits(p, j);
    TooLittleIsRefused(p, m, j, Tail(p, n));
  }

  lemma TooLittleIsRefused(p: Params, m: nat, j: nat, r: nat)
    requires LeavesTooLittle(p, m, j, r) && r < p.d && j * p.d <= p.w
    ensures m * p.d == Chunks(m, p.d) && Refuses(p, m, j, r)
  {
    ChunksIsProduct(m, p.d);
    RefusedLengths(p, m, j, r);
  }

  lemma HeldFits(p: Params, j: nat)
    requires j == p.w / p.d
    ensures j * p.d <= p.w
  {
    Divided(p.w, p.d);
  }

  // ---- which files can be cut short ----

  /** A file at risk can lose its last chunk: the client quits with all but that. */
  lemma LastChunkIsLost(p: Params, file: seq<char>) returns (e: World)
    requires p.d < p.w && AtRisk(p, |file|)
    ensures Occurs(p, file, e) && e.quit && e.output == file[..|file| - Tail(p, |file|)] && e.output != file
  {
    var m, j := AtRiskIsRefusable(p, |file|);
    e := RefusedChunkIsLost(p, file, m, j, Tail(p, |file|));
  }

  /** Nothing but the last chunk of a file at risk can be missing when the client quits. */
  lemma OnlyLastChunkIsLost(p: Params, file: seq<char>, e: World)
    requires Occurs(p, file, e) && e.quit && e.output != file
    ensures AtRisk(p, |file|) && e.output == file[..|file| - Tail(p, |file|)]
  {
    AlwaysExplained(p, file, e);
    QuitsWithWholeFile(p, file, e);
    RefusableIsAtRisk(p, |file|, |e.pending|);
  }

  /** The client can quit without the whole file exactly if the file is at risk, which its size decides. */
  lemma LosesIff(p: Params, file: seq<char>)
    requires p.d < p.w
    ensures (exists e :: Occurs(p, file, e) && e.quit && e.output != file) <==> AtRisk(p, |file|)
  {
    if AtRisk(p, |file|) {
      var e := LastChunkIsLost(p, file);
    }
    forall e | Occurs(p, file, e) && e.quit && e.output != file
      ensures AtRisk(p, |file|)
    {
      OnlyLastChunkIsLost(p, file, e);
    }
  }

  /** For one, a file is at risk whose full chunks fit into the first window while the last one does not. */
  lemma FirstWindowAtRisk(p: Params, len: nat, n: nat)
    requires n * p.d <= p.w < len < n * p.d + p.d
    ensures AtRisk(p, len)
  {
    QuotientIs(len, p.d, n, len - n * p.d);
    QuotientIs(p.w, p.d, n, p.w - n * p.d);
    FirstWindowLeavesTooLittle(p, len, n);
  }

  lemma FirstWindowLeavesTooLittle(p: Params, len: nat, n: nat)
    requires n * p.d <= p.w < len < n * p.d + p.d
    ensures LeavesTooLittle(p, n, n, len - n * p.d)
  {
    ResSmall(0, p.b);
    ResSmall(p.w, p.b);
    assert (n - n) * p.d == 0;
  }

  // ---- the two programs ----

  /** The constants of both programs. */
  const PROGRAMS: Params := Sizes(0x10000, 10000, 4096)

  lemma ClientAtRisk(n: nat)
    ensures AtRisk(PROGRAMS, n) <==>
            8192 < n && (n % 4096 > 1808 || n % 0x10000 == 1808 || n % 0x10000 == 5904)
  {
    assert AtRisk(PROGRAMS, n) == LeavesTooLittle(PROGRAMS, n / 4096, 2, n % 4096);
    TooLittleForClient(n / 4096, n % 4096);
  }

  lemma TooLittleForClient(full: nat, r: nat)
    requires r < 4096
    ensures LeavesTooLittle(PROGRAMS, full, 2, r) <==> full >= 2 && (r > 1808 || (r == 1808 && (full - 2) % 16 >= 14))
  {
    if full >= 2 {
      ProgramsWrap(full - 2);
    }
  }

  lemma ProgramsWrap(k: nat)
    ensures Wraps(PROGRAMS, k * 4096) <==> k % 16 >= 14
  {
    ResIsMod(k * 4096, 0x10000);
    ResIsMod(k * 4096 + 10000, 0x10000);
    WrapsLate(k / 16, k % 16);
  }

  lemma WrapsLate(q: nat, s: nat)
    requires s < 16
    ensures (q * 0x10000 + s * 4096 + 10000) % 0x10000 <= (q * 0x10000 + s * 4096) % 0x10000 <==> s >= 14
  {
    var at, end := s * 4096, s * 4096 + 10000;
    DivModUnique(q * 0x10000 + at, q, at, 0x10000);
    if end < 0x10000 {
      DivModUnique(q * 0x10000 + end, q, end, 0x10000);
    } else {
      DivModUnique(q * 0x10000 + end, q + 1, end - 0x10000, 0x10000);
    }
  }

  lemma LastChunkIsLostByClient(file: seq<char>)
    ensures (exists e :: Occurs(PROGRAMS, file, e) && e.quit && e.output != file) <==>
            8192 < |file| && (|file| % 4096 > 1808 || |file| % 0x10000 == 1808 || |file| % 0x10000 == 5904)
  {
    LosesIff(PROGRAMS, file);
    ClientAtRisk(|file|);
  }
}
