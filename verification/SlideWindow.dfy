/** protocol/slide_window.hpp: the circular window test and the in-place receive ring. */
module Window {
  import opened Modular

  /** The test on residues, branch by branch. */
  predicate InRange(b: nat, winLeft: nat, winRight: nat, start: nat, end: nat)
    requires 0 < b
  {
    var e := Mod(end, b);
    if winLeft < winRight then
      if start < winLeft || e > winRight then false
      else if start >= winRight then false
      else if e <= winLeft then false
      else true
    else
      if start < winLeft && start >= winRight then false
      else if e < winLeft && e >= winRight then false
      else true
  }

  /**
    What the two branches decide, measured from the left edge: the start must lie inside the
    window; the end may touch the right edge only while the window does not wrap around.
   */
  lemma InRangeExact(b: nat, w: nat, l: nat, start: nat, end: nat)
    requires 0 < w < b && l < b && start < b
    ensures var r := Mod(l + w, b);
            var o, e := Offset(l, start, b), Offset(l, Mod(end, b), b);
            InRange(b, l, r, start, end) <==> o < w && if l < r then 0 < e <= w else e < w
  {
    ResAdd(l, w, b);
  }

  /** The bytes lie inside the window, except that a segment may end at the right edge only while that is not wrapped. */
  predicate Inside(b: nat, w: nat, l: nat, start: nat, len: nat)
    requires 0 < w < b && l < b && start < b
  {
    var o := Offset(l, start, b);
    if l < Mod(l + w, b) then o < w && 0 < o + len <= w else o + len < w
  }

  /** For one segment of at most b - w bytes the test is interval inclusion. */
  lemma InRangeIsInclusion(b: nat, w: nat, l: nat, start: nat, len: nat)
    requires 0 < w < b && l < b && start < b && len <= b - w
    ensures InRange(b, l, Mod(l + w, b), start, Mod(start + len, b)) <==> Inside(b, w, l, start, len)
  {
    var o := Offset(l, start, b);
    var end := Mod(start + len, b);
    InRangeExact(b, w, l, start, end);
    ResAdd(start, len, b);
    assert Mod(start + len, b) == end;
  }

  /**
    For longer segments the test is wrong exactly about those that start inside the window and reach around
    the ring to its left edge or past it: they overshoot and pass.
   */
  lemma LongerSegmentsSlipThrough(b: nat, w: nat, l: nat, start: nat, len: nat)
    requires 0 < w < b && l < b && start < b && len <= b
    ensures var r := Mod(l + w, b);
            var o := Offset(l, start, b);
            var slips := o < w && if l < r then o + len > b else o + len >= b;
            && (slips ==> InRange(b, l, r, start, Mod(start + len, b)) && o + len > w)
            && ((InRange(b, l, r, start, Mod(start + len, b)) <==> Inside(b, w, l, start, len)) <==> !slips)
  {
    ResAdd(start, len, b);
    InRangeExact(b, w, l, start, Mod(start + len, b));
  }

  /** No segment of at most b - w bytes slips through, and some of every greater length do. */
  lemma SlipsIffLonger(b: nat, w: nat, len: nat)
    requires 0 < w < b && len <= b
    ensures len > b - w <==>
            exists l: nat, start: nat :: l < b && start < b &&
              (InRange(b, l, Mod(l + w, b), start, Mod(start + len, b)) <==> !Inside(b, w, l, start, len))
  {
    if len > b - w {
      var l, start := b - 1, Mod(2 * b - 1 - len, b);
      LongerSegmentsSlipThrough(b, w, l, start, len);
      assert InRange(b, l, Mod(l + w, b), start, Mod(start + len, b)) <==> !Inside(b, w, l, start, len);
    } else {
      forall l: nat, start: nat | l < b && start < b
        ensures InRange(b, l, Mod(l + w, b), start, Mod(start + len, b)) <==> Inside(b, w, l, start, len)
      {
        LongerSegmentsSlipThrough(b, w, l, start, len);
      }
    }
  }

  // ---- the receiver in terms of stream positions ----

  /**
    Everything received so far by stream position, the left edge of the window and the
    position up to which the application has read.
   */
  datatype Inbox = Inbox(left: nat, read: nat, cells: map<nat, char>)

  const EmptyInbox := Inbox(0, 0, map[])

  ghost function Span(from: nat, n: nat): (r: set<nat>)
    ensures forall p: nat :: p in r <==> from <= p < from + n
  {
    if n == 0 then {} else Span(from, n - 1) + {from + n - 1}
  }

  /** `data` stored at the positions from `pos` on. */
  ghost function Put(cells: map<nat, char>, pos: nat, data: seq<char>): (r: map<nat, char>)
    ensures forall p: nat :: p in r <==> p in cells || pos <= p < pos + |data|
    ensures forall p: nat :: p in r ==> r[p] == if pos <= p < pos + |data| then data[p - pos] else cells[p]
  {
    map p | p in cells.Keys + Span(pos, |data|) :: if pos <= p < pos + |data| then data[p - pos] else cells[p]
  }

  ghost function Beyond(cells: map<nat, char>, from: nat): set<nat> {
    set p | p in cells && p >= from
  }

  /** The least position from `from` on that has not been received. */
  ghost function FirstGap(cells: map<nat, char>, from: nat): (g: nat)
    ensures from <= g && g !in cells
    ensures forall p: nat :: from <= p < g ==> p in cells
    decreases Beyond(cells, from)
  {
    if from !in cells then
      from
    else
      assert from in Beyond(cells, from) && from !in Beyond(cells, from + 1);
      assert Beyond(cells, from + 1) <= Beyond(cells, from);
      FirstGap(cells, from + 1)
  }

  ghost function Accept(inbox: Inbox, pos: nat, data: seq<char>): (r: Inbox)
  {
    var cells := Put(inbox.cells, pos, data);
    Inbox(FirstGap(cells, inbox.left), inbox.read, cells)
  }

  /** The bytes at positions [from, to); what was never received reads as NUL. */
  ghost function Bytes(cells: map<nat, char>, from: nat, to: nat): (r: seq<char>)
    ensures |r| == if from <= to then to - from else 0
    ensures forall i :: 0 <= i < |r| && from + i in cells ==> r[i] == cells[from + i]
  {
    seq(if from <= to then to - from else 0, i requires 0 <= i => if from + i in cells then cells[from + i] else '\0')
  }

  /** What `set_flag_if_valid` does to the positions, decided on residues alone. */
  ghost function Receive(b: nat, w: nat, inbox: Inbox, start: nat, data: seq<char>): (r: Inbox)
    requires 0 < b
  {
    if start < b && InRange(b, Res(inbox.left, b), Res(inbox.left + w, b), start, Mod(start + |data|, b)) then
      Accept(inbox, inbox.left + Offset(Res(inbox.left, b), start, b), data)
    else
      inbox
  }

  /** Where `move_if_valid` leaves the left edge. */
  ghost function Move(b: nat, w: nat, left: nat, end: nat): (r: nat)
    requires 0 < b
  {
    if end < b && InRange(b, Res(left, b), Res(left + w, b), Res(left, b), end) then
      left + Offset(Res(left, b), end, b)
    else
      left
  }

  class SlideWindow {
    const b: nat
    const w: nat
    var winLeft: nat
    var winRight: nat
    var readIdx: nat
    var readableBytes: nat
    const window: array<bool>
    const buffer: array<char>

    ghost var left: nat
    ghost var read: nat
    ghost var cells: map<nat, char>

    /** The edges are the residues of an unbounded left edge. */
    ghost predicate Valid()
      reads this
    {
      && 0 < w < b
      && window.Length == b && buffer.Length == b
      && winLeft == Res(left, b) && winRight == Res(left + w, b)
    }

    /** Ring and bitset agree with `cells` from one lap behind the right edge on. */
    ghost predicate Mirrors()
      requires Valid()
      reads this, window, buffer
    {
      && (forall p: nat :: left <= p < left + b ==> (window[Res(p, b)] <==> p in cells))
      && (forall p: nat :: p in cells ==> p < left + w)
      && (forall p: nat :: p in cells && left + w <= p + b ==> buffer[Res(p, b)] == cells[p])
    }

    ghost predicate Counts()
      reads this
    {
      && 0 < b
      && read <= left
      && readIdx == Res(read, b) && readableBytes == left - read
      && (forall p: nat :: p < left ==> p in cells)
    }

    /** A window used for receiving: its left edge is the least missing position. */
    ghost predicate Receiving()
      reads this, window, buffer
    {
      Valid() && Mirrors() && Counts() && left !in cells
    }

    ghost function View(): Inbox
      reads this
    {
      Inbox(left, read, cells)
    }

    constructor (b: nat, w: nat)
      requires 0 < w < b
      ensures Receiving() && View() == EmptyInbox
      ensures this.b == b && this.w == w
      ensures fresh(window) && fresh(buffer)
    {
      this.b, this.w := b, w;
      winLeft, winRight, readIdx, readableBytes := 0, w, 0, 0;
      window := new bool[b](_ => false);
      buffer := new char[b];
      left, read, cells := 0, 0, map[];
      new;
      ResSmall(0, b);
      ResSmall(w, b);
      assert forall i :: 0 <= i < b ==> !window[i];
    }

    predicate InValidRange(start: nat, end: nat)
      requires 0 < b
      reads this
    {
      InRange(b, winLeft, winRight, start, end)
    }

    /** Moves both edges one cell to the right. */
    method Advance()
      requires Valid()
      modifies this`winLeft, this`winRight, this`left
      ensures Valid() && left == old(left) + 1
    {
      ResAdd(left, 1, b);
      ResAdd(left + w, 1, b);
      ResAdd(winLeft, 1, b);
      ResAdd(winRight, 1, b);
      winLeft := Mod(winLeft + 1, b);
      winRight := Mod(winRight + 1, b);
      left := left + 1;
      assert left + w == old(left) + w + 1;
    }

    /** Passes the left edge over one received byte. */
    method TakeIn()
      requires Valid() && Mirrors() && Counts() && left in cells
      modifies this`winLeft, this`winRight, this`readableBytes, this`left, window
      ensures Valid() && Mirrors() && Counts() && left == old(left) + 1
    {
      window[winLeft] := false;
      forall p: nat | left <= p < left + b && p != left
        ensures Res(p, b) != Res(left, b)
      {
        ResDistinct(left, p, b);
      }
      ResAdd(left, b, b);
      Advance();
      readableBytes := readableBytes + 1;
    }

    /** One iteration of the copying loop: `k` is where position `pos` lives in the ring. */
    method StoreByte(c: char, k: nat, ghost pos: nat)
      requires Valid() && Mirrors() && Counts()
      requires left <= pos < left + w && k == Res(pos, b)
      modifies this`winLeft, this`winRight, this`readableBytes, this`left, this`cells, window, buffer
      ensures Valid() && Mirrors() && Counts()
      ensures cells == old(cells)[pos := c]
      ensures left == if pos == old(left) then pos + 1 else old(left)
    {
      forall p: nat | p != pos && p < left + b && left + w <= p + b
        ensures Res(p, b) != k
      {
        ResDistinct(pos, p, b);
      }
      window[k] := true;
      buffer[k] := c;
      cells := cells[pos := c];
      if winLeft == k {
        assert pos == left by { ResInjective(left, pos, b); }
        TakeIn();
      }
    }

    /** The trailing loop: skips everything already received. */
    method Slide()
      requires Valid() && Mirrors() && Counts()
      modifies this`winLeft, this`winRight, this`readableBytes, this`left, window
      ensures Receiving() && left == FirstGap(cells, old(left))
    {
      while window[winLeft]
        invariant Valid() && Mirrors() && Counts()
        invariant old(left) <= left
        invariant forall p: nat :: old(left) <= p < left ==> p in cells
        invariant forall p: nat :: p in cells ==> p < old(left) + w
        decreases old(left) + w - left
      {
        TakeIn();
      }
    }

    /** Stores `data[i]`, the next byte of a segment at `pos`. */
    method CopyNext(data: seq<char>, start: nat, i: nat, ghost pos: nat, ghost cells0: map<nat, char>)
      requires Valid() && Mirrors() && Counts()
      requires start == Res(pos, b) && i < |data| <= b && left <= pos + i < left + w
      requires cells == Put(cells0, pos, data[..i])
      modifies this`winLeft, this`winRight, this`readableBytes, this`left, this`cells, window, buffer
      ensures Valid() && Mirrors() && Counts()
      ensures cells == Put(cells0, pos, data[..i + 1])
      ensures left == if pos + i == old(left) then pos + i + 1 else old(left)
    {
      RingIndex(pos, start, i, b);
      var k := Mod(start + i, b);
      PutNext(cells0, pos, data, i);
      StoreByte(data[i], k, pos + i);
    }

    /** The copying loop, for a segment inside the window. */
    method Copy(data: seq<char>, start: nat, ghost pos: nat)
      requires Receiving() && start == Res(pos, b)
      requires left <= pos && pos + |data| <= left + w
      modifies this`winLeft, this`winRight, this`readableBytes, this`left, this`cells, window, buffer
      ensures Valid() && Mirrors() && Counts()
      ensures cells == Put(old(cells), pos, data)
      ensures left == if pos == old(left) then pos + |data| else old(left)
    {
      var i := 0;
      while i != |data|
        invariant 0 <= i <= |data|
        invariant Valid() && Mirrors() && Counts()
        invariant cells == Put(old(cells), pos, data[..i])
        invariant left == if pos == old(left) then pos + i else old(left)
      {
        CopyNext(data, start, i, pos, old(cells));
        i := i + 1;
      }
      assert data[..i] == data;
    }

    /** Both loops: copy, then skip what is already there. */
    method CopyAndSlide(data: seq<char>, start: nat, ghost pos: nat)
      requires Receiving() && start == Res(pos, b)
      requires left <= pos && pos + |data| <= left + w
      modifies this`winLeft, this`winRight, this`readableBytes, this`left, this`cells, window, buffer
      ensures Receiving()
      ensures View() == Accept(old(View()), pos, data)
    {
      Copy(data, start, pos);
      GapFrom(cells, old(left), left);
      Slide();
    }

    /** A segment that passed the test, at the position that its residue stands for. */
    method Store(data: seq<char>, start: nat, ghost pos: nat, ghost before: Inbox)
      requires Receiving() && View() == before && start == Res(pos, b)
      requires before.left <= pos && pos + |data| <= before.left + w
      modifies this`winLeft, this`winRight, this`readableBytes, this`left, this`cells, window, buffer
      ensures Receiving() && View() == Accept(before, pos, data)
    {
      CopyAndSlide(data, start, pos);
    }

    method SetFlagIfValid(data: seq<char>, start: nat) returns (ok: bool)
      requires Receiving() && start < b && |data| <= b - w
      modifies this`winLeft, this`winRight, this`readableBytes, this`left, this`cells, window, buffer
      ensures Receiving()
      ensures ok == InRange(b, Res(old(left), b), Res(old(left) + w, b), start, Mod(start + |data|, b))
      ensures View() == Receive(b, w, old(View()), start, data)
    {
      ghost var before := View();
      ok := InValidRange(start, Mod(start + |data|, b));
      if ok {
        ghost var pos := Accepted(b, w, before, start, data);
        Store(data, start, pos, before);
      } else {
        Refused(b, w, before, start, data);
      }
    }

    method MoveIfValid(end: nat) returns (ok: bool)
      requires Valid() && end < b
      modifies this`winLeft, this`winRight, this`left
      ensures Valid()
      ensures ok == InRange(b, Res(old(left), b), Res(old(left) + w, b), Res(old(left), b), end)
      ensures left == Move(b, w, old(left), end)
    {
      if !InValidRange(winLeft, end) {
        return false;
      }
      ghost var target := left + Offset(winLeft, end, b);
      ResOfOffset(left, end, b);
      while winLeft != end
        invariant Valid() && old(left) <= left <= target
        decreases target - left
      {
        Advance();
      }
      ResInjective(left, target, b);
      return true;
    }

    /** Returns the unread bytes, provided the window has not lapped them. */
    method RecvAll() returns (info: seq<char>)
      requires Receiving() && left - read <= b - w
      modifies this`readIdx, this`readableBytes, this`read
      ensures Receiving()
      ensures info == Bytes(cells, old(read), left)
      ensures View() == old(View()).(read := left)
    {
      var n := readableBytes;
      if n == 0 {
        return [];
      }
      ReadRing(buffer[..], b, read, left, cells);
      if readIdx <= winLeft {
        info := buffer[readIdx..readIdx + n];
      } else {
        info := buffer[readIdx..b] + buffer[..winLeft];
      }
      readIdx := winLeft;
      readableBytes := readableBytes - n;
      read := left;
    }
  }

  lemma PutNext(cells: map<nat, char>, pos: nat, data: seq<char>, i: nat)
    requires i < |data|
    ensures Put(cells, pos, data[..i + 1]) == Put(cells, pos, data[..i])[pos + i := data[i]]
  {
  }

  lemma ReceiveCases(b: nat, w: nat, inbox: Inbox, start: nat, data: seq<char>)
    requires 0 < w < b && start < b && |data| <= b - w
    ensures var pos := inbox.left + Offset(Res(inbox.left, b), start, b);
            if InRange(b, Res(inbox.left, b), Res(inbox.left + w, b), start, Mod(start + |data|, b)) then
              && Receive(b, w, inbox, start, data) == Accept(inbox, pos, data)
              && Res(pos, b) == start && pos + |data| <= inbox.left + w
            else
              Receive(b, w, inbox, start, data) == inbox
  {
    if InRange(b, Res(inbox.left, b), Res(inbox.left + w, b), start, Mod(start + |data|, b)) {
      SegmentFits(b, w, inbox.left, start, |data|);
    }
  }

  lemma Accepted(b: nat, w: nat, inbox: Inbox, start: nat, data: seq<char>) returns (pos: nat)
    requires 0 < w < b && start < b && |data| <= b - w
    requires InRange(b, Res(inbox.left, b), Res(inbox.left + w, b), start, Mod(start + |data|, b))
    ensures Receive(b, w, inbox, start, data) == Accept(inbox, pos, data)
    ensures inbox.left <= pos && pos + |data| <= inbox.left + w && Res(pos, b) == start
  {
    pos := inbox.left + Offset(Res(inbox.left, b), start, b);
    ReceiveCases(b, w, inbox, start, data);
  }

  lemma Refused(b: nat, w: nat, inbox: Inbox, start: nat, data: seq<char>)
    requires 0 < w < b && start < b && |data| <= b - w
    requires !InRange(b, Res(inbox.left, b), Res(inbox.left + w, b), start, Mod(start + |data|, b))
    ensures Receive(b, w, inbox, start, data) == inbox
  {
    ReceiveCases(b, w, inbox, start, data);
  }

  lemma GapFrom(cells: map<nat, char>, from: nat, mid: nat)
    requires from <= mid && forall p: nat :: from <= p < mid ==> p in cells
    ensures FirstGap(cells, from) == FirstGap(cells, mid)
  {
  }

  /** Both branches of `recv_all` read the unread bytes in stream order. */
  lemma ReadRing(ring: seq<char>, b: nat, read: nat, left: nat, cells: map<nat, char>)
    requires 0 < b && |ring| == b && read <= left < read + b
    requires forall p: nat :: read <= p < left ==> p in cells && ring[Res(p, b)] == cells[p]
    ensures var i, l := Res(read, b), Res(left, b);
            if i <= l then i + (left - read) == l && Bytes(cells, read, left) == ring[i..l]
            else Bytes(cells, read, left) == ring[i..b] + ring[..l]
  {
    var i, l := Res(read, b), Res(left, b);
    ResAdd(read, left - read, b);
    var info := if i <= l then ring[i..l] else ring[i..b] + ring[..l];
    forall k: nat | k < left - read
      ensures info[k] == cells[read + k]
    {
      ResAdd(read, k, b);
      assert ring[Res(read + k, b)] == cells[read + k];
    }
  }

  /** An accepted segment lies inside the window, at the position its residue stands for. */
  lemma SegmentFits(b: nat, w: nat, left: nat, start: nat, len: nat)
    requires 0 < w < b && start < b && len <= b - w
    requires InRange(b, Res(left, b), Res(left + w, b), start, Mod(start + len, b))
    ensures var pos := left + Offset(Res(left, b), start, b);
            Res(pos, b) == start && pos < left + w && pos + len <= left + w
  {
    var l := Res(left, b);
    ResOfOffset(left, start, b);
    ResAdd(l, w, b);
    ResAdd(left, w, b);
    assert Res(left + w, b) == Mod(l + w, b);
    InRangeIsInclusion(b, w, l, start, len);
  }

  lemma RingIndex(pos: nat, start: nat, i: nat, b: nat)
    requires start < b && Res(pos, b) == start && i <= b
    ensures Mod(start + i, b) == Res(pos + i, b)
  {
    ResAdd(start, i, b);
    ResAdd(pos, i, b);
  }

  lemma ResDistinct(p: nat, q: nat, b: nat)
    requires 0 < b && p != q && p < q + b && q < p + b
    ensures Res(p, b) != Res(q, b)
  {
    if Res(p, b) == Res(q, b) {
      ResInjective(if p < q then p else q, if p < q then q else p, b);
    }
  }
}
