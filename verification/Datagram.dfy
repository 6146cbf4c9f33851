/**
  The datagrams of p2p/entry.hpp and p2p/unility.hpp, and p2p/session.hpp, which cuts them out of
  a byte stream that arrives in arbitrary pieces.
 */
module Datagrams {
  import opened Options

  type Byte = x: int | 0 <= x < 256 witness 0
  type Bytes = seq<Byte>

  datatype Header = Header(command: Byte, ip: Bytes, port: nat, checksum: nat, bodySize: nat)
  {
    /** The fields fit their C++ types. */
    predicate Fits() {
      |ip| == 4 && port < 0x1_0000 && checksum < 0x1_0000 && bodySize < 0x1_0000_0000
    }
  }

  datatype Datagram = Datagram(header: Header, body: Bytes)

  const HEADER_LENGTH := 13

  // ---- numbers as little-endian bytes ----

  function Pow256(k: nat): (r: nat)
    ensures r > 0
  {
    if k == 0 then 1 else 256 * Pow256(k - 1)
  }

  /** `number_to_string` for a type of `k` bytes. */
  function NumberToString(n: nat, k: nat): (r: Bytes)
    ensures |r| == k
  {
    if k == 0 then [] else [n % 256] + NumberToString(n / 256, k - 1)
  }

  /** `string_to_number`: the number in the `k` bytes at `at`. */
  function StringToNumber(s: Bytes, at: nat, k: nat): (n: nat)
    requires at + k <= |s|
    ensures n < Pow256(k)
    decreases k
  {
    if k == 0 then 0 else s[at] + 256 * StringToNumber(s, at + 1, k - 1)
  }

  lemma {:induction false} NumberOfString(s: Bytes, at: nat, k: nat)
    requires at + k <= |s|
    ensures NumberToString(StringToNumber(s, at, k), k) == s[at..at + k]
    decreases k
  {
    if k > 0 {
      NumberOfString(s, at + 1, k - 1);
    }
  }

  /** A number that fits comes back; a larger one loses its high bytes. */
  lemma {:induction false} StringOfNumber(n: nat, k: nat, s: Bytes, at: nat)
    requires at + k <= |s| && s[at..at + k] == NumberToString(n, k)
    ensures StringToNumber(s, at, k) <= n
    ensures StringToNumber(s, at, k) == n <==> n < Pow256(k)
  {
    if k > 0 {
      assert s[at..at + k][0] == s[at];
      assert s[at + 1..at + 1 + (k - 1)] == s[at..at + k][1..];
      StringOfNumber(n / 256, k - 1, s, at + 1);
    }
  }

  // ---- one datagram ----

  /** `serialize`; the length written is that of the body, not the header's. */
  function Serialized(d: Datagram): Bytes {
    [d.header.command] + d.header.ip + NumberToString(d.header.port, 2) + NumberToString(d.header.checksum, 2)
    + NumberToString(|d.body|, 4) + d.body
  }

  /** The header in the 13 bytes at `at`. */
  function HeaderAt(s: Bytes, at: nat): (h: Header)
    requires at + HEADER_LENGTH <= |s|
  {
    Header(StringToNumber(s, at, 1), s[at + 1..at + 5], StringToNumber(s, at + 5, 2), StringToNumber(s, at + 7, 2),
      StringToNumber(s, at + 9, 4))
  }

  lemma HeaderFits(s: Bytes, at: nat)
    requires at + HEADER_LENGTH <= |s|
    ensures HeaderAt(s, at).Fits()
  {
    assert Pow256(2) == 256 * (256 * Pow256(0));
    assert Pow256(4) == 256 * (256 * Pow256(2));
  }

  /** Where the datagram at `at` ends, if it is complete. */
  function End(s: Bytes, at: nat): (r: Option<nat>)
    requires at <= |s|
    ensures r.Some? ==> at + HEADER_LENGTH <= r.value <= |s|
  {
    if |s| - at < HEADER_LENGTH then None
    else
      var end := at + HEADER_LENGTH + HeaderAt(s, at).bodySize;
      if end <= |s| then Some(end) else None
  }

  function DatagramAt(s: Bytes, at: nat): Datagram
    requires at <= |s| && End(s, at).Some?
  {
    Datagram(HeaderAt(s, at), s[at + HEADER_LENGTH..End(s, at).value])
  }

  // ---- every byte of a datagram ----

  function LowByte(n: nat): Byte {
    n % 256
  }

  /** The least significant byte comes first. */
  lemma NumberBytes(n: nat)
    ensures NumberToString(n, 2) == [LowByte(n), LowByte(n / 256)]
    ensures NumberToString(n, 4) == [LowByte(n), LowByte(n / 0x100), LowByte(n / 0x1_0000), LowByte(n / 0x100_0000)]
  {
    TwoBytes(n);
    TwoBytes(n / 0x1_0000);
    assert n / 256 / 256 == n / 0x1_0000 && n / 0x1_0000 / 256 == n / 0x100_0000;
    assert NumberToString(n, 4) == [LowByte(n)] + ([LowByte(n / 256)] + NumberToString(n / 256 / 256, 2));
  }

  lemma TwoBytes(n: nat)
    ensures NumberToString(n, 2) == [LowByte(n), LowByte(n / 256)]
  {
    assert NumberToString(n / 256, 1) == [LowByte(n / 256)] + NumberToString(n / 256 / 256, 0);
  }

  lemma NumberOfBytes(s: Bytes, at: nat)
    requires at + 4 <= |s|
    ensures StringToNumber(s, at, 2) == s[at] as int + 0x100 * (s[at + 1] as int)
    ensures StringToNumber(s, at, 4) == s[at] as int + 0x100 * (s[at + 1] as int) + 0x1_0000 * (s[at + 2] as int) + 0x100_0000 * (s[at + 3] as int)
  {
    TwoByteNumber(s, at);
    TwoByteNumber(s, at + 2);
    assert StringToNumber(s, at, 4) == s[at] as int + 256 * (s[at + 1] as int + 256 * StringToNumber(s, at + 2, 2));
  }

  lemma TwoByteNumber(s: Bytes, at: nat)
    requires at + 2 <= |s|
    ensures StringToNumber(s, at, 2) == s[at] as int + 256 * (s[at + 1] as int)
  {
    assert StringToNumber(s, at + 1, 1) == s[at + 1] + 256 * StringToNumber(s, at + 2, 0);
  }

  /** Where the fields of a datagram are written. */
  lemma SerializedBytes(d: Datagram)
    requires |d.header.ip| == 4
    ensures var s, h, n := Serialized(d), d.header, |d.body|;
            && |s| == 13 + n && s[0] == h.command && s[1..5] == h.ip && s[13..] == d.body
            && s[5..7] == [LowByte(h.port), LowByte(h.port / 256)] && s[7..9] == [LowByte(h.checksum), LowByte(h.checksum / 256)]
            && s[9..13] == [LowByte(n), LowByte(n / 0x100), LowByte(n / 0x1_0000), LowByte(n / 0x100_0000)]
  {
    NumberBytes(d.header.port);
    NumberBytes(d.header.checksum);
    NumberBytes(|d.body|);
    SixPlaces(d.header.command, d.header.ip, NumberToString(d.header.port, 2), NumberToString(d.header.checksum, 2),
              NumberToString(|d.body|, 4), d.body);
  }

  lemma SixPlaces(command: Byte, ip: Bytes, port: Bytes, checksum: Bytes, size: Bytes, body: Bytes)
    requires |ip| == 4 && |port| == 2 && |checksum| == 2 && |size| == 4
    ensures var s := [command] + ip + port + checksum + size + body;
            && |s| == 13 + |body| && s[0] == command && s[1..5] == ip && s[5..7] == port && s[7..9] == checksum
            && s[9..13] == size && s[13..] == body
  {
  }

  /** Where they are read from. */
  lemma HeaderBytes(s: Bytes, at: nat)
    requires at + 13 <= |s|
    ensures var h := HeaderAt(s, at);
            && h.command == s[at] && h.ip == s[at + 1..at + 5]
            && h.port == s[at + 5] as int + 0x100 * (s[at + 6] as int) && h.checksum == s[at + 7] as int + 0x100 * (s[at + 8] as int)
            && h.bodySize == s[at + 9] as int + 0x100 * (s[at + 10] as int) + 0x1_0000 * (s[at + 11] as int) + 0x100_0000 * (s[at + 12] as int)
  {
    NumberOfBytes(s, at + 5);
    NumberOfBytes(s, at + 7);
    NumberOfBytes(s, at + 9);
    assert StringToNumber(s, at, 1) == s[at] + 256 * StringToNumber(s, at + 1, 0);
  }

  // ---- a stream of datagrams ----

  /** The complete datagrams from `at` on, and where they end. */
  function Frames(s: Bytes, at: nat): (r: (seq<Datagram>, nat))
    requires at <= |s|
    ensures at <= r.1 <= |s| && End(s, r.1).None?
    decreases |s| - at
  {
    match End(s, at)
    case None => ([], at)
    case Some(end) =>
      var r := Frames(s, end);
      ([DatagramAt(s, at)] + r.0, r.1)
  }

  function Stream(ds: seq<Datagram>): Bytes {
    if ds == [] then [] else Serialized(ds[0]) + Stream(ds[1..])
  }

  /** Reading and writing one datagram are inverse, in this direction for any bytes. */
  lemma SerializedOfRead(s: Bytes, at: nat)
    requires at <= |s| && End(s, at).Some?
    ensures Serialized(DatagramAt(s, at)) == s[at..End(s, at).value]
  {
    NumbersOfRead(s, at);
    SixParts(s, at, End(s, at).value);
  }

  lemma NumbersOfRead(s: Bytes, at: nat)
    requires at + HEADER_LENGTH <= |s|
    ensures var h := HeaderAt(s, at);
            && NumberToString(h.port, 2) == s[at + 5..at + 7] && NumberToString(h.checksum, 2) == s[at + 7..at + 9]
            && NumberToString(h.bodySize, 4) == s[at + 9..at + 13]
  {
    NumberOfString(s, at + 5, 2);
    NumberOfString(s, at + 7, 2);
    NumberOfString(s, at + 9, 4);
  }

  lemma SixParts(s: Bytes, at: nat, end: nat)
    requires at + HEADER_LENGTH <= end <= |s|
    ensures s[at..end] == [s[at]] + s[at + 1..at + 5] + s[at + 5..at + 7] + s[at + 7..at + 9] + s[at + 9..at + 13] + s[at + 13..end]
    ensures StringToNumber(s, at, 1) == s[at]
  {
    assert StringToNumber(s, at + 1, 0) == 0;
    assert s[at..at + 5] == [s[at]] + s[at + 1..at + 5];
    TwoParts(s, at, at + 5, at + 7);
    TwoParts(s, at, at + 7, at + 9);
    TwoParts(s, at, at + 9, at + 13);
    TwoParts(s, at, at + 13, end);
  }

  lemma TwoParts(s: Bytes, i: nat, j: nat, k: nat)
    requires i <= j <= k <= |s|
    ensures s[i..k] == s[i..j] + s[j..k]
  {
  }

  /** Nothing is lost: the datagrams cut from a stream and the bytes left over make up the stream. */
  lemma {:induction false} StreamOfFrames(s: Bytes, at: nat)
    requires at <= |s|
    ensures Stream(Frames(s, at).0) == s[at..Frames(s, at).1]
    decreases |s| - at
  {
    if End(s, at).Some? {
      var end := End(s, at).value;
      StreamOfFrames(s, end);
      SerializedOfRead(s, at);
      StreamOfOneMore(DatagramAt(s, at), Frames(s, end).0);
      TwoParts(s, at, end, Frames(s, end).1);
    }
  }

  lemma StreamOfOneMore(d: Datagram, ds: seq<Datagram>)
    ensures Stream([d] + ds) == Serialized(d) + Stream(ds)
  {
    assert ([d] + ds)[1..] == ds;
  }

  /** A datagram on its way is the header it has, with the length of its body filled in. */
  function Sent(d: Datagram): Datagram {
    d.(header := d.header.(bodySize := |d.body|))
  }

  /** The fields of a serialized datagram lie where the reader looks for them. */
  lemma FieldsOfSerialized(s: Bytes, at: nat, d: Datagram)
    requires |d.header.ip| == 4
    requires at + HEADER_LENGTH + |d.body| <= |s| && s[at..at + HEADER_LENGTH + |d.body|] == Serialized(d)
    ensures s[at] == d.header.command && s[at + 1..at + 5] == d.header.ip
    ensures s[at + 5..at + 7] == NumberToString(d.header.port, 2)
    ensures s[at + 7..at + 9] == NumberToString(d.header.checksum, 2)
    ensures s[at + 9..at + 13] == NumberToString(|d.body|, 4)
    ensures s[at + 13..at + 13 + |d.body|] == d.body
  {
    var w := Serialized(d);
    SixSlices(d.header.command, d.header.ip, NumberToString(d.header.port, 2), NumberToString(d.header.checksum, 2),
      NumberToString(|d.body|, 4), d.body);
    assert s[at] == w[0];
    SliceOfSlice(s, at, |w|, 1, 5);
    SliceOfSlice(s, at, |w|, 5, 7);
    SliceOfSlice(s, at, |w|, 7, 9);
    SliceOfSlice(s, at, |w|, 9, 13);
    SliceOfSlice(s, at, |w|, 13, |w|);
  }

  lemma SliceOfSlice(s: Bytes, at: nat, n: nat, i: nat, j: nat)
    requires at + n <= |s| && i <= j <= n
    ensures s[at..at + n][i..j] == s[at + i..at + j]
  {
    var x, y := s[at..at + n][i..j], s[at + i..at + j];
    assert |x| == |y|;
    assert forall k :: 0 <= k < |x| ==> x[k] == s[at + (i + k)];
    assert forall k :: 0 <= k < |y| ==> y[k] == s[at + i + k];
  }

  lemma SixSlices(command: Byte, ip: Bytes, port: Bytes, checksum: Bytes, size: Bytes, body: Bytes)
    requires |ip| == 4 && |port| == 2 && |checksum| == 2 && |size| == 4
    ensures var w := [command] + ip + port + checksum + size + body;
            && w[0] == command && w[1..5] == ip && w[5..7] == port && w[7..9] == checksum && w[9..13] == size
            && w[13..] == body
  {
    var w := [command] + ip + port + checksum + size + body;
    Slice([command], ip, port + checksum + size + body, w);
    Slice([command] + ip, port, checksum + size + body, w);
    Slice([command] + ip + port, checksum, size + body, w);
    Slice([command] + ip + port + checksum, size, body, w);
    assert w == [command] + ip + port + checksum + size + body + [];
    Slice([command] + ip + port + checksum + size, body, [], w);
  }

  lemma Slice(x: Bytes, y: Bytes, z: Bytes, w: Bytes)
    requires w == x + y + z
    ensures w[|x|..|x| + |y|] == y
  {
  }

  lemma ReadOfSerialized(s: Bytes, at: nat, d: Datagram)
    requires Sent(d).header.Fits()
    requires at + HEADER_LENGTH + |d.body| <= |s| && s[at..at + HEADER_LENGTH + |d.body|] == Serialized(d)
    ensures End(s, at) == Some(at + HEADER_LENGTH + |d.body|) && DatagramAt(s, at) == Sent(d)
  {
    FieldsOfSerialized(s, at, d);
    assert Pow256(2) == 256 * (256 * Pow256(0));
    assert Pow256(4) == 256 * (256 * Pow256(2));
    StringOfNumber(d.header.port, 2, s, at + 5);
    StringOfNumber(d.header.checksum, 2, s, at + 7);
    StringOfNumber(|d.body|, 4, s, at + 9);
    assert StringToNumber(s, at, 1) == s[at];
  }

  lemma Cut(s: Bytes, at: nat, w: Bytes, rest: Bytes)
    requires at <= |s| && s[at..] == w + rest
    ensures at + |w| <= |s| && s[at..at + |w|] == w && s[at + |w|..] == rest
  {
    assert s[at..][..|w|] == w && s[at..][|w|..] == rest;
  }

  /** Concatenated datagrams come back in order, each as it was sent, with nothing left over. */
  lemma {:induction false} FramesOfStream(s: Bytes, at: nat, ds: seq<Datagram>)
    requires forall i :: 0 <= i < |ds| ==> Sent(ds[i]).header.Fits()
    requires at <= |s| && s[at..] == Stream(ds)
    ensures Frames(s, at).1 == |s| && |Frames(s, at).0| == |ds|
    ensures forall i :: 0 <= i < |ds| ==> Frames(s, at).0[i] == Sent(ds[i])
    decreases |ds|
  {
    if ds != [] {
      var w := Serialized(ds[0]);
      var end := at + |w|;
      Cut(s, at, w, Stream(ds[1..]));
      ReadOfSerialized(s, at, ds[0]);
      FramesOfStream(s, end, ds[1..]);
    }
  }

  /** One datagram survives the wire exactly if its length fits the 32 bits that carry it. */
  lemma SurvivesIffShort(d: Datagram)
    requires d.header.Fits()
    ensures Frames(Serialized(d), 0) == ([Sent(d)], |Serialized(d)|) <==> |d.body| < 0x1_0000_0000
  {
    var s := Serialized(d);
    if |d.body| < 0x1_0000_0000 {
      assert s[0..HEADER_LENGTH + |d.body|] == s;
      ReadOfSerialized(s, 0, d);
      assert Frames(s, |s|) == ([], |s|);
      assert [Sent(d)] + [] == [Sent(d)];
    } else {
      HeaderFits(s, 0);
      assert [Sent(d)][0].header.bodySize == |d.body|;
      if End(s, 0).Some? {
        assert Frames(s, 0).0[0] == DatagramAt(s, 0);
        assert DatagramAt(s, 0).header.bodySize < 0x1_0000_0000;
      } else {
        assert Frames(s, 0).0 == [];
      }
    }
  }

  // ---- how the stream is cut into pieces ----

  lemma HeaderOfLonger(s: Bytes, t: Bytes, at: nat)
    requires at + HEADER_LENGTH <= |s|
    ensures HeaderAt(s + t, at) == HeaderAt(s, at)
  {
    NumberOfLonger(s, t, at, 1);
    NumberOfLonger(s, t, at + 5, 2);
    NumberOfLonger(s, t, at + 7, 2);
    NumberOfLonger(s, t, at + 9, 4);
  }

  lemma HeaderOfSuffix(s: Bytes, at: nat)
    requires at + HEADER_LENGTH <= |s|
    ensures HeaderAt(s[at..], 0) == HeaderAt(s, at)
  {
    NumberOfSuffix(s, at, 0, 1);
    NumberOfSuffix(s, at, 5, 2);
    NumberOfSuffix(s, at, 7, 2);
    NumberOfSuffix(s, at, 9, 4);
  }

  lemma {:induction false} NumberOfSuffix(s: Bytes, at: nat, i: nat, k: nat)
    requires at + i + k <= |s|
    ensures StringToNumber(s[at..], i, k) == StringToNumber(s, at + i, k)
    decreases k
  {
    if k > 0 {
      NumberOfSuffix(s, at, i + 1, k - 1);
    }
  }

  lemma {:induction false} NumberOfLonger(s: Bytes, t: Bytes, at: nat, k: nat)
    requires at + k <= |s|
    ensures StringToNumber(s + t, at, k) == StringToNumber(s, at, k)
    decreases k
  {
    if k > 0 {
      NumberOfLonger(s, t, at + 1, k - 1);
    }
  }

  lemma DatagramOfLonger(s: Bytes, t: Bytes, at: nat)
    requires at <= |s| && End(s, at).Some?
    ensures End(s + t, at) == End(s, at) && DatagramAt(s + t, at) == DatagramAt(s, at)
  {
    HeaderOfLonger(s, t, at);
    var end := End(s, at).value;
    assert (s + t)[at + HEADER_LENGTH..end] == s[at + HEADER_LENGTH..end];
  }

  /** More bytes add datagrams after the ones already complete, and change none of those. */
  lemma {:induction false} FramesOfLonger(s: Bytes, t: Bytes, at: nat)
    requires at <= |s|
    ensures var (ds, rest) := Frames(s, at);
            Frames(s + t, at) == (ds + Frames(s + t, rest).0, Frames(s + t, rest).1)
    decreases |s| - at
  {
    if End(s, at).Some? {
      var end := End(s, at).value;
      DatagramOfLonger(s, t, at);
      FramesOfLonger(s, t, end);
      var (ds, rest) := Frames(s, end);
      assert Frames(s, at) == ([DatagramAt(s, at)] + ds, rest);
      var more := Frames(s + t, rest).0;
      assert [DatagramAt(s, at)] + (ds + more) == ([DatagramAt(s, at)] + ds) + more;
    } else {
      assert [] + Frames(s + t, at).0 == Frames(s + t, at).0;
    }
  }

  // ---- the code ----

  class BitPacker {
    var context: Bytes

    constructor ()
      ensures context == []
    {
      context := [];
    }

    method PackNumber(n: nat, size: nat)
      modifies this
      ensures context == old(context) + NumberToString(n, size)
    {
      context := context + NumberToString(n, size);
    }

    method PackString(s: Bytes)
      modifies this
      ensures context == old(context) + s
    {
      context := context + s;
    }
  }

  class BitParser {
    const context: Bytes
    var index: nat

    constructor (context: Bytes)
      ensures this.context == context && index == 0
    {
      this.context, index := context, 0;
    }

    method ParseNumber(size: nat) returns (n: nat)
      requires index + size <= |context|
      modifies this
      ensures n == StringToNumber(context, old(index), size) && index == old(index) + size
    {
      n := StringToNumber(context, index, size);
      index := index + size;
    }

    method ParseCharArray(size: nat) returns (chars: Bytes)
      requires index + size <= |context|
      modifies this
      ensures chars == context[old(index)..old(index) + size] && index == old(index) + size
    {
      chars := context[index..index + size];
      index := index + size;
    }
  }

  method Serialize(d: Datagram) returns (results: Bytes)
    ensures results == Serialized(d)
  {
    var packer := new BitPacker();
    packer.PackNumber(d.header.command, 1);
    packer.PackString(d.header.ip);
    packer.PackNumber(d.header.port, 2);
    packer.PackNumber(d.header.checksum, 2);
    packer.PackNumber(|d.body|, 4);
    packer.PackString(d.body);
    results := packer.context;
    assert NumberToString(d.header.command, 1) == [d.header.command];
  }

  method ParseDatagramHeader(entry: Bytes) returns (header: Header)
    requires HEADER_LENGTH <= |entry|
    ensures header == HeaderAt(entry, 0)
  {
    var parser := new BitParser(entry);
    var command := parser.ParseNumber(1);
    var ip := parser.ParseCharArray(4);
    var port := parser.ParseNumber(2);
    var checksum := parser.ParseNumber(2);
    var bodySize := parser.ParseNumber(4);
    assert StringToNumber(entry, 1, 0) == 0;
    header := Header(command, ip, port, checksum, bodySize);
  }

  /** `Session`, as far as it reads; `handled` is what its `switch` was given. */
  class Session {
    var context: Bytes
    var datagram: Option<Datagram>
    var handled: seq<Datagram>
    /** Everything `handle_read` was given since the beginning. */
    ghost var received: Bytes

    /** The datagrams handled are those before `at`. */
    ghost predicate Done(at: nat)
      reads this`handled, this`received
    {
      at <= |received| && Frames(received, 0) == (handled + Frames(received, at).0, Frames(received, at).1)
    }

    /** The fields hold what comes after `at`. */
    ghost predicate Holds(at: nat)
      reads this`context, this`datagram, this`received
    {
      && at <= |received|
      && match datagram
         case None => context == received[at..]
         case Some(d) =>
           && at + HEADER_LENGTH <= |received| && context == received[at + HEADER_LENGTH..]
           && d.header == HeaderAt(received, at)
    }

    ghost predicate Reading(at: nat)
      reads this
    {
      Done(at) && Holds(at)
    }

    /** The datagram at `at` is complete and waits to be handled. */
    ghost predicate Parsed(at: nat)
      reads this
    {
      && Done(at) && End(received, at).Some?
      && datagram == Some(DatagramAt(received, at)) && context == received[End(received, at).value..]
    }

    /**
      The state is a function of the bytes received, however they were cut into pieces: every
      complete datagram was handled, in order, and the rest waits, its header taken off if it is there.
     */
    ghost predicate Valid()
      reads this
    {
      handled == Frames(received, 0).0 && Waiting(Frames(received, 0).1)
    }

    /** No datagram at `at` is complete. */
    ghost predicate Waiting(at: nat)
      reads this
    {
      Reading(at) && End(received, at).None? && (datagram.None? <==> |received| - at < HEADER_LENGTH)
    }

    lemma WaitingIsValid(at: nat)
      requires Waiting(at)
      ensures Valid()
    {
      assert Frames(received, at) == ([], at);
    }

    constructor ()
      ensures Valid() && received == [] && handled == []
    {
      context, datagram, handled, received := [], None, [], [];
      new;
      assert Frames([], 0) == ([], 0) && [] + Frames([], 0).0 == [];
    }

    method ParseDatagram(ghost at: nat) returns (ok: bool)
      requires Reading(at)
      modifies this`context, this`datagram
      ensures ok == End(received, at).Some?
      ensures ok ==> Parsed(at)
      ensures !ok ==> Waiting(at)
    {
      TakeHeader(at);
      ok := TakeBody(at);
    }

    /** The second branch of `parse_datagram`. */
    method TakeBody(ghost at: nat) returns (ok: bool)
      requires Holds(at) && (datagram.None? <==> |received| - at < HEADER_LENGTH)
      modifies this`context, this`datagram
      ensures ok == End(received, at).Some?
      ensures if ok then datagram == Some(DatagramAt(received, at)) && context == received[End(received, at).value..]
              else Holds(at) && (datagram.None? <==> |received| - at < HEADER_LENGTH)
    {
      if datagram.Some? && |context| >= datagram.value.header.bodySize {
        var size := datagram.value.header.bodySize;
        BodyAt(context, size, at);
        datagram := Some(datagram.value.(body := context[..size]));
        context := context[size..];
        return true;
      }
      return false;
    }

    lemma BodyAt(rest: Bytes, size: nat, at: nat)
      requires at + HEADER_LENGTH + size <= |received| && rest == received[at + HEADER_LENGTH..]
      requires size == HeaderAt(received, at).bodySize
      ensures End(received, at) == Some(at + HEADER_LENGTH + size)
      ensures DatagramAt(received, at) == Datagram(HeaderAt(received, at), rest[..size])
      ensures rest[size..] == received[at + HEADER_LENGTH + size..]
    {
    }

    /** The first branch of `parse_datagram`. */
    method TakeHeader(ghost at: nat)
      requires Holds(at)
      modifies this`context, this`datagram
      ensures Holds(at) && (datagram.None? <==> |received| - at < HEADER_LENGTH)
    {
      if datagram.None? && |context| >= HEADER_LENGTH {
        var header := ParseDatagramHeader(context);
        HeaderOfSuffix(received, at);
        datagram := Some(Datagram(header, DEFAULT_BODY));
        context := context[HEADER_LENGTH..];
      }
    }

    /** The `switch` of `handle_read`, and what follows it. */
    method Dispatch(ghost at: nat) returns (ghost end: nat)
      requires Parsed(at)
      modifies this`handled, this`datagram
      ensures handled == old(handled) + [DatagramAt(received, at)]
      ensures at < end <= |received| && Reading(end)
    {
      end := End(received, at).value;
      handled := handled + [datagram.value];
      datagram := None;
      OneMoreHandled(old(handled), DatagramAt(received, at), Frames(received, end).0);
    }

    lemma OneMoreHandled(before: seq<Datagram>, d: Datagram, more: seq<Datagram>)
      ensures (before + [d]) + more == before + ([d] + more)
    {
    }

    /** More bytes arrive while the session waits. */
    method Append(chunk: Bytes, ghost at: nat)
      requires Valid() && at == Frames(received, 0).1
      modifies this`context, this`received
      ensures received == old(received) + chunk && Reading(at)
    {
      FramesOfLonger(received, chunk, 0);
      MoreHolds(chunk, at);
      context := context + chunk;
      received := received + chunk;
    }

    lemma MoreHolds(chunk: Bytes, at: nat)
      requires Holds(at)
      ensures datagram.None? ==> context + chunk == (received + chunk)[at..]
      ensures datagram.Some? ==>
                && context + chunk == (received + chunk)[at + HEADER_LENGTH..]
                && HeaderAt(received + chunk, at) == HeaderAt(received, at)
    {
      if datagram.Some? {
        HeaderOfLonger(received, chunk, at);
      }
    }

    method HandleRead(chunk: Bytes)
      requires Valid()
      modifies this
      ensures Valid() && received == old(received) + chunk
    {
      ghost var at := Frames(received, 0).1;
      Append(chunk, at);
      var more := ParseDatagram(at);
      while more
        invariant more ==> Parsed(at)
        invariant !more ==> Waiting(at)
        invariant received == old(received) + chunk
        decreases |received| - at
      {
        at := Dispatch(at);
        more := ParseDatagram(at);
      }
      WaitingIsValid(at);
    }
  }

  /** The body of a Datagram object before its own is parsed. */
  const DEFAULT_BODY: Bytes := [104, 101, 108, 108, 111, 32, 112, 50, 112]
}
