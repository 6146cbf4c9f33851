/**
  SHA-1 as FIPS 180-4 defines it (sections 5.1.1, 5.3.1, 6.1.2), and `detail::sha1` of
  http/http_uuid.hpp, which hashes byte by byte through a block buffer.
 */
module Sha1 {
  type Byte = bv8
  type Word = bv32

  datatype Digest = Digest(a: Word, b: Word, c: Word, d: Word, e: Word)

  // ---- the standard ----

  /** Rotation to the left by `n` (section 3.2). */
  function Rotl(n: nat, x: Word): Word
    requires 0 < n < 32
  {
    (x << n) | (x >> (32 - n))
  }

  /** The functions and constants of sections 4.1.1 and 4.2.1. */
  function Ch(x: Word, y: Word, z: Word): Word {
    (x & y) ^ (!x & z)
  }

  function Parity(x: Word, y: Word, z: Word): Word {
    x ^ y ^ z
  }

  function Maj(x: Word, y: Word, z: Word): Word {
    (x & y) ^ (x & z) ^ (y & z)
  }

  function F(t: nat, x: Word, y: Word, z: Word): Word {
    if t < 20 then Ch(x, y, z)
    else if t < 40 then Parity(x, y, z)
    else if t < 60 then Maj(x, y, z)
    else Parity(x, y, z)
  }

  function K(t: nat): Word {
    if t < 20 then 0x5a827999
    else if t < 40 then 0x6ed9eba1
    else if t < 60 then 0x8f1bbcdc
    else 0xca62c1d6
  }

  /** The word of four bytes, most significant first. */
  function Join(b0: Byte, b1: Byte, b2: Byte, b3: Byte): Word {
    ((b0 as Word) << 24) + ((b1 as Word) << 16) + ((b2 as Word) << 8) + (b3 as Word)
  }

  function Expand(x: Word, y: Word, z: Word, u: Word): Word {
    Rotl(1, x ^ y ^ z ^ u)
  }

  /** The message schedule of the block at `at`. */
  function W(s: seq<Byte>, at: nat, t: nat): Word
    requires at + 64 <= |s|
  {
    if t < 16 then
      Join(s[at + 4 * t], s[at + 4 * t + 1], s[at + 4 * t + 2], s[at + 4 * t + 3])
    else
      Expand(W(s, at, t - 3), W(s, at, t - 8), W(s, at, t - 14), W(s, at, t - 16))
  }

  function Sum(x: Word, f: Word, e: Word, k: Word, w: Word): Word {
    x + f + e + k + w
  }

  function Round(t: nat, v: Digest, w: Word): Digest {
    Digest(Sum(Rotl(5, v.a), F(t, v.b, v.c, v.d), v.e, K(t), w), v.a, Rotl(30, v.b), v.c, v.d)
  }

  function Rounds(s: seq<Byte>, at: nat, v: Digest, t: nat): Digest
    requires at + 64 <= |s|
  {
    if t == 0 then v else Round(t - 1, Rounds(s, at, v, t - 1), W(s, at, t - 1))
  }

  /** Addition is modulo 2^32. */
  function Plus(x: Word, y: Word): Word {
    x + y
  }

  function Add(x: Digest, y: Digest): Digest {
    Digest(Plus(x.a, y.a), Plus(x.b, y.b), Plus(x.c, y.c), Plus(x.d, y.d), Plus(x.e, y.e))
  }

  const INITIAL := Digest(0x67452301, 0xefcdab89, 0x98badcfe, 0x10325476, 0xc3d2e1f0)

  /** The hash value after the first `n` blocks of `s`. */
  function Blocks(s: seq<Byte>, n: nat): Digest
    requires 64 * n <= |s|
  {
    if n == 0 then INITIAL
    else
      var h := Blocks(s, n - 1);
      Add(h, Rounds(s, 64 * (n - 1), h, 80))
  }

  function Octet(n: nat): Byte {
    (n % 256) as Byte
  }

  function Zeros(n: nat): (r: seq<Byte>)
    ensures |r| == n
  {
    seq(n, _ => 0 as Byte)
  }

  lemma OneMoreZero(n: nat)
    ensures Zeros(n + 1) == Zeros(n) + [0]
  {
  }

  /** The 64-bit big-endian length. */
  function Length64(bits: nat): (r: seq<Byte>)
    ensures |r| == 8
  {
    [Octet(bits / 0x100_0000_0000_0000), Octet(bits / 0x1_0000_0000_0000), Octet(bits / 0x100_0000_0000),
     Octet(bits / 0x1_0000_0000)] + Length32(bits)
  }

  function Length32(bits: nat): (r: seq<Byte>)
    ensures |r| == 4
  {
    [Octet(bits / 0x100_0000), Octet(bits / 0x1_0000), Octet(bits / 0x100), Octet(bits)]
  }

  lemma NextByte(n: nat, b: nat, m: nat)
    requires b < 256 && 0 < m
    ensures (256 * n + b) / (256 * m) == n / m
  {
    var q, r := n / m, n % m;
    assert n == m * q + r;
    assert 256 * n + b == 256 * m * q + (256 * r + b) && 256 * r + b < 256 * m;
    QuotientOf(256 * n + b, 256 * m, q, 256 * r + b);
  }

  lemma QuotientOf(n: nat, d: nat, q: nat, r: nat)
    requires r < d && n == d * q + r
    ensures n / d == q
  {
    var k := n / d - q;
    assert d * k == r - n % d by {
      assert n == d * (n / d) + n % d;
    }
    assert k >= 1 ==> d * k >= d;
    assert k <= -1 ==> d * k + d <= 0;
  }

  /** The bytes of a length are its digits, the most significant first: one more is appended and moves the others up. */
  lemma LengthGrows(n: nat, b: nat)
    requires b < 256
    ensures Length64(256 * n + b) == Length64(n)[1..] + [Octet(b)]
  {
    NextByte(n, b, 1);
    NextByte(n, b, 0x100);
    NextByte(n, b, 0x1_0000);
    NextByte(n, b, 0x100_0000);
    NextByte(n, b, 0x1_0000_0000);
    NextByte(n, b, 0x100_0000_0000);
    NextByte(n, b, 0x1_0000_0000_0000);
    SameOctet(256 * n + b, b);
  }

  lemma SameOctet(n: nat, m: nat)
    requires n % 256 == m % 256
    ensures Octet(n) == Octet(m)
  {
  }

  /** How many zero bytes follow the byte that holds the final one bit; see PaddingIsLeast. */
  function Gap(n: nat): (z: nat)
    ensures z < 64 && (n + 1 + z) % 64 == 56
  {
    (55 - n) % 64
  }

  /** Section 5.1.1, for messages of whole bytes. */
  function Padded(msg: seq<Byte>): (r: seq<Byte>)
    ensures |r| % 64 == 0
  {
    EightMore(|msg| + 1 + Gap(|msg|));
    msg + [0x80] + Zeros(Gap(|msg|)) + Length64(8 * |msg|)
  }

  lemma EightMore(n: nat)
    requires n % 64 == 56
    ensures (n + 8) % 64 == 0
  {
  }

  /** Sections 5 and 6.1.2. */
  function Hash(msg: seq<Byte>): Digest {
    Blocks(Padded(msg), |Padded(msg)| / 64)
  }

  /**
    The number of zero bits after the one bit, seven of which share its byte, is the least that
    solves the equation of section 5.1.1.
   */
  lemma PaddingIsLeast(n: nat, k: nat)
    ensures (8 * n + 1 + (8 * Gap(n) + 7)) % 512 == 448
    ensures (8 * n + 1 + k) % 512 == 448 ==> 8 * Gap(n) + 7 <= k
  {
    var q := (n + 1 + Gap(n)) / 64;
    assert 8 * n + 1 + (8 * Gap(n) + 7) == 512 * q + 448;
    var r := (8 * n + 1 + k) / 512;
    if (8 * n + 1 + k) % 512 == 448 {
      assert 8 * n + 1 + k == 512 * r + 448;
      assert 512 * (q - 1) < 512 * r;
    }
  }

  // ---- what get_digest appends ----

  /** The one bit, the zeros, four more zero bytes, and the low half of the length. */
  function Appended(msg: seq<Byte>): (r: seq<Byte>)
    ensures (|msg| + |r|) % 64 == 0
  {
    var z := Gap(|msg|);
    EightMore(|msg| + 1 + z);
    [0x80] + Zeros(z) + (Zeros(4) + Length32(8 * |msg|))
  }

  /** The code pads as the standard says exactly for messages shorter than 2^29 bytes. */
  lemma PadsRightly(msg: seq<Byte>)
    requires |msg| < 0x2000_0000_0000_0000
    ensures msg + Appended(msg) == Padded(msg) <==> |msg| < 0x2000_0000
  {
    var bits := 8 * |msg|;
    var front := msg + [0x80] + Zeros(Gap(|msg|));
    var ours, theirs := Zeros(4) + Length32(bits), Length64(bits);
    assert msg + Appended(msg) == front + ours;
    assert Padded(msg) == front + theirs;
    assert (front + ours)[|front|..] == ours && (front + theirs)[|front|..] == theirs;
    HighBytes(bits);
    if |msg| < 0x2000_0000 {
      assert ours == theirs;
    } else {
      assert Zeros(4) == ours[..4];
      assert theirs[0] == Octet(bits / 0x100_0000_0000_0000) && theirs[1] == Octet(bits / 0x1_0000_0000_0000);
      assert theirs[2] == Octet(bits / 0x100_0000_0000) && theirs[3] == Octet(bits / 0x1_0000_0000);
      assert ours[0] == 0 && ours[1] == 0 && ours[2] == 0 && ours[3] == 0;
    }
  }

  lemma HighBytes(bits: nat)
    requires bits < 0x1_0000_0000_0000_0000
    ensures bits < 0x1_0000_0000 <==>
            && Octet(bits / 0x100_0000_0000_0000) == 0 && Octet(bits / 0x1_0000_0000_0000) == 0
            && Octet(bits / 0x100_0000_0000) == 0 && Octet(bits / 0x1_0000_0000) == 0
  {
    OctetIsZero(bits / 0x100_0000_0000_0000);
    OctetIsZero(bits / 0x1_0000_0000_0000);
    OctetIsZero(bits / 0x100_0000_0000);
    OctetIsZero(bits / 0x1_0000_0000);
  }

  lemma OctetIsZero(n: nat)
    ensures Octet(n) == 0 <==> n % 256 == 0
  {
    var m := n % 256;
    if m as Byte == 0 {
      assert (m as Byte) as int == 0;
    }
  }

  // ---- rounds and sums, equation by equation ----

  lemma SumIs(x: Word, f: Word, e: Word, k: Word, w: Word)
    ensures Sum(x, f, e, k, w) == x + f + e + k + w
  {
  }

  /** The assignments of section 6.1.2. */
  lemma RoundByFields(t: nat, v: Digest, w: Word, x: Word, f: Word, k: Word)
    requires x == Rotl(5, v.a) && f == F(t, v.b, v.c, v.d) && k == K(t)
    ensures var r := Round(t, v, w);
            r.a == x + f + v.e + k + w && r.b == v.a && r.c == Rotl(30, v.b) && r.d == v.c && r.e == v.d
  {
    SumIs(x, f, v.e, k, w);
    assert Round(t, v, w).a == Sum(x, f, v.e, k, w);
  }

  lemma PlusIs(x: Word, y: Word)
    ensures Plus(x, y) == x + y
  {
  }

  /** The last step of section 6.1.2. */
  lemma AddByFields(x: Digest, y: Digest)
    ensures Add(x, y).a == x.a + y.a && Add(x, y).b == x.b + y.b && Add(x, y).c == x.c + y.c
    ensures Add(x, y).d == x.d + y.d && Add(x, y).e == x.e + y.e
  {
    PlusIs(x.a, y.a);
    PlusIs(x.b, y.b);
    PlusIs(x.c, y.c);
    PlusIs(x.d, y.d);
    PlusIs(x.e, y.e);
  }

  // ---- where a block lies does not matter ----

  ghost predicate SameBlock(s: seq<Byte>, at: nat, s': seq<Byte>, at': nat) {
    at + 64 <= |s| && at' + 64 <= |s'| && s[at..at + 64] == s'[at'..at' + 64]
  }

  lemma SameByte(s: seq<Byte>, at: nat, s': seq<Byte>, at': nat, k: nat)
    requires SameBlock(s, at, s', at') && k < 64
    ensures s[at + k] == s'[at' + k]
  {
    assert s[at..at + 64][k] == s'[at'..at' + 64][k];
  }

  lemma {:induction false} WAgrees(s: seq<Byte>, at: nat, s': seq<Byte>, at': nat, t: nat)
    requires SameBlock(s, at, s', at')
    ensures W(s, at, t) == W(s', at', t)
  {
    if t < 16 {
      SameByte(s, at, s', at', 4 * t);
      SameByte(s, at, s', at', 4 * t + 1);
      SameByte(s, at, s', at', 4 * t + 2);
      SameByte(s, at, s', at', 4 * t + 3);
    } else {
      WAgrees(s, at, s', at', t - 3);
      WAgrees(s, at, s', at', t - 8);
      WAgrees(s, at, s', at', t - 14);
      WAgrees(s, at, s', at', t - 16);
    }
  }

  lemma {:induction false} RoundsAgree(s: seq<Byte>, at: nat, s': seq<Byte>, at': nat, v: Digest, t: nat)
    requires SameBlock(s, at, s', at')
    ensures Rounds(s, at, v, t) == Rounds(s', at', v, t)
  {
    if t > 0 {
      RoundsAgree(s, at, s', at', v, t - 1);
      WAgrees(s, at, s', at', t - 1);
    }
  }

  /** What comes after the first `n` blocks does not change their hash value. */
  lemma {:induction false} BlocksOfPrefix(s: seq<Byte>, s': seq<Byte>, n: nat)
    requires s <= s' && 64 * n <= |s|
    ensures Blocks(s, n) == Blocks(s', n)
  {
    if n > 0 {
      var at := 64 * (n - 1);
      BlocksOfPrefix(s, s', n - 1);
      assert s[at..at + 64] == s'[at..at + 64];
      RoundsAgree(s, at, s', at, Blocks(s, n - 1), 80);
    }
  }

  /** The last block of a stream of whole blocks. */
  lemma LastBlock(s: seq<Byte>, block: seq<Byte>)
    requires |s| % 64 == 0 && |s| > 0 && |block| == 64 && block == s[|s| - 64..]
    ensures var n := |s| / 64;
            Blocks(s, n) == Add(Blocks(s, n - 1), Rounds(block, 0, Blocks(s, n - 1), 80))
  {
    var n := |s| / 64;
    assert 64 * (n - 1) == |s| - 64;
    RoundsOfLast(s, block, Blocks(s, n - 1));
  }

  lemma RoundsOfLast(s: seq<Byte>, block: seq<Byte>, v: Digest)
    requires |s| >= 64 && |block| == 64 && block == s[|s| - 64..]
    ensures Rounds(s, |s| - 64, v, 80) == Rounds(block, 0, v, 80)
  {
    assert block[0..64] == s[|s| - 64..|s| - 64 + 64];
    RoundsAgree(s, |s| - 64, block, 0, v, 80);
  }

  // ---- the code's bit tricks ----

  /** `left_rotate` joins the halves with an exclusive or. */
  function LeftRotate(value: Word, count: nat): (r: Word)
    requires count == 1 || count == 5 || count == 30
    ensures r == Rotl(count, value)
  {
    (value << count) ^ (value >> (32 - count))
  }

  function CodeExpand(x: Word, y: Word, z: Word, u: Word): (r: Word)
    ensures r == Expand(x, y, z, u)
  {
    LeftRotate(x ^ y ^ z ^ u, 1)
  }

  lemma JoinWithOrs(b0: Word, b1: Word, b2: Word, b3: Word)
    requires b0 < 256 && b1 < 256 && b2 < 256 && b3 < 256
    ensures (b0 << 24) | (b1 << 16) | (b2 << 8) | b3 == (b0 << 24) + (b1 << 16) + (b2 << 8) + b3
  {
  }

  /** The code assembles a word with ors. */
  function Load(b0: Byte, b1: Byte, b2: Byte, b3: Byte): (r: Word)
    ensures r == Join(b0, b1, b2, b3)
  {
    JoinWithOrs(b0 as Word, b1 as Word, b2 as Word, b3 as Word);
    ((b0 as Word) << 24) | ((b1 as Word) << 16) | ((b2 as Word) << 8) | (b3 as Word)
  }

  /** The code joins the disjoint halves of Ch with an or, and writes Maj with ors. */
  lemma CodeLogic(b: Word, c: Word, d: Word)
    ensures (b & c) | (!b & d) == Ch(b, c, d)
    ensures (b & c) | (b & d) | (c & d) == Maj(b, c, d)
  {
  }

  function CodeCh(b: Word, c: Word, d: Word): (r: Word)
    ensures r == Ch(b, c, d)
  {
    CodeLogic(b, c, d);
    (b & c) | (!b & d)
  }

  function CodeMaj(b: Word, c: Word, d: Word): (r: Word)
    ensures r == Maj(b, c, d)
  {
    CodeLogic(b, c, d);
    (b & c) | (b & d) | (c & d)
  }

  /** The branches on `i` in the loop of `process_block`. */
  method Select(t: nat, b: Word, c: Word, d: Word) returns (f: Word, k: Word)
    requires t < 80
    ensures f == F(t, b, c, d) && k == K(t)
  {
    if t < 20 {
      f := CodeCh(b, c, d);
      k := 0x5A827999;
    } else if t < 40 {
      f := Parity(b, c, d);
      k := 0x6ED9EBA1;
    } else if t < 60 {
      f := CodeMaj(b, c, d);
      k := 0x8F1BBCDC;
    } else {
      f := Parity(b, c, d);
      k := 0xCA62C1D6;
    }
  }

  /** One turn of that loop. */
  method Step(t: nat, v: Digest, w: Word) returns (r: Digest)
    requires t < 80
    ensures r == Round(t, v, w)
  {
    var f, k := Select(t, v.b, v.c, v.d);
    var temp := Sum(LeftRotate(v.a, 5), f, v.e, k, w);
    r := Digest(temp, v.a, LeftRotate(v.b, 30), v.c, v.d);
  }

  class Hasher {
    const digest: array<Word>
    const block: array<Byte>
    var blockByteIndex: nat
    var byteCount: nat
    /** Every byte processed since the last reset. */
    ghost var fed: seq<Byte>

    ghost predicate Shape()
      reads this
    {
      digest.Length == 5 && block.Length == 64
    }

    function Value(): Digest
      requires Shape()
      reads this, digest
    {
      Digest(digest[0], digest[1], digest[2], digest[3], digest[4])
    }

    /** The digest covers the whole blocks fed so far and the buffer holds the rest, perhaps a full block. */
    ghost predicate Holds()
      reads this, digest, block
    {
      && Shape() && byteCount == |fed| && blockByteIndex <= 64 && blockByteIndex <= |fed|
      && (|fed| - blockByteIndex) % 64 == 0
      && block[..blockByteIndex] == fed[|fed| - blockByteIndex..]
      && Value() == Blocks(fed, (|fed| - blockByteIndex) / 64)
    }

    ghost predicate Valid()
      reads this, digest, block
    {
      Holds() && blockByteIndex < 64
    }

    constructor ()
      ensures Valid() && fed == [] && fresh(digest) && fresh(block)
    {
      digest, block := new Word[5], new Byte[64];
      blockByteIndex, byteCount, fed := 0, 0, [];
      new;
      Reset();
    }

    method Reset()
      requires Shape()
      modifies this, digest
      ensures Valid() && fed == []
    {
      digest[0] := 0x67452301;
      digest[1] := 0xEFCDAB89;
      digest[2] := 0x98BADCFE;
      digest[3] := 0x10325476;
      digest[4] := 0xC3D2E1F0;
      blockByteIndex := 0;
      byteCount := 0;
      fed := [];
    }

    /** The words of the block, as the schedule begins. */
    method LoadBlock(w: array<Word>)
      requires Shape() && w.Length == 80
      modifies w
      ensures forall t :: 0 <= t < 16 ==> w[t] == W(block[..], 0, t)
    {
      ghost var s := block[..];
      var i := 0;
      while i < 16
        invariant i <= 16 && block[..] == s
        invariant forall t :: 0 <= t < i ==> w[t] == W(s, 0, t)
      {
        w[i] := Load(block[i * 4 + 0], block[i * 4 + 1], block[i * 4 + 2], block[i * 4 + 3]);
        i := i + 1;
      }
    }

    /** The message schedule, built up in an array. */
    method Schedule() returns (w: array<Word>)
      requires Shape()
      ensures fresh(w) && w.Length == 80
      ensures forall t :: 0 <= t < 80 ==> w[t] == W(block[..], 0, t)
    {
      w := new Word[80];
      LoadBlock(w);
      ghost var s := block[..];
      var i := 16;
      while i < 80
        invariant 16 <= i <= 80 && block[..] == s
        invariant forall t {:trigger w[t]} :: 0 <= t < i ==> w[t] == W(s, 0, t)
      {
        var x := CodeExpand(w[i - 3], w[i - 8], w[i - 14], w[i - 16]);
        assert x == W(s, 0, i);
        w[i] := x;
        i := i + 1;
      }
    }

    method ProcessBlock()
      requires Shape()
      modifies digest
      ensures Value() == Add(old(Value()), Rounds(block[..], 0, old(Value()), 80))
    {
      var w := Schedule();
      var v := Value();
      ghost var s, h := block[..], v;
      var i := 0;
      while i < 80
        invariant i <= 80 && v == Rounds(s, 0, h, i)
        modifies {}
      {
        v := Step(i, v, w[i]);
        i := i + 1;
      }
      var r := Add(Value(), v);
      digest[0], digest[1], digest[2], digest[3], digest[4] := r.a, r.b, r.c, r.d, r.e;
    }

    method ProcessByte(octet: Byte)
      requires Valid()
      modifies this, digest, block
      ensures Valid() && fed == old(fed) + [octet]
      ensures blockByteIndex == if old(blockByteIndex) == 63 then 0 else old(blockByteIndex) + 1
    {
      PutByte(octet);
      if blockByteIndex == 64 {
        Flush();
      }
    }

    /** The next byte joins the buffer. */
    method PutByte(octet: Byte)
      requires Valid()
      modifies this`blockByteIndex, this`byteCount, this`fed, block
      ensures Holds() && fed == old(fed) + [octet] && blockByteIndex == old(blockByteIndex) + 1
    {
      ghost var taken := |fed| - blockByteIndex;
      BlocksOfPrefix(fed, fed + [octet], taken / 64);
      assert (fed + [octet])[taken..] == fed[taken..] + [octet];
      ghost var rest := block[..blockByteIndex];
      block[blockByteIndex] := octet;
      assert block[..blockByteIndex + 1] == rest + [octet];
      blockByteIndex := blockByteIndex + 1;
      byteCount := byteCount + 1;
      fed := fed + [octet];
    }

    /** The buffer is full: `process_block` takes it in. */
    method Flush()
      requires Holds() && blockByteIndex == 64
      modifies this`blockByteIndex, digest
      ensures Valid() && blockByteIndex == 0
    {
      blockByteIndex := 0;
      ProcessBlock();
      LastBlock(fed, block[..]);
    }

    method ProcessBytes(data: seq<Byte>)
      requires Valid()
      modifies this, digest, block
      ensures Valid() && fed == old(fed) + data
    {
      var i := 0;
      while i < |data|
        invariant i <= |data| && Valid() && fed == old(fed) + data[..i]
      {
        ProcessByte(data[i]);
        OneMore(old(fed), data, i);
        i := i + 1;
      }
      assert data[..i] == data;
    }

    /** Zero bytes up to byte 56 of a block, past the end of this one if it is beyond that. */
    method FillWithZeros()
      requires Valid()
      modifies this, digest, block
      ensures Valid() && blockByteIndex == 56
      ensures fed == old(fed) + Zeros(ToByte56(old(blockByteIndex)))
    {
      if blockByteIndex > 56 {
        ghost var z := 64 - blockByteIndex;
        FinishBlock();
        FillTo56();
        assert Zeros(z) + Zeros(56) == Zeros(z + 56);
      } else {
        FillTo56();
      }
    }

    method FinishBlock()
      requires Valid() && blockByteIndex != 0
      modifies this, digest, block
      ensures Valid() && blockByteIndex == 0 && fed == old(fed) + Zeros(64 - old(blockByteIndex))
    {
      while blockByteIndex != 0
        invariant Valid() && |old(fed)| <= |fed| && fed == old(fed) + Zeros(|fed| - |old(fed)|)
        invariant |fed| - |old(fed)| == (if blockByteIndex == 0 then 64 else blockByteIndex) - old(blockByteIndex)
        decreases if blockByteIndex == 0 then 0 else 64 - blockByteIndex
      {
        OneMoreZero(|fed| - |old(fed)|);
        ProcessByte(0);
      }
    }

    method FillTo56()
      requires Valid() && blockByteIndex <= 56
      modifies this, digest, block
      ensures Valid() && blockByteIndex == 56 && fed == old(fed) + Zeros(56 - old(blockByteIndex))
    {
      while blockByteIndex < 56
        invariant Valid() && |old(fed)| <= |fed| && fed == old(fed) + Zeros(|fed| - |old(fed)|)
        invariant blockByteIndex <= 56 && |fed| - |old(fed)| == blockByteIndex - old(blockByteIndex)
      {
        OneMoreZero(|fed| - |old(fed)|);
        ProcessByte(0);
      }
    }

    /** Four zero bytes and the low half of the bit count. */
    method AppendCount(bitCount: nat)
      requires Valid() && blockByteIndex == 56
      modifies this, digest, block
      ensures Valid() && blockByteIndex == 0 && fed == old(fed) + (Zeros(4) + Length32(bitCount))
    {
      ProcessBytes(Zeros(4) + Length32(bitCount));
    }

    /** The padding of `get_digest`; it stays in the hasher. */
    method Pad()
      requires Valid()
      modifies this, digest, block
      ensures Valid() && blockByteIndex == 0 && fed == old(fed) + Appended(old(fed))
    {
      ghost var msg := fed;
      GapIsToByte56(|msg|, blockByteIndex);
      AppendedInTurn(msg);
      var bitCount := byteCount * 8;
      ProcessByte(0x80);
      FillWithZeros();
      AppendCount(bitCount);
    }

    method GetDigest() returns (r: Digest)
      requires Valid()
      modifies this, digest, block
      ensures Valid() && fed == old(fed) + Appended(old(fed))
      ensures r == Streamed(old(fed))
      ensures |old(fed)| < 0x2000_0000 ==> r == Hash(old(fed))
    {
      Pad();
      r := Value();
      StreamedIsHash(old(fed));
    }
  }

  lemma OneMore(s: seq<Byte>, data: seq<Byte>, i: nat)
    requires i < |data|
    ensures s + data[..i] + [data[i]] == s + data[..i + 1]
  {
  }

  /** What the hasher answers once `msg` was fed. */
  function Streamed(msg: seq<Byte>): Digest {
    Blocks(msg + Appended(msg), (|msg| + |Appended(msg)|) / 64)
  }

  lemma StreamedIsHash(msg: seq<Byte>)
    ensures |msg| < 0x2000_0000 ==> Streamed(msg) == Hash(msg)
  {
    if |msg| < 0x2000_0000 {
      PadsRightly(msg);
    }
  }

  lemma AppendedInTurn(msg: seq<Byte>)
    ensures msg + [0x80] + Zeros(Gap(|msg|)) + (Zeros(4) + Length32(|msg| * 8)) == msg + Appended(msg)
  {
  }

  /** The zero bytes from byte `i` of a block to byte 56 of the next place that has one. */
  function ToByte56(i: nat): nat
    requires i < 64
  {
    if i > 56 then 120 - i else 56 - i
  }

  lemma GapIsToByte56(n: nat, i: nat)
    requires i < 64 && i <= n && (n - i) % 64 == 0
    ensures Gap(n) == ToByte56(if i == 63 then 0 else i + 1)
  {
  }
}
