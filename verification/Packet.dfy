/** protocol/parser_module.hpp: packets and their wire format. */
module Packets {
  import Modular
  import opened Options

  // ---- numbers as digit strings ----

  function Pow(d: nat, n: nat): (r: nat)
    ensures 0 < d ==> 0 < r
  {
    if n == 0 then 1 else Pow(d, n - 1) * d
  }

  /** What a `char` of one byte is worth as a number, signed as on the hosts that the programs are built for. */
  function SignedByte(c: char): (r: int)
    ensures c as int < 256 ==> -128 <= r < 128 && (r - c as int) % 256 == 0
  {
    if c as int < 128 then c as int else c as int - 256
  }

  /** A byte's distance to '0'. */
  function Digit(c: char): int {
    SignedByte(c) - '0' as int
  }

  /** Quotient and remainder by repeated subtraction, as Division says. */
  function High(d: nat, n: nat): nat
    requires 0 < d
    decreases n
  {
    if n < d then 0 else 1 + High(d, n - d)
  }

  function Low(d: nat, n: nat): (r: nat)
    requires 0 < d
    ensures r < d
    decreases n
  {
    if n < d then n else Low(d, n - d)
  }

  lemma {:induction false} Rejoin(d: nat, n: nat)
    requires 0 < d
    ensures High(d, n) * d + Low(d, n) == n
    decreases n
  {
    if n >= d {
      Rejoin(d, n - d);
      Distribute(1, 1, High(d, n - d), d);
    }
  }

  lemma Division(d: nat, n: nat)
    requires 0 < d
    ensures n / d == High(d, n) && n % d == Low(d, n)
  {
    Rejoin(d, n);
    Modular.Unique(d, n / d, n % d, High(d, n), Low(d, n));
  }

  /** The character for the digit `v`, cut to a byte. */
  function Written(v: nat): (c: char)
    ensures v < 80 ==> Digit(c) == v
  {
    (('0' as int + v) % 256) as char
  }

  /** The `len` low digits of `n` in base `d`, most significant first. */
  function Digits(d: nat, n: nat, len: nat): (r: string)
    requires 0 < d
    ensures |r| == len
    decreases len, n
  {
    if len == 0 then "" else Digits(d, High(d, n), len - 1) + [Written(Low(d, n))]
  }

  /** What the digits s[lo..hi] are worth in base `d`; any other character counts as its distance to '0'. */
  function Value(d: nat, s: string, lo: nat, hi: nat): int
    requires lo <= hi <= |s|
  {
    if lo == hi then 0 else Value(d, s, lo, hi - 1) * d + Digit(s[hi - 1])
  }

  /** Repeated division by `d` uses `n` up within `len` digits. */
  predicate Fits(d: nat, n: nat, len: nat)
    requires 0 < d
    decreases len
  {
    if len == 0 then n == 0 else Fits(d, High(d, n), len - 1)
  }

  lemma {:induction false} FitsBelowPow(d: nat, n: nat, len: nat)
    requires 0 < d && n < Pow(d, len)
    ensures Fits(d, n, len)
    decreases len
  {
    if len > 0 {
      Rejoin(d, n);
      Modular.MulGrows(High(d, n), Pow(d, len - 1), d);
      FitsBelowPow(d, High(d, n), len - 1);
    }
  }

  lemma {:induction false} ValueOfDigits(d: nat, n: nat, s: string, lo: nat, hi: nat)
    requires 0 < d <= 80 && lo <= hi <= |s| && n < Pow(d, hi - lo)
    requires s[lo..hi] == Digits(d, n, hi - lo)
    ensures Value(d, s, lo, hi) == n
  {
    FitsBelowPow(d, n, hi - lo);
    ValueOfFitting(d, n, s, lo, hi);
  }

  lemma {:induction false} ValueOfFitting(d: nat, n: nat, s: string, lo: nat, hi: nat)
    requires 0 < d <= 80 && lo <= hi <= |s| && Fits(d, n, hi - lo)
    requires s[lo..hi] == Digits(d, n, hi - lo)
    ensures Value(d, s, lo, hi) == n
    decreases hi
  {
    if lo < hi {
      var high := LastDigit(d, n, s, lo, hi);
      ValueOfFitting(d, high, s, lo, hi - 1);
    }
  }

  lemma LastDigit(d: nat, n: nat, s: string, lo: nat, hi: nat) returns (high: nat)
    requires 0 < d <= 80 && lo < hi <= |s| && Fits(d, n, hi - lo)
    requires s[lo..hi] == Digits(d, n, hi - lo)
    ensures Fits(d, high, hi - 1 - lo) && s[lo..hi - 1] == Digits(d, high, hi - 1 - lo)
    ensures high * d + Digit(s[hi - 1]) == n
  {
    high := High(d, n);
    Rejoin(d, n);
    LastOfSlice(s, lo, hi, Digits(d, high, hi - 1 - lo), Written(Low(d, n)));
  }

  lemma LastOfSlice(s: string, lo: nat, hi: nat, init: string, c: char)
    requires lo < hi <= |s| && s[lo..hi] == init + [c]
    ensures s[lo..hi - 1] == init && s[hi - 1] == c
  {
    var all := s[lo..hi];
    assert all[hi - lo - 1] == s[hi - 1] && all[..hi - lo - 1] == s[lo..hi - 1];
  }

  // ---- which characters these are ----

  /** Dividing by `d` and then by `m` is dividing by their product. */
  lemma DivideTwice(n: nat, d: nat, m: nat)
    requires 0 < d && 0 < m && 0 < m * d
    ensures High(d, n) / m == n / (m * d)
  {
    Rejoin(d, n);
    var high := High(d, n);
    var q, r := high / m, high % m;
    assert high == q * m + r;
    Nested(q, m, r, d, Low(d, n));
    Quotient(n, m * d, q, r * d + Low(d, n));
  }

  lemma Nested(q: nat, m: nat, r: nat, d: nat, low: nat)
    requires r < m && low < d
    ensures (q * m + r) * d + low == q * (m * d) + (r * d + low) && r * d + low < m * d
  {
    Distribute(q, m, r, d);
    Modular.MulGrows(m, r + 1, d);
  }

  lemma Quotient(n: nat, d: nat, q: nat, r: nat)
    requires r < d && n == q * d + r
    ensures n / d == q
  {
    Division(d, n);
    Rejoin(d, n);
    Modular.Unique(d, q, r, High(d, n), Low(d, n));
  }

  /** The number that is left when the digits behind the `k`-th are cut off. */
  function Front(d: nat, n: nat, j: nat): nat
    requires 0 < d
  {
    n / Pow(d, j)
  }

  lemma FrontOfHigh(d: nat, n: nat, j: nat)
    requires 0 < d
    ensures Front(d, High(d, n), j) == Front(d, n, j + 1)
  {
    DivideTwice(n, d, Pow(d, j));
  }

  lemma {:induction false} DigitOfFront(d: nat, n: nat, len: nat, k: nat)
    requires 0 < d && k < len
    ensures Digits(d, n, len)[k] == Written(Low(d, Front(d, n, len - 1 - k)))
    decreases len
  {
    if k == len - 1 {
      assert Pow(d, 0) == 1 && n / 1 == n;
    } else {
      DigitOfFront(d, High(d, n), len - 1, k);
      FrontOfHigh(d, n, len - 2 - k);
    }
  }

  /** The `k`-th digit belongs to the power of `d` at its place; '0' is the character of 0, and they ascend. */
  lemma DigitAt(d: nat, n: nat, len: nat, k: nat)
    requires 0 < d && k < len
    ensures Digits(d, n, len)[k] as int == ('0' as int + n / Pow(d, len - 1 - k) % d) % 256
  {
    DigitOfFront(d, n, len, k);
    Division(d, Front(d, n, len - 1 - k));
  }

  /** The sum of the characters' distances to '0', each times the power of `d` at its place. */
  function Sum(d: nat, s: string, lo: nat, hi: nat): int
    requires lo <= hi <= |s|
    decreases hi - lo
  {
    if lo == hi then 0 else Pow(d, hi - lo - 1) * (SignedByte(s[lo]) - 48) + Sum(d, s, lo + 1, hi)
  }

  lemma {:induction false} ValueIsSum(d: nat, s: string, lo: nat, hi: nat)
    requires lo <= hi <= |s|
    ensures Value(d, s, lo, hi) == Sum(d, s, lo, hi)
    decreases hi - lo
  {
    if lo < hi {
      ValueFront(d, s, lo, hi);
      ValueIsSum(d, s, lo + 1, hi);
    }
  }

  function Reversed(s: string): (r: string)
    ensures |r| == |s|
  {
    seq(|s|, i requires 0 <= i < |s| => s[|s| - 1 - i])
  }

  /** `conv_to_string`: digits come out backwards and are reversed at the end. */
  method ConvToString(d: nat, n: nat, len: nat) returns (str: string)
    requires 0 < d
    ensures str == Digits(d, n, len)
    ensures forall k :: 0 <= k < len ==> str[k] as int == ('0' as int + n / Pow(d, len - 1 - k) % d) % 256
  {
    str := "";
    var m: nat, i: nat := n, 0;
    while i != len
      invariant 0 <= i <= len
      invariant Digits(d, n, len) == Digits(d, m, len - i) + Reversed(str)
    {
      Division(d, m);
      var c := Written(m % d);
      assert Reversed(str + [c]) == [c] + Reversed(str);
      assert Digits(d, m, len - i) + Reversed(str) == Digits(d, m / d, len - i - 1) + ([c] + Reversed(str));
      str := str + [c];
      m := m / d;
      i := i + 1;
    }
    str := Reversed(str);
    forall k | 0 <= k < len
      ensures str[k] as int == ('0' as int + n / Pow(d, len - 1 - k) % d) % 256
    {
      DigitAt(d, n, len, k);
    }
  }

  lemma {:induction false} ValueFront(d: nat, s: string, lo: nat, hi: nat)
    requires lo < hi <= |s|
    ensures Value(d, s, lo, hi) == Pow(d, hi - lo - 1) * Digit(s[lo]) + Value(d, s, lo + 1, hi)
  {
    if lo + 1 == hi {
      assert Value(d, s, lo, hi - 1) == 0 && Pow(d, 0) == 1;
    } else {
      ValueFront(d, s, lo, hi - 1);
      Distribute(Pow(d, hi - lo - 2), Digit(s[lo]), Value(d, s, lo + 1, hi - 1), d);
    }
  }

  lemma Distribute(a: int, b: int, c: int, d: int)
    ensures (a * b + c) * d == a * d * b + c * d
  {
  }

  const WORD := 0x1_0000_0000_0000_0000

  lemma AddLaps(x: int, m: int, w: nat)
    requires 0 < w
    ensures (x + m * w) % w == x % w
  {
    assert x == w * (x / w) + x % w;
    Modular.DivModUnique(x + m * w, x / w + m, x % w, w);
  }

  /** Reducing the operands does not change the reduced sum of products. */
  lemma ReducedSum(a: int, b: int, c: int)
    ensures (a % WORD + b % WORD * c) % WORD == (a + b * c) % WORD
  {
    SameRemainder(a / WORD, a % WORD, b / WORD, b % WORD, c, WORD);
  }

  lemma SameRemainder(k: int, r: int, l: int, t: int, c: int, w: nat)
    requires 0 < w
    ensures (r + t * c) % w == (w * k + r + (w * l + t) * c) % w
  {
    Rejoined(k, r, l, t, c, w);
    AddLaps(r + t * c, l * c + k, w);
  }

  lemma Rejoined(k: int, r: int, l: int, t: int, c: int, w: int)
    ensures w * k + r + (w * l + t) * c == r + t * c + (l * c + k) * w
  {
    Distribute(w, l, t, c);
    Distribute(l, c, k, w);
    assert w * l * c == l * c * w;
  }

  lemma LowBits(v: int)
    ensures v % WORD % 0x10000 == v % 0x10000
  {
    AddLaps(v % WORD, v / WORD * 0x1_0000_0000_0000, 0x10000);
  }

  /** `conv_to_ten_digits`: adds up the digits buffer[lo..hi] from the least significant one, in 64 bits. */
  method ConvToTenDigits(d: nat, buffer: string, lo: nat, hi: nat) returns (res: nat)
    requires lo <= hi <= |buffer|
    ensures res == Value(d, buffer, lo, hi) % WORD == Sum(d, buffer, lo, hi) % WORD
    ensures res % 0x10000 == Value(d, buffer, lo, hi) % 0x10000
  {
    res := 0;
    var base := 1;
    var i := hi;
    while i > lo
      invariant lo <= i <= hi
      invariant base == Pow(d, hi - i) % WORD && res == Value(d, buffer, i, hi) % WORD
    {
      i := i - 1;
      ValueFront(d, buffer, i, hi);
      ReducedSum(Value(d, buffer, i + 1, hi), Pow(d, hi - i - 1), Digit(buffer[i]));
      ReducedSum(0, Pow(d, hi - i - 1), d);
      res := (res + base * Digit(buffer[i])) % WORD;
      base := base * d % WORD;
    }
    LowBits(Value(d, buffer, lo, hi));
    ValueIsSum(d, buffer, lo, hi);
  }

  predicate Binary(s: string) {
    forall i :: 0 <= i < |s| ==> s[i] == '0' || s[i] == '1'
  }

  lemma {:induction false} DigitsOfValue(s: string, lo: nat, hi: nat)
    requires lo <= hi <= |s| && Binary(s[lo..hi])
    ensures 0 <= Value(2, s, lo, hi) < Pow(2, hi - lo)
    ensures Digits(2, Value(2, s, lo, hi), hi - lo) == s[lo..hi]
  {
    if lo < hi {
      BinaryLast(s, lo, hi);
      DigitsOfValue(s, lo, hi - 1);
      Halve(Value(2, s, lo, hi - 1), Digit(s[hi - 1]));
    }
  }

  lemma BinaryLast(s: string, lo: nat, hi: nat)
    requires lo < hi <= |s| && Binary(s[lo..hi])
    ensures Binary(s[lo..hi - 1]) && s[lo..hi] == s[lo..hi - 1] + [s[hi - 1]]
    ensures 0 <= Digit(s[hi - 1]) < 2 && Written(Digit(s[hi - 1])) == s[hi - 1]
  {
    var all, init, c := s[lo..hi], s[lo..hi - 1], s[hi - 1];
    assert all == init + [c] && all[hi - lo - 1] == c;
    assert forall i :: 0 <= i < |init| ==> init[i] == all[i];
  }

  lemma Halve(v: nat, bit: nat)
    requires bit < 2
    ensures High(2, v * 2 + bit) == v && Low(2, v * 2 + bit) == bit
  {
    Rejoin(2, v * 2 + bit);
  }

  lemma {:induction false} DigitsAreBinary(n: nat, len: nat)
    ensures Binary(Digits(2, n, len))
    decreases len
  {
    if len > 0 {
      DigitsAreBinary(High(2, n), len - 1);
    }
  }

  lemma Pow16()
    ensures Pow(2, 16) == 0x10000
  {
    assert Pow(2, 4) == 16;
    assert Pow(2, 8) == Pow(2, 4) * 16;
    assert Pow(2, 12) == Pow(2, 8) * 16;
  }

  // ---- packets on the wire ----

  datatype Fields = Fields(seqNo: nat, ack: nat, control: string, notice: nat, check: nat, message: string) {
    /** What the fields of a packet can hold. */
    predicate Fits() {
      seqNo < 0x10000 && ack < 0x10000 && |control| == 6 && notice < 0x10000 && check < 0x10000
    }
  }

  const MIN_SIZE := 70

  function Encode(f: Fields): string {
    Digits(2, f.seqNo, 16) + Digits(2, f.ack, 16) + f.control +
    Digits(2, f.notice, 16) + Digits(2, f.check, 16) + f.message
  }

  /** A number field as the packet keeps it: the low 16 bits. */
  function Number(s: string, at: nat): (n: nat)
    requires at + 16 <= |s|
    ensures n < 0x10000
  {
    Value(2, s, at, at + 16) % 0x10000
  }

  function Decode(s: string): Option<Fields> {
    if |s| < MIN_SIZE then None
    else Some(Fields(Number(s, 0), Number(s, 16), s[32..38], Number(s, 38), Number(s, 54), s[70..]))
  }

  lemma NumberOfDigits(n: nat, s: string, at: nat)
    requires n < 0x10000 && at + 16 <= |s| && s[at..at + 16] == Digits(2, n, 16)
    ensures Number(s, at) == n
  {
    Pow16();
    ValueOfDigits(2, n, s, at, at + 16);
  }

  /** The fields of an encoded packet, where `Decode` looks for them. */
  lemma Layout(a: string, b: string, c: string, d: string, e: string, m: string)
    requires |a| == |b| == |d| == |e| == 16 && |c| == 6
    ensures var s := a + b + c + d + e + m;
            && |s| == MIN_SIZE + |m| && s[..16] == a && s[16..32] == b && s[32..38] == c
            && s[38..54] == d && s[54..70] == e && s[70..] == m
  {
  }

  lemma Assembled(a: string, b: string, c: string, d: string, e: string, m: string, s: string)
    requires |a| == |b| == |d| == |e| == 16 && |c| == 6 && MIN_SIZE <= |s|
    ensures a + b + c + d + e + m == s <==>
            a == s[..16] && b == s[16..32] && c == s[32..38] && d == s[38..54] && e == s[54..70] && m == s[70..]
  {
    Layout(a, b, c, d, e, m);
    assert s == s[..16] + s[16..32] + s[32..38] + s[38..54] + s[54..70] + s[70..];
  }

  /** Feeding a packet its own wire form restores every field. */
  lemma DecodeOfEncode(f: Fields)
    requires f.Fits()
    ensures |Encode(f)| == MIN_SIZE + |f.message| && Decode(Encode(f)) == Some(f)
  {
    Layout(Digits(2, f.seqNo, 16), Digits(2, f.ack, 16), f.control,
           Digits(2, f.notice, 16), Digits(2, f.check, 16), f.message);
    NumberOfDigits(f.seqNo, Encode(f), 0);
    NumberOfDigits(f.ack, Encode(f), 16);
    NumberOfDigits(f.notice, Encode(f), 38);
    NumberOfDigits(f.check, Encode(f), 54);
  }

  /** The bit of `n` that the `k`-th of sixteen binary digits stands for. */
  predicate Bit(n: nat, k: nat)
    requires k < 16
  {
    n / Pow(2, 15 - k) % 2 == 1
  }

  lemma BitAt(n: nat, k: nat)
    requires k < 16
    ensures Digits(2, n, 16)[k] == if Bit(n, k) then '1' else '0'
  {
    DigitAt(2, n, 16, k);
  }

  /** Every character of a packet on the wire, `k` being the place in a number field. */
  lemma EncodedBits(f: Fields, k: nat)
    requires f.Fits() && k < 16
    ensures |Encode(f)| == 70 + |f.message|
    ensures Encode(f)[k] == if f.seqNo / Pow(2, 15 - k) % 2 == 1 then '1' else '0'
    ensures Encode(f)[16 + k] == if f.ack / Pow(2, 15 - k) % 2 == 1 then '1' else '0'
    ensures Encode(f)[32..38] == f.control
    ensures Encode(f)[38 + k] == if f.notice / Pow(2, 15 - k) % 2 == 1 then '1' else '0'
    ensures Encode(f)[54 + k] == if f.check / Pow(2, 15 - k) % 2 == 1 then '1' else '0'
    ensures Encode(f)[70..] == f.message
  {
    var a, b, d, e := Digits(2, f.seqNo, 16), Digits(2, f.ack, 16), Digits(2, f.notice, 16), Digits(2, f.check, 16);
    Layout(a, b, f.control, d, e, f.message);
    FieldAt(Encode(f), 0, a, k);
    FieldAt(Encode(f), 16, b, k);
    FieldAt(Encode(f), 38, d, k);
    FieldAt(Encode(f), 54, e, k);
    BitAt(f.seqNo, k);
    BitAt(f.ack, k);
    BitAt(f.notice, k);
    BitAt(f.check, k);
  }

  lemma FieldAt(s: string, at: nat, field: string, k: nat)
    requires at + 16 <= |s| && s[at..at + 16] == field && k < 16
    ensures |field| == 16 && s[at + k] == field[k]
  {
    assert s[at..at + 16][k] == s[at + k];
  }

  /** The bits that are read from a datagram whose number fields are binary digits, and what else is taken from it. */
  lemma DecodedBits(s: string, k: nat)
    requires 70 <= |s| && k < 16
    requires Binary(s[..16]) && Binary(s[16..32]) && Binary(s[38..54]) && Binary(s[54..70])
    ensures Decode(s).Some?
    ensures var f := Decode(s).value;
            && f.control == s[32..38] && f.message == s[70..]
            && (f.seqNo / Pow(2, 15 - k) % 2 == 1 <==> s[k] == '1')
            && (f.ack / Pow(2, 15 - k) % 2 == 1 <==> s[16 + k] == '1')
            && (f.notice / Pow(2, 15 - k) % 2 == 1 <==> s[38 + k] == '1')
            && (f.check / Pow(2, 15 - k) % 2 == 1 <==> s[54 + k] == '1')
  {
    EncodeOfDecode(s);
    EncodedBits(Decode(s).value, k);
  }

  lemma NumberBinary(s: string, at: nat)
    requires at + 16 <= |s|
    ensures Digits(2, Number(s, at), 16) == s[at..at + 16] <==> Binary(s[at..at + 16])
  {
    DigitsAreBinary(Number(s, at), 16);
    if Binary(s[at..at + 16]) {
      BinaryNumber(s, at);
      DigitsOfValue(s, at, at + 16);
    }
  }

  lemma BinaryNumber(s: string, at: nat)
    requires at + 16 <= |s| && Binary(s[at..at + 16])
    ensures Number(s, at) == Value(2, s, at, at + 16)
  {
    Pow16();
    DigitsOfValue(s, at, at + 16);
  }

  /** An accepted datagram is reproduced exactly if its four number fields are binary digits. */
  lemma EncodeOfDecode(s: string)
    requires Decode(s).Some?
    ensures Decode(s).value.Fits()
    ensures Encode(Decode(s).value) == s <==>
            Binary(s[..16]) && Binary(s[16..32]) && Binary(s[38..54]) && Binary(s[54..70])
  {
    var f := Decode(s).value;
    NumberBinary(s, 0);
    NumberBinary(s, 16);
    NumberBinary(s, 38);
    NumberBinary(s, 54);
    Assembled(Digits(2, f.seqNo, 16), Digits(2, f.ack, 16), f.control,
              Digits(2, f.notice, 16), Digits(2, f.check, 16), f.message, s);
  }

  /** A number field of 16 digits, kept in 16 bits. */
  method TakeNumber(buffer: string, at: nat) returns (n: nat)
    requires at + 16 <= |buffer|
    ensures n == Number(buffer, at)
  {
    var value := ConvToTenDigits(2, buffer, at, at + 16);
    n := value % 0x10000;
  }

  // ---- the packet object ----

  datatype Endpoint = Endpoint(ip: string, port: nat)

  datatype PacketKind = ErrorPacket | RecvData | RecvAck | SendData | SendAck | StrangePacket

  class MsgPacket {
    var seqNo: nat
    var ack: nat
    var control: string
    var noticeSize: nat
    var checkCode: nat
    var message: string
    var src: Endpoint
    var des: Endpoint
    const local: Endpoint

    ghost predicate Valid()
      reads this
    {
      View().Fits()
    }

    function View(): Fields
      reads this
    {
      Fields(seqNo, ack, control, noticeSize, checkCode, message)
    }

    constructor (local: Endpoint, src: Endpoint, des: Endpoint)
      ensures Valid() && this.local == local && this.src == src && this.des == des
      ensures View() == Fields(0, 0, "000000", 0, 0, "")
    {
      this.local, this.src, this.des := local, src, des;
      seqNo, ack, control, noticeSize, checkCode, message := 0, 0, "000000", 0, 0, "";
    }

    method Feed(buffer: string) returns (ok: bool)
      requires Valid()
      modifies this
      ensures Valid() && src == old(src) && des == old(des)
      ensures ok <==> Decode(buffer).Some?
      ensures View() == if ok then Decode(buffer).value else old(View())
    {
      if |buffer| < MIN_SIZE {
        return false;
      }
      seqNo := TakeNumber(buffer, 0);
      ack := TakeNumber(buffer, 16);
      control := buffer[32..38];
      noticeSize := TakeNumber(buffer, 38);
      checkCode := TakeNumber(buffer, 54);
      message := buffer[70..];
      return true;
    }

    method ToString() returns (str: string)
      ensures str == Encode(View())
    {
      str := ConvToString(2, seqNo, 16);
      var next := ConvToString(2, ack, 16);
      str := str + next + control;
      next := ConvToString(2, noticeSize, 16);
      str := str + next;
      next := ConvToString(2, checkCode, 16);
      str := str + next + message;
    }

    /** The `is_*_packet` tests, which exclude each other. */
    function Kind(): PacketKind
      requires |control| == 6
      reads this
    {
      if src == des then ErrorPacket
      else if control[1] != '0' && control[1] != '1' then StrangePacket
      else if local == des then (if control[1] == '1' then RecvAck else RecvData)
      else if control[1] == '1' then SendAck else SendData
    }

    method SetErrorPacket()
      requires Valid()
      modifies this
      ensures Valid() && Kind() == ErrorPacket && src == local
      ensures View() == old(View()).(control := "000000")
    {
      src, des := local, local;
      control := "000000";
    }

    method SetAckFlag()
      requires Valid()
      modifies this`control
      ensures Valid() && View() == old(View()).(control := old(control)[1 := '1'])
    {
      control := control[1 := '1'];
    }
  }
}
