/**
  The text form of a UUID (section 3 of RFC 4122) and name-based UUIDs (section 4.3), as
  http/http_uuid.hpp parses, prints and generates them.
 */
module Uuids {
  import opened Sha1

  datatype Variant = Ncs | Rfc | Microsoft | Reserved
  datatype Version = None | TimeBased | DceSecurity | NameBasedMd5 | RandomNumberBased | NameBasedSha1

  // ---- hexadecimal digits ----

  function Hex2Char(ch: char): (r: nat)
    ensures r < 16
  {
    if '0' <= ch <= '9' then ch as int - '0' as int
    else if 'a' <= ch <= 'f' then 10 + ch as int - 'a' as int
    else if 'A' <= ch <= 'F' then 10 + ch as int - 'A' as int
    else 0
  }

  predicate IsHex(ch: char) {
    '0' <= ch <= '9' || 'a' <= ch <= 'f' || 'A' <= ch <= 'F'
  }

  function HexPair2Char(a: char, b: char): Byte {
    ((Hex2Char(a) as Byte) << 4) | (Hex2Char(b) as Byte)
  }

  /** One digit as `std::hex` prints it. */
  function HexDigit(v: nat): (ch: char)
    requires v < 16
    ensures IsHex(ch) && Hex2Char(ch) == v && Lower(ch) == ch
  {
    if v < 10 then (v + '0' as int) as char else (v - 10 + 'a' as int) as char
  }

  function Lower(ch: char): char {
    if 'A' <= ch <= 'F' then (ch as int + 32) as char else ch
  }

  function High(x: Byte): nat {
    (x >> 4) as nat
  }

  function Low(x: Byte): nat {
    (x & 0xF) as nat
  }

  lemma NibblesOfByte(x: Byte)
    ensures High(x) < 16 && Low(x) < 16 && ((High(x) as Byte) << 4) | (Low(x) as Byte) == x
  {
    NibbleBits(x);
    NibbleAsNat(x >> 4);
    NibbleAsNat(x & 0xF);
  }

  lemma NibbleBits(x: Byte)
    ensures x >> 4 < 16 && x & 0xF < 16 && ((x >> 4) << 4) | (x & 0xF) == x
  {
  }

  lemma NibbleAsNat(v: Byte)
    requires v < 16
    ensures v as nat < 16 && (v as nat) as Byte == v
  {
  }

  lemma NibblesOfPair(a: char, b: char)
    ensures High(HexPair2Char(a, b)) == Hex2Char(a) && Low(HexPair2Char(a, b)) == Hex2Char(b)
  {
    var h, l := Hex2Char(a) as Byte, Hex2Char(b) as Byte;
    assert h < 16 && l < 16;
    assert ((h << 4) | l) >> 4 == h && ((h << 4) | l) & 0xF == l;
    assert h as nat == Hex2Char(a) && l as nat == Hex2Char(b);
  }

  // ---- printing ----

  /** Every byte as two digits. */
  function Hex(bytes: seq<Byte>): (r: string)
    ensures |r| == 2 * |bytes|
  {
    seq(2 * |bytes|, k requires 0 <= k < 2 * |bytes| =>
      NibblesOfByte(bytes[k / 2]); HexDigit(if k % 2 == 0 then High(bytes[k / 2]) else Low(bytes[k / 2])))
  }

  function ToShortStr(data: seq<Byte>): string
    requires |data| == 16
  {
    Hex(data)
  }

  function ToString(data: seq<Byte>): string
    requires |data| == 16
  {
    Hex(data[..4]) + "-" + Hex(data[4..6]) + "-" + Hex(data[6..8]) + "-" + Hex(data[8..10]) + "-" + Hex(data[10..])
  }

  // ---- which characters these are ----

  const LOWER_CASE := "0123456789abcdef"

  const UPPER_CASE := "0123456789ABCDEF"

  /** The digits that are printed and read, in ascending order. */
  lemma DigitsAscend(v: nat)
    requires v < 16
    ensures HexDigit(v) == LOWER_CASE[v] && Hex2Char(LOWER_CASE[v]) == Hex2Char(UPPER_CASE[v]) == v
  {
  }

  /** The high half of a byte is its first digit. */
  lemma PairIsByte(x: Byte)
    ensures High(x) < 16 && Low(x) < 16 && x as int == 16 * High(x) + Low(x)
  {
    NibblesOfByte(x);
  }

  /** Every character of the short form. */
  lemma ShortFormAt(data: seq<Byte>, i: nat)
    requires |data| == 16 && i < 16
    ensures |ToShortStr(data)| == 32 && High(data[i]) < 16 && Low(data[i]) < 16
    ensures ToShortStr(data)[2 * i] == LOWER_CASE[High(data[i])] && ToShortStr(data)[2 * i + 1] == LOWER_CASE[Low(data[i])]
  {
    NibblesOfByte(data[i]);
    DigitsAscend(High(data[i]));
    DigitsAscend(Low(data[i]));
    assert (2 * i) / 2 == i && (2 * i + 1) / 2 == i && (2 * i) % 2 == 0 && (2 * i + 1) % 2 == 1;
  }

  lemma HexOfPart(data: seq<Byte>, from: nat, to: nat, k: nat)
    requires from <= to <= |data| && 2 * from <= k < 2 * to
    ensures Hex(data[from..to])[k - 2 * from] == Hex(data)[k]
  {
    assert (k - 2 * from) / 2 == k / 2 - from && (k - 2 * from) % 2 == k % 2;
    assert data[from..to][k / 2 - from] == data[k / 2];
  }

  /** Every character of the long form: dashes behind 8, 12, 16 and 20 digits of the short one. */
  lemma LongFormAt(data: seq<Byte>, k: nat)
    requires |data| == 16 && k < 36
    ensures |ToString(data)| == 36 && |ToShortStr(data)| == 32
    ensures ToString(data)[k] == '-' <==> k in {8, 13, 18, 23}
    ensures k < 8 ==> ToString(data)[k] == ToShortStr(data)[k]
    ensures 8 < k < 13 ==> ToString(data)[k] == ToShortStr(data)[k - 1]
    ensures 13 < k < 18 ==> ToString(data)[k] == ToShortStr(data)[k - 2]
    ensures 18 < k < 23 ==> ToString(data)[k] == ToShortStr(data)[k - 3]
    ensures 23 < k ==> ToString(data)[k] == ToShortStr(data)[k - 4]
  {
    var digits := k - (if k <= 8 then 0 else if k <= 13 then 1 else if k <= 18 then 2 else if k <= 23 then 3 else 4);
    if k !in {8, 13, 18, 23} {
      PartOfLongForm(data, k, digits);
      NoDash(data, digits);
    } else {
      FiveParts(Hex(data[..4]), Hex(data[4..6]), Hex(data[6..8]), Hex(data[8..10]), Hex(data[10..]), k);
    }
  }

  lemma FiveParts(a: string, b: string, c: string, d: string, e: string, k: nat)
    requires |a| == 8 && |b| == |c| == |d| == 4 && |e| == 12 && k < 36
    ensures var s := a + "-" + b + "-" + c + "-" + d + "-" + e;
            && |s| == 36
            && s[k] == if k < 8 then a[k] else if k == 8 then '-' else if k < 13 then b[k - 9] else if k == 13 then '-'
                       else if k < 18 then c[k - 14] else if k == 18 then '-' else if k < 23 then d[k - 19]
                       else if k == 23 then '-' else e[k - 24]
  {
  }

  lemma PartOfLongForm(data: seq<Byte>, k: nat, digits: nat)
    requires |data| == 16 && k < 36 && k !in {8, 13, 18, 23}
    requires digits == k - (if k <= 8 then 0 else if k <= 13 then 1 else if k <= 18 then 2 else if k <= 23 then 3 else 4)
    ensures ToString(data)[k] == ToShortStr(data)[digits]
  {
    FiveParts(Hex(data[..4]), Hex(data[4..6]), Hex(data[6..8]), Hex(data[8..10]), Hex(data[10..]), k);
    if k < 8 {
      HexOfPart(data, 0, 4, digits);
    } else if k < 13 {
      HexOfPart(data, 4, 6, digits);
    } else if k < 18 {
      HexOfPart(data, 6, 8, digits);
    } else if k < 23 {
      HexOfPart(data, 8, 10, digits);
    } else {
      HexOfPart(data, 10, 16, digits);
    }
  }

  lemma NoDash(data: seq<Byte>, k: nat)
    requires |data| == 16 && k < 32
    ensures ToShortStr(data)[k] != '-'
  {
    assert IsHex(Hex(data)[k]);
  }

  // ---- parsing ----

  const NIL: seq<Byte> := Zeros(16)

  /** The first `n` characters without the dashes. */
  function Strip(str: string, n: nat): (r: string)
    requires n <= |str|
  {
    if n == 0 then ""
    else if str[n - 1] == '-' then Strip(str, n - 1)
    else Strip(str, n - 1) + [str[n - 1]]
  }

  function Stripped(str: string): string {
    Strip(str, |str|)
  }

  predicate AllHex(s: string) {
    forall k :: 0 <= k < |s| ==> IsHex(s[k])
  }

  function Pairs(s: string): (r: seq<Byte>)
    ensures |r| == |s| / 2
  {
    seq(|s| / 2, k requires 0 <= k < |s| / 2 => HexPair2Char(s[2 * k], s[2 * k + 1]))
  }

  predicate IsUuidText(str: string) {
    var s := Stripped(str);
    |s| == 32 && AllHex(s)
  }

  /** What a text means: 32 digits, dashes anywhere, or nothing. */
  function Parse(str: string): (r: seq<Byte>)
    ensures |r| == 16
  {
    if IsUuidText(str) then Pairs(Stripped(str)) else NIL
  }

  class Uuid {
    const data: array<Byte>

    constructor (str: string)
      ensures data[..] == Parse(str) && data.Length == 16 && fresh(data)
    {
      data := new Byte[16](_ => 0);
      new;
      Create(str);
    }

    /** `std::fill` */
    method Clear()
      modifies data
      ensures data[..] == Zeros(data.Length)
    {
      forall i | 0 <= i < data.Length {
        data[i] := 0;
      }
    }

    /** `index` bytes were read from the digits `s`, and `digit` is left over if a pair is half read. */
    ghost predicate Holds(s: string, index: nat, firstDigit: bool, digit: char)
      reads data
    {
      && index <= data.Length && AllHex(s) && |s| == 2 * index + (if firstDigit then 0 else 1)
      && (!firstDigit ==> index < data.Length && digit == s[2 * index])
      && data[..index] == Pairs(s)
    }

    method Create(str: string)
      requires data.Length == 16
      modifies data
      ensures data[..] == Parse(str)
    {
      var digit: char := '\0';
      var firstDigit := true;
      var index := 0;
      var i := 0;
      while i < |str|
        invariant i <= |str| && Holds(Strip(str, i), index, firstDigit, digit)
      {
        if str[i] == '-' {
          i := i + 1;
          continue;
        }
        if index >= 16 || !IsHex(str[i]) {
          BadDigit(str, i);
          Clear();
          return;
        }
        index, firstDigit, digit := TakeDigit(str[i], index, firstDigit, digit, Strip(str, i));
        i := i + 1;
      }
      EndOfText(str, index, firstDigit, digit);
      if index < 16 {
        Clear();
      }
    }

    lemma EndOfText(str: string, index: nat, firstDigit: bool, digit: char)
      requires data.Length == 16 && Holds(Stripped(str), index, firstDigit, digit)
      ensures if index < 16 then Parse(str) == NIL else data[..] == Parse(str)
    {
    }

    method TakeDigit(ch: char, index: nat, firstDigit: bool, digit: char, ghost s: string)
      returns (index': nat, firstDigit': bool, digit': char)
      requires Holds(s, index, firstDigit, digit) && index < data.Length && IsHex(ch)
      modifies data
      ensures Holds(s + [ch], index', firstDigit', digit')
    {
      index', firstDigit', digit' := index, firstDigit, digit;
      if firstDigit {
        digit' := ch;
        firstDigit' := false;
        assert Pairs(s + [ch]) == Pairs(s);
      } else {
        data[index] := HexPair2Char(digit, ch);
        index' := index + 1;
        firstDigit' := true;
        assert Pairs(s + [ch]) == Pairs(s) + [HexPair2Char(digit, ch)];
      }
    }
  }

  /** A character that is neither a dash nor the next of 32 digits spoils the text. */
  lemma BadDigit(str: string, i: nat)
    requires i < |str| && str[i] != '-' && (|Strip(str, i)| >= 32 || !IsHex(str[i]))
    ensures !IsUuidText(str) && Parse(str) == NIL
  {
    NotUuidText(str, i);
  }

  lemma NotUuidText(str: string, i: nat)
    requires i < |str| && str[i] != '-' && (|Strip(str, i)| >= 32 || !IsHex(str[i]))
    ensures !IsUuidText(str)
  {
    var s, s', all := Strip(str, i), Strip(str, i + 1), Stripped(str);
    StripGrows(str, i + 1);
    assert s' == s + [str[i]] && s' <= all;
    assert all[|s|] == str[i];
  }

  /** A longer prefix strips to a longer text. */
  lemma {:induction false} StripGrows(str: string, n: nat)
    requires n <= |str|
    ensures Strip(str, n) <= Stripped(str)
    decreases |str| - n
  {
    if n < |str| {
      StripGrows(str, n + 1);
    }
  }

  // ---- the two directions agree ----

  lemma {:induction false} StripConcat(s: string, t: string, n: nat)
    requires n <= |t|
    ensures Strip(s + t, |s| + n) == Strip(s, |s|) + Strip(t, n)
  {
    if n == 0 {
      StripPrefix(s, s + t, |s|);
    } else {
      StripConcat(s, t, n - 1);
    }
  }

  lemma {:induction false} StripPrefix(s: string, s': string, n: nat)
    requires n <= |s| && s <= s'
    ensures Strip(s, n) == Strip(s', n)
  {
    if n > 0 {
      StripPrefix(s, s', n - 1);
    }
  }

  lemma {:induction false} StripOfHex(s: string, n: nat)
    requires n <= |s| && AllHex(s)
    ensures Strip(s, n) == s[..n]
  {
    if n > 0 {
      StripOfHex(s, n - 1);
    }
  }

  lemma StrippedConcat(s: string, t: string)
    ensures Stripped(s + t) == Stripped(s) + Stripped(t)
  {
    StripConcat(s, t, |t|);
  }

  lemma StrippedHex(s: string)
    requires AllHex(s)
    ensures Stripped(s) == s
  {
    StripOfHex(s, |s|);
  }

  /** A dash between two texts leaves no trace. */
  lemma StrippedDash(s: string, t: string)
    requires AllHex(t)
    ensures Stripped(s + "-" + t) == Stripped(s) + t
  {
    StrippedConcat(s + "-", t);
    StrippedConcat(s, "-");
    assert Strip("-", 1) == Strip("-", 0);
    StrippedHex(t);
  }

  lemma HexIsHex(bytes: seq<Byte>)
    ensures AllHex(Hex(bytes))
  {
    forall k | 0 <= k < 2 * |bytes|
      ensures IsHex(Hex(bytes)[k])
    {
      NibblesOfByte(bytes[k / 2]);
    }
  }

  lemma HexConcat(x: seq<Byte>, y: seq<Byte>)
    ensures Hex(x + y) == Hex(x) + Hex(y)
  {
  }

  /** The dashes of the long form are all that it adds. */
  lemma StripOfGroups(p0: seq<Byte>, p1: seq<Byte>, p2: seq<Byte>, p3: seq<Byte>, p4: seq<Byte>)
    ensures var t := Hex(p0) + "-" + Hex(p1) + "-" + Hex(p2) + "-" + Hex(p3) + "-" + Hex(p4);
            Stripped(t) == Hex(p0) + Hex(p1) + Hex(p2) + Hex(p3) + Hex(p4)
  {
    var h0, h1, h2, h3, h4 := Hex(p0), Hex(p1), Hex(p2), Hex(p3), Hex(p4);
    HexIsHex(p0);
    HexIsHex(p1);
    HexIsHex(p2);
    HexIsHex(p3);
    HexIsHex(p4);
    StrippedHex(h0);
    StrippedDash(h0, h1);
    StrippedDash(h0 + "-" + h1, h2);
    StrippedDash(h0 + "-" + h1 + "-" + h2, h3);
    StrippedDash(h0 + "-" + h1 + "-" + h2 + "-" + h3, h4);
  }

  lemma StripOfToString(data: seq<Byte>)
    requires |data| == 16
    ensures Stripped(ToString(data)) == Hex(data)
  {
    var p0, p1, p2, p3, p4 := data[..4], data[4..6], data[6..8], data[8..10], data[10..];
    StripOfGroups(p0, p1, p2, p3, p4);
    HexConcat(p0, p1);
    HexConcat(p0 + p1, p2);
    HexConcat(p0 + p1 + p2, p3);
    HexConcat(p0 + p1 + p2 + p3, p4);
    assert data == p0 + p1 + p2 + p3 + p4;
  }

  lemma PairsOfHex(data: seq<Byte>)
    ensures Pairs(Hex(data)) == data
  {
    var s := Hex(data);
    forall i | 0 <= i < |data|
      ensures Pairs(s)[i] == data[i]
    {
      PairOfDigits(data[i]);
      assert (2 * i) / 2 == i && (2 * i + 1) / 2 == i;
    }
  }

  lemma PairOfDigits(x: Byte)
    ensures High(x) < 16 && Low(x) < 16 && HexPair2Char(HexDigit(High(x)), HexDigit(Low(x))) == x
  {
    NibblesOfByte(x);
  }

  lemma ParseOfDigits(str: string, data: seq<Byte>)
    requires |data| == 16 && Stripped(str) == Hex(data)
    ensures Parse(str) == data
  {
    HexIsHex(data);
    PairsOfHex(data);
  }

  /** Either printed form reads back as the bytes it was printed from. */
  lemma ParseOfPrinted(data: seq<Byte>)
    requires |data| == 16
    ensures Parse(ToString(data)) == data && Parse(ToShortStr(data)) == data
  {
    StripOfToString(data);
    ParseOfDigits(ToString(data), data);
    HexIsHex(data);
    StrippedHex(Hex(data));
    ParseOfDigits(ToShortStr(data), data);
  }

  lemma HexOfPairs(s: string, k: nat)
    requires |s| % 2 == 0 && AllHex(s) && k < |s|
    ensures Hex(Pairs(s))[k] == Lower(s[k])
  {
    var i := k / 2;
    NibblesOfPair(s[2 * i], s[2 * i + 1]);
    HexOfDigit(s[k]);
  }

  /** A text that is read prints as itself, without its dashes and in lower case. */
  lemma PrintedOfParse(str: string)
    requires IsUuidText(str)
    ensures |Stripped(str)| == 32 && |ToShortStr(Parse(str))| == 32
    ensures forall k :: 0 <= k < 32 ==> ToShortStr(Parse(str))[k] == Lower(Stripped(str)[k])
  {
    var s := Stripped(str);
    forall k | 0 <= k < 32
      ensures Hex(Pairs(s))[k] == Lower(s[k])
    {
      HexOfPairs(s, k);
    }
  }

  lemma HexOfDigit(ch: char)
    requires IsHex(ch)
    ensures HexDigit(Hex2Char(ch)) == Lower(ch)
  {
  }

  /** Two different values never print alike. */
  lemma PrintingIsInjective(x: seq<Byte>, y: seq<Byte>)
    requires |x| == |y| == 16
    ensures ToString(x) == ToString(y) ==> x == y
    ensures ToShortStr(x) == ToShortStr(y) ==> x == y
  {
    ParseOfPrinted(x);
    ParseOfPrinted(y);
  }

  // ---- variants, versions and names ----

  function VariantOf(data: seq<Byte>): Variant
    requires |data| == 16
  {
    if data[8] & 0x80 == 0x00 then Ncs
    else if data[8] & 0xC0 == 0x80 then Rfc
    else if data[8] & 0xE0 == 0xC0 then Microsoft
    else Reserved
  }

  function VersionOf(data: seq<Byte>): Version
    requires |data| == 16
  {
    if data[6] & 0xF0 == 0x10 then TimeBased
    else if data[6] & 0xF0 == 0x20 then DceSecurity
    else if data[6] & 0xF0 == 0x30 then NameBasedMd5
    else if data[6] & 0xF0 == 0x40 then RandomNumberBased
    else if data[6] & 0xF0 == 0x50 then NameBasedSha1
    else None
  }

  /** `bytes` with the variant of RFC 4122 and the version in the high half of `mark`. */
  function Marked(bytes: seq<Byte>, keep: Byte, mark: Byte): (r: seq<Byte>)
    requires |bytes| >= 16
    ensures |r| == 16
  {
    bytes[..16][8 := (bytes[8] & 0xBF) | 0x80][6 := (bytes[6] & keep) | mark]
  }

  lemma Marks(x: Byte)
    ensures ((x & 0xBF) | 0x80) & 0xC0 == 0x80 && ((x & 0xBF) | 0x80) & 0x3F == x & 0x3F
    ensures ((x & 0x5F) | 0x50) & 0xF0 == 0x50 && ((x & 0x5F) | 0x50) & 0x0F == x & 0x0F
    ensures ((x & 0x4F) | 0x40) & 0xF0 == 0x40 && ((x & 0x4F) | 0x40) & 0x0F == x & 0x0F
    ensures ((x & 0xBF) | 0x80) & 0x80 == 0x80
  {
  }

  /** Both generators set the variant and their version, and keep the other 122 bits. */
  lemma GeneratedMarks(bytes: seq<Byte>)
    requires |bytes| >= 16
    ensures VariantOf(Marked(bytes, 0x5F, 0x50)) == Rfc && VersionOf(Marked(bytes, 0x5F, 0x50)) == NameBasedSha1
    ensures VariantOf(Marked(bytes, 0x4F, 0x40)) == Rfc && VersionOf(Marked(bytes, 0x4F, 0x40)) == RandomNumberBased
    ensures Marked(bytes, 0x5F, 0x50)[8] & 0xC0 == Marked(bytes, 0x4F, 0x40)[8] & 0xC0 == 0x80
    ensures Marked(bytes, 0x5F, 0x50)[6] & 0xF0 == 0x50 && Marked(bytes, 0x4F, 0x40)[6] & 0xF0 == 0x40
    ensures forall m: seq<Byte> :: m == Marked(bytes, 0x5F, 0x50) || m == Marked(bytes, 0x4F, 0x40) ==>
              && m[8] & 0x3F == bytes[8] & 0x3F && m[6] & 0x0F == bytes[6] & 0x0F
              && forall i :: 0 <= i < 16 && i != 6 && i != 8 ==> m[i] == bytes[i]
  {
    Marks(bytes[8]);
    Marks(bytes[6]);
  }

  /** A word as four bytes, most significant first. */
  function WordBytes(x: Word): (r: seq<Byte>)
    ensures |r| == 4
  {
    [((x >> 24) & 0xFF) as Byte, ((x >> 16) & 0xFF) as Byte, ((x >> 8) & 0xFF) as Byte, (x & 0xFF) as Byte]
  }

  function DigestBytes(h: Digest): (r: seq<Byte>)
    ensures |r| == 20
  {
    WordBytes(h.a) + WordBytes(h.b) + WordBytes(h.c) + WordBytes(h.d) + WordBytes(h.e)
  }

  /** `get_digest_bytes` writes the words in the order that the message schedule reads them. */
  lemma JoinOfWordBytes(x: Word)
    ensures var r := WordBytes(x); Join(r[0], r[1], r[2], r[3]) == x
  {
    assert ((x >> 24) & 0xFF) < 256 && ((x >> 16) & 0xFF) < 256 && ((x >> 8) & 0xFF) < 256 && (x & 0xFF) < 256;
    assert (((x >> 24) & 0xFF) << 24) + (((x >> 16) & 0xFF) << 16) + (((x >> 8) & 0xFF) << 8) + (x & 0xFF) == x;
  }

  /** The four words that a generated value is made of, but for the marked bits in bytes 6 and 8. */
  lemma GeneratedWords(h: Digest) returns (x: Byte, y: Byte)
    ensures var u := Marked(DigestBytes(h), 0x5F, 0x50);
            && Join(u[0], u[1], u[2], u[3]) == h.a && Join(u[4], u[5], x, u[7]) == h.b
            && Join(y, u[9], u[10], u[11]) == h.c && Join(u[12], u[13], u[14], u[15]) == h.d
            && x & 0x0F == u[6] & 0x0F && y & 0x3F == u[8] & 0x3F
  {
    x, y := WordBytes(h.b)[2], WordBytes(h.c)[0];
    JoinOfWordBytes(h.a);
    JoinOfWordBytes(h.b);
    JoinOfWordBytes(h.c);
    JoinOfWordBytes(h.d);
    GeneratedMarks(DigestBytes(h));
    PlacesOfWords(h);
  }

  lemma PlacesOfWords(h: Digest)
    ensures var d := DigestBytes(h);
            d[..4] == WordBytes(h.a) && d[4..8] == WordBytes(h.b) && d[8..12] == WordBytes(h.c) && d[12..16] == WordBytes(h.d)
  {
  }

  /** `uuid_name_generator`; one object serves many names. */
  class NameGenerator {
    const nsuuid: seq<Byte>
    const hasher: Hasher

    ghost predicate Valid()
      reads this, hasher
    {
      |nsuuid| == 16 && hasher.Shape()
    }

    constructor (namespaceUuid: seq<Byte>)
      requires |namespaceUuid| == 16
      ensures Valid() && nsuuid == namespaceUuid
    {
      nsuuid := namespaceUuid;
      hasher := new Hasher();
    }

    /** Whatever was generated before, the value depends on the name space and the name alone. */
    method Generate(name: seq<Byte>) returns (u: seq<Byte>)
      requires Valid()
      modifies hasher, hasher.digest, hasher.block
      ensures Valid() && u == Marked(DigestBytes(Streamed(nsuuid + name)), 0x5F, 0x50)
      ensures |name| < 0x2000_0000 - 16 ==> u == Marked(DigestBytes(Hash(nsuuid + name)), 0x5F, 0x50)
      ensures exists x, y ::
                var h := Streamed(nsuuid + name);
                && Join(u[0], u[1], u[2], u[3]) == h.a && Join(u[4], u[5], x, u[7]) == h.b
                && Join(y, u[9], u[10], u[11]) == h.c && Join(u[12], u[13], u[14], u[15]) == h.d
                && x & 0x0F == u[6] & 0x0F && y & 0x3F == u[8] & 0x3F
    {
      hasher.Reset();
      hasher.ProcessBytes(nsuuid);
      hasher.ProcessBytes(name);
      assert hasher.fed == nsuuid + name;
      var d := hasher.GetDigest();
      u := Marked(DigestBytes(d), 0x5F, 0x50);
      ghost var x, y := GeneratedWords(d);
    }
  }
}
