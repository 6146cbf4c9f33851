/** http/http_parser.hpp: a request parser that is fed whatever bytes have arrived. */
module Http {
  import opened Options
  import opened Buffers

  datatype State = ParseLine | ParseHeader | ParseBody | ParseDone | ParseError
  datatype Method = Get | Post | Connect

  /** The fields of `HttpParser`; header names are kept in lower case, as `ci_map` compares them. */
  datatype Parser = Parser(
    state: State, verb: Method, rawUrl: string, reqUrl: string, body: string, version: (nat, nat),
    queries: map<string, string>, headers: map<string, string>)

  /** A parser as its initializers leave it. */
  const INITIAL := Parser(ParseLine, Get, "", "", "", (0, 0), map[], map[])

  // ---- characters and lines ----

  function ToLower(ch: char): char {
    if 'A' <= ch <= 'Z' then (ch as int + 32) as char else ch
  }

  function Lower(s: string): (r: string)
    ensures |r| == |s| && forall k :: 0 <= k < |s| ==> r[k] == ToLower(s[k])
  {
    seq(|s|, k requires 0 <= k < |s| => ToLower(s[k]))
  }

  /** `std::find`: the first `ch` at `from` or later, or the end. */
  function Find(s: string, ch: char, from: nat): (r: nat)
    requires from <= |s|
    ensures from <= r <= |s|
    decreases |s| - from
  {
    if from == |s| || s[from] == ch then from else Find(s, ch, from + 1)
  }

  lemma {:induction false} Found(s: string, ch: char, from: nat)
    requires from <= |s|
    ensures var r := Find(s, ch, from);
            (r < |s| ==> s[r] == ch) && forall i :: from <= i < r ==> s[i] != ch
    decreases |s| - from
  {
    if from < |s| && s[from] != ch {
      Found(s, ch, from + 1);
    }
  }

  predicate IsDigit(ch: char) {
    '0' <= ch <= '9'
  }

  function DigitValue(ch: char): nat
    requires IsDigit(ch)
  {
    ch as int - '0' as int
  }

  datatype RequestLine = RequestLine(verb: string, url: string, major: char, minor: char)

  /** What `^([^ ]+) ([^ ]+) HTTP/([0-9]).([0-9])\r\n$` captures in `s`; the dot matches no line terminator. */
  function MatchLine(s: string): (r: Option<RequestLine>)
    ensures r.Some? ==> IsDigit(r.value.major) && IsDigit(r.value.minor)
  {
    var i := Find(s, ' ', 0);
    if i == 0 || i == |s| then None
    else
      var j := Find(s, ' ', i + 1);
      var t := s[j..];
      if j > i + 1 && |t| == 11 && t[..6] == " HTTP/" && IsDigit(t[6]) && t[7] != '\n' && t[7] != '\r' && IsDigit(t[8])
         && t[9..] == "\r\n" then
        Some(RequestLine(s[..i], s[i + 1..j], t[6], t[8]))
      else None
  }

  /** What `^([^:]+): (.*)\r\n$` captures in `s`. */
  function MatchHeader(s: string): Option<(string, string)> {
    var i := Find(s, ':', 0);
    if 0 < i && i + 4 <= |s| && s[i + 1] == ' ' && s[|s| - 2..] == "\r\n"
       && Find(s[..|s| - 2], '\r', i + 2) == |s| - 2 && Find(s[..|s| - 2], '\n', i + 2) == |s| - 2 then
      Some((s[..i], s[i + 2..|s| - 2]))
    else None
  }

  predicate Without(s: string, ch: char) {
    forall i :: 0 <= i < |s| ==> s[i] != ch
  }

  /** `s` is of the form of the request-line pattern, and `line` is what its groups are. */
  ghost predicate LinePattern(s: string, line: RequestLine) {
    && line.verb != "" && Without(line.verb, ' ') && line.url != "" && Without(line.url, ' ')
    && IsDigit(line.major) && IsDigit(line.minor)
    && exists dot :: dot != '\n' && dot != '\r' && s == LineWith(line, dot)
  }

  function LineWith(line: RequestLine, dot: char): string {
    line.verb + (" " + (line.url + Version(line, dot)))
  }

  function Version(line: RequestLine, dot: char): (r: string)
    ensures |r| == 11
  {
    " HTTP/" + [line.major, dot, line.minor] + "\r\n"
  }

  /** The pattern splits a line in one way only, and that is how the model splits it. */
  lemma MatchLineIsPattern(s: string, line: RequestLine)
    ensures MatchLine(s) == Some(line) <==> LinePattern(s, line)
  {
    if MatchLine(s) == Some(line) {
      SplitsLine(s, line);
    }
    if LinePattern(s, line) {
      var dot :| dot != '\n' && dot != '\r' && s == LineWith(line, dot);
      JoinsLine(line, dot);
    }
  }

  lemma SplitsLine(s: string, line: RequestLine)
    requires MatchLine(s) == Some(line)
    ensures LinePattern(s, line)
  {
    var i := Find(s, ' ', 0);
    var j := Find(s, ' ', i + 1);
    FoundBefore(s, ' ', 0);
    FoundBefore(s, ' ', i + 1);
    assert line.verb == s[0..i] && line.url == s[i + 1..j] && s[i] == ' ';
    VersionIs(s[j..], line, s[j..][7]);
    FourParts(s, i, j);
    assert s == LineWith(line, s[j..][7]);
  }

  lemma FourParts(s: string, i: nat, j: nat)
    requires i < j <= |s|
    ensures s == s[..i] + ([s[i]] + (s[i + 1..j] + s[j..]))
  {
  }

  lemma FoundBefore(s: string, ch: char, from: nat)
    requires from <= |s|
    ensures var r := Find(s, ch, from);
            Without(s[from..r], ch) && (r < |s| ==> s[r] == ch)
  {
    Found(s, ch, from);
  }

  lemma VersionIs(t: string, line: RequestLine, dot: char)
    requires |t| == 11 && t[..6] == " HTTP/" && t[6] == line.major && t[7] == dot && t[8] == line.minor && t[9..] == "\r\n"
    ensures t == Version(line, dot)
  {
    assert t == t[..6] + [t[6], t[7], t[8]] + t[9..];
  }

  lemma PartsOfLine(verb: string, url: string, t: string)
    ensures var s, i, j := verb + (" " + (url + t)), |verb|, |verb| + 1 + |url|;
            s[..i] == verb && s[i] == ' ' && s[i + 1..j] == url && s[j..] == t
  {
    var s, i := verb + (" " + (url + t)), |verb|;
    assert s[i..] == " " + (url + t) && s[i + 1..] == url + t;
    assert s[i + 1..][|url|..] == t;
  }

  lemma FindsSpaces(verb: string, url: string, t: string)
    requires Without(verb, ' ') && Without(url, ' ') && t != "" && t[0] == ' '
    ensures var s, i, j := verb + (" " + (url + t)), |verb|, |verb| + 1 + |url|;
            Find(s, ' ', 0) == i && Find(s, ' ', i + 1) == j
  {
    var s, i, j := verb + (" " + (url + t)), |verb|, |verb| + 1 + |url|;
    PartsOfLine(verb, url, t);
    forall k | 0 <= k < i ensures s[k] != ' ' {
      assert s[..i][k] == verb[k];
    }
    forall k | i + 1 <= k < j ensures s[k] != ' ' {
      assert s[i + 1..j][k - i - 1] == url[k - i - 1];
    }
    assert s[j..][0] == ' ';
    FindIs(s, ' ', 0, i);
    FindIs(s, ' ', i + 1, j);
  }

  lemma JoinsLine(line: RequestLine, dot: char)
    requires LinePattern(LineWith(line, dot), line) && dot != '\n' && dot != '\r'
    ensures MatchLine(LineWith(line, dot)) == Some(line)
  {
    var s, t := LineWith(line, dot), Version(line, dot);
    var i, j := |line.verb|, |line.verb| + 1 + |line.url|;
    FindsSpaces(line.verb, line.url, t);
    PartsOfLine(line.verb, line.url, t);
    assert t[..6] == " HTTP/" && t[6] == line.major && t[7] == dot && t[8] == line.minor && t[9..] == "\r\n";
  }

  /** `s` is of the form of the header pattern, and `kv` is what its groups are. */
  predicate HeaderPattern(s: string, kv: (string, string)) {
    kv.0 != "" && Without(kv.0, ':') && Without(kv.1, '\r') && Without(kv.1, '\n') && s == kv.0 + (": " + (kv.1 + "\r\n"))
  }

  /** Likewise for the header pattern: the first colon ends the name. */
  lemma MatchHeaderIsPattern(s: string, kv: (string, string))
    ensures MatchHeader(s) == Some(kv) <==> HeaderPattern(s, kv)
  {
    if MatchHeader(s) == Some(kv) {
      SplitsHeader(s, kv);
    }
    if HeaderPattern(s, kv) {
      JoinsHeader(s, kv);
    }
  }

  lemma SplitsHeader(s: string, kv: (string, string))
    requires MatchHeader(s) == Some(kv)
    ensures HeaderPattern(s, kv)
  {
    var i, front := Find(s, ':', 0), s[..|s| - 2];
    Found(s, ':', 0);
    Found(front, '\r', i + 2);
    Found(front, '\n', i + 2);
    forall k | 0 <= k < |kv.1|
      ensures kv.1[k] != '\r' && kv.1[k] != '\n'
    {
      assert kv.1[k] == front[i + 2 + k];
    }
    HeaderParts(s, i);
  }

  lemma HeaderParts(s: string, i: nat)
    requires i + 4 <= |s| && s[i] == ':' && s[i + 1] == ' '
    ensures s == s[..i] + (": " + (s[i + 2..|s| - 2] + s[|s| - 2..]))
  {
    assert s[i..i + 2] == ": ";
    assert s[i..] == s[i..i + 2] + (s[i + 2..|s| - 2] + s[|s| - 2..]);
    assert s == s[..i] + s[i..];
  }

  lemma JoinsHeader(s: string, kv: (string, string))
    requires HeaderPattern(s, kv)
    ensures MatchHeader(s) == Some(kv)
  {
    var i := |kv.0|;
    FindIs(s, ':', 0, i);
    var front := s[..|s| - 2];
    assert front == kv.0 + ": " + kv.1;
    FindNone(front, '\r', i + 2);
    FindNone(front, '\n', i + 2);
    assert s[..i] == kv.0 && s[i + 2..|s| - 2] == kv.1 && s[|s| - 2..] == "\r\n";
  }

  lemma {:induction false} FindIs(s: string, ch: char, from: nat, k: nat)
    requires from <= k < |s| && s[k] == ch && forall i :: from <= i < k ==> s[i] != ch
    ensures Find(s, ch, from) == k
    decreases k - from
  {
    if from < k {
      FindIs(s, ch, from + 1, k);
    }
  }

  lemma {:induction false} FindNone(s: string, ch: char, from: nat)
    requires from <= |s| && forall i :: from <= i < |s| ==> s[i] != ch
    ensures Find(s, ch, from) == |s|
    decreases |s| - from
  {
    if from < |s| {
      FindNone(s, ch, from + 1);
    }
  }

  /** `emplace`: the first value given to a name stays. */
  function Emplace(m: map<string, string>, key: string, value: string): map<string, string> {
    if key in m then m else m[key := value]
  }

  // ---- the request line ----

  /** `iequal` compares as far as the shorter of its arguments goes. */
  predicate IEqual(s: string, t: string) {
    forall i :: 0 <= i < |s| && i < |t| ==> ToLower(s[i]) == ToLower(t[i])
  }

  function VerbOf(s: string): Method {
    if IEqual(s, "GET") then Get
    else if IEqual(s, "POST") then Post
    else if IEqual(s, "CONNECT") then Connect
    else Get
  }

  /** The method that a token names, GET if it names none. */
  function Named(s: string): Method {
    if Lower(s) == "post" then Post else if Lower(s) == "connect" then Connect else Get
  }

  /** A beginning or a continuation of POST or CONNECT is taken for it; every other token is read right. */
  lemma VerbIsNamed(s: string)
    requires s != ""
    ensures VerbOf(s) == Named(s) <==> !(IEqual(s, "POST") && |s| != 4) && !(IEqual(s, "CONNECT") && |s| != 7)
    ensures VerbOf("PO") == Post && Named("PO") == Get
  {
    assert forall i :: 0 <= i < 4 ==> "post"[i] == ToLower("POST"[i]);
    assert forall i :: 0 <= i < 7 ==> "connect"[i] == ToLower("CONNECT"[i]);
    assert IEqual(s, "GET") ==> ToLower(s[0]) == 'g';
    assert IEqual(s, "POST") ==> ToLower(s[0]) == 'p';
    assert IEqual(s, "CONNECT") ==> ToLower(s[0]) == 'c';
    assert IEqual(s, "POST") && |s| == 4 ==> Lower(s) == "post";
    assert IEqual(s, "CONNECT") && |s| == 7 ==> Lower(s) == "connect";
    assert Lower(s) == "post" ==> |s| == 4 && forall i :: 0 <= i < 4 ==> ToLower(s[i]) == Lower(s)[i];
    assert Lower(s) == "connect" ==> |s| == 7 && forall i :: 0 <= i < 7 ==> ToLower(s[i]) == Lower(s)[i];
    assert ToLower("PO"[0]) == 'p' && ToLower("GET"[0]) == 'g';
    assert |Lower("PO")| == 2;
  }

  /** The loop of `parse_query_kv_pairs` from `back` on; a key is empty again once it was stored. */
  function Queries(m: map<string, string>, s: string, key: string, front: nat, back: nat): map<string, string>
    requires front <= back <= |s| + 1 && (front <= |s| || back == |s| + 1)
    decreases |s| + 1 - back
  {
    if back > |s| then m
    else if back == |s| || s[back] == '&' then Queries(Emplace(m, key, s[front..back]), s, "", back + 1, back + 1)
    else if s[back] == '=' then Queries(m, s, s[front..back], back + 1, back + 1)
    else Queries(m, s, key, front, back + 1)
  }

  /** A query string as a client writes it. */
  function QueryText(pairs: seq<(string, string)>): string {
    if pairs == [] then ""
    else pairs[0].0 + ("=" + (pairs[0].1 + (if |pairs| == 1 then "" else "&" + QueryText(pairs[1..]))))
  }

  /** The first value of each key, in order. */
  function Stored(m: map<string, string>, pairs: seq<(string, string)>): map<string, string>
    decreases |pairs|
  {
    if pairs == [] then m else Stored(Emplace(m, pairs[0].0, pairs[0].1), pairs[1..])
  }

  /** `i` is the least index of a pair with that key. */
  ghost predicate FirstKey(pairs: seq<(string, string)>, key: string, i: int) {
    0 <= i < |pairs| && pairs[i].0 == key && forall j :: 0 <= j < i ==> pairs[j].0 != key
  }

  /** What is stored under a key, if anything: what was there before, or else the value of its first pair. */
  lemma {:induction false} StoredIsFirst(m: map<string, string>, pairs: seq<(string, string)>, key: string)
    ensures var s := Stored(m, pairs);
            && (key in m ==> key in s && s[key] == m[key])
            && (key !in m ==> (key in s <==> exists i :: 0 <= i < |pairs| && pairs[i].0 == key))
            && (key !in m ==> forall i :: FirstKey(pairs, key, i) ==> key in s && s[key] == pairs[i].1)
    decreases |pairs|
  {
    if pairs != [] {
      var rest := pairs[1..];
      StoredIsFirst(Emplace(m, pairs[0].0, pairs[0].1), rest, key);
      forall i | FirstKey(pairs, key, i) && i > 0
        ensures FirstKey(rest, key, i - 1)
      {
        assert forall j :: 0 <= j < i - 1 ==> rest[j] == pairs[j + 1];
      }
      assert forall i :: 0 <= i < |rest| ==> rest[i] == pairs[i + 1];
      assert forall i :: 0 < i < |pairs| ==> pairs[i] == rest[i - 1];
    }
  }

  predicate Plain(s: string) {
    Without(s, '=') && Without(s, '&')
  }

  lemma {:induction false} SkipPlain(m: map<string, string>, s: string, key: string, front: nat, back: nat, stop: nat)
    requires front <= back <= stop <= |s| && Plain(s[back..stop])
    ensures Queries(m, s, key, front, back) == Queries(m, s, key, front, stop)
    decreases stop - back
  {
    if back < stop {
      assert s[back] == s[back..stop][0];
      assert s[back + 1..stop] == s[back..stop][1..];
      SkipPlain(m, s, key, front, back + 1, stop);
    }
  }

  lemma PairLies(s: string, at: nat, key: string, value: string, rest: string)
    requires at <= |s| && s[at..] == key + ("=" + (value + rest))
    ensures var mid, end := at + |key|, at + |key| + 1 + |value|;
            && end <= |s| && s[at..mid] == key && s[mid] == '=' && s[mid + 1..end] == value && s[end..] == rest
  {
    var t := s[at..];
    assert t[..|key|] == key && t[|key|] == '=' && t[|key| + 1..] == value + rest;
    assert s[at + |key| + 1..] == t[|key| + 1..];
    assert (value + rest)[..|value|] == value && (value + rest)[|value|..] == rest;
  }

  lemma OnePair(m: map<string, string>, s: string, at: nat, mid: nat, end: nat)
    requires at <= mid < end <= |s| && Plain(s[at..mid]) && s[mid] == '=' && Plain(s[mid + 1..end])
    requires end < |s| ==> s[end] == '&'
    ensures Queries(m, s, "", at, at) == Queries(Emplace(m, s[at..mid], s[mid + 1..end]), s, "", end + 1, end + 1)
  {
    SkipPlain(m, s, "", at, at, mid);
    SkipPlain(m, s, s[at..mid], mid + 1, mid + 1, end);
  }

  /** What follows the first pair of a query. */
  function AfterFirst(pairs: seq<(string, string)>): string
    requires pairs != []
  {
    if |pairs| == 1 then "" else "&" + QueryText(pairs[1..])
  }

  lemma FirstPair(m: map<string, string>, s: string, at: nat, pairs: seq<(string, string)>) returns (end: nat)
    requires pairs != [] && Plain(pairs[0].0) && Plain(pairs[0].1)
    requires at <= |s| && s[at..] == QueryText(pairs)
    ensures at < end <= |s| && s[end..] == AfterFirst(pairs)
    ensures Queries(m, s, "", at, at) == Queries(Emplace(m, pairs[0].0, pairs[0].1), s, "", end + 1, end + 1)
  {
    var key, value, rest := pairs[0].0, pairs[0].1, AfterFirst(pairs);
    var mid := at + |key|;
    end := mid + 1 + |value|;
    PairLies(s, at, key, value, rest);
    assert end < |s| ==> s[end] == s[end..][0];
    OnePair(m, s, at, mid, end);
  }

  /** The loop reads a query back to its pairs. */
  lemma {:induction false} QueriesOfText(m: map<string, string>, s: string, at: nat, pairs: seq<(string, string)>)
    requires pairs != [] && forall i :: 0 <= i < |pairs| ==> Plain(pairs[i].0) && Plain(pairs[i].1)
    requires at <= |s| && s[at..] == QueryText(pairs)
    ensures Queries(m, s, "", at, at) == Stored(m, pairs)
    decreases |pairs|
  {
    var end := FirstPair(m, s, at, pairs);
    if |pairs| > 1 {
      assert s[end + 1..] == s[end..][1..];
      QueriesOfText(Emplace(m, pairs[0].0, pairs[0].1), s, end + 1, pairs[1..]);
    }
  }

  /** The parser after a good request line. */
  function TakeLine(p: Parser, line: RequestLine): Parser
    requires IsDigit(line.major) && IsDigit(line.minor)
  {
    var q := Find(line.url, '?', 0);
    var queries := if q < |line.url| then Queries(p.queries, line.url[q + 1..], "", 0, 0) else p.queries;
    p.(state := ParseHeader, verb := VerbOf(line.verb), rawUrl := line.url, reqUrl := line.url[..q], queries := queries,
       version := (DigitValue(line.major), DigitValue(line.minor)))
  }

  // ---- the body's length ----

  predicate IsSpace(ch: char) {
    ch == ' ' || ch == '\t' || ch == '\n' || ch == '\r' || ch == 11 as char || ch == 12 as char
  }

  function SkipSpaces(s: string, i: nat): (r: nat)
    requires i <= |s|
    ensures i <= r <= |s|
    decreases |s| - i
  {
    if i < |s| && IsSpace(s[i]) then SkipSpaces(s, i + 1) else i
  }

  /** The number that the digits at `i` continue. */
  function Digits(s: string, i: nat, n: nat): nat
    requires i <= |s|
    decreases |s| - i
  {
    if i < |s| && IsDigit(s[i]) then Digits(s, i + 1, 10 * n + DigitValue(s[i])) else n
  }

  /** `strtoul` in base ten, on 64 bits: it saturates, and a minus sign negates modulo 2^64. */
  function Strtoul(s: string): nat {
    var i := SkipSpaces(s, 0);
    var signed := i < |s| && (s[i] == '-' || s[i] == '+');
    var n := Digits(s, if signed then i + 1 else i, 0);
    if n > 0xffff_ffff_ffff_ffff then 0xffff_ffff_ffff_ffff
    else if signed && s[i] == '-' then (0x1_0000_0000_0000_0000 - n) % 0x1_0000_0000_0000_0000
    else n
  }

  /** A number in decimal. */
  function Decimal(n: nat): (r: string)
    ensures r != "" && forall i :: 0 <= i < |r| ==> IsDigit(r[i])
  {
    (if n < 10 then "" else Decimal(n / 10)) + [('0' as int + n % 10) as char]
  }

  lemma {:induction false} DigitsAppend(s: string, c: char, i: nat, n: nat)
    requires i <= |s| && IsDigit(c) && forall k :: i <= k < |s| ==> IsDigit(s[k])
    ensures Digits(s + [c], i, n) == 10 * Digits(s, i, n) + DigitValue(c)
    decreases |s| - i
  {
    if i < |s| {
      DigitsAppend(s, c, i + 1, 10 * n + DigitValue(s[i]));
    } else {
      assert Digits(s + [c], i + 1, 10 * n + DigitValue(c)) == 10 * n + DigitValue(c);
    }
  }

  lemma {:induction false} DigitsOfDecimal(n: nat)
    ensures Digits(Decimal(n), 0, 0) == n
  {
    var front := if n < 10 then "" else Decimal(n / 10);
    if n >= 10 {
      DigitsOfDecimal(n / 10);
    }
    DigitsAppend(front, ('0' as int + n % 10) as char, 0, 0);
  }

  /** A decimal number is read back, up to the largest of 64 bits; a larger one saturates. */
  lemma StrtoulOfDecimal(n: nat)
    ensures Strtoul(Decimal(n)) == if n <= 0xffff_ffff_ffff_ffff then n else 0xffff_ffff_ffff_ffff
  {
    DigitsOfDecimal(n);
  }

  const CONTENT_LENGTH := "content-length"

  function BodyDone(headers: map<string, string>, length: nat): bool {
    CONTENT_LENGTH !in headers || length == Strtoul(headers[CONTENT_LENGTH])
  }

  // ---- the state machine, as a function of the parser and the bytes at hand ----

  datatype Verdict = More | Blank | Bad

  datatype Line = Incomplete | Empty(length: nat) | Pair(name: string, value: string, length: nat) | Broken

  /** The first line of `s`, as `try_parse_header` takes it. */
  function FirstLine(s: string): (r: Line)
    ensures r.Empty? || r.Pair? ==> 0 < r.length <= |s|
  {
    var end := Find(s, '\n', 0);
    if end == |s| then Incomplete
    else if s[..end + 1] == "\r\n" then Empty(end + 1)
    else
      match MatchHeader(s[..end + 1])
      case Some(kv) => Pair(kv.0, kv.1, end + 1)
      case None => Broken
  }

  /** The loop of `try_parse_header`: the headers, the bytes it leaves, and why it stopped. */
  function HeaderLoop(headers: map<string, string>, s: string): (r: (map<string, string>, string, Verdict))
    ensures |r.1| <= |s|
    decreases |s|
  {
    match FirstLine(s)
    case Incomplete => (headers, s, More)
    case Empty(n) => (headers, s[n..], Blank)
    case Pair(name, value, n) => HeaderLoop(Emplace(headers, Lower(name), value), s[n..])
    case Broken => (headers, s, Bad)
  }

  /** A good request line in front of `s`, and its length. */
  function FirstRequestLine(s: string): (r: Option<(RequestLine, nat)>)
    ensures r.Some? ==> 0 < r.value.1 <= |s| && IsDigit(r.value.0.major) && IsDigit(r.value.0.minor)
  {
    var end := Find(s, '\n', 0);
    if end == |s| then None
    else
      match MatchLine(s[..end + 1])
      case Some(line) => Some((line, end + 1))
      case None => None
  }

  /** One turn of the loop in `feed`: the parser and the bytes it leaves. */
  function Step(p: Parser, s: string): (r: (Parser, string))
    ensures |r.1| <= |s|
  {
    match p.state
    case ParseLine =>
      var line := FirstRequestLine(s);
      if line.Some? then (TakeLine(p, line.value.0), s[line.value.1..]) else (p, s)
    case ParseHeader =>
      var (headers, rest, verdict) := HeaderLoop(p.headers, s);
      if verdict == Bad then (p.(headers := headers, state := ParseError), s)
      else (p.(headers := headers, state := if verdict == Blank then ParseBody else ParseHeader), rest)
    case ParseBody =>
      var body := p.body + s;
      (p.(body := body, state := if BodyDone(p.headers, |body|) then ParseDone else ParseBody), "")
    case _ => (p, s)
  }

  /** `feed`: the parser afterwards and the bytes that were not consumed. */
  function Parse(p: Parser, s: string): (r: (Parser, string))
    ensures |r.1| <= |s|
    decreases |s|
  {
    var (q, rest) := Step(p, s);
    if |rest| == |s| || q.state == ParseError then (q, rest) else Parse(q, rest)
  }

  // ---- what one call of feed amounts to ----

  lemma FeedInBody(p: Parser, s: string)
    requires p.state == ParseBody
    ensures Parse(p, s) == Step(p, s)
  {
    var q := Step(p, s).0;
    if s != "" && q.state == ParseBody {
      assert q.body + "" == q.body;
    }
  }

  lemma FeedInHeaders(p: Parser, s: string)
    requires p.state == ParseHeader
    ensures var (headers, rest, verdict) := HeaderLoop(p.headers, s);
            Parse(p, s) == match verdict
                          case Bad => (p.(headers := headers, state := ParseError), s)
                          case More => (p.(headers := headers), rest)
                          case Blank => Step(p.(headers := headers, state := ParseBody), rest)
  {
    var (headers, rest, verdict) := HeaderLoop(p.headers, s);
    match verdict {
      case Bad =>
      case More =>
        StopsAtMore(p.headers, s);
      case Blank =>
        BlankMoves(p.headers, s);
        FeedInBody(p.(headers := headers, state := ParseBody), rest);
    }
  }

  lemma {:induction false} StopsAtMore(headers: map<string, string>, s: string)
    requires HeaderLoop(headers, s).2 == More
    ensures var (h, rest, _) := HeaderLoop(headers, s);
            HeaderLoop(h, rest) == (h, rest, More) && (|rest| == |s| ==> h == headers && rest == s)
    decreases |s|
  {
    var line := FirstLine(s);
    if line.Pair? {
      StopsAtMore(Emplace(headers, Lower(line.name), line.value), s[line.length..]);
    }
  }

  lemma {:induction false} BlankMoves(headers: map<string, string>, s: string)
    requires HeaderLoop(headers, s).2 == Blank
    ensures |HeaderLoop(headers, s).1| < |s|
    decreases |s|
  {
    var line := FirstLine(s);
    if line.Pair? {
      BlankMoves(Emplace(headers, Lower(line.name), line.value), s[line.length..]);
    }
  }

  // ---- how the bytes are cut into pieces ----

  /** What may follow the headers without the cuts being seen: no more than they announce. */
  predicate BodyFits(headers: map<string, string>, have: nat, more: nat) {
    if CONTENT_LENGTH in headers then have + more <= Strtoul(headers[CONTENT_LENGTH]) else more == 0
  }

  /** No header line is bad, except perhaps the first one, and the body fits. */
  predicate HeadersFit(headers: map<string, string>, have: nat, s: string) {
    var (h, rest, verdict) := HeaderLoop(headers, s);
    && (verdict == Bad ==> |rest| == |s|)
    && (verdict == Blank ==> BodyFits(h, have, |rest|))
  }

  predicate Fits(p: Parser, s: string) {
    match p.state
    case ParseLine =>
      var line := FirstRequestLine(s);
      line.Some? ==> HeadersFit(p.headers, |p.body|, s[line.value.1..])
    case ParseHeader => HeadersFit(p.headers, |p.body|, s)
    case ParseBody => BodyFits(p.headers, |p.body|, |s|)
    case _ => true
  }

  lemma {:induction false} FindOfLonger(x: string, y: string, ch: char, from: nat)
    requires from <= |x| && Find(x, ch, from) < |x|
    ensures Find(x + y, ch, from) == Find(x, ch, from)
    decreases |x| - from
  {
    if x[from] != ch {
      FindOfLonger(x, y, ch, from + 1);
    }
  }

  lemma LineOfLonger(x: string, y: string)
    ensures FirstLine(x).Incomplete? || FirstLine(x + y) == FirstLine(x)
    ensures FirstRequestLine(x).Some? ==> FirstRequestLine(x + y) == FirstRequestLine(x)
  {
    var end := Find(x, '\n', 0);
    if end < |x| {
      FindOfLonger(x, y, '\n', 0);
      assert (x + y)[..end + 1] == x[..end + 1];
    }
  }

  /** A longer input changes nothing before the point where the headers of a shorter one ran out. */
  lemma {:induction false} HeadersOfLonger(headers: map<string, string>, x: string, y: string)
    ensures var (h, rest, verdict) := HeaderLoop(headers, x);
            HeaderLoop(headers, x + y) == if verdict == More then HeaderLoop(h, rest + y) else (h, rest + y, verdict)
    decreases |x|
  {
    LineOfLonger(x, y);
    match FirstLine(x) {
      case Pair(name, value, n) =>
        assert (x + y)[n..] == x[n..] + y;
        HeadersOfLonger(Emplace(headers, Lower(name), value), x[n..], y);
      case Empty(n) =>
        assert (x + y)[n..] == x[n..] + y;
      case _ =>
    }
  }

  /** Feeding `x` first, and then what it left with `y`, is feeding them together. */
  predicate Resumes(p: Parser, x: string, y: string) {
    var (q, rest) := Parse(p, x);
    Parse(q, rest + y) == Parse(p, x + y) && Fits(q, rest + y)
  }

  lemma ResumeBody(p: Parser, x: string, y: string)
    requires p.state == ParseBody && Fits(p, x + y)
    ensures Resumes(p, x, y)
  {
    FeedInBody(p, x);
    var q := Step(p, x).0;
    assert "" + y == y;
    if q.state == ParseBody {
      ResumeUnfinished(p, q, x, y);
    } else {
      assert y == "" && x + y == x;
      assert Parse(q, "") == (q, "");
    }
  }

  lemma ResumeUnfinished(p: Parser, q: Parser, x: string, y: string)
    requires p.state == ParseBody && Fits(p, x + y) && (q, "") == Step(p, x) && q.state == ParseBody
    ensures Parse(q, y) == Parse(p, x + y) && Fits(q, y)
  {
    FeedInBody(p, x + y);
    FeedInBody(q, y);
    assert (p.body + x) + y == p.body + (x + y);
  }

  lemma ResumeHeaders(p: Parser, x: string, y: string)
    requires p.state == ParseHeader && Fits(p, x + y)
    ensures Resumes(p, x, y)
  {
    FeedInHeaders(p, x);
    FeedInHeaders(p, x + y);
    HeadersOfLonger(p.headers, x, y);
    var (h, rest, verdict) := HeaderLoop(p.headers, x);
    match verdict {
      case Bad =>
      case More =>
        FeedInHeaders(p.(headers := h), rest + y);
      case Blank =>
        var b := p.(headers := h, state := ParseBody);
        FeedInBody(b, rest);
        FeedInBody(b, rest + y);
        ResumeBody(b, rest, y);
    }
  }

  lemma FeedInLine(p: Parser, s: string)
    requires p.state == ParseLine
    ensures var r := FirstRequestLine(s);
            Parse(p, s) == if r.Some? then Parse(TakeLine(p, r.value.0), s[r.value.1..]) else (p, s)
  {
  }

  lemma ResumeAfterLine(p: Parser, x: string, y: string, r: (RequestLine, nat))
    requires p.state == ParseLine && Fits(p, x + y) && FirstRequestLine(x) == Some(r)
    ensures Resumes(p, x, y)
  {
    LineOfLonger(x, y);
    var q := TakeLine(p, r.0);
    assert (x + y)[r.1..] == x[r.1..] + y;
    FeedInLine(p, x);
    FeedInLine(p, x + y);
    ResumeHeaders(q, x[r.1..], y);
  }

  /** Feeding a part first, and then what it left with the remainder, is feeding it all at once. */
  lemma Resume(p: Parser, x: string, y: string)
    requires Fits(p, x + y)
    ensures Resumes(p, x, y)
  {
    match p.state {
      case ParseLine =>
        if FirstRequestLine(x).Some? {
          ResumeAfterLine(p, x, y, FirstRequestLine(x).value);
        } else {
          FeedInLine(p, x);
        }
      case ParseHeader => ResumeHeaders(p, x, y);
      case ParseBody => ResumeBody(p, x, y);
      case _ =>
    }
  }

  // ---- many pieces ----

  function Concat(chunks: seq<string>): string {
    if chunks == [] then "" else chunks[0] + Concat(chunks[1..])
  }

  /** Each chunk joins the bytes that the calls of `feed` before it left. */
  function FeedAll(p: Parser, kept: string, chunks: seq<string>): (Parser, string)
    decreases |chunks|
  {
    if chunks == [] then (p, kept)
    else
      var (q, rest) := Parse(p, kept + chunks[0]);
      FeedAll(q, rest, chunks[1..])
  }

  lemma {:induction false} ManyPieces(p: Parser, kept: string, chunks: seq<string>)
    requires chunks != [] && Fits(p, kept + Concat(chunks))
    ensures FeedAll(p, kept, chunks) == Parse(p, kept + Concat(chunks))
    decreases |chunks|
  {
    var x, y := kept + chunks[0], Concat(chunks[1..]);
    assert kept + Concat(chunks) == x + y;
    if |chunks| == 1 {
      assert x + y == x;
    } else {
      Resume(p, x, y);
      ManyPieces(Parse(p, x).0, Parse(p, x).1, chunks[1..]);
    }
  }

  // ---- exactly when the cuts do not matter ----

  lemma {:induction false} FindOfShorter(x: string, y: string, ch: char, from: nat)
    requires from <= |x| && Find(x + y, ch, from) < |x|
    ensures Find(x, ch, from) == Find(x + y, ch, from)
    decreases |x| - from
  {
    if (x + y)[from] != ch {
      FindOfShorter(x, y, ch, from + 1);
    }
  }

  lemma LineOfShorter(x: string, y: string)
    ensures var line := FirstLine(x + y);
            (line.Empty? || line.Pair?) && line.length <= |x| ==> FirstLine(x) == line
    ensures var line := FirstRequestLine(x + y);
            line.Some? && line.value.1 <= |x| ==> FirstRequestLine(x) == line
  {
    var end := Find(x + y, '\n', 0);
    if end < |x| {
      FindOfShorter(x, y, '\n', 0);
      assert (x + y)[..end + 1] == x[..end + 1];
    }
  }

  /** The bytes that the header loop takes; alone, they take it to the same place. */
  ghost predicate Takes(headers: map<string, string>, t: string, taken: string) {
    var (h, rest, verdict) := HeaderLoop(headers, t);
    t == taken + rest && HeaderLoop(headers, taken) == (h, "", if verdict == Blank then Blank else More)
  }

  lemma {:induction false} HeadersTaken(headers: map<string, string>, t: string) returns (taken: string)
    ensures Takes(headers, t, taken)
    decreases |t|
  {
    match FirstLine(t) {
      case Pair(name, value, n) =>
        var more := HeadersTaken(Emplace(headers, Lower(name), value), t[n..]);
        taken := t[..n] + more;
        TakesField(headers, t, name, value, n, more);
      case Empty(n) =>
        taken := t[..n];
        TakesBlank(headers, t, n);
      case _ =>
        taken := "";
        assert t == "" + t;
    }
  }

  lemma TakesField(headers: map<string, string>, t: string, name: string, value: string, n: nat, more: string)
    requires FirstLine(t) == Pair(name, value, n) && Takes(Emplace(headers, Lower(name), value), t[n..], more)
    ensures Takes(headers, t, t[..n] + more)
  {
    LoopStep(headers, t, name, value, n);
    var taken, rest := t[..n] + more, HeaderLoop(headers, t).1;
    Regroup(t, n, more, rest);
    FirstLineOfTaken(taken, rest);
    LoopStep(headers, taken, name, value, n);
  }

  lemma Regroup(s: string, n: nat, first: string, later: string)
    requires n <= |s| && s[n..] == first + later
    ensures s == s[..n] + first + later && (s[..n] + first)[n..] == first
  {
    assert s == s[..n] + s[n..];
  }

  lemma LoopStep(headers: map<string, string>, s: string, name: string, value: string, n: nat)
    requires FirstLine(s) == Pair(name, value, n)
    ensures HeaderLoop(headers, s) == HeaderLoop(Emplace(headers, Lower(name), value), s[n..])
  {
  }

  lemma TakesBlank(headers: map<string, string>, t: string, n: nat)
    requires FirstLine(t) == Empty(n)
    ensures Takes(headers, t, t[..n])
  {
    assert t == t[..n] + t[n..];
    FirstLineOfTaken(t[..n], t[n..]);
    assert t[..n][n..] == "";
  }

  lemma FirstLineOfTaken(x: string, y: string)
    requires FirstLine(x + y).Empty? || FirstLine(x + y).Pair?
    requires FirstLine(x + y).length <= |x|
    ensures FirstLine(x) == FirstLine(x + y)
  {
    LineOfShorter(x, y);
  }

  /** A parser as it is made, or as `clear` leaves it. */
  predicate Fresh(p: Parser) {
    p.state == ParseLine && p.body == ""
  }

  /** The cut between `x` and `y` shows in the number of bytes left. */
  predicate Shows(p: Parser, x: string, y: string) {
    var (q, rest) := Parse(p, x);
    |Parse(q, rest + y).1| != |Parse(p, x + y).1|
  }

  lemma MisfitIsBehindLine(p: Parser, s: string) returns (r: (RequestLine, nat))
    requires Fresh(p) && !Fits(p, s)
    ensures FirstRequestLine(s) == Some(r) && !Fits(TakeLine(p, r.0), s[r.1..])
  {
    r := FirstRequestLine(s).value;
  }

  /** An input that does not fit has a cut that shows. */
  lemma SeenCut(p: Parser, s: string) returns (x: string, y: string)
    requires Fresh(p) && !Fits(p, s)
    ensures s == x + y && Shows(p, x, y)
  {
    var r := MisfitIsBehindLine(p, s);
    var first, later := SeenInHeaders(TakeLine(p, r.0), s[r.1..]);
    x, y := s[..r.1] + first, later;
    Regroup(s, r.1, first, later);
    LineOfShorter(x, later);
    ParsesAfterLine(p, r, x, first, later);
    ShowsAfterLine(p, TakeLine(p, r.0), x, first, later);
  }

  lemma ParsesAfterLine(p: Parser, r: (RequestLine, nat), x: string, first: string, later: string)
    requires p.state == ParseLine && FirstRequestLine(x) == FirstRequestLine(x + later) == Some(r)
    requires x[r.1..] == first && (x + later)[r.1..] == first + later
    ensures Parse(p, x) == Parse(TakeLine(p, r.0), first)
    ensures Parse(p, x + later) == Parse(TakeLine(p, r.0), first + later)
  {
    ParsesBehindLine(p, x, r, first);
    ParsesBehindLine(p, x + later, r, first + later);
  }

  lemma ParsesBehindLine(p: Parser, s: string, r: (RequestLine, nat), rest: string)
    requires p.state == ParseLine && FirstRequestLine(s) == Some(r) && s[r.1..] == rest
    ensures Parse(p, s) == Parse(TakeLine(p, r.0), rest)
  {
    FeedInLine(p, s);
  }

  lemma ShowsAfterLine(p: Parser, q: Parser, x: string, first: string, later: string)
    requires Parse(p, x) == Parse(q, first) && Parse(p, x + later) == Parse(q, first + later)
    requires Shows(q, first, later)
    ensures Shows(p, x, later)
  {
  }

  /** What an input that does not fit splits into, and why it does not fit. */
  lemma Misfit(headers: map<string, string>, t: string)
      returns (h: map<string, string>, taken: string, rest: string, verdict: Verdict)
    requires !HeadersFit(headers, 0, t)
    ensures t == taken + rest && HeaderLoop(headers, t) == (h, rest, verdict)
    ensures if verdict == Blank then HeaderLoop(headers, taken) == (h, "", Blank) && Announced(h) < |rest|
            else verdict == Bad && HeaderLoop(headers, taken) == (h, "", More) && |taken| > 0
  {
    h, rest, verdict := HeaderLoop(headers, t).0, HeaderLoop(headers, t).1, HeaderLoop(headers, t).2;
    taken := HeadersTaken(headers, t);
  }

  lemma SeenInHeaders(q: Parser, t: string) returns (x: string, y: string)
    requires q.state == ParseHeader && q.body == "" && !Fits(q, t)
    ensures t == x + y && Shows(q, x, y)
  {
    var h, taken, rest, verdict := Misfit(q.headers, t);
    if verdict == Blank {
      x, y := SeenInBody(q, h, taken, rest, Announced(h));
    } else {
      x, y := taken, rest;
      SeenBadLine(q, h, taken, rest);
    }
  }

  /** The length of the body that the headers announce. */
  function Announced(headers: map<string, string>): (m: nat)
    ensures BodyDone(headers, m) && forall n: nat :: !BodyFits(headers, 0, n) ==> m < n
  {
    if CONTENT_LENGTH in headers then Strtoul(headers[CONTENT_LENGTH]) else 0
  }

  lemma SeenInBody(q: Parser, h: map<string, string>, taken: string, rest: string, m: nat) returns (x: string, y: string)
    requires q.state == ParseHeader && q.body == "" && m < |rest|
    requires HeaderLoop(q.headers, taken) == (h, "", Blank) && BodyDone(h, m)
    requires HeaderLoop(q.headers, taken + rest) == (h, rest, Blank)
    ensures taken + rest == x + y && Shows(q, x, y)
  {
    x, y := taken + rest[..m], rest[m..];
    assert taken + rest == x + y;
    SeenAfterBody(q, h, taken, rest, m);
  }

  lemma SeenAfterBody(q: Parser, h: map<string, string>, taken: string, rest: string, m: nat)
    requires q.state == ParseHeader && q.body == "" && m < |rest|
    requires HeaderLoop(q.headers, taken) == (h, "", Blank) && BodyDone(h, m)
    requires HeaderLoop(q.headers, taken + rest) == (h, rest, Blank)
    ensures var (p1, kept) := Parse(q, taken + rest[..m]);
            |Parse(p1, kept + rest[m..]).1| > 0 && Parse(q, taken + rest).1 == ""
  {
    HeadersOfLonger(q.headers, taken, rest[..m]);
    assert "" + rest[..m] == rest[..m];
    FeedInHeaders(q, taken + rest[..m]);
    FeedInHeaders(q, taken + rest);
    var p1 := Parse(q, taken + rest[..m]).0;
    assert p1.body == rest[..m] && p1.state == ParseDone;
    assert Parse(p1, "" + rest[m..]).1 == "" + rest[m..];
  }

  lemma SeenBadLine(q: Parser, h: map<string, string>, taken: string, rest: string)
    requires q.state == ParseHeader && |taken| > 0
    requires HeaderLoop(q.headers, taken) == (h, "", More)
    requires HeaderLoop(q.headers, taken + rest) == (h, rest, Bad)
    ensures var (p1, kept) := Parse(q, taken);
            Parse(p1, kept + rest).1 == rest && Parse(q, taken + rest).1 == taken + rest
  {
    FeedInHeaders(q, taken);
    FeedInHeaders(q, taken + rest);
    HeadersOfLonger(q.headers, taken, rest);
    assert "" + rest == rest;
    FeedInHeaders(q.(headers := h), rest);
  }

  /**
    Feeding an input in pieces gives the same parser and leaves the same bytes as feeding it whole, for every
    way to cut it, exactly if no header line after the first is bad and no byte follows the announced body.
   */
  lemma CutsDoNotMatter(p: Parser, s: string)
    requires Fresh(p)
    ensures Fits(p, s) <==>
            forall chunks :: chunks != [] && Concat(chunks) == s ==> FeedAll(p, "", chunks) == Parse(p, s)
  {
    if Fits(p, s) {
      forall chunks | chunks != [] && Concat(chunks) == s
        ensures FeedAll(p, "", chunks) == Parse(p, s)
      {
        assert "" + Concat(chunks) == s;
        ManyPieces(p, "", chunks);
      }
    } else {
      var x, y := SeenCut(p, s);
      TwoPieces(p, x, y);
    }
  }

  lemma TwoPieces(p: Parser, x: string, y: string)
    ensures Concat([x, y]) == x + y
    ensures FeedAll(p, "", [x, y]) == Parse(Parse(p, x).0, Parse(p, x).1 + y)
  {
    assert [x, y][1..] == [y] && [y][1..] == [];
    assert "" + x == x && y + "" == y;
    assert Concat([]) == "" && Concat([y]) == y + Concat([]);
    var (q, rest) := Parse(p, x);
    assert FeedAll(q, rest, [y]) == FeedAll(Parse(q, rest + y).0, Parse(q, rest + y).1, []);
  }

  // ---- lines as texts ----

  predicate GoodLine(line: RequestLine) {
    && line.verb != "" && Without(line.verb, ' ') && Without(line.verb, '\n')
    && line.url != "" && Without(line.url, ' ') && Without(line.url, '\n')
    && IsDigit(line.major) && IsDigit(line.minor)
  }

  predicate GoodPair(f: (string, string)) {
    f.0 != "" && Without(f.0, ':') && Without(f.0, '\n') && Without(f.1, '\r') && Without(f.1, '\n')
  }

  function Target(line: RequestLine): string {
    " HTTP/" + [line.major] + "." + [line.minor]
  }

  function LineText(line: RequestLine): string {
    line.verb + " " + line.url + Target(line) + "\r\n"
  }

  function PairText(f: (string, string)): string {
    f.0 + ": " + f.1 + "\r\n"
  }

  function PairsText(fields: seq<(string, string)>): string {
    if fields == [] then "" else PairText(fields[0]) + PairsText(fields[1..])
  }

  /** The header map after `fields`: names in lower case, the first value of each. */
  function Collect(headers: map<string, string>, fields: seq<(string, string)>): map<string, string>
    decreases |fields|
  {
    if fields == [] then headers else Collect(Emplace(headers, Lower(fields[0].0), fields[0].1), fields[1..])
  }

  lemma MatchesLine(line: RequestLine)
    requires GoodLine(line)
    ensures MatchLine(LineText(line)) == Some(line)
  {
    assert LineText(line) == LineWith(line, '.');
    MatchLineIsPattern(LineText(line), line);
  }

  lemma MatchesPair(f: (string, string))
    requires GoodPair(f)
    ensures MatchHeader(PairText(f)) == Some(f)
  {
    assert PairText(f) == f.0 + (": " + (f.1 + "\r\n"));
    MatchHeaderIsPattern(PairText(f), f);
  }

  lemma LineEnds(s: string, rest: string)
    requires |s| > 0 && s[|s| - 1] == '\n' && Without(s[..|s| - 1], '\n')
    ensures Find(s + rest, '\n', 0) == |s| - 1 && (s + rest)[..|s|] == s
  {
    forall i | 0 <= i < |s| - 1
      ensures (s + rest)[i] != '\n'
    {
      assert s[..|s| - 1][i] == s[i];
    }
    FindIs(s + rest, '\n', 0, |s| - 1);
  }

  lemma FirstLineOfField(f: (string, string), rest: string)
    requires GoodPair(f)
    ensures FirstLine(PairText(f) + rest) == Pair(f.0, f.1, |PairText(f)|)
  {
    var s := PairText(f);
    assert s[..|s| - 1] == f.0 + ": " + f.1 + "\r";
    LineEnds(s, rest);
    MatchesPair(f);
    assert s[0] == f.0[0] && s[1] != '\n';
  }

  lemma LoopSkipsField(headers: map<string, string>, f: (string, string), later: string)
    requires GoodPair(f)
    ensures HeaderLoop(headers, PairText(f) + later) == HeaderLoop(Emplace(headers, Lower(f.0), f.1), later)
  {
    FirstLineOfField(f, later);
    assert (PairText(f) + later)[|PairText(f)|..] == later;
  }

  // ---- the condition on the cuts, in terms of lines ----

  predicate OneLine(l: string) {
    l != "" && l[|l| - 1] == '\n' && Without(l[..|l| - 1], '\n')
  }

  /** A complete line that is neither the blank one nor of the form of a header. */
  ghost predicate BadLine(l: string) {
    OneLine(l) && l != "\r\n" && forall kv :: !HeaderPattern(l, kv)
  }

  ghost predicate StartsWithBadLine(s: string) {
    exists l, more :: s == l + more && BadLine(l)
  }

  /** Good header lines, and then a bad line that is not the first, or a blank line and too long a body. */
  ghost predicate MisfitAfter(headers: map<string, string>, have: nat, s: string, fields: seq<(string, string)>, rest: string) {
    && (forall i :: 0 <= i < |fields| ==> GoodPair(fields[i]))
    && s == PairsText(fields) + rest
    && (|| (fields != [] && StartsWithBadLine(rest))
        || (|rest| >= 2 && rest[..2] == "\r\n" && !BodyFits(Collect(headers, fields), have, |rest| - 2)))
  }

  /** HeadersFit without the parser's own loop. */
  lemma HeadersFitByLines(headers: map<string, string>, have: nat, s: string)
    ensures HeadersFit(headers, have, s) <==> !exists fields, rest :: MisfitAfter(headers, have, s, fields, rest)
  {
    if !HeadersFit(headers, have, s) {
      var fields, rest := LinesOf(headers, s);
      assert MisfitAfter(headers, have, s, fields, rest);
    }
    if exists fields, rest :: MisfitAfter(headers, have, s, fields, rest) {
      var fields, rest :| MisfitAfter(headers, have, s, fields, rest);
      LoopSkipsFields(headers, fields, rest);
      if |rest| >= 2 && rest[..2] == "\r\n" {
        BlankLineFirst(rest);
      } else {
        BadLineFirst(rest);
      }
    }
  }

  lemma BlankLineFirst(rest: string)
    requires |rest| >= 2 && rest[..2] == "\r\n"
    ensures FirstLine(rest) == Empty(2) && !StartsWithBadLine(rest)
  {
    assert rest == "\r\n" + rest[2..];
    LineEnds("\r\n", rest[2..]);
    if StartsWithBadLine(rest) {
      var l, more :| rest == l + more && BadLine(l);
      LineEnds(l, more);
    }
  }

  lemma BadLineFirst(rest: string)
    requires StartsWithBadLine(rest)
    ensures FirstLine(rest) == Broken
  {
    var l, more :| rest == l + more && BadLine(l);
    LineEnds(l, more);
    if MatchHeader(l).Some? {
      MatchHeaderIsPattern(l, MatchHeader(l).value);
    }
  }

  lemma {:induction false} LoopSkipsFields(headers: map<string, string>, fields: seq<(string, string)>, rest: string)
    requires forall i :: 0 <= i < |fields| ==> GoodPair(fields[i])
    ensures HeaderLoop(headers, PairsText(fields) + rest) == HeaderLoop(Collect(headers, fields), rest)
    ensures |PairsText(fields)| == 0 <==> fields == []
    decreases |fields|
  {
    if fields == [] {
      assert "" + rest == rest;
    } else {
      var text, later := PairText(fields[0]), PairsText(fields[1..]) + rest;
      assert PairsText(fields) + rest == text + later;
      LoopSkipsField(headers, fields[0], later);
      LoopSkipsFields(Emplace(headers, Lower(fields[0].0), fields[0].1), fields[1..], rest);
    }
  }

  /** The first line, as text. */
  lemma FirstLineIsText(s: string)
    ensures match FirstLine(s)
            case Incomplete => true
            case Empty(n) => n == 2 && s[..2] == "\r\n"
            case Pair(name, value, n) => GoodPair((name, value)) && s[..n] == PairText((name, value))
            case Broken => StartsWithBadLine(s)
  {
    var end := Find(s, '\n', 0);
    if end < |s| {
      var l := s[..end + 1];
      Found(s, '\n', 0);
      assert OneLine(l);
      assert s == l + s[end + 1..];
      match MatchHeader(l) {
        case Some(kv) => HeaderIsPair(l, kv);
        case None => NoHeader(l);
      }
    }
  }

  lemma HeaderIsPair(l: string, kv: (string, string))
    requires OneLine(l) && MatchHeader(l) == Some(kv)
    ensures GoodPair(kv) && l == PairText(kv)
  {
    MatchHeaderIsPattern(l, kv);
    assert PairText(kv) == kv.0 + (": " + (kv.1 + "\r\n"));
    forall i | 0 <= i < |kv.0|
      ensures kv.0[i] != '\n'
    {
      assert l[..|l| - 1][i] == kv.0[i];
    }
  }

  lemma NoHeader(l: string)
    requires MatchHeader(l) == None
    ensures forall kv :: !HeaderPattern(l, kv)
  {
    forall kv
      ensures !HeaderPattern(l, kv)
    {
      MatchHeaderIsPattern(l, kv);
    }
  }

  /** `fields` are the lines that the loop passes, and `rest` is where it stops. */
  ghost predicate StopsAt(headers: map<string, string>, s: string, fields: seq<(string, string)>, rest: string) {
    s == PairsText(fields) + rest && GoodPairs(fields) && StopsFor(HeaderLoop(headers, s), Collect(headers, fields), rest)
  }

  predicate GoodPairs(fields: seq<(string, string)>) {
    forall i :: 0 <= i < |fields| ==> GoodPair(fields[i])
  }

  ghost predicate StopsFor(loop: (map<string, string>, string, Verdict), collected: map<string, string>, rest: string) {
    && loop.0 == collected
    && (loop.2 == Bad ==> StartsWithBadLine(rest) && rest == loop.1)
    && (loop.2 == Blank ==> |rest| >= 2 && rest[..2] == "\r\n" && rest[2..] == loop.1)
  }

  lemma StopsLater(headers: map<string, string>, s: string, n: nat, f: (string, string), more: seq<(string, string)>, rest: string)
    requires GoodPair(f) && FirstLine(s) == Pair(f.0, f.1, n) && s[..n] == PairText(f)
    requires StopsAt(Emplace(headers, Lower(f.0), f.1), s[n..], more, rest)
    ensures StopsAt(headers, s, [f] + more, rest)
  {
    LoopStep(headers, s, f.0, f.1, n);
    ConsFields(headers, f, more);
    Regroup(s, n, PairsText(more), rest);
  }

  lemma ConsFields(headers: map<string, string>, f: (string, string), more: seq<(string, string)>)
    ensures PairsText([f] + more) == PairText(f) + PairsText(more)
    ensures Collect(headers, [f] + more) == Collect(Emplace(headers, Lower(f.0), f.1), more)
    ensures GoodPair(f) && GoodPairs(more) ==> GoodPairs([f] + more)
  {
    assert ([f] + more)[1..] == more;
  }

  lemma StopsHere(headers: map<string, string>, s: string)
    requires !FirstLine(s).Pair?
    ensures StopsAt(headers, s, [], s)
  {
    FirstLineIsText(s);
    assert s == "" + s;
  }

  lemma {:induction false} LinesOf(headers: map<string, string>, s: string) returns (fields: seq<(string, string)>, rest: string)
    ensures StopsAt(headers, s, fields, rest)
    decreases |s|
  {
    match FirstLine(s) {
      case Pair(name, value, n) =>
        FirstLineIsText(s);
        var more;
        more, rest := LinesOf(Emplace(headers, Lower(name), value), s[n..]);
        fields := [(name, value)] + more;
        StopsLater(headers, s, n, (name, value), more, rest);
      case _ =>
        StopsHere(headers, s);
        fields, rest := [], s;
    }
  }

  lemma FirstLineOfRequest(line: RequestLine, rest: string)
    requires GoodLine(line)
    ensures FirstRequestLine(LineText(line) + rest) == Some((line, |LineText(line)|))
  {
    var s := LineText(line);
    assert s[..|s| - 1] == line.verb + " " + line.url + Target(line) + "\r";
    LineEnds(s, rest);
    MatchesLine(line);
  }

  lemma HeadersFitOfPrefix(headers: map<string, string>, have: nat, x: string, y: string)
    requires HeadersFit(headers, have, x + y)
    ensures HeadersFit(headers, have, x)
  {
    HeadersOfLonger(headers, x, y);
  }

  lemma FitsOfPrefix(p: Parser, x: string, y: string)
    requires Fits(p, x + y)
    ensures Fits(p, x)
  {
    match p.state {
      case ParseLine =>
        LineOfLonger(x, y);
        var r := FirstRequestLine(x);
        if r.Some? {
          assert (x + y)[r.value.1..] == x[r.value.1..] + y;
          HeadersFitOfPrefix(p.headers, |p.body|, x[r.value.1..], y);
        }
      case ParseHeader => HeadersFitOfPrefix(p.headers, |p.body|, x, y);
      case _ =>
    }
  }

  // ---- the code ----

  /** `clear`: everything but the version. */
  function Cleared(p: Parser): Parser {
    INITIAL.(version := p.version)
  }

  lemma DropTwice(s: string, n: nat, k: nat)
    requires n + k <= |s|
    ensures s[n..][k..] == s[n + k..]
  {
  }

  class HttpParser {
    var state: State
    var verb: Method
    var rawUrl: string
    var reqUrl: string
    var body: string
    var version: (nat, nat)
    var queries: map<string, string>
    var headers: map<string, string>

    function Value(): Parser
      reads this
    {
      Parser(state, verb, rawUrl, reqUrl, body, version, queries, headers)
    }

    constructor ()
      ensures Value() == INITIAL
    {
      state, verb, rawUrl, reqUrl, body, version, queries, headers := ParseLine, Get, "", "", "", (0, 0), map[], map[];
    }

    method Clear()
      modifies this
      ensures Value() == Cleared(old(Value()))
      ensures state == ParseLine && verb == Get && rawUrl == reqUrl == body == "" && queries == headers == map[]
      ensures version == old(version)
    {
      state, verb, rawUrl, reqUrl, body, queries, headers := ParseLine, Get, "", "", "", map[], map[];
    }

    method ParseMethod(s: string)
      modifies this`verb
      ensures verb == VerbOf(s)
    {
      if IEqual(s, "GET") {
        verb := Get;
      } else if IEqual(s, "POST") {
        verb := Post;
      } else if IEqual(s, "CONNECT") {
        verb := Connect;
      } else {
        verb := Get;
      }
    }

    method ParseQueryKvPairs(queryUrl: string)
      modifies this`queries
      ensures queries == Queries(old(queries), queryUrl, "", 0, 0)
    {
      var front, back, key := 0, 0, "";
      while back <= |queryUrl|
        invariant front <= back <= |queryUrl| + 1 && (front <= |queryUrl| || back == |queryUrl| + 1)
        invariant Queries(queries, queryUrl, key, front, back) == Queries(old(queries), queryUrl, "", 0, 0)
      {
        if back == |queryUrl| || queryUrl[back] == '&' {
          var value := queryUrl[front..back];
          front := back + 1;
          queries := Emplace(queries, key, value);
          key := "";
        } else if queryUrl[back] == '=' {
          key := queryUrl[front..back];
          front := back + 1;
        }
        back := back + 1;
      }
    }

    method ParseUrl(url: string)
      modifies this`rawUrl, this`reqUrl, this`queries
      ensures var q := Find(url, '?', 0);
              && rawUrl == url && reqUrl == url[..q]
              && queries == if q < |url| then Queries(old(queries), url[q + 1..], "", 0, 0) else old(queries)
    {
      rawUrl := url;
      var it := Find(url, '?', 0);
      if it != |url| {
        ParseQueryKvPairs(url[it + 1..]);
      }
      reqUrl := url[..it];
    }

    method TryParseLine(buffer: string) returns (n: nat)
      requires state == ParseLine
      modifies this
      ensures n <= |buffer| && (Value(), buffer[n..]) == Step(old(Value()), buffer)
    {
      var line := FirstRequestLine(buffer);
      if line.Some? {
        ParseMethod(line.value.0.verb);
        ParseUrl(line.value.0.url);
        version := (DigitValue(line.value.0.major), DigitValue(line.value.0.minor));
        state := ParseHeader;
        return line.value.1;
      }
      return 0;
    }

    method TryParseHeader(buffer: string) returns (n: nat)
      modifies this`state, this`headers
      ensures n <= |buffer|
      ensures var (h, rest, verdict) := HeaderLoop(old(headers), buffer);
              && headers == h && buffer[n..] == (if verdict == Bad then buffer else rest)
              && state == (if verdict == Bad then ParseError else if verdict == Blank then ParseBody else old(state))
    {
      n := 0;
      ghost var expected := HeaderLoop(headers, buffer);
      var rest := buffer;
      var line := FirstLine(rest);
      while !line.Incomplete?
        invariant n <= |buffer| && rest == buffer[n..] && line == FirstLine(rest)
        invariant state == old(state) && HeaderLoop(headers, rest) == expected
        decreases |rest|
      {
        if line.Empty? {
          DropTwice(buffer, n, line.length);
          n := n + line.length;
          state := ParseBody;
          return;
        }
        if line.Pair? {
          DropTwice(buffer, n, line.length);
          headers := Emplace(headers, Lower(line.name), line.value);
          n := n + line.length;
          rest := rest[line.length..];
        } else {
          state := ParseError;
          return 0;
        }
        line := FirstLine(rest);
      }
    }

    method TryParseBody(buffer: string) returns (n: nat)
      requires state == ParseBody
      modifies this`state, this`body
      ensures n <= |buffer| && (Value(), buffer[n..]) == Step(old(Value()), buffer)
    {
      body := body + buffer;
      if CONTENT_LENGTH !in headers || |body| == Strtoul(headers[CONTENT_LENGTH]) {
        state := ParseDone;
      }
      n := |buffer|;
      assert buffer[n..] == "";
    }

    /** One turn of the loop in `feed`. */
    method Turn(buffer: string) returns (n: nat)
      modifies this
      ensures n <= |buffer| && (Value(), buffer[n..]) == Step(old(Value()), buffer)
    {
      match state {
        case ParseLine => n := TryParseLine(buffer);
        case ParseHeader => n := TryParseHeader(buffer);
        case ParseBody => n := TryParseBody(buffer);
        case _ => n := 0;
      }
    }

    method Feed(buffer: string) returns (n: nat)
      modifies this
      ensures n <= |buffer| && (Value(), buffer[n..]) == Parse(old(Value()), buffer)
    {
      n := 0;
      ghost var expected := Parse(Value(), buffer);
      var rest := buffer;
      var again := true;
      while again
        invariant n <= |buffer| && rest == buffer[n..]
        invariant expected == if again then Parse(Value(), rest) else (Value(), rest)
        decreases |rest|, again
      {
        var ret := Turn(rest);
        n := n + ret;
        rest := rest[ret..];
        again := ret != 0 && state != ParseError;
      }
    }
  }

  /** `WebConnection`, as far as it reads: what `feed` did not consume stays in the receive buffer. */
  class WebConnection {
    const parser: HttpParser
    const recvBuffer: BaseBuffer

    ghost predicate Valid()
      reads this, recvBuffer
    {
      recvBuffer.Valid()
    }

    constructor ()
      ensures Valid() && parser.Value() == INITIAL && recvBuffer.Contents() == ""
    {
      parser := new HttpParser();
      recvBuffer := new BaseBuffer(1024);
    }

    /** `info` arrives; the request, once it is complete. */
    method HandleRead(info: string) returns (request: Option<Parser>)
      requires Valid()
      modifies parser, recvBuffer, recvBuffer.buffer
      ensures Valid()
      ensures var (q, rest) := Parse(old(parser.Value()), old(recvBuffer.Contents()) + info);
              && recvBuffer.Contents() == rest
              && (if q.state == ParseDone then request == Some(q) && parser.Value() == Cleared(q)
                  else request == None && parser.Value() == q)
    {
      recvBuffer.Append(info);
      var len := parser.Feed(recvBuffer.Contents());
      recvBuffer.RetrieveReadBytes(len);
      request := None;
      if parser.state == ParseDone {
        request := Some(parser.Value());
        parser.Clear();
      }
    }
  }
}
