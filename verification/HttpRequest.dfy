/** Requests as section 3 of RFC 7230 writes them, and what the parser makes of each. */
module HttpRequests {
  import opened Options
  import opened Http

  /** A header field, with the optional white space around its value. */
  datatype Field = Field(name: string, before: string, value: string, after: string)

  datatype Request = Request(line: RequestLine, fields: seq<Field>, body: string)

  predicate AllBlank(s: string) {
    forall i :: 0 <= i < |s| ==> s[i] == ' ' || s[i] == '\t'
  }

  /** The white space around the value is not part of it. */
  predicate Trimmed(value: string) {
    value != "" ==> !AllBlank(value[..1]) && !AllBlank(value[|value| - 1..])
  }

  predicate GoodField(f: Field) {
    && f.name != "" && Without(f.name, ':') && Without(f.name, '\n')
    && Without(f.value, '\r') && Without(f.value, '\n') && Trimmed(f.value)
    && AllBlank(f.before) && AllBlank(f.after) && (f.value == "" ==> f.after == "")
  }

  function FieldText(f: Field): string {
    f.name + ":" + f.before + f.value + f.after + "\r\n"
  }

  function FieldsText(fields: seq<Field>): string {
    if fields == [] then "" else FieldText(fields[0]) + FieldsText(fields[1..])
  }

  function Text(r: Request): string {
    LineText(r.line) + (FieldsText(r.fields) + ("\r\n" + r.body))
  }

  /** The texts differ in nothing but the case of letters. */
  predicate SameLetters(s: string, t: string) {
    |s| == |t| && forall i :: 0 <= i < |s| ==>
      || s[i] == t[i]
      || ('A' <= s[i] <= 'Z' && t[i] as int == s[i] as int + 32)
      || ('A' <= t[i] <= 'Z' && s[i] as int == t[i] as int + 32)
  }

  /** The number in the first field `Content-Length`, whatever the case of its name. */
  function BodyLength(fields: seq<Field>): Option<nat> {
    if fields == [] then None
    else if SameLetters(fields[0].name, "Content-Length") then Some(Strtoul(fields[0].value))
    else BodyLength(fields[1..])
  }

  predicate GoodFields(fields: seq<Field>) {
    forall i :: 0 <= i < |fields| ==> GoodField(fields[i])
  }

  /** The body is as long as the field `Content-Length` announces. */
  predicate WellFormed(r: Request) {
    && GoodLine(r.line) && GoodFields(r.fields)
    && match BodyLength(r.fields)
       case None => r.body == ""
       case Some(n) => |r.body| == n
  }

  // ---- one field ----

  /** The white space begins with the one space that the header pattern asks for. */
  predicate Spaced(f: Field) {
    f.before != "" && f.before[0] == ' '
  }

  predicate AllSpaced(fields: seq<Field>) {
    forall i :: 0 <= i < |fields| ==> Spaced(fields[i])
  }

  /** What the header pattern captures: all but that one space belongs to the value. */
  function Captured(f: Field): (string, string)
    requires Spaced(f)
  {
    (f.name, f.before[1..] + f.value + f.after)
  }

  lemma CapturedIsGood(f: Field)
    requires GoodField(f) && Spaced(f)
    ensures GoodPair(Captured(f)) && FieldText(f) == PairText(Captured(f))
  {
    assert f.before == " " + f.before[1..];
  }

  lemma BadBehindColon(name: string, behind: string)
    requires name != "" && Without(name, ':') && behind != "" && behind[0] != ' '
    ensures MatchHeader(name + (":" + behind)) == None
  {
    var s := name + (":" + behind);
    FindIs(s, ':', 0, |name|);
    assert s[|name| + 1] == behind[0];
  }

  /** What follows the colon. */
  function Behind(f: Field): string {
    f.before + f.value + f.after + "\r\n"
  }

  lemma NoSpaceBehind(f: Field)
    requires GoodField(f) && !Spaced(f)
    ensures Behind(f) != "" && Behind(f)[0] != ' '
  {
    if f.before == "" && f.value != "" {
      assert Behind(f)[0] == f.value[..1][0];
    }
  }

  lemma UnspacedIsBad(f: Field)
    requires GoodField(f) && !Spaced(f)
    ensures MatchHeader(FieldText(f)) == None
  {
    assert FieldText(f) == f.name + (":" + Behind(f));
    NoSpaceBehind(f);
    BadBehindColon(f.name, Behind(f));
  }

  /**
    The header pattern captures a field exactly if a space follows the colon, and it captures the value that the
    standard means exactly if that space is all the white space there is.
   */
  lemma MatchesField(f: Field)
    requires GoodField(f)
    ensures MatchHeader(FieldText(f)) == if Spaced(f) then Some(Captured(f)) else None
    ensures MatchHeader(FieldText(f)) == Some((f.name, f.value)) <==> f.before == " " && f.after == ""
  {
    if Spaced(f) {
      CapturedIsGood(f);
      MatchesPair(Captured(f));
      var stored := f.before[1..] + f.value + f.after;
      assert f.before[1..] == "" && f.after == "" ==> stored == f.value;
    } else {
      UnspacedIsBad(f);
    }
  }

  lemma UnspacedLine(f: Field, rest: string)
    requires GoodField(f) && !Spaced(f)
    ensures FirstLine(FieldText(f) + rest) == Broken
  {
    var s := FieldText(f);
    assert s[..|s| - 1] == f.name + ":" + f.before + f.value + f.after + "\r";
    LineEnds(s, rest);
    UnspacedIsBad(f);
    assert s[0] == f.name[0] && s[|f.name|] == ':';
  }

  // ---- the announced length ----

  lemma {:induction false} SkipSpacesLater(c: char, s: string, i: nat)
    requires i <= |s|
    ensures SkipSpaces([c] + s, i + 1) == SkipSpaces(s, i) + 1
    decreases |s| - i
  {
    if i < |s| {
      SkipSpacesLater(c, s, i + 1);
    }
  }

  lemma {:induction false} DigitsLater(c: char, s: string, i: nat, n: nat)
    requires i <= |s|
    ensures Digits([c] + s, i + 1, n) == Digits(s, i, n)
    decreases |s| - i
  {
    if i < |s| && IsDigit(s[i]) {
      DigitsLater(c, s, i + 1, 10 * n + DigitValue(s[i]));
    }
  }

  lemma StrtoulOfSpace(c: char, s: string)
    requires IsSpace(c)
    ensures Strtoul([c] + s) == Strtoul(s)
  {
    SkipSpacesLater(c, s, 0);
    var i := SkipSpaces(s, 0);
    DigitsLater(c, s, i, 0);
    if i < |s| {
      DigitsLater(c, s, i + 1, 0);
    }
  }

  lemma {:induction false} StrtoulSkips(before: string, s: string)
    requires AllBlank(before)
    ensures Strtoul(before + s) == Strtoul(s)
    decreases |before|
  {
    if before == "" {
      assert before + s == s;
    } else {
      StrtoulSkips(before[1..], s);
      StrtoulOfSpace(before[0], before[1..] + s);
      assert before + s == [before[0]] + (before[1..] + s);
    }
  }

  lemma {:induction false} SkipSpacesOfLonger(s: string, after: string, i: nat)
    requires i <= |s| && AllBlank(after)
    ensures SkipSpaces(s + after, i) == if SkipSpaces(s, i) < |s| then SkipSpaces(s, i) else |s + after|
    decreases |s + after| - i
  {
    if i < |s| {
      SkipSpacesOfLonger(s, after, i + 1);
    } else {
      SkipsAll(s + after, i);
    }
  }

  lemma {:induction false} SkipsAll(s: string, i: nat)
    requires i <= |s| && AllBlank(s[i..])
    ensures SkipSpaces(s, i) == |s|
    decreases |s| - i
  {
    if i < |s| {
      assert s[i] == s[i..][0];
      assert s[i + 1..] == s[i..][1..];
      SkipsAll(s, i + 1);
    }
  }

  lemma {:induction false} DigitsOfLonger(s: string, after: string, i: nat, n: nat)
    requires i <= |s| && AllBlank(after)
    ensures Digits(s + after, i, n) == Digits(s, i, n)
    decreases |s| - i
  {
    if i < |s| && IsDigit(s[i]) {
      DigitsOfLonger(s, after, i + 1, 10 * n + DigitValue(s[i]));
    }
  }

  lemma StrtoulStops(s: string, after: string)
    requires AllBlank(after)
    ensures Strtoul(s + after) == Strtoul(s)
  {
    SkipSpacesOfLonger(s, after, 0);
    var i := SkipSpaces(s, 0);
    if i < |s| {
      DigitsOfLonger(s, after, i, 0);
      DigitsOfLonger(s, after, i + 1, 0);
    }
  }

  /** White space around a number does not change what is read. */
  lemma StrtoulOfPadded(before: string, s: string, after: string)
    requires AllBlank(before) && AllBlank(after)
    ensures Strtoul(before + s + after) == Strtoul(s)
  {
    StrtoulStops(before + s, after);
    StrtoulSkips(before, s);
  }

  lemma StrtoulOfCaptured(f: Field)
    requires GoodField(f) && Spaced(f)
    ensures Strtoul(Captured(f).1) == Strtoul(f.value)
  {
    StrtoulOfPadded(f.before[1..], f.value, f.after);
  }

  function AllCaptured(fields: seq<Field>): (r: seq<(string, string)>)
    requires AllSpaced(fields)
    ensures |r| == |fields| && forall i :: 0 <= i < |r| ==> r[i] == Captured(fields[i])
  {
    seq(|fields|, i requires 0 <= i < |fields| => Captured(fields[i]))
  }

  lemma StrtoulOfSign(sign: char, s: string, n: nat)
    requires (sign == '+' || sign == '-') && Digits(s, 0, 0) == n <= 0xffff_ffff_ffff_ffff
    ensures Strtoul([sign] + s) == if sign == '+' || n == 0 then n else 0x1_0000_0000_0000_0000 - n
  {
    DigitsLater(sign, s, 0, 0);
  }

  /** A sign is read, and a minus sign negates modulo 2^64. */
  lemma StrtoulOfSigned(sign: char, n: nat)
    requires (sign == '+' || sign == '-') && n <= 0xffff_ffff_ffff_ffff
    ensures Strtoul([sign] + Decimal(n)) == if sign == '+' || n == 0 then n else 0x1_0000_0000_0000_0000 - n
  {
    DigitsOfDecimal(n);
    StrtoulOfSign(sign, Decimal(n), n);
  }

  // ---- names and the first field of a name ----

  lemma LowerFolds(s: string, t: string)
    ensures Lower(s) == Lower(t) <==> SameLetters(s, t)
  {
    if Lower(s) == Lower(t) {
      forall i | 0 <= i < |s|
        ensures s[i] == t[i] || ToLower(s[i]) != s[i] || ToLower(t[i]) != t[i]
      {
        assert Lower(s)[i] == Lower(t)[i];
      }
    }
  }

  lemma ContentLengthIs(name: string)
    ensures Lower(name) == CONTENT_LENGTH <==> SameLetters(name, "Content-Length")
  {
    LowerFolds(name, "Content-Length");
    assert Lower("Content-Length") == CONTENT_LENGTH;
  }

  /** What is kept under a name, if anything: what was there before, or else the value of its first field. */
  lemma {:induction false} CollectIsFirst(headers: map<string, string>, pairs: seq<(string, string)>, key: string)
    ensures var h := Collect(headers, pairs);
            && (key in headers ==> key in h && h[key] == headers[key])
            && (key !in headers ==> (key in h <==> exists i :: 0 <= i < |pairs| && Lower(pairs[i].0) == key))
            && (key !in headers ==> forall i :: FirstOf(pairs, key, i) ==> key in h && h[key] == pairs[i].1)
    decreases |pairs|
  {
    if pairs != [] {
      var rest := pairs[1..];
      CollectIsFirst(Emplace(headers, Lower(pairs[0].0), pairs[0].1), rest, key);
      forall i | FirstOf(pairs, key, i) && i > 0
        ensures FirstOf(rest, key, i - 1)
      {
        assert forall j :: 0 <= j < i - 1 ==> rest[j] == pairs[j + 1];
      }
      assert forall i :: 0 <= i < |rest| ==> rest[i] == pairs[i + 1];
      assert forall i :: 0 < i < |pairs| ==> pairs[i] == rest[i - 1];
    }
  }

  /** `i` is the least index of a pair that has the name `key`. */
  ghost predicate FirstOf(pairs: seq<(string, string)>, key: string, i: int) {
    0 <= i < |pairs| && Lower(pairs[i].0) == key && forall j :: 0 <= j < i ==> Lower(pairs[j].0) != key
  }

  /** The length in the header map is the one that the fields announce. */
  lemma {:induction false} AnnouncesTheSame(headers: map<string, string>, fields: seq<Field>)
    requires AllSpaced(fields) && GoodFields(fields)
    ensures var h := Collect(headers, AllCaptured(fields));
            if CONTENT_LENGTH in headers then
              CONTENT_LENGTH in h && h[CONTENT_LENGTH] == headers[CONTENT_LENGTH]
            else
              match BodyLength(fields)
              case None => CONTENT_LENGTH !in h
              case Some(n) => CONTENT_LENGTH in h && Strtoul(h[CONTENT_LENGTH]) == n
    decreases |fields|
  {
    if fields != [] {
      var f := fields[0];
      StrtoulOfCaptured(f);
      ContentLengthIs(f.name);
      assert AllCaptured(fields)[1..] == AllCaptured(fields[1..]);
      AnnouncesTheSame(Emplace(headers, Lower(f.name), Captured(f).1), fields[1..]);
    }
  }

  // ---- all fields ----

  /** How many fields the header loop takes. */
  function Taken(fields: seq<Field>): (n: nat)
    ensures n <= |fields| && AllSpaced(fields[..n]) && (n < |fields| ==> !Spaced(fields[n]))
    ensures n == |fields| <==> AllSpaced(fields)
  {
    if fields == [] || !Spaced(fields[0]) then 0 else 1 + Taken(fields[1..])
  }

  lemma {:induction false} TextOfTaken(fields: seq<Field>, n: nat, end: string)
    requires n <= |fields| && AllSpaced(fields[..n]) && GoodFields(fields)
    ensures FieldsText(fields) + end == PairsText(AllCaptured(fields[..n])) + (FieldsText(fields[n..]) + end)
    ensures GoodPairs(AllCaptured(fields[..n]))
    decreases n
  {
    var pairs := AllCaptured(fields[..n]);
    if n == 0 {
      assert fields[0..] == fields;
      assert "" + (FieldsText(fields) + end) == FieldsText(fields) + end;
    } else {
      CapturedIsGood(fields[0]);
      assert fields[1..][..n - 1] == fields[..n][1..] && fields[1..][n - 1..] == fields[n..];
      TextOfTaken(fields[1..], n - 1, end);
      assert pairs[1..] == AllCaptured(fields[1..][..n - 1]);
      ConsFields(map[], pairs[0], pairs[1..]);
      assert [pairs[0]] + pairs[1..] == pairs;
      FirstApart(FieldText(fields[0]), FieldsText(fields[1..]), end, PairsText(pairs[1..]), FieldsText(fields[n..]) + end);
    }
  }

  lemma FirstApart(first: string, later: string, end: string, taken: string, rest: string)
    requires later + end == taken + rest
    ensures (first + later) + end == (first + taken) + rest
  {
    assert (first + later) + end == first + (later + end);
    assert (first + taken) + rest == first + (taken + rest);
  }

  /** Where the header loop stops on the fields of a request: at the first that is not spaced, or behind them all. */
  lemma LoopOverFields(fields: seq<Field>, body: string)
    requires GoodFields(fields)
    ensures var n := Taken(fields);
            var end := "\r\n" + body;
            var h := Collect(map[], AllCaptured(fields[..n]));
            HeaderLoop(map[], FieldsText(fields) + end) ==
              if AllSpaced(fields) then (h, body, Blank) else (h, FieldsText(fields[n..]) + end, Bad)
  {
    var n, end := Taken(fields), "\r\n" + body;
    var h, rest := Collect(map[], AllCaptured(fields[..n])), FieldsText(fields[n..]) + end;
    TextOfTaken(fields, n, end);
    LoopSkipsFields(map[], AllCaptured(fields[..n]), rest);
    if AllSpaced(fields) {
      assert rest == end;
      LoopEnds(h, body);
    } else {
      LoopRefuses(h, fields[n..], end);
    }
  }

  lemma LoopEnds(headers: map<string, string>, body: string)
    ensures HeaderLoop(headers, "\r\n" + body) == (headers, body, Blank)
  {
    var end := "\r\n" + body;
    assert end[..2] == "\r\n" && end[2..] == body;
    BlankLineFirst(end);
  }

  lemma LoopRefuses(headers: map<string, string>, fields: seq<Field>, end: string)
    requires fields != [] && GoodField(fields[0]) && !Spaced(fields[0])
    ensures HeaderLoop(headers, FieldsText(fields) + end) == (headers, FieldsText(fields) + end, Bad)
  {
    var later := FieldsText(fields[1..]);
    assert FieldsText(fields) + end == FieldText(fields[0]) + (later + end);
    UnspacedLine(fields[0], later + end);
  }

  // ---- the whole request ----

  /** What `feed` makes of a request: all its fields, or those before the first that is not spaced. */
  function Result(p: Parser, r: Request): Parser
    requires GoodLine(r.line)
  {
    var url := r.line.url;
    var path := Find(url, '?', 0);
    Parser(
      if AllSpaced(r.fields) then ParseDone else ParseError,
      VerbOf(r.line.verb),
      url,
      url[..path],
      if AllSpaced(r.fields) then r.body else p.body,
      (r.line.major as int - '0' as int, r.line.minor as int - '0' as int),
      if path < |url| then Queries(p.queries, url[path + 1..], "", 0, 0) else p.queries,
      Collect(p.headers, AllCaptured(r.fields[..Taken(r.fields)])))
  }

  lemma BodyIsAnnounced(r: Request)
    requires WellFormed(r) && AllSpaced(r.fields)
    ensures var h := Collect(map[], AllCaptured(r.fields));
            if CONTENT_LENGTH in h then |r.body| == Strtoul(h[CONTENT_LENGTH]) else r.body == ""
  {
    AnnouncesTheSame(map[], r.fields);
  }

  lemma ParsesFields(q: Parser, r: Request)
    requires q.state == ParseHeader && q.body == "" && q.headers == map[] && WellFormed(r)
    ensures var t := FieldsText(r.fields) + ("\r\n" + r.body);
            var h := Collect(map[], AllCaptured(r.fields[..Taken(r.fields)]));
            Parse(q, t) == if AllSpaced(r.fields) then (q.(headers := h, body := r.body, state := ParseDone), "")
                           else (q.(headers := h, state := ParseError), t)
  {
    LoopOverFields(r.fields, r.body);
    FeedInHeaders(q, FieldsText(r.fields) + ("\r\n" + r.body));
    if AllSpaced(r.fields) {
      assert r.fields[..Taken(r.fields)] == r.fields;
      BodyIsAnnounced(r);
      assert "" + r.body == r.body;
    }
  }

  /** Line and fields together give the result. */
  lemma ResultIs(p: Parser, r: Request)
    requires GoodLine(r.line) && p.headers == map[]
    ensures var q := TakeLine(p, r.line).(headers := Collect(map[], AllCaptured(r.fields[..Taken(r.fields)])));
            Result(p, r) == if AllSpaced(r.fields) then q.(body := r.body, state := ParseDone) else q.(state := ParseError)
  {
  }

  lemma ParsesLine(p: Parser, line: RequestLine, rest: string)
    requires p.state == ParseLine && GoodLine(line)
    ensures Parse(p, LineText(line) + rest) == Parse(TakeLine(p, line), rest)
  {
    FirstLineOfRequest(line, rest);
    FeedInLine(p, LineText(line) + rest);
    assert (LineText(line) + rest)[|LineText(line)|..] == rest;
  }

  lemma RequestFits(p: Parser, r: Request)
    requires Fresh(p) && p.headers == map[] && WellFormed(r)
    ensures Fits(p, Text(r)) <==> AllSpaced(r.fields) || !Spaced(r.fields[0])
  {
    var t := FieldsText(r.fields) + ("\r\n" + r.body);
    FirstLineOfRequest(r.line, t);
    assert Text(r)[|LineText(r.line)|..] == t;
    FieldsFit(r);
  }

  lemma FieldsFit(r: Request)
    requires WellFormed(r)
    ensures HeadersFit(map[], 0, FieldsText(r.fields) + ("\r\n" + r.body)) <==> AllSpaced(r.fields) || !Spaced(r.fields[0])
  {
    var n, end := Taken(r.fields), "\r\n" + r.body;
    LoopOverFields(r.fields, r.body);
    if AllSpaced(r.fields) {
      assert r.fields[..n] == r.fields;
      BodyIsAnnounced(r);
    } else {
      TextOfTaken(r.fields, n, end);
      LoopSkipsFields(map[], AllCaptured(r.fields[..n]), FieldsText(r.fields[n..]) + end);
    }
  }

  /**
    A well-formed request is parsed to the end, with nothing left, exactly if every colon is followed by a space.
    Otherwise the parser stops in the error state and leaves all the fields. Cuts do not matter exactly if it is
    parsed or if the very first field is refused.
   */
  lemma ParsesRequest(p: Parser, r: Request)
    requires Fresh(p) && p.headers == map[] && WellFormed(r)
    ensures Parse(p, Text(r)) ==
            (Result(p, r), if AllSpaced(r.fields) then "" else FieldsText(r.fields) + ("\r\n" + r.body))
    ensures Parse(p, Text(r)).0.state == ParseDone <==> AllSpaced(r.fields)
    ensures Fits(p, Text(r)) <==> AllSpaced(r.fields) || !Spaced(r.fields[0])
  {
    ParsesLine(p, r.line, FieldsText(r.fields) + ("\r\n" + r.body));
    ParsesFields(TakeLine(p, r.line), r);
    ResultIs(p, r);
    RequestFits(p, r);
  }

  /** However the network cuts `s`, and however much of it has come, nothing shows. */
  ghost predicate NothingShows(p: Parser, s: string) {
    forall chunks :: chunks != [] && Concat(chunks) <= s ==> FeedAll(p, "", chunks) == Parse(p, Concat(chunks))
  }

  lemma NothingShowsIff(p: Parser, s: string)
    requires Fresh(p)
    ensures NothingShows(p, s) <==> Fits(p, s)
  {
    CutsDoNotMatter(p, s);
    if Fits(p, s) {
      forall chunks | chunks != [] && Concat(chunks) <= s
        ensures FeedAll(p, "", chunks) == Parse(p, Concat(chunks))
      {
        NothingShowsOfPart(p, chunks, s);
      }
    }
  }

  lemma NothingShowsOfPart(p: Parser, chunks: seq<string>, s: string)
    requires chunks != [] && Concat(chunks) <= s && Fits(p, s)
    ensures FeedAll(p, "", chunks) == Parse(p, Concat(chunks))
  {
    FitsOfStart(p, Concat(chunks), s);
    assert "" + Concat(chunks) == Concat(chunks);
    ManyPieces(p, "", chunks);
  }

  lemma FitsOfStart(p: Parser, x: string, s: string)
    requires x <= s && Fits(p, s)
    ensures Fits(p, x)
  {
    assert s == x + s[|x|..];
    FitsOfPrefix(p, x, s[|x|..]);
  }

  /** The requests for which no cut shows, of the whole or of a part. */
  lemma AnyCutsOfRequest(p: Parser, r: Request)
    requires Fresh(p) && p.headers == map[] && WellFormed(r)
    ensures NothingShows(p, Text(r)) <==> AllSpaced(r.fields) || !Spaced(r.fields[0])
    ensures AllSpaced(r.fields) ==>
              forall chunks :: chunks != [] && Concat(chunks) == Text(r) ==> FeedAll(p, "", chunks) == (Result(p, r), "")
  {
    ParsesRequest(p, r);
    NothingShowsIff(p, Text(r));
  }

  /** A request with a field that has no space behind its colon, as the standard allows. */
  function TightRequest(line: RequestLine): Request {
    Request(line, [Field("A", " ", "b", ""), Field("C", "", "d", "")], "")
  }

  lemma TightRequestShows(line: RequestLine)
    requires GoodLine(line)
    ensures Text(TightRequest(line)) == LineText(line) + "A: b\r\nC:d\r\n\r\n"
    ensures WellFormed(TightRequest(line)) && !NothingShows(INITIAL, Text(TightRequest(line)))
  {
    TightRequestText(line);
    TightRequestIsGood(line);
    AnyCutsOfRequest(INITIAL, TightRequest(line));
  }

  lemma TightRequestText(line: RequestLine)
    ensures Text(TightRequest(line)) == LineText(line) + "A: b\r\nC:d\r\n\r\n"
    ensures Spaced(TightRequest(line).fields[0]) && !Spaced(TightRequest(line).fields[1])
  {
    var fields := TightRequest(line).fields;
    assert fields[1..] == [fields[1]] && [fields[1]][1..] == [];
    assert FieldText(fields[0]) == "A: b\r\n" && FieldText(fields[1]) == "C:d\r\n";
    assert FieldsText([fields[1]]) == "C:d\r\n" + FieldsText([]);
    assert FieldsText(fields) == "A: b\r\nC:d\r\n";
  }

  lemma TightRequestIsGood(line: RequestLine)
    requires GoodLine(line)
    ensures WellFormed(TightRequest(line))
  {
    var fields := TightRequest(line).fields;
    assert "b"[..1] == "b" && "d"[..1] == "d" && "b"[0] != ' ' && "d"[0] != ' ';
    assert BodyLength(fields) == BodyLength(fields[1..]) == BodyLength(fields[1..][1..]) == None;
  }
}
