/** What a parser holds after a request line, the header fields and a body, each stated by itself. */
module HttpOutcomes {
  import opened Options
  import opened Http
  import opened HttpRequests

  // ---- the request line ----

  ghost predicate SameLine(p: Parser, q: Parser) {
    && q.verb == p.verb && q.rawUrl == p.rawUrl && q.reqUrl == p.reqUrl && q.version == p.version && q.queries == p.queries
  }

  /** What comes after the request line does not change what was taken from it. */
  lemma {:induction false} KeepsLine(p: Parser, s: string)
    requires p.state != ParseLine
    ensures SameLine(p, Parse(p, s).0)
    decreases |s|
  {
    var (q, rest) := Step(p, s);
    if |rest| != |s| && q.state != ParseError {
      KeepsLine(q, rest);
    }
  }

  /** Method, version and the parts of the URL, from any well-formed line and whatever follows it. */
  lemma LineIsTaken(p: Parser, line: RequestLine, rest: string)
    requires p.state == ParseLine && GoodLine(line)
    ensures var q := Parse(p, LineText(line) + rest).0;
            && q.verb == VerbOf(line.verb) && q.rawUrl == line.url
            && q.version == (line.major as int - '0' as int, line.minor as int - '0' as int)
  {
    ParsesLine(p, line, rest);
    KeepsLine(TakeLine(p, line), rest);
    TakenFromLine(p, line);
  }

  lemma TakenFromLine(p: Parser, line: RequestLine)
    requires GoodLine(line)
    ensures var q := TakeLine(p, line);
            && q.verb == VerbOf(line.verb) && q.rawUrl == line.url
            && q.version == (line.major as int - '0' as int, line.minor as int - '0' as int)
  {
  }

  lemma UrlWithoutQuery(p: Parser, line: RequestLine, rest: string)
    requires p.state == ParseLine && GoodLine(line) && Without(line.url, '?')
    ensures var q := Parse(p, LineText(line) + rest).0;
            q.reqUrl == line.url && q.queries == p.queries
  {
    ParsesLine(p, line, rest);
    KeepsLine(TakeLine(p, line), rest);
    FindNone(line.url, '?', 0);
    assert line.url[..|line.url|] == line.url;
  }

  /** The path ends at the first question mark, and the pairs behind it are stored, of each key the first. */
  lemma UrlWithQuery(p: Parser, line: RequestLine, rest: string, path: string, pairs: seq<(string, string)>)
    requires p.state == ParseLine && GoodLine(line) && line.url == path + ("?" + QueryText(pairs)) && Without(path, '?')
    requires pairs != [] && forall i :: 0 <= i < |pairs| ==> Plain(pairs[i].0) && Plain(pairs[i].1)
    ensures var q := Parse(p, LineText(line) + rest).0;
            q.reqUrl == path && q.queries == Stored(p.queries, pairs)
  {
    ParsesLine(p, line, rest);
    KeepsLine(TakeLine(p, line), rest);
    SplitAtMark(line.url, path, QueryText(pairs));
    QueriesOfText(p.queries, QueryText(pairs), 0, pairs);
  }

  lemma SplitAtMark(url: string, path: string, query: string)
    requires url == path + ("?" + query) && Without(path, '?')
    ensures Find(url, '?', 0) == |path| < |url| && url[..|path|] == path && url[|path| + 1..] == query
    ensures query[0..] == query
  {
    assert url[|path|] == '?' && forall i :: 0 <= i < |path| ==> url[i] == path[i];
    FindIs(url, '?', 0, |path|);
  }

  // ---- the body ----

  /** The first field of that name counts. */
  lemma {:induction false} BodyLengthIs(fields: seq<Field>, i: nat)
    requires i < |fields| && SameLetters(fields[i].name, "Content-Length")
    requires forall j :: 0 <= j < i ==> !SameLetters(fields[j].name, "Content-Length")
    ensures BodyLength(fields) == Some(Strtoul(fields[i].value))
    decreases i
  {
    if i > 0 {
      assert fields[1..][i - 1] == fields[i] && forall j :: 0 <= j < i - 1 ==> fields[1..][j] == fields[j + 1];
      BodyLengthIs(fields[1..], i - 1);
    }
  }

  /** The state after a body of any length: it is complete exactly if it is as long as announced, and kept in any case. */
  lemma BodyByLength(p: Parser, line: RequestLine, fields: seq<Field>, body: string)
    requires Fresh(p) && p.headers == map[] && GoodLine(line) && GoodFields(fields) && AllSpaced(fields)
    ensures var (q, rest) := Parse(p, LineText(line) + (FieldsText(fields) + ("\r\n" + body)));
            && rest == "" && q.body == body
            && q.state == match BodyLength(fields)
                          case None => ParseDone
                          case Some(n) => if |body| == n then ParseDone else ParseBody
  {
    var t := FieldsText(fields) + ("\r\n" + body);
    ParsesLine(p, line, t);
    LoopOverFields(fields, body);
    assert fields[..Taken(fields)] == fields;
    AnnouncesTheSame(map[], fields);
    FeedInHeaders(TakeLine(p, line), t);
    assert "" + body == body;
  }

  /** `Content-Length` in any case and in decimal: the body is complete with exactly that many bytes. */
  lemma ContentLengthCounts(p: Parser, line: RequestLine, fields: seq<Field>, i: nat, n: nat, body: string)
    requires Fresh(p) && p.headers == map[] && GoodLine(line) && GoodFields(fields) && AllSpaced(fields)
    requires i < |fields| && SameLetters(fields[i].name, "Content-Length")
    requires forall j :: 0 <= j < i ==> !SameLetters(fields[j].name, "Content-Length")
    requires fields[i].value == Decimal(n) && n <= 0xffff_ffff_ffff_ffff
    ensures var (q, rest) := Parse(p, LineText(line) + (FieldsText(fields) + ("\r\n" + body)));
            rest == "" && q.body == body && q.state == if |body| == n then ParseDone else ParseBody
  {
    AnnouncedInDecimal(fields, i, n);
    BodyOfLength(p, line, fields, n, body);
  }

  lemma BodyOfLength(p: Parser, line: RequestLine, fields: seq<Field>, n: nat, body: string)
    requires Fresh(p) && p.headers == map[] && GoodLine(line) && GoodFields(fields) && AllSpaced(fields)
    requires BodyLength(fields) == Some(n)
    ensures var (q, rest) := Parse(p, LineText(line) + (FieldsText(fields) + ("\r\n" + body)));
            rest == "" && q.body == body && q.state == if |body| == n then ParseDone else ParseBody
  {
    BodyByLength(p, line, fields, body);
  }

  lemma AnnouncedInDecimal(fields: seq<Field>, i: nat, n: nat)
    requires i < |fields| && SameLetters(fields[i].name, "Content-Length")
    requires forall j :: 0 <= j < i ==> !SameLetters(fields[j].name, "Content-Length")
    requires fields[i].value == Decimal(n) && n <= 0xffff_ffff_ffff_ffff
    ensures BodyLength(fields) == Some(n)
  {
    BodyLengthIs(fields, i);
    StrtoulOfDecimal(n);
  }

  // ---- the header map ----

  /** Under each name the value of its first field is kept, with the white space that the pattern leaves in it. */
  lemma HeadersAreFirst(p: Parser, line: RequestLine, fields: seq<Field>, body: string, name: string)
    requires Fresh(p) && p.headers == map[] && GoodLine(line) && GoodFields(fields) && AllSpaced(fields)
    ensures var h := Parse(p, LineText(line) + (FieldsText(fields) + ("\r\n" + body))).0.headers;
            && (Lower(name) in h <==> exists i :: 0 <= i < |fields| && SameLetters(fields[i].name, name))
            && forall i :: FirstField(fields, name, i) ==>
                 Lower(name) in h && h[Lower(name)] == fields[i].before[1..] + fields[i].value + fields[i].after
  {
    HeadersAreCollected(p, line, fields, body);
    FirstOfName(fields, name);
  }

  lemma HeadersAreCollected(p: Parser, line: RequestLine, fields: seq<Field>, body: string)
    requires Fresh(p) && p.headers == map[] && GoodLine(line) && GoodFields(fields) && AllSpaced(fields)
    ensures Parse(p, LineText(line) + (FieldsText(fields) + ("\r\n" + body))).0.headers == Collect(map[], AllCaptured(fields))
  {
    var t := FieldsText(fields) + ("\r\n" + body);
    ParsesLine(p, line, t);
    LoopOverFields(fields, body);
    assert fields[..Taken(fields)] == fields;
    FeedInHeaders(TakeLine(p, line), t);
  }

  lemma FirstOfName(fields: seq<Field>, name: string)
    requires AllSpaced(fields)
    ensures var h := Collect(map[], AllCaptured(fields));
            && (Lower(name) in h <==> exists i :: 0 <= i < |fields| && SameLetters(fields[i].name, name))
            && forall i :: FirstField(fields, name, i) ==>
                 Lower(name) in h && h[Lower(name)] == fields[i].before[1..] + fields[i].value + fields[i].after
  {
    var pairs := AllCaptured(fields);
    CollectIsFirst(map[], pairs, Lower(name));
    forall i | 0 <= i < |fields|
      ensures Lower(pairs[i].0) == Lower(name) <==> SameLetters(fields[i].name, name)
    {
      LowerFolds(fields[i].name, name);
    }
    forall i | FirstField(fields, name, i)
      ensures FirstOf(pairs, Lower(name), i)
    {
    }
  }

  ghost predicate FirstField(fields: seq<Field>, name: string, i: int)
  {
    && 0 <= i < |fields| && Spaced(fields[i]) && SameLetters(fields[i].name, name)
    && forall j :: 0 <= j < i ==> !SameLetters(fields[j].name, name)
  }

  // ---- an example ----

  const LINE := RequestLine("POST", "/a?b=c", '1', '0')

  const HOST := Field("Host", " ", "d", "")

  const LENGTH := Field("CONTENT-Length", " ", "1", "")

  const FIELDS := [HOST, LENGTH]

  lemma ExampleLineText()
    ensures GoodLine(LINE) && LineText(LINE) == "POST /a?b=c HTTP/1.0\r\n"
  {
    assert Target(LINE) == " HTTP/1.0";
    assert "POST" + " " + "/a?b=c" == "POST /a?b=c";
  }

  lemma GoodHost()
    ensures GoodField(HOST) && Spaced(HOST) && FieldText(HOST) == "Host: d\r\n"
  {
    assert "d"[..1] == "d" && "d"[0] != ' ';
  }

  lemma GoodLength()
    ensures GoodField(LENGTH) && Spaced(LENGTH) && FieldText(LENGTH) == "CONTENT-Length: 1\r\n"
  {
    assert "1"[..1] == "1" && "1"[0] != ' ';
  }

  lemma TwoFieldsText(f: Field, g: Field)
    ensures FieldsText([f, g]) == FieldText(f) + FieldText(g)
  {
    assert [f, g][1..] == [g] && [g][1..] == [];
    assert FieldsText([g]) == FieldText(g) + "";
  }

  lemma ExampleFields()
    ensures GoodFields(FIELDS) && AllSpaced(FIELDS)
    ensures FieldsText(FIELDS) == "Host: d\r\n" + "CONTENT-Length: 1\r\n"
  {
    GoodHost();
    GoodLength();
    TwoFieldsText(HOST, LENGTH);
  }

  lemma ExampleLength()
    ensures BodyLength(FIELDS) == Some(1)
  {
    assert Decimal(1) == "1";
    AnnouncedInDecimal(FIELDS, 1, 1);
  }

  lemma ExampleUrl()
    ensures Find(LINE.url, '?', 0) == 2 && LINE.url[..2] == "/a" && LINE.url[3..] == "b=c"
    ensures Queries(map[], "b=c", "", 0, 0) == map["b" := "c"]
  {
    var pairs := [("b", "c")];
    assert QueryText(pairs) == "b=c";
    assert LINE.url == "/a" + ("?" + "b=c");
    SplitAtMark(LINE.url, "/a", "b=c");
    QueriesOfText(map[], "b=c", 0, pairs);
    assert pairs[1..] == [];
  }

  lemma ExampleVerb()
    ensures VerbOf("POST") == Post
  {
    VerbIsNamed("POST");
    assert Lower("POST") == "post";
  }

  lemma OneSpace(name: string, value: string)
    ensures Captured(Field(name, " ", value, "")) == (name, value)
  {
    assert " "[1..] + value + "" == value;
  }

  lemma ExampleHeaders()
    requires AllSpaced(FIELDS)
    ensures Collect(map[], AllCaptured(FIELDS)) == map["host" := "d", "content-length" := "1"]
  {
    var pairs := [("Host", "d"), ("CONTENT-Length", "1")];
    OneSpace("Host", "d");
    OneSpace("CONTENT-Length", "1");
    assert AllCaptured(FIELDS) == pairs;
    assert pairs[1..] == [pairs[1]] && pairs[1..][1..] == [];
    assert Lower("Host") == "host" && Lower("CONTENT-Length") == "content-length";
  }

  lemma ExampleResult()
    requires GoodLine(LINE) && AllSpaced(FIELDS)
    ensures Result(INITIAL, Request(LINE, FIELDS, "e")) ==
            Parser(ParseDone, Post, "/a?b=c", "/a", "e", (1, 0), map["b" := "c"], map["host" := "d", "content-length" := "1"])
  {
    ExampleUrl();
    ExampleHeaders();
    ExampleVerb();
    assert FIELDS[..Taken(FIELDS)] == FIELDS;
  }

  /** A whole request and everything that is made of it. */
  lemma ExampleParsed()
    ensures Parse(INITIAL, "POST /a?b=c HTTP/1.0\r\n" + (("Host: d\r\n" + "CONTENT-Length: 1\r\n") + ("\r\n" + "e"))) ==
            (Parser(ParseDone, Post, "/a?b=c", "/a", "e", (1, 0), map["b" := "c"],
                    map["host" := "d", "content-length" := "1"]), "")
  {
    ExampleLineText();
    ExampleFields();
    ExampleLength();
    ExampleResult();
    ParsesRequest(INITIAL, Request(LINE, FIELDS, "e"));
  }
}
