/** What a client reads in answer to a request, from the request's own bytes. */
module Answering {
  import opened Bytes
  import opened Pipeline
  import opened Decimal
  import opened Wire
  import opened Replies
  import opened Session
  import opened Ledger
  import opened Worker
  import opened WorkerTheorems
  import opened Handlers
  import opened Reading

  // ---------------------------------------------------------------- which requests are the benchmark's

  /** The request starts so, with two more bytes of its first line at least. */
  predicate Opens(req: Bytes, start: string) {
    && StartsWith(req, Ascii(start)) && |req| >= |start| + 3
    && req[|start|] != LF && req[|start| + 1] != LF
  }

  const PLAIN_START: string := "GET /plaintext HTTP/1."
  const JSON_START: string := "GET /json HTTP/1."

  /** The byte behind the start is a zero: HTTP/1.0, which closes. */
  predicate OldVersion(req: Bytes, start: string) {
    Opens(req, start) && req[|start|] == '0' as int
  }

  lemma LineOpens(req: Bytes, start: string)
    ensures Opens(req, start) <==> |RequestLine(req)| >= |start| + 3 && RequestLine(req)[..|start|] == Ascii(start)
    ensures Opens(req, start) ==> RequestLine(req)[|start|] == req[|start|]
  {
    var line, n := RequestLine(req), |start|;
    assert line == req[..|line|];
    var p := FirstByte(LF, req, 0);
    if |line| >= n + 3 && line[..n] == Ascii(start) {
      assert req[..n] == line[..n];
      assert req[n] == line[n] && req[n + 1] == line[n + 1];
    }
    if Opens(req, start) {
      forall i | 0 <= i < n + 2 ensures req[i] != LF { if i < n { assert req[i] == req[..n][i]; } }
      assert line[..n] == req[..n];
    }
  }

  /** Route and close flag, on the bytes of the request. */
  lemma Classified(req: Bytes)
    ensures ClassOf(req).route == Plaintext <==> Opens(req, PLAIN_START)
    ensures ClassOf(req).route == Json <==> Opens(req, JSON_START)
    ensures ClassOf(req).close <==> OldVersion(req, PLAIN_START) || OldVersion(req, JSON_START)
    ensures !(Opens(req, PLAIN_START) && Opens(req, JSON_START))
  {
    hide RequestLine, Opens;
    LineOpens(req, PLAIN_START);
    LineOpens(req, JSON_START);
    NotBoth(req);
  }

  lemma NotBoth(req: Bytes)
    ensures !(Opens(req, PLAIN_START) && Opens(req, JSON_START))
  {
    FifthByte(req, PLAIN_START);
    FifthByte(req, JSON_START);
    assert PLAIN_START[5] != JSON_START[5];
  }

  lemma FifthByte(req: Bytes, start: string)
    requires |start| > 5 && ' ' <= start[5] <= '~'
    ensures Opens(req, start) ==> req[5] == start[5] as int
  {
    if Opens(req, start) { assert req[5] == req[..|start|][5] == Ascii(start)[5]; }
  }

  // ---------------------------------------------------------------- what is read in the replies

  const DATE: Bytes := Ascii("Date")
  const TYPE: Bytes := Ascii("Content-Type")

  /** A response with a date and a content type. */
  function Plain(status: nat, date: Bytes, contentType: string, body: string): Reading.Reply {
    Reading.Reply(status, map[Ascii("date") := date, Ascii("content-type") := Ascii(contentType)], Ascii(body))
  }

  lemma FieldNames()
    ensures Lower(DATE) == Ascii("date") && Lower(TYPE) == Ascii("content-type")
    ensures NAME_END !in DATE && NAME_END !in TYPE
    ensures Ascii("Date: ") == DATE + [NAME_END, BLANK] && Ascii("Content-Type: ") == TYPE + [NAME_END, BLANK]
    ensures Ascii("date") != LENGTH_NAME && Ascii("date") != CONNECTION_NAME
    ensures Ascii("content-type") != LENGTH_NAME && Ascii("content-type") != CONNECTION_NAME
    ensures Ascii("date") != Ascii("content-type")
  {
    assert |Ascii("content-type")| == 12 && |CONNECTION_NAME| == 10 && |LENGTH_NAME| == 14 && |Ascii("date")| == 4;
  }

  lemma LinesRead(status: Bytes, contentType: Bytes, length: nat, date: Date, close: bool)
    ensures ReadFields(HeaderLines(status, contentType, length, date, close)[1..])
              == [(DATE, date), (TYPE, contentType)]
  {
    FieldNames();
    FramingPassed(length);
    hide Ascii, Digits, Lower, ReadFields, KEEP_ALIVE, CONTENT_LENGTH, CONNECTION_CLOSE, LENGTH_NAME, CONNECTION_NAME,
      DATE, TYPE;
    var l := HeaderLines(status, contentType, length, date, close);
    FieldKept(l[1], DATE, date);
    FieldKept(l[2], TYPE, contentType);
    FieldsAppend([l[1]], [l[2]]);
    FieldsAppend([l[1]] + [l[2]], [l[3]]);
    FieldsAppend([l[1]] + [l[2]] + [l[3]], [l[4]]);
    assert l[1..] == [l[1]] + [l[2]] + [l[3]] + [l[4]];
  }

  /** A status as the server writes it in a status line. */
  predicate StatusText(text: string, status: nat) {
    LineText(Ascii(text)) && ReadStatus(Ascii("HTTP/1.1 ") + Ascii(text)) == Some(status)
  }

  lemma StatusTexts()
    ensures StatusText("200 OK", 200) && StatusText("404 Not Found", 404)
    ensures StatusText("503 Service Unavailable", 503)
  {
    hide StatusText;
    StatusIn("200 OK", "OK", 200);
    StatusIn("404 Not Found", "Not Found", 404);
    StatusIn("503 Service Unavailable", "Service Unavailable", 503);
  }

  lemma ThreeDigits(n: nat)
    requires 100 <= n < 1000
    ensures Digits(n) == [48 + n / 100, 48 + n / 10 % 10, 48 + n % 10]
  {
    assert Digits(n / 100) == [48 + n / 100];
    assert n / 10 / 10 == n / 100;
    assert Digits(n / 10) == Digits(n / 100) + [48 + n / 10 % 10];
  }

  lemma StatusIn(text: string, reason: string, status: nat)
    requires 100 <= status < 1000 && |text| == 4 + |reason| && text[4..] == reason && text[3] == ' '
    requires text[0] as int == 48 + status / 100 && text[1] as int == 48 + status / 10 % 10
    requires text[2] as int == 48 + status % 10
    ensures StatusText(text, status)
  {
    ThreeDigits(status);
    LiteralText(text);
    TextParts(text, reason);
    var version := Ascii("HTTP/1.1");
    assert BLANK !in version && Ascii("HTTP/1.1 ") == version + [BLANK];
    hide Ascii, Digits, ReadStatus, LineText;
    StatusReads(version, status, Ascii(reason));
    assert version + [BLANK] + (Digits(status) + [BLANK] + Ascii(reason))
        == version + [BLANK] + Digits(status) + [BLANK] + Ascii(reason);
  }

  lemma TextParts(text: string, reason: string)
    requires |text| == 4 + |reason| && text[4..] == reason && forall i :: 0 <= i < 4 ==> ' ' <= text[i] <= '~'
    ensures Ascii(text) == [text[0] as int, text[1] as int, text[2] as int] + [text[3] as int] + Ascii(reason)
  {
    assert forall i :: 4 <= i < |text| ==> text[i] == reason[i - 4];
  }

  lemma ReadRendered(text: string, status: nat, contentType: string, body: string, date: Date, close: bool)
    requires StatusText(text, status) && |contentType| > 0
    ensures ReadReply(Rendered(Ascii(text), Ascii(contentType), Ascii(body), date, close))
         == Some(Plain(status, date, contentType, body))
  {
    LiteralText(contentType);
    FieldNames();
    hide Ascii, Head, HeadLines, ReadStatus, ReadFields, Combined, LineText, AllLines, Lower, DATE, TYPE;
    var l := HeaderLines(Ascii(text), Ascii(contentType), |Ascii(body)|, date, close);
    HeaderLinesAreText(Ascii(text), Ascii(contentType), |Ascii(body)|, date, close);
    HeadReads(l, Ascii(body));
    LinesRead(Ascii(text), Ascii(contentType), |Ascii(body)|, date, close);
    CombinedTwo((DATE, date), (TYPE, Ascii(contentType)));
  }

  lemma NothingCombined()
    ensures Combined([]) == map[]
  {
  }

  lemma ReadUnavailable()
    ensures ReadReply(UNAVAILABLE) == Some(Reading.Reply(503, map[], []))
  {
    hide Ascii, Digits, ReadFields, HeadLines, ReadStatus, Head, AllLines, Combined, CONTENT_LENGTH, CONNECTION_CLOSE;
    StatusTexts();
    FramingPassed(0);
    UnavailableLinesAreText();
    var l := UNAVAILABLE_LINES;
    assert UNAVAILABLE == Head(l) + [];
    HeadReads(l, []);
    FieldsAppend([l[1]], [l[2]]);
    assert l[1..] == [l[1]] + [l[2]];
    NothingCombined();
  }

  // ---------------------------------------------------------------- requests and their answers

  const HELLO: string := "Hello, World!"
  const HELLO_JSON: string := "{\"message\":\"Hello, World!\"}"

  /** What the served request asked for, and what a client reads in its reply. */
  ghost predicate AsAsked(server: Server, e: Served) {
    var read, snapshot := ReadReply(Session.Reply(server, e)), e.via.FromSnapshot?;
    if Opens(e.req, PLAIN_START) then
      snapshot && read == Some(Plain(200, e.via.date, "text/plain; charset=utf-8", HELLO))
    else if Opens(e.req, JSON_START) then
      snapshot && read == Some(Plain(200, e.via.date, "application/json", HELLO_JSON))
    else
      match server.dispatch(e.req)
      case NoMatch => snapshot && read == Some(Plain(404, e.via.date, "text/plain", "Not Found"))
      case Sync(bytes) => Session.Reply(server, e) == bytes
      case Async =>
        if server.hasRegistry then server.mayResolve(e.req, Session.Reply(server, e))
        else read == Some(Reading.Reply(503, map[], []))
  }

  /** The reply ends the connection and says so: a benchmark request of an old version, or no registry to wait with. */
  predicate Last(server: Server, req: Bytes) {
    if Opens(req, PLAIN_START) then OldVersion(req, PLAIN_START)
    else if Opens(req, JSON_START) then OldVersion(req, JSON_START)
    else server.dispatch(req).Async? && !server.hasRegistry
  }

  /** For every request: each reply it is owed is the one it asked for. */
  lemma AnswersAsAsked(server: Server, e: Served)
    requires Answers(server, e)
    ensures AsAsked(server, e)
    ensures Closes(e) <==> Last(server, e.req)
    ensures Last(server, e.req) ==> SaysClose(Session.Reply(server, e))
    ensures e.via.FromSnapshot? ==> (SaysClose(Session.Reply(server, e)) <==> Last(server, e.req))
  {
    Classified(e.req);
    StatusTexts();
    ReadUnavailable();
    if e.via.FromSnapshot? || e.via.Unavailable? { CloseIsAnnounced(server, e); }
    hide ClassOf, Opens, ReadReply, Rendered, Ascii, StatusText, UNAVAILABLE, Plain, SaysClose;
    if e.via.FromSnapshot? {
      var date, close := e.via.date, ClassOf(e.req).close;
      match RouteOf(e.req)
      case Plaintext => ReadRendered("200 OK", 200, "text/plain; charset=utf-8", HELLO, date, close);
      case Json => ReadRendered("200 OK", 200, "application/json", HELLO_JSON, date, close);
      case NotFound => ReadRendered("404 Not Found", 404, "text/plain", "Not Found", date, close);
    }
  }

  // ---------------------------------------------------------------- in every run

  /** A history in which each of the first requests has the reply it asked for, and only the last reply ends it. */
  ghost predicate AllAsAsked(server: Server, l: Ledger) {
    && |l.served| <= |Frames(l.input)|
    && (forall k :: 0 <= k < |l.served| ==> l.served[k].req == Frames(l.input)[k] && AsAsked(server, l.served[k]))
    && (forall k :: 0 <= k < |l.served| - 1 ==> !Last(server, Frames(l.input)[k]))
  }

  lemma InOrderAsAsked(server: Server, t: Tracked)
    requires InOrder(server, t)
    ensures AllAsAsked(server, t.ledger)
  {
    hide AsAsked, Answers, Frames, Last, Concat, RepliesOf, Closes;
    var l := t.ledger;
    forall k | 0 <= k < |l.served|
      ensures k < |Frames(l.input)| && l.served[k].req == Frames(l.input)[k] && AsAsked(server, l.served[k])
      ensures Closes(l.served[k]) <==> Last(server, Frames(l.input)[k])
    {
      AnswersAsAsked(server, l.served[k]);
      assert TakenSoFar(l)[k] == RequestsOf(l.served)[k];
    }
  }

  /** In every reachable state, on every connection that is or was: each request has the reply it asked for. */
  lemma RunsAnswer(server: Server, events: seq<Event>)
    requires HandlersReply(server) && IsRun(server, Initial(), events)
    ensures var w := After(server, events);
            && (forall i :: i in w.conns ==> AllAsAsked(server, w.conns[i].session.ledger))
            && (forall k :: 0 <= k < |w.closed| ==> AllAsAsked(server, w.closed[k].session.ledger))
  {
    hide InOrder, AllAsAsked, Run, HandlersReply;
    RepliesInOrder(server, events);
    var w := After(server, events);
    forall i | i in w.conns ensures AllAsAsked(server, w.conns[i].session.ledger) {
      InOrderAsAsked(server, w.conns[i].session);
    }
    forall k | 0 <= k < |w.closed| ensures AllAsAsked(server, w.closed[k].session.ledger) {
      InOrderAsAsked(server, w.closed[k].session);
    }
  }
}
