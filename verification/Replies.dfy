/**
 The reply each request is owed (rust-core/src/uring/connection.rs, rust-core/src/benchmark/responses.rs).
 Handlers are parameters: the model does not look inside the AOT table or the async tasks.
 */
module Replies {
  import opened Bytes
  import opened Pipeline
  import opened Decimal
  import opened Wire

  /** Result of looking a request up in the AOT table: a sync handler has already run. */
  datatype Outcome = NoMatch | Sync(bytes: Bytes) | Async

  /**
   The server a worker runs for. `mayResolve(req, bytes)` says that the async handler spawned for
   `req` may finish with `bytes`; `hasRegistry` that a handle registry was configured.
   */
  datatype Server = Server(dispatch: Bytes -> Outcome, hasRegistry: bool, mayResolve: (Bytes, Bytes) -> bool)

  /** Handlers always write something: submitting an empty Send is a debug assertion failure. */
  ghost predicate HandlersReply(server: Server) {
    && (forall req: Bytes :: server.dispatch(req).Sync? ==> server.dispatch(req).bytes != [])
    && (forall req: Bytes, bytes: Bytes :: server.mayResolve(req, bytes) ==> bytes != [])
  }

  /** Handlers write exactly one response each. */
  ghost predicate HandlersFrame(server: Server) {
    && (forall req: Bytes :: server.dispatch(req).Sync? ==> WellFramed(server.dispatch(req).bytes))
    && (forall req: Bytes, bytes: Bytes :: server.mayResolve(req, bytes) ==> WellFramed(bytes))
  }

  const DATE_LEN: nat := 29
  type Date = d: Bytes | |d| == DATE_LEN && CR !in d && LF !in d witness seq(DATE_LEN, _ => 48)

  const UNAVAILABLE_LINES: seq<Bytes> :=
    [Ascii("HTTP/1.1 ") + Ascii("503 Service Unavailable"), CONTENT_LENGTH + Digits(0), CONNECTION_CLOSE]
  const UNAVAILABLE: Bytes := Head(UNAVAILABLE_LINES)

  /** Header lines of a pre-rendered response, and the response they head. */
  function HeaderLines(status: Bytes, contentType: Bytes, length: nat, date: Date, close: bool): seq<Bytes> {
    [Ascii("HTTP/1.1 ") + status,
     Ascii("Date: ") + date,
     Ascii("Content-Type: ") + contentType,
     CONTENT_LENGTH + Digits(length),
     if close then CONNECTION_CLOSE else KEEP_ALIVE]
  }

  function Rendered(status: Bytes, contentType: Bytes, body: Bytes, date: Date, close: bool): Bytes {
    Head(HeaderLines(status, contentType, |body|, date, close)) + body
  }

  /** The pre-rendered response of the snapshot taken at `date`. */
  function Baked(date: Date, route: Route, close: bool): Bytes {
    match route
    case Plaintext => Rendered(Ascii("200 OK"), Ascii("text/plain; charset=utf-8"), Ascii("Hello, World!"), date, close)
    case Json => Rendered(Ascii("200 OK"), Ascii("application/json"), Ascii("{\"message\":\"Hello, World!\"}"), date,
      close)
    case NotFound => Rendered(Ascii("404 Not Found"), Ascii("text/plain"), Ascii("Not Found"), date, close)
  }

  // ---------------------------------------------------------------- every one of them is exactly one response

  lemma LiteralText(s: string)
    requires |s| > 0
    ensures LineText(Ascii(s))
  {
  }

  lemma JoinText(a: Bytes, b: Bytes)
    requires LineText(a) && CR !in b && LF !in b
    ensures LineText(a + b)
  {
  }

  lemma DigitsAreText(n: nat)
    ensures LineText(Digits(n))
  {
    DigitsRoundTrip(n);
  }

  lemma HeaderLinesAreText(status: Bytes, contentType: Bytes, length: nat, date: Date, close: bool)
    requires LineText(status) && LineText(contentType)
    ensures AllLines(HeaderLines(status, contentType, length, date, close))
  {
    hide Ascii, Digits;
    LiteralText("HTTP/1.1 ");
    LiteralText("Date: ");
    LiteralText("Content-Type: ");
    LiteralText("Content-Length: ");
    LiteralText("Connection: close");
    LiteralText("Connection: keep-alive");
    DigitsAreText(length);
    JoinText(Ascii("HTTP/1.1 "), status);
    JoinText(Ascii("Date: "), date);
    JoinText(Ascii("Content-Type: "), contentType);
    JoinText(CONTENT_LENGTH, Digits(length));
  }

  /** Rendering any one-line status and content type gives exactly one response. */
  lemma RenderedIsFramed(status: Bytes, contentType: Bytes, body: Bytes, date: Date, close: bool)
    requires LineText(status) && LineText(contentType)
    ensures WellFramed(Rendered(status, contentType, body, date, close))
  {
    var l := HeaderLines(status, contentType, |body|, date, close);
    HeaderLinesAreText(status, contentType, |body|, date, close);
    assert forall j :: 0 <= j < 3 ==> !StartsWith(l[j], CONTENT_LENGTH) by {
      assert l[0][0] == 'H' as int && l[1][0] == 'D' as int && l[2][8] == 'T' as int;
      assert CONTENT_LENGTH[0] == 'C' as int && CONTENT_LENGTH[8] == 'L' as int;
      hide *;
      NotPrefix(l[0], CONTENT_LENGTH, 0);
      NotPrefix(l[1], CONTENT_LENGTH, 0);
      NotPrefix(l[2], CONTENT_LENGTH, 8);
    }
    hide *;
    MessageIsFramed(l, 3, body);
  }

  lemma NotPrefix(line: Bytes, prefix: Bytes, k: nat)
    requires k < |line| && k < |prefix| && line[k] != prefix[k]
    ensures !StartsWith(line, prefix)
  {
    if |line| >= |prefix| { assert line[..|prefix|][k] == line[k]; }
  }

  lemma BakedIsFramed(date: Date, route: Route, close: bool)
    ensures WellFramed(Baked(date, route, close))
  {
    hide WellFramed, Rendered, Ascii;
    LiteralText("200 OK");
    LiteralText("404 Not Found");
    LiteralText("text/plain");
    LiteralText("text/plain; charset=utf-8");
    LiteralText("application/json");
    match route
    case Plaintext => RenderedIsFramed(Ascii("200 OK"), Ascii("text/plain; charset=utf-8"), Ascii("Hello, World!"),
      date, close);
    case Json => RenderedIsFramed(Ascii("200 OK"), Ascii("application/json"), Ascii("{\"message\":\"Hello, World!\"}"),
      date, close);
    case NotFound => RenderedIsFramed(Ascii("404 Not Found"), Ascii("text/plain"), Ascii("Not Found"), date, close);
  }

  lemma UnavailableLinesAreText()
    ensures AllLines(UNAVAILABLE_LINES)
  {
    hide Ascii, Digits;
    LiteralText("HTTP/1.1 ");
    LiteralText("503 Service Unavailable");
    LiteralText("Content-Length: ");
    LiteralText("Connection: close");
    DigitsAreText(0);
    JoinText(Ascii("HTTP/1.1 "), Ascii("503 Service Unavailable"));
    JoinText(CONTENT_LENGTH, Digits(0));
  }

  lemma UnavailableIsFramed()
    ensures WellFramed(UNAVAILABLE)
  {
    var l := UNAVAILABLE_LINES;
    UnavailableLinesAreText();
    assert !StartsWith(l[0], CONTENT_LENGTH) by {
      assert l[0][0] == 'H' as int && CONTENT_LENGTH[0] == 'C' as int;
      hide *;
      NotPrefix(l[0], CONTENT_LENGTH, 0);
    }
    assert UNAVAILABLE == Head(l) + [];
    hide *;
    MessageIsFramed(l, 1, []);
  }

  lemma {:induction false} HeadSize(lines: seq<Bytes>)
    requires forall i :: 0 <= i < |lines| ==> |lines[i]| <= 48
    ensures 2 <= |Head(lines)| <= 50 * |lines| + 2
  {
    if lines != [] { HeadSize(lines[1..]); }
  }

  /** No pre-rendered response comes near the size of a write region. */
  lemma BakedIsSmall(date: Date, route: Route, close: bool)
    ensures 0 < |Baked(date, route, close)| <= 300
  {
    hide Head;
    DigitsBound(9, 2);
    DigitsBound(13, 2);
    DigitsBound(27, 2);
    match route
    case Plaintext => HeadSize(HeaderLines(Ascii("200 OK"), Ascii("text/plain; charset=utf-8"), 13, date, close));
    case Json => HeadSize(HeaderLines(Ascii("200 OK"), Ascii("application/json"), 27, date, close));
    case NotFound => HeadSize(HeaderLines(Ascii("404 Not Found"), Ascii("text/plain"), 9, date, close));
  }

  // ---------------------------------------------------------------- announcing the close

  lemma Differs(a: Bytes, b: Bytes, k: nat)
    requires k < |a| && k < |b| && a[k] != b[k]
    ensures a != b
  {
  }

  /** Only the last of the header lines can announce the close. */
  lemma CloseLine(status: Bytes, contentType: Bytes, length: nat, date: Date, close: bool)
    ensures CONNECTION_CLOSE in HeaderLines(status, contentType, length, date, close) <==> close
  {
    hide Digits;
    var l := HeaderLines(status, contentType, length, date, close);
    assert CONNECTION_CLOSE[0] == 'C' as int && CONNECTION_CLOSE[3] == 'n' as int && CONNECTION_CLOSE[12] == 'c' as int;
    assert l[0][0] == 'H' as int && l[1][0] == 'D' as int && l[2][3] == 't' as int && l[3][3] == 't' as int;
    Differs(l[0], CONNECTION_CLOSE, 0);
    Differs(l[1], CONNECTION_CLOSE, 0);
    Differs(l[2], CONNECTION_CLOSE, 3);
    Differs(l[3], CONNECTION_CLOSE, 3);
    if close {
      assert l[4] == CONNECTION_CLOSE;
    } else {
      assert l[4][12] == 'k' as int;
      Differs(l[4], CONNECTION_CLOSE, 12);
    }
  }

  lemma RenderedSaysClose(status: Bytes, contentType: Bytes, body: Bytes, date: Date, close: bool)
    requires LineText(status) && LineText(contentType)
    ensures SaysClose(Rendered(status, contentType, body, date, close)) <==> close
  {
    var l := HeaderLines(status, contentType, |body|, date, close);
    HeaderLinesAreText(status, contentType, |body|, date, close);
    CloseLine(status, contentType, |body|, date, close);
    hide *;
    MessageSaysClose(l, body);
  }

  /** A pre-rendered response announces the close exactly when it is the closing variant. */
  lemma BakedSaysClose(date: Date, route: Route, close: bool)
    ensures SaysClose(Baked(date, route, close)) <==> close
  {
    hide SaysClose, Rendered, Ascii;
    LiteralText("200 OK");
    LiteralText("404 Not Found");
    LiteralText("text/plain");
    LiteralText("text/plain; charset=utf-8");
    LiteralText("application/json");
    match route
    case Plaintext => RenderedSaysClose(Ascii("200 OK"), Ascii("text/plain; charset=utf-8"), Ascii("Hello, World!"),
      date, close);
    case Json => RenderedSaysClose(Ascii("200 OK"), Ascii("application/json"),
      Ascii("{\"message\":\"Hello, World!\"}"), date, close);
    case NotFound => RenderedSaysClose(Ascii("404 Not Found"), Ascii("text/plain"), Ascii("Not Found"), date, close);
  }

  lemma UnavailableSaysClose()
    ensures SaysClose(UNAVAILABLE)
  {
    var l := UNAVAILABLE_LINES;
    UnavailableLinesAreText();
    assert l[2] == CONNECTION_CLOSE;
    assert UNAVAILABLE == Head(l) + [];
    hide *;
    MessageSaysClose(l, []);
  }
}
