/** An independent client: it cuts a stream of responses at header ends and Content-Length (section 8.6 of RFC 9110). */
module Wire {
  import opened Bytes
  import opened Pipeline
  import opened Decimal

  const CRLF: Bytes := [CR, LF]
  const CONTENT_LENGTH: Bytes := Ascii("Content-Length: ")
  const CONNECTION_CLOSE: Bytes := Ascii("Connection: close")
  const KEEP_ALIVE: Bytes := Ascii("Connection: keep-alive")

  // ---------------------------------------------------------------- the client

  function FirstCrlf(b: Bytes, from: nat): (r: Option<nat>)
    requires from <= |b|
    ensures r.Some? ==> from <= r.value && r.value + 2 <= |b|
    decreases |b| - from
  {
    if from + 2 > |b| then None
    else if b[from] == CR && b[from + 1] == LF then Some(from)
    else FirstCrlf(b, from + 1)
  }

  predicate StartsWith(line: Bytes, prefix: Bytes) {
    |line| >= |prefix| && line[..|prefix|] == prefix
  }

  /** Value of the first Content-Length line of a header block. */
  function ContentLength(head: Bytes): Option<nat>
    decreases |head|
  {
    match FirstCrlf(head, 0)
    case None => None
    case Some(p) =>
      if StartsWith(head[..p], CONTENT_LENGTH) then
        var digits := head[..p][|CONTENT_LENGTH|..];
        if IsDigits(digits) then Some(Value(digits)) else None
      else ContentLength(head[p + 2..])
  }

  /** The header block holds this line. */
  function HasLine(head: Bytes, line: Bytes): bool
    decreases |head|
  {
    match FirstCrlf(head, 0)
    case None => false
    case Some(p) => head[..p] == line || HasLine(head[p + 2..], line)
  }

  /** The response announces that it is the last on its connection. */
  function SaysClose(response: Bytes): bool {
    match FirstEnd(response, 0) case None => false case Some(p) => HasLine(response[..p + 4], CONNECTION_CLOSE)
  }

  /** Length of the response at the front of the stream, once all of it has arrived. */
  function NextResponse(stream: Bytes): (r: Option<nat>)
    ensures r.Some? ==> 0 < r.value <= |stream|
  {
    match FirstEnd(stream, 0)
    case None => None
    case Some(p) =>
      match ContentLength(stream[..p + 4])
      case None => None
      case Some(n) => if p + 4 + n <= |stream| then Some(p + 4 + n) else None
  }

  /** The responses a client recovers from the bytes it has received. */
  function Responses(stream: Bytes): seq<Bytes>
    decreases |stream|
  {
    match NextResponse(stream)
    case None => []
    case Some(n) => [stream[..n]] + Responses(stream[n..])
  }

  /** One response, whole and nothing else. */
  predicate WellFramed(b: Bytes) {
    NextResponse(b) == Some(|b|)
  }

  predicate AllFramed(replies: seq<Bytes>) {
    forall i :: 0 <= i < |replies| ==> WellFramed(replies[i])
  }

  /** Statuses whose responses have no body (section 6.4.1 of RFC 9110). */
  predicate Bodyless(status: nat) {
    status == 204 || status == 304
  }

  // ---------------------------------------------------------------- the client undoes concatenation

  lemma FirstEndStays(b: Bytes, rest: Bytes, p: nat)
    requires FirstEnd(b, 0) == Some(p)
    ensures FirstEnd(b + rest, 0) == Some(p)
  {
    assert EndsAt(b + rest, p);
    forall q: nat | q < p ensures !EndsAt(b + rest, q) {
      assert !EndsAt(b, q);
    }
  }

  /** Bytes that arrive later do not change where the first response ends. */
  lemma ResponseStays(b: Bytes, rest: Bytes)
    requires NextResponse(b).Some?
    ensures NextResponse(b + rest) == NextResponse(b)
  {
    var p := FirstEnd(b, 0).value;
    FirstEndStays(b, rest, p);
    assert (b + rest)[..p + 4] == b[..p + 4];
  }

  lemma {:induction false} ClientRecovers(replies: seq<Bytes>)
    requires AllFramed(replies)
    ensures Responses(Concat(replies)) == replies
  {
    if replies != [] {
      var first, rest := replies[0], Concat(replies[1..]);
      ClientRecovers(replies[1..]);
      ResponseStays(first, rest);
      assert (first + rest)[..|first|] == first && (first + rest)[|first|..] == rest;
    }
  }

  /** Cut short anywhere, the stream still shows the client only whole replies, in order. */
  lemma {:induction false} ClientSeesPrefix(replies: seq<Bytes>, part: Bytes, tail: Bytes)
    requires AllFramed(replies) && part + tail == Concat(replies)
    ensures Responses(part) <= replies
  {
    hide NextResponse, WellFramed;
    if NextResponse(part).Some? {
      WellFramedMeans(replies, part);
      var n := NextResponse(part).value;
      ResponseStays(part, tail);
      var first, rest := replies[0], Concat(replies[1..]);
      ResponseStays(first, rest);
      assert part + tail == first + rest && n == |first|;
      assert part[..n] == (part + tail)[..n] == first;
      assert part[n..] + tail == (part + tail)[n..] == rest;
      ClientSeesPrefix(replies[1..], part[n..], tail);
    }
  }

  lemma WellFramedMeans(replies: seq<Bytes>, part: Bytes)
    requires AllFramed(replies) && NextResponse(part).Some? && |part| <= |Concat(replies)|
    ensures replies != [] && NextResponse(replies[0]) == Some(|replies[0]|)
    ensures 0 < NextResponse(part).value <= |part|
  {
  }

  // ---------------------------------------------------------------- messages built line by line

  /** Header lines, each ended by CRLF, and the blank line. */
  function Head(lines: seq<Bytes>): Bytes {
    if lines == [] then CRLF else lines[0] + CRLF + Head(lines[1..])
  }

  /** Text a header line may hold: not empty, and neither CR nor LF. */
  predicate LineText(line: Bytes) {
    |line| > 0 && CR !in line && LF !in line
  }

  predicate AllLines(lines: seq<Bytes>) {
    forall i :: 0 <= i < |lines| ==> LineText(lines[i])
  }

  lemma {:induction false} FirstCrlfOfLine(line: Bytes, rest: Bytes, from: nat)
    requires CR !in line && from <= |line|
    ensures FirstCrlf(line + CRLF + rest, from) == Some(|line|)
    decreases |line| - from
  {
    var b := line + CRLF + rest;
    if from < |line| {
      assert b[from] == line[from];
      FirstCrlfOfLine(line, rest, from + 1);
    } else {
      assert b[from] == CR && b[from + 1] == LF;
    }
  }

  /** Bytes in front that start no blank line move the first one back by their number. */
  lemma ByteInFront(b: Byte, rest: Bytes, p: nat)
    requires FirstEnd(rest, 0) == Some(p)
    requires !EndsAt([b] + rest, 0)
    ensures FirstEnd([b] + rest, 0) == Some(p + 1)
  {
    var all := [b] + rest;
    assert EndsAt(all, p + 1);
    forall q: nat | q < p + 1 ensures !EndsAt(all, q) {
      if q > 0 { assert !EndsAt(rest, q - 1); }
    }
  }

  lemma {:induction false} LineInFront(line: Bytes, rest: Bytes, p: nat)
    requires CR !in line && FirstEnd(CRLF + rest, 0) == Some(p)
    ensures FirstEnd(line + CRLF + rest, 0) == Some(|line| + p)
  {
    if line == [] {
      assert line + CRLF + rest == CRLF + rest;
    } else {
      LineInFront(line[1..], rest, p);
      var tail := line[1..] + CRLF + rest;
      assert line[0] != CR;
      ByteInFront(line[0], tail, |line| - 1 + p);
      assert line + CRLF + rest == [line[0]] + tail;
    }
  }

  lemma LineBreakInFront(rest: Bytes, p: nat)
    requires FirstEnd(rest, 0) == Some(p) && rest[0] != CR
    ensures FirstEnd(CRLF + rest, 0) == Some(p + 2)
  {
    ByteInFront(LF, rest, p);
    ByteInFront(CR, [LF] + rest, p + 1);
    assert CRLF + rest == [CR] + ([LF] + rest);
  }

  /** The first blank line of a line-built message is the one that ends its head. */
  lemma {:induction false} HeadEnds(lines: seq<Bytes>, body: Bytes)
    requires lines != [] && AllLines(lines)
    ensures |Head(lines)| >= 4 && FirstEnd(Head(lines) + body, 0) == Some(|Head(lines)| - 4)
  {
    var line, tail := lines[0], Head(lines[1..]);
    assert Head(lines) + body == line + CRLF + (tail + body);
    if lines[1..] == [] {
      var blank := CRLF + (CRLF + body);
      assert FirstEnd(blank, 0) == Some(0) by { assert blank[..4] == TERMINATOR; }
      LineInFront(line, CRLF + body, 0);
    } else {
      HeadEnds(lines[1..], body);
      assert LineText(lines[1]) && tail[0] == lines[1][0];
      LineBreakInFront(tail + body, |tail| - 4);
      LineInFront(line, tail + body, |tail| - 2);
    }
  }

  lemma {:induction false} HeadContentLength(lines: seq<Bytes>, k: nat, n: nat)
    requires AllLines(lines) && k < |lines|
    requires lines[k] == CONTENT_LENGTH + Digits(n)
    requires forall j :: 0 <= j < k ==> !StartsWith(lines[j], CONTENT_LENGTH)
    ensures ContentLength(Head(lines)) == Some(n)
  {
    var line, tail := lines[0], Head(lines[1..]);
    var head := Head(lines);
    assert head == line + CRLF + tail;
    FirstCrlfOfLine(line, tail, 0);
    assert head[..|line|] == line;
    if k == 0 {
      DigitsRoundTrip(n);
      assert line[..|CONTENT_LENGTH|] == CONTENT_LENGTH && line[|CONTENT_LENGTH|..] == Digits(n);
    } else {
      assert head[|line| + 2..] == tail;
      HeadContentLength(lines[1..], k - 1, n);
    }
  }

  lemma HeadAndBody(head: Bytes, body: Bytes)
    requires |head| >= 4 && FirstEnd(head + body, 0) == Some(|head| - 4)
    requires ContentLength(head) == Some(|body|)
    ensures WellFramed(head + body)
  {
    hide ContentLength, EndsAt;
    assert (head + body)[..|head|] == head;
  }

  /** A message whose first Content-Length line counts its body is recovered whole. */
  lemma MessageIsFramed(lines: seq<Bytes>, k: nat, body: Bytes)
    requires AllLines(lines) && k < |lines|
    requires lines[k] == CONTENT_LENGTH + Digits(|body|)
    requires forall j :: 0 <= j < k ==> !StartsWith(lines[j], CONTENT_LENGTH)
    ensures WellFramed(Head(lines) + body)
  {
    HeadEnds(lines, body);
    HeadContentLength(lines, k, |body|);
    HeadAndBody(Head(lines), body);
  }

  lemma {:induction false} HeadHasLine(lines: seq<Bytes>, line: Bytes)
    requires AllLines(lines) && line != []
    ensures HasLine(Head(lines), line) <==> line in lines
  {
    var head := Head(lines);
    if lines == [] {
      assert head[0] == CR && head[1] == LF;
      assert head[..0] == [] && head[2..] == [];
    } else {
      var first, tail := lines[0], Head(lines[1..]);
      FirstCrlfOfLine(first, tail, 0);
      assert head == first + CRLF + tail;
      assert head[..|first|] == first && head[|first| + 2..] == tail;
      HeadHasLine(lines[1..], line);
      assert lines == [first] + lines[1..];
    }
  }

  /** A message announces the close exactly when one of its header lines does. */
  lemma MessageSaysClose(lines: seq<Bytes>, body: Bytes)
    requires lines != [] && AllLines(lines)
    ensures SaysClose(Head(lines) + body) <==> CONNECTION_CLOSE in lines
  {
    hide HasLine, Head, EndsAt, CONNECTION_CLOSE;
    assert CONNECTION_CLOSE != [] by { CloseIsText(); }
    HeadEnds(lines, body);
    HeadHasLine(lines, CONNECTION_CLOSE);
    assert (Head(lines) + body)[..|Head(lines)|] == Head(lines);
  }

  lemma CloseIsText()
    ensures CONNECTION_CLOSE != []
  {
  }
}
