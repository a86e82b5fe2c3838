/** Splitting a receive buffer into pipelined requests (rust-core/src/benchmark/parser.rs). */
module Pipeline {
  import opened Bytes

  datatype Route = Plaintext | Json | NotFound

  datatype Classification = Classification(route: Route, close: bool, requestLen: nat)

  const TERMINATOR: Bytes := [CR, LF, CR, LF]
  const PLAINTEXT: Bytes := Ascii("GET /plaintext HTTP/1.")
  const JSON: Bytes := Ascii("GET /json HTTP/1.")
  const U32: nat := 0x1_0000_0000

  // ---------------------------------------------------------------- reference meaning

  predicate EndsAt(buf: Bytes, p: nat) {
    p + 4 <= |buf| && buf[p] == CR && buf[p + 1] == LF && buf[p + 2] == CR && buf[p + 3] == LF
  }

  /** A whole request: it ends with the blank line, and with the first one it contains. */
  ghost predicate IsRequest(b: Bytes) {
    |b| >= 4 && EndsAt(b, |b| - 4) && forall p: nat :: p < |b| - 4 ==> !EndsAt(b, p)
  }

  ghost predicate AllRequests(reqs: seq<Bytes>) {
    forall i :: 0 <= i < |reqs| ==> IsRequest(reqs[i])
  }

  ghost predicate Incomplete(b: Bytes) {
    forall p: nat :: !EndsAt(b, p)
  }

  /** Position of the first blank line at or after `from`. */
  function FirstEnd(buf: Bytes, from: nat): (r: Option<nat>)
    requires from <= |buf|
    ensures r.Some? ==> from <= r.value && r.value + 4 <= |buf| && EndsAt(buf, r.value)
    ensures r.Some? ==> forall p: nat :: from <= p < r.value ==> !EndsAt(buf, p)
    ensures r.None? ==> forall p: nat :: from <= p ==> !EndsAt(buf, p)
    decreases |buf| - from
  {
    if EndsAt(buf, from) then Some(from)
    else if from == |buf| then None
    else FirstEnd(buf, from + 1)
  }

  /** The complete requests at the front of `buf`, in order. */
  function Frames(buf: Bytes): seq<Bytes>
    decreases |buf|
  {
    match FirstEnd(buf, 0)
    case None => []
    case Some(p) => [buf[..p + 4]] + Frames(buf[p + 4..])
  }

  /** What is left behind them: at most the start of one more request. */
  function Leftover(buf: Bytes): Bytes
    decreases |buf|
  {
    match FirstEnd(buf, 0)
    case None => buf
    case Some(p) => Leftover(buf[p + 4..])
  }

  function RequestLine(req: Bytes): Bytes {
    match FirstByte(LF, req, 0)
    case None => req
    case Some(p) => req[..p + 1]
  }

  function FirstByte(needle: Byte, hay: Bytes, from: nat): (r: Option<nat>)
    requires from <= |hay|
    ensures r.Some? ==> from <= r.value < |hay| && hay[r.value] == needle
    ensures r.Some? ==> forall p :: from <= p < r.value ==> hay[p] != needle
    ensures r.None? ==> forall p :: from <= p < |hay| ==> hay[p] != needle
    decreases |hay| - from
  {
    if from == |hay| then None
    else if hay[from] == needle then Some(from)
    else FirstByte(needle, hay, from + 1)
  }

  /** Benchmark fast-path classification of one request line. */
  function Classify(line: Bytes): Classification {
    if |line| >= |PLAINTEXT| + 3 && line[..|PLAINTEXT|] == PLAINTEXT then
      Classification(Plaintext, line[|PLAINTEXT|] == '0' as int, 0)
    else if |line| >= |JSON| + 3 && line[..|JSON|] == JSON then
      Classification(Json, line[|JSON|] == '0' as int, 0)
    else Classification(NotFound, false, 0)
  }

  /** How the parser classifies one framed request. */
  function ClassOf(req: Bytes): Classification {
    Classify(RequestLine(req)).(requestLen := |req| % U32)
  }

  // ---------------------------------------------------------------- the partition is the right one, and the only one

  /** Cutting a buffer after its first blank line leaves exactly one request in front. */
  lemma FirstCutIsRequest(buf: Bytes, p: nat)
    requires FirstEnd(buf, 0) == Some(p)
    ensures p + 4 <= |buf| && IsRequest(buf[..p + 4])
  {
    var head := buf[..p + 4];
    assert EndsAt(head, p);
    forall q: nat | q < p ensures !EndsAt(head, q) {
      assert !EndsAt(buf, q);
    }
  }

  /** A request followed by anything is cut exactly at its own end. */
  lemma FirstEndOfRequest(req: Bytes, rest: Bytes)
    requires IsRequest(req)
    ensures FirstEnd(req + rest, 0) == Some(|req| - 4)
  {
    var all := req + rest;
    assert EndsAt(all, |req| - 4);
    forall q: nat | q < |req| - 4 ensures !EndsAt(all, q) {
      assert !EndsAt(req, q);
    }
  }

  lemma {:induction false} FramesAreRequests(buf: Bytes)
    ensures AllRequests(Frames(buf)) && Incomplete(Leftover(buf))
    decreases |buf|
  {
    match FirstEnd(buf, 0)
    case None =>
    case Some(p) =>
      FirstCutIsRequest(buf, p);
      FramesAreRequests(buf[p + 4..]);
  }

  lemma {:induction false} FramesCover(buf: Bytes)
    ensures Concat(Frames(buf)) + Leftover(buf) == buf
    decreases |buf|
  {
    match FirstEnd(buf, 0)
    case None =>
    case Some(p) =>
      var head, tail := buf[..p + 4], buf[p + 4..];
      FramesCover(tail);
      var more := Frames(tail);
      assert Concat([head] + more) == head + Concat(more);
  }

  /** The frames and the leftover partition the buffer, into requests and an incomplete rest. */
  lemma FramesPartition(buf: Bytes)
    ensures Concat(Frames(buf)) + Leftover(buf) == buf
    ensures AllRequests(Frames(buf)) && Incomplete(Leftover(buf))
  {
    FramesAreRequests(buf);
    FramesCover(buf);
  }

  /** Any way of cutting a stream into requests and an incomplete rest is the parser's way. */
  lemma {:induction false} FramesUnique(reqs: seq<Bytes>, rest: Bytes)
    requires AllRequests(reqs)
    requires Incomplete(rest)
    ensures Frames(Concat(reqs) + rest) == reqs
    ensures Leftover(Concat(reqs) + rest) == rest
  {
    var buf := Concat(reqs) + rest;
    if reqs == [] {
      assert buf == rest;
    } else {
      FramesUnique(reqs[1..], rest);
      var tail := Concat(reqs[1..]) + rest;
      assert buf == reqs[0] + tail;
      FirstEndOfRequest(reqs[0], tail);
      assert buf[..|reqs[0]|] == reqs[0] && buf[|reqs[0]|..] == tail;
    }
  }

  /** Requests already cut off the front do not change how the rest is framed. */
  lemma {:induction false} FramesAfter(reqs: seq<Bytes>, rest: Bytes)
    requires AllRequests(reqs)
    ensures Frames(Concat(reqs) + rest) == reqs + Frames(rest)
    ensures Leftover(Concat(reqs) + rest) == Leftover(rest)
  {
    hide Frames, Leftover, Concat, IsRequest, EndsAt;
    var more, last := Frames(rest), Leftover(rest);
    FramesPartition(rest);
    FramesUnique(reqs + more, last);
    ConcatAppend(reqs, more);
    assert Concat(reqs) + rest == Concat(reqs + more) + last;
  }

  /** However the input is split across reads, parsing can resume on the leftover. */
  lemma FramesResume(buf: Bytes, ext: Bytes)
    ensures Frames(buf + ext) == Frames(buf) + Frames(Leftover(buf) + ext)
    ensures Leftover(buf + ext) == Leftover(Leftover(buf) + ext)
  {
    FramesPartition(buf);
    var reqs, rest := Frames(buf), Leftover(buf);
    FramesAfter(reqs, rest + ext);
    assert buf + ext == Concat(reqs) + (rest + ext);
  }

  // ---------------------------------------------------------------- the loops

  /** The memchr crate: least index of `needle` at or after `from`. */
  method Memchr(needle: Byte, hay: Bytes, from: nat) returns (r: Option<nat>)
    requires from <= |hay|
    ensures r == FirstByte(needle, hay, from)
  {
    var i := from;
    while i < |hay|
      invariant from <= i <= |hay|
      invariant FirstByte(needle, hay, from) == FirstByte(needle, hay, i)
    {
      if hay[i] == needle {
        return Some(i);
      }
      i := i + 1;
    }
    return None;
  }

  /** Jumps from CR to CR; giving up at the first CR with fewer than four bytes left misses nothing. */
  method FindDoubleCrlf(buf: Bytes) returns (r: Option<nat>)
    ensures r == FirstEnd(buf, 0)
  {
    var i := 0;
    while true
      invariant 0 <= i <= |buf|
      invariant forall p: nat :: p < i ==> !EndsAt(buf, p)
      decreases |buf| - i
    {
      var off := Memchr(CR, buf, i);
      if off.None? {
        return None;
      }
      var pos := off.value;
      if pos + 4 > |buf| {
        return None;
      }
      if buf[pos..pos + 4] == TERMINATOR {
        assert EndsAt(buf, pos) by {
          var four := buf[pos..pos + 4];
          assert four[0] == CR && four[1] == LF && four[2] == CR && four[3] == LF;
        }
        return Some(pos);
      }
      i := pos + 1;
    }
  }

  lemma NoFrame(rest: Bytes)
    requires FirstEnd(rest, 0).None?
    ensures Frames(rest) == []
  {
  }

  lemma EmptyConcat()
    ensures Concat([]) == []
  {
  }

  /** The loop body's classification of one request: its line, up to and including the first LF. */
  method ClassifyRequest(request: Bytes) returns (cls: Classification)
    ensures cls == ClassOf(request)
  {
    var lineEnd := Memchr(LF, request, 0);
    var line := if lineEnd.Some? then request[..lineEnd.value + 1] else request;
    cls := Classify(line).(requestLen := |request| % U32);
  }

  /** One more frame read off the rest of the buffer. */
  lemma NextFrame(all: seq<Bytes>, done: seq<Bytes>, rest: Bytes, end: nat)
    requires all == done + Frames(rest)
    requires FirstEnd(rest, 0) == Some(end)
    ensures end + 4 <= |rest|
    ensures all == (done + [rest[..end + 4]]) + Frames(rest[end + 4..])
    ensures |Concat(done + [rest[..end + 4]])| == |Concat(done)| + end + 4
  {
    ConcatSnoc(done, rest[..end + 4]);
    assert Frames(rest) == [rest[..end + 4]] + Frames(rest[end + 4..]);
  }

  method ParsePipeline(buf: Bytes, out: array<Classification>) returns (consumed: nat, count: nat)
    modifies out
    ensures count == Min(out.Length, |Frames(buf)|)
    ensures consumed == |Concat(Frames(buf)[..count])| && consumed <= |buf|
    ensures forall k :: 0 <= k < count ==> out[k] == ClassOf(Frames(buf)[k])
    ensures forall k :: count <= k < out.Length ==> out[k] == old(out[k])
  {
    hide ClassOf, EndsAt, Concat, Frames;
    EmptyConcat();
    consumed, count := 0, 0;
    ghost var all, done, rest: Bytes := Frames(buf), [], buf;
    while count < out.Length
      invariant count == |done| <= out.Length && consumed == |Concat(done)| <= |buf|
      invariant all == done + Frames(rest) && rest == buf[consumed..]
      invariant forall k :: 0 <= k < count ==> out[k] == ClassOf(done[k])
      invariant forall k :: count <= k < out.Length ==> out[k] == old(out[k])
    {
      var remaining := buf[consumed..];
      var end := FindDoubleCrlf(remaining);
      if end.None? {
        NoFrame(rest);
        break;
      }
      var requestLen := end.value + 4;
      var request := remaining[..requestLen];
      NextFrame(all, done, rest, end.value);
      var cls := ClassifyRequest(request);
      out[count] := cls;
      count := count + 1;
      consumed := consumed + requestLen;
      done, rest := done + [request], rest[requestLen..];
    }
    assert all[..count] == done;
  }
}
