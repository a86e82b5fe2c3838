/**
 The history of one connection next to its state: bytes received, bytes the kernel took, requests
 served. The invariant ties the three together through every completion and delivery.
 */
module Ledger {
  import opened Bytes
  import opened Pipeline
  import opened Wire
  import opened Replies
  import opened Session

  /** `parked` is the request an async task is running for. */
  datatype Ledger = Ledger(input: Bytes, sent: Bytes, served: seq<Served>, parked: Option<Bytes>)

  datatype Tracked = Tracked(conn: Conn, ledger: Ledger)

  const OPENED: Tracked := Tracked(FRESH, Ledger([], [], [], None))

  // ---------------------------------------------------------------- events

  function AfterCompletion(server: Server, date: Date, t: Tracked, result: int, data: Bytes): Tracked {
    var r := OnCompletion(server, date, t.conn, result, data);
    var l := t.ledger;
    var got := if result > 0 && t.conn.state.Reading? then data else [];
    var gone := if result > 0 && t.conn.state.Writing? then data else [];
    Tracked(r.conn, Ledger(l.input + got, l.sent + gone, l.served + r.log, if r.spawn.Some? then r.spawn else l.parked))
  }

  function ParkedRequest(l: Ledger): Bytes {
    match l.parked case None => [] case Some(req) => req
  }

  function AfterDelivery(t: Tracked, bytes: Bytes): Tracked {
    var r := OnDelivery(t.conn, ParkedRequest(t.ledger), bytes);
    Tracked(r.conn, t.ledger.(served := t.ledger.served + r.log,
      parked := if r.log != [] then None else t.ledger.parked))
  }

  // ---------------------------------------------------------------- the invariant

  function Pending(l: Ledger): seq<Bytes> {
    match l.parked case None => [] case Some(req) => [req]
  }

  /** Requests taken out of the read region so far. */
  function TakenSoFar(l: Ledger): seq<Bytes> {
    RequestsOf(l.served) + Pending(l)
  }

  /** Holds of a connection for good, also after it is closed. */
  ghost predicate Kept(server: Server, t: Tracked) {
    var c, l := t.conn, t.ledger;
    && c.offset <= |c.write|
    && AllRequests(TakenSoFar(l))
    && l.input == Concat(TakenSoFar(l)) + c.read
    && GoodLog(server, l.served)
    && l.sent + c.write[c.offset..] == Concat(RepliesOf(server, l.served))
  }

  /** A connection between two completions. */
  ghost predicate Settled(server: Server, t: Tracked) {
    var c, l := t.conn, t.ledger;
    && Kept(server, t)
    && |c.read| <= READ_REGION && |c.write| <= WRITE_REGION
    && (LastCloses(l.served) <==> c.state.Writing? && c.closeAfterDrain)
    && (l.parked.Some? <==> c.state.AwaitingAsync?)
    && match c.state
       case Reading => c.write == [] && c.offset == 0 && Frames(c.read) == [] && |c.read| < READ_REGION
       case Writing => c.offset < |c.write|
       case AwaitingAsync =>
         c.write == [] && c.offset == 0 && NeedsTask(server, l.parked.value)
         && c.parkedCloseAfter == ClassOf(l.parked.value).close
  }

  /** The one op a connection in this state has with the kernel, if any. */
  function ExpectedIo(c: Conn): Option<Io> {
    match c.state
    case Reading => Some(Recv(READ_REGION - |c.read|))
    case Writing => Some(Send(Drop(c.write, c.offset)))
    case AwaitingAsync => None
  }

  /** What the kernel may answer to that op. */
  predicate KernelAnswers(op: Io, result: int, data: Bytes) {
    match op
    case Recv(len) => if result > 0 then result <= len && |data| == result else data == []
    case Send(bytes) => if result > 0 then result <= |bytes| && data == bytes[..result] else data == []
  }

  // ---------------------------------------------------------------- one pass over the buffer

  /** Reading, with nothing in the write region: the state in which a pass starts. */
  ghost predicate Ready(server: Server, t: Tracked) {
    var c, l := t.conn, t.ledger;
    && Kept(server, t)
    && |c.read| <= READ_REGION && c.state.Reading? && c.write == [] && c.offset == 0
    && l.parked.None? && !LastCloses(l.served)
  }

  /** Taking whole requests off the front leaves exactly the bytes behind them. */
  lemma TakeFromRead(read: Bytes, m: nat)
    requires m <= |Window(read)|
    ensures read == Concat(Window(read)[..m]) + Drop(read, |Concat(Window(read)[..m])|)
    ensures AllRequests(Window(read)[..m])
  {
    hide IsRequest;
    var fs := Frames(read);
    var taken := Window(read)[..m];
    assert taken == fs[..m] && fs == taken + fs[m..];
    FramesPartition(read);
    ConcatAppend(taken, fs[m..]);
    var head, tail := Concat(taken), Concat(fs[m..]) + Leftover(read);
    assert read == head + tail;
  }

  /** The history after a pass that took `log` and perhaps parked. */
  function AfterPass(t: Tracked, r: Reaction): Tracked {
    Tracked(r.conn, t.ledger.(served := t.ledger.served + r.log, parked := r.spawn))
  }

  lemma EmptyLog(server: Server)
    ensures GoodLog(server, []) && !LastCloses([]) && RequestsOf([]) == []
    ensures Concat(RepliesOf(server, [])) == [] && Concat([]) == []
  {
  }

  /** A pass takes a prefix of the buffered requests and leaves the rest of the buffer alone. */
  lemma PassTakes(server: Server, date: Date, read: Bytes)
    ensures var b := RunBatch(server, date, Window(read), [], 0);
            && BatchOk(server, Window(read), b)
            && read == Concat(Taken(b)) + Drop(read, |Concat(Taken(b))|)
            && AllRequests(Taken(b))
  {
    hide Concat, RunBatch, GoodLog, Window;
    var frames := Window(read);
    EmptyLog(server);
    BatchServes(server, date, frames, [], 0);
    var b := RunBatch(server, date, frames, [], 0);
    var m := |Taken(b)|;
    assert Taken(b) == frames[..m];
    TakeFromRead(read, m);
  }

  /** What a pass leaves behind is framed as before. */
  lemma FramesLeft(server: Server, date: Date, read: Bytes)
    ensures var b := RunBatch(server, date, Window(read), [], 0);
            Frames(read) == Taken(b) + Frames(Drop(read, |Concat(Taken(b))|))
  {
    hide Concat, RunBatch, Frames, BatchOk, Drop;
    PassTakes(server, date, read);
    var b := RunBatch(server, date, Window(read), [], 0);
    FramesAfter(Taken(b), Drop(read, |Concat(Taken(b))|));
  }

  lemma GoodLogsAppend(server: Server, log: seq<Served>, more: seq<Served>)
    requires GoodLog(server, log) && !LastCloses(log) && GoodLog(server, more)
    ensures GoodLog(server, log + more)
    ensures LastCloses(log + more) <==> LastCloses(more)
  {
  }

  /** Moving requests from the read region to the history moves no byte. */
  lemma PassKeeps(server: Server, t: Tracked, c: Conn, log: seq<Served>, parked: Option<Bytes>)
    requires Ready(server, t) && GoodLog(server, log)
    requires var l' := Ledger([], [], log, parked);
             AllRequests(TakenSoFar(l')) && t.conn.read == Concat(TakenSoFar(l')) + c.read
    requires c.write == Concat(RepliesOf(server, log)) && c.offset == 0
    ensures Kept(server, Tracked(c, t.ledger.(served := t.ledger.served + log, parked := parked)))
    ensures LastCloses(t.ledger.served + log) <==> LastCloses(log)
  {
    hide Concat, RepliesOf, GoodLog, LastCloses, IsRequest;
    var l := t.ledger;
    var l' := l.(served := l.served + log, parked := parked);
    LogsAppend(server, l.served, log);
    GoodLogsAppend(server, l.served, log);
    var before, now := RequestsOf(l.served), TakenSoFar(Ledger([], [], log, parked));
    assert TakenSoFar(l) == before;
    assert TakenSoFar(l') == before + now;
    ConcatAppend(before, now);
    assert c.write[c.offset..] == c.write;
    assert l.sent == Concat(RepliesOf(server, l.served)) by { assert t.conn.write[t.conn.offset..] == []; }
    assert l.input == Concat(before) + (Concat(now) + c.read);
  }

  lemma ReplyNotEmpty(server: Server, e: Served)
    requires HandlersReply(server) && Answers(server, e)
    ensures Reply(server, e) != []
  {
    hide Baked, ClassOf;
    match e.via
    case FromSnapshot(date) => BakedIsSmall(date, RouteOf(e.req), ClassOf(e.req).close);
    case Inline =>
    case Unavailable => HeadSize(UNAVAILABLE_LINES);
    case Awaited(_) =>
  }

  lemma BatchWrites(server: Server, log: seq<Served>)
    requires HandlersReply(server) && GoodLog(server, log) && log != []
    ensures Concat(RepliesOf(server, log)) != []
  {
    hide Reply, Answers;
    ReplyNotEmpty(server, log[0]);
    assert RepliesOf(server, log)[0] == Reply(server, log[0]);
  }

  /** A pass either gives up untouched, or leaves the connection settled with exactly its expected op. */
  lemma PassSettles(server: Server, date: Date, t: Tracked)
    requires Ready(server, t) && HandlersReply(server)
    ensures var r := ProcessBuffered(server, date, t.conn);
            if r.alive then Settled(server, AfterPass(t, r)) && r.io == ExpectedIo(r.conn)
            else r == Dead(t.conn)
  {
    hide Concat, RunBatch, GoodLog, LastCloses, RepliesOf, IsRequest, Kept, Window, Reply, ClassOf;
    var c := t.conn;
    var frames := Window(c.read);
    var b := RunBatch(server, date, frames, [], 0);
    PassTakes(server, date, c.read);
    EmptyLog(server);
    WindowEmpty(c.read);
    var r := ProcessBuffered(server, date, c);
    if r.alive {
      if frames == [] {
        assert TakenSoFar(Ledger([], [], r.log, r.spawn)) == [];
      } else {
        assert TakenSoFar(Ledger([], [], r.log, r.spawn)) == Taken(b);
      }
      PassKeeps(server, t, r.conn, r.log, r.spawn);
      if b.end.Flush? && frames != [] { BatchWrites(server, b.served); }
    }
  }

  lemma WindowEmpty(read: Bytes)
    ensures Window(read) == [] <==> Frames(read) == []
  {
  }

  // ---------------------------------------------------------------- progress

  /** A sync response that no write region can hold. */
  predicate TooLarge(server: Server, req: Bytes) {
    RouteOf(req) == NotFound && server.dispatch(req).Sync? && |server.dispatch(req).bytes| > WRITE_REGION
  }

  lemma BatchGivesUp(server: Server, date: Date, frames: seq<Bytes>)
    requires frames != []
    ensures RunBatch(server, date, frames, [], 0).end.Abort? <==> TooLarge(server, frames[0])
  {
    hide ClassOf, Baked, Concat, RequestsOf, RepliesOf;
    var req := frames[0];
    BakedIsSmall(date, RouteOf(req), ClassOf(req).close);
    HeadSize(UNAVAILABLE_LINES);
    EmptyLog(server);
    var via := Immediate(server, date, req);
    if via.Some? {
      var e := Served(req, via.value);
      ServeOne(server, frames, [], e);
      var none: seq<Served> := [];
      assert none + [e] == [e];
      if |Reply(server, e)| <= WRITE_REGION && !Closes(e) {
        BatchServes(server, date, frames, [e], |Reply(server, e)|);
      }
    }
  }

  /**
   A pass gives up exactly when a request has outgrown the read region or its first response the write
   region; otherwise it either reads on with room left, or has taken at least one whole request.
   */
  lemma PassProgress(server: Server, date: Date, t: Tracked)
    requires Ready(server, t) && HandlersReply(server)
    ensures var r, read := ProcessBuffered(server, date, t.conn), t.conn.read;
            && (r.alive <==> if Frames(read) == [] then |read| < READ_REGION else !TooLarge(server, Frames(read)[0]))
            && (r.alive && Frames(read) == [] ==> r.conn == t.conn && r.io == Some(Recv(READ_REGION - |read|)))
            && (r.alive && Frames(read) != [] ==> |r.conn.read| + 4 <= |read|)
  {
    hide Concat, RunBatch, Frames, GoodLog, RepliesOf, IsRequest, Kept, Reply, ClassOf, TooLarge;
    var read := t.conn.read;
    var frames := Window(read);
    WindowEmpty(read);
    if frames != [] {
      BatchGivesUp(server, date, frames);
      PassTakes(server, date, read);
      var b := RunBatch(server, date, frames, [], 0);
      if !b.end.Abort? {
        assert Taken(b) != [];
        RequestsTakeRoom(Taken(b));
      }
    }
  }

  lemma RequestsTakeRoom(reqs: seq<Bytes>)
    requires AllRequests(reqs) && reqs != []
    ensures |Concat(reqs)| >= 4
  {
    assert IsRequest(reqs[0]);
  }

  // ---------------------------------------------------------------- every event keeps the invariant

  lemma SendMoves(server: Server, t: Tracked, n: nat)
    requires Kept(server, t) && t.conn.offset + n <= |t.conn.write|
    ensures var sent := t.conn.write[t.conn.offset..][..n];
            Kept(server, Tracked(t.conn.(offset := t.conn.offset + n), t.ledger.(sent := t.ledger.sent + sent)))
  {
    hide AllRequests, Concat, GoodLog, RepliesOf;
    var w := t.conn.write[t.conn.offset..];
    assert t.conn.write[t.conn.offset + n..] == w[n..];
    assert w == w[..n] + w[n..];
  }

  lemma RecvAppends(server: Server, t: Tracked, data: Bytes)
    requires Kept(server, t)
    ensures Kept(server, Tracked(t.conn.(read := t.conn.read + data), t.ledger.(input := t.ledger.input + data)))
  {
    hide AllRequests, Concat, GoodLog, RepliesOf;
    var l' := t.ledger.(input := t.ledger.input + data);
    assert TakenSoFar(l') == TakenSoFar(t.ledger);
    assert l'.input == Concat(TakenSoFar(l')) + (t.conn.read + data);
  }

  lemma DrainedIsReady(server: Server, t: Tracked)
    requires Kept(server, t) && t.conn.offset == |t.conn.write| && |t.conn.read| <= READ_REGION
    requires !LastCloses(t.ledger.served) && t.ledger.parked.None?
    ensures Ready(server, t.(conn := t.conn.(write := [], offset := 0, state := Reading)))
  {
    hide AllRequests, Concat, GoodLog, RepliesOf, TakenSoFar;
    assert t.conn.write[t.conn.offset..] == [];
  }

  /** The connection's only outstanding op completes, in any way the kernel may complete it. */
  lemma CompletionSettles(server: Server, date: Date, t: Tracked, result: int, data: Bytes)
    requires Settled(server, t) && HandlersReply(server)
    requires ExpectedIo(t.conn).Some? && KernelAnswers(ExpectedIo(t.conn).value, result, data)
    ensures var r, t' := OnCompletion(server, date, t.conn, result, data),
            AfterCompletion(server, date, t, result, data);
            && Kept(server, t') && t'.conn == r.conn
            && (r.alive ==> Settled(server, t') && r.io == ExpectedIo(r.conn) && r.spawn == t'.ledger.parked)
            && (!r.alive ==> r.io == None && r.spawn == None)
  {
    hide Kept, LastCloses, ProcessBuffered, HandlersReply;
    var c, l := t.conn, t.ledger;
    var t' := AfterCompletion(server, date, t, result, data);
    var none: Bytes, same: seq<Served> := [], [];
    assert l.input + none == l.input && l.sent + none == l.sent && l.served + same == l.served;
    if result <= 0 {
      assert t' == t;
    } else if c.state.Reading? {
      var t1 := Tracked(c.(read := c.read + data), l.(input := l.input + data));
      RecvAppends(server, t, data);
      assert Ready(server, t1);
      PassSettles(server, date, t1);
      assert t' == AfterPass(t1, ProcessBuffered(server, date, t1.conn));
    } else {
      var t1 := Tracked(c.(offset := c.offset + result), l.(sent := l.sent + data));
      SendMoves(server, t, result);
      if t1.conn.offset == |c.write| && !c.closeAfterDrain {
        DrainedIsReady(server, t1);
        var t2 := t1.(conn := c.(write := [], offset := 0, state := Reading));
        if c.read != [] {
          PassSettles(server, date, t2);
          assert t' == AfterPass(t2, ProcessBuffered(server, date, t2.conn));
        } else {
          WindowEmpty([]);
          assert t' == t2;
        }
      } else {
        assert t' == t1;
      }
    }
  }

  lemma TaskAnswers(server: Server, t: Tracked, bytes: Bytes)
    requires Settled(server, t) && t.conn.state.AwaitingAsync?
    requires server.mayResolve(t.ledger.parked.value, bytes)
    ensures var c' := t.conn.(write := bytes, offset := 0, closeAfterDrain := t.conn.parkedCloseAfter,
              state := Writing);
            Kept(server, Tracked(c', t.ledger.(served := t.ledger.served
              + [Served(t.ledger.parked.value, Awaited(bytes))], parked := None)))
    ensures LastCloses(t.ledger.served + [Served(t.ledger.parked.value, Awaited(bytes))]) <==> t.conn.parkedCloseAfter
  {
    hide Concat, RepliesOf, IsRequest, RequestsOf, ClassOf;
    var l := t.ledger;
    var e := Served(l.parked.value, Awaited(bytes));
    RequestsSnoc(l.served, e);
    RepliesSnoc(server, l.served, e);
    GoodLogsAppend(server, l.served, [e]);
    var l' := l.(served := l.served + [e], parked := None);
    assert TakenSoFar(l') == TakenSoFar(l);
    assert t.conn.write[t.conn.offset..] == [] && bytes[0..] == bytes;
  }

  /** The task the connection is parked on has finished with a result its handler may give. */
  lemma DeliverySettles(server: Server, t: Tracked, bytes: Bytes)
    requires Settled(server, t) && HandlersReply(server)
    requires t.conn.state.AwaitingAsync? && server.mayResolve(t.ledger.parked.value, bytes)
    ensures var r, t' := OnDelivery(t.conn, ParkedRequest(t.ledger), bytes), AfterDelivery(t, bytes);
            && Kept(server, t')
            && (r.alive <==> |bytes| <= WRITE_REGION)
            && (r.alive ==> Settled(server, t') && r.io == ExpectedIo(r.conn) && r.conn.state.Writing?)
            && t'.conn == r.conn && (r.alive ==> r.spawn == t'.ledger.parked)
  {
    hide Kept, LastCloses;
    var none: seq<Served> := [];
    assert t.ledger.served + none == t.ledger.served;
    TaskAnswers(server, t, bytes);
    assert bytes != [];
  }
}
