/**
 One connection as a value (rust-core/src/uring/connection.rs): what each completion does to the two
 buffer regions, and why the bytes written are always the replies owed, in order.
 */
module Session {
  import opened Bytes
  import opened Pipeline
  import opened Wire
  import opened Replies

  const READ_REGION: nat := 16 * 1024
  const WRITE_REGION: nat := 48 * 1024
  const MAX_PIPELINE: nat := 64

  datatype State = Reading | Writing | AwaitingAsync

  /** `read` and `write` are the filled parts of the two regions. */
  datatype Conn = Conn(read: Bytes, write: Bytes, offset: nat, state: State,
                       closeAfterDrain: bool, parkedCloseAfter: bool)

  const FRESH: Conn := Conn([], [], 0, Reading, false, false)

  datatype Io = Recv(len: int) | Send(bytes: Bytes)

  /** How a reply came about. */
  datatype Via = FromSnapshot(date: Date) | Inline | Unavailable | Awaited(bytes: Bytes)

  datatype Served = Served(req: Bytes, via: Via)

  /** How a batch of requests ends: with bytes to send, with a parked connection, or by giving up. */
  datatype BatchEnd = Flush(closeAfter: bool) | Park(req: Bytes) | Abort

  datatype Batch = Batch(served: seq<Served>, end: BatchEnd)

  /** The connection's answer to an event: its new state, the op it submits, the request it hands to a task. */
  datatype Reaction = Reaction(conn: Conn, alive: bool, io: Option<Io>, spawn: Option<Bytes>, log: seq<Served>)

  function Drop(b: Bytes, n: nat): Bytes {
    if n <= |b| then b[n..] else []
  }

  // ---------------------------------------------------------------- replies owed

  function RouteOf(req: Bytes): Route { ClassOf(req).route }

  /** The bytes a served request was answered with. */
  function Reply(server: Server, e: Served): Bytes {
    match e.via
    case FromSnapshot(date) => Baked(date, RouteOf(e.req), ClassOf(e.req).close)
    case Inline => if server.dispatch(e.req).Sync? then server.dispatch(e.req).bytes else []
    case Unavailable => UNAVAILABLE
    case Awaited(bytes) => bytes
  }

  function RepliesOf(server: Server, log: seq<Served>): seq<Bytes> {
    seq(|log|, i requires 0 <= i < |log| => Reply(server, log[i]))
  }

  function RequestsOf(log: seq<Served>): seq<Bytes> {
    seq(|log|, i requires 0 <= i < |log| => log[i].req)
  }

  /** The request needs an async handler, and there is one to run. */
  predicate NeedsTask(server: Server, req: Bytes) {
    RouteOf(req) == NotFound && server.dispatch(req).Async? && server.hasRegistry
  }

  /** The reply is one the request is owed: the route decides how, the handlers decide what. */
  predicate Answers(server: Server, e: Served) {
    var route, out := RouteOf(e.req), server.dispatch(e.req);
    match e.via
    case FromSnapshot(_) => route != NotFound || out.NoMatch?
    case Inline => route == NotFound && out.Sync?
    case Unavailable => route == NotFound && out.Async? && !server.hasRegistry
    case Awaited(bytes) => NeedsTask(server, e.req) && server.mayResolve(e.req, bytes)
  }

  /** The reply is the last one on its connection. */
  predicate Closes(e: Served) {
    e.via.Unavailable? || ClassOf(e.req).close
  }

  /** The replies the server writes itself announce the close exactly when they are the last on their connection. */
  lemma CloseIsAnnounced(server: Server, e: Served)
    requires e.via.FromSnapshot? || e.via.Unavailable?
    ensures SaysClose(Reply(server, e)) <==> Closes(e)
  {
    hide SaysClose, Baked, UNAVAILABLE;
    match e.via
    case FromSnapshot(date) => BakedSaysClose(date, RouteOf(e.req), ClassOf(e.req).close);
    case Unavailable => UnavailableSaysClose();
  }

  /** A handler's reply never ends its connection: only the benchmark routes are classified as closing. */
  lemma HandlersStayOpen(server: Server, e: Served)
    requires Answers(server, e) && (e.via.Inline? || e.via.Awaited?)
    ensures !Closes(e)
  {
    hide RequestLine;
  }

  // ---------------------------------------------------------------- one batch

  /** The reply available for a request without waiting, if there is one. */
  function Immediate(server: Server, date: Date, req: Bytes): Option<Via> {
    if RouteOf(req) != NotFound then Some(FromSnapshot(date))
    else match server.dispatch(req)
      case NoMatch => Some(FromSnapshot(date))
      case Sync(_) => Some(Inline)
      case Async => if server.hasRegistry then None else Some(Unavailable)
  }

  /**
   The batch loop once `log` has been served, `written` bytes into the write region. An async request
   that is not the first of its batch, or a reply that does not fit, waits for the next pass.
   */
  function RunBatch(server: Server, date: Date, frames: seq<Bytes>, log: seq<Served>, written: nat): Batch
    requires |log| <= |frames|
    decreases |frames| - |log|
  {
    if |log| == |frames| then Batch(log, Flush(false))
    else
      var req := frames[|log|];
      if RouteOf(req) == NotFound && server.dispatch(req).Async? && log != [] then Batch(log, Flush(false))
      else match Immediate(server, date, req)
        case None => Batch(log, Park(req))
        case Some(via) =>
          var e := Served(req, via);
          var n := |Reply(server, e)|;
          if written + n > WRITE_REGION then Batch(log, if log == [] then Abort else Flush(false))
          else if Closes(e) then Batch(log + [e], Flush(true))
          else RunBatch(server, date, frames, log + [e], written + n)
  }

  /** The requests one pass looks at. */
  function Window(read: Bytes): seq<Bytes> {
    Frames(read)[..Min(MAX_PIPELINE, |Frames(read)|)]
  }

  /** The requests a batch takes out of the read region. */
  function Taken(b: Batch): seq<Bytes> {
    RequestsOf(b.served) + (if b.end.Park? then [b.end.req] else [])
  }

  // ---------------------------------------------------------------- the transitions

  function Dead(c: Conn): Reaction {
    Reaction(c, false, None, None, [])
  }

  function ProcessBuffered(server: Server, date: Date, c: Conn): Reaction {
    var frames := Window(c.read);
    if frames == [] then
      if |c.read| == READ_REGION then Dead(c)
      else Reaction(c, true, Some(Recv(READ_REGION - |c.read|)), None, [])
    else
      var b := RunBatch(server, date, frames, [], |c.write|);
      var left := Drop(c.read, |Concat(Taken(b))|);
      var filled := c.write + Concat(RepliesOf(server, b.served));
      match b.end
      case Abort => Dead(c)
      case Park(req) =>
        var c' := c.(read := left, write := filled, state := AwaitingAsync, parkedCloseAfter := ClassOf(req).close);
        Reaction(c', true, None, Some(req), b.served)
      case Flush(closeAfter) =>
        var c' := c.(read := left, write := filled, state := Writing, closeAfterDrain := closeAfter);
        Reaction(c', true, Some(Send(Drop(filled, c.offset))), None, b.served)
  }

  /** A completion: `data` is what the kernel put in the read region, or took from the write region. */
  function OnCompletion(server: Server, date: Date, c: Conn, result: int, data: Bytes): Reaction {
    if result <= 0 || c.state.AwaitingAsync? then Dead(c)
    else if c.state.Reading? then ProcessBuffered(server, date, c.(read := c.read + data))
    else
      var c' := c.(offset := c.offset + result);
      if c'.offset < |c.write| then Reaction(c', true, Some(Send(c.write[c'.offset..])), None, [])
      else if c.closeAfterDrain then Dead(c')
      else
        var idle := c.(write := [], offset := 0, state := Reading);
        if c.read != [] then ProcessBuffered(server, date, idle)
        else Reaction(idle, true, Some(Recv(READ_REGION)), None, [])
  }

  /** An async handler's response, for the request the connection is parked on. */
  function OnDelivery(c: Conn, req: Bytes, bytes: Bytes): Reaction {
    if !c.state.AwaitingAsync? then Reaction(c, true, None, None, [])
    else if |bytes| > WRITE_REGION then Dead(c)
    else
      var c' := c.(write := bytes, offset := 0, closeAfterDrain := c.parkedCloseAfter, state := Writing);
      Reaction(c', true, Some(Send(bytes)), None, [Served(req, Awaited(bytes))])
  }

  // ---------------------------------------------------------------- what a batch serves

  lemma RequestsSnoc(log: seq<Served>, e: Served)
    ensures RequestsOf(log + [e]) == RequestsOf(log) + [e.req]
  {
  }

  lemma RepliesSnoc(server: Server, log: seq<Served>, e: Served)
    ensures RepliesOf(server, log + [e]) == RepliesOf(server, log) + [Reply(server, e)]
    ensures Concat(RepliesOf(server, log + [e])) == Concat(RepliesOf(server, log)) + Reply(server, e)
  {
    assert RepliesOf(server, log + [e]) == RepliesOf(server, log) + [Reply(server, e)];
    ConcatSnoc(RepliesOf(server, log), Reply(server, e));
  }

  lemma LogsAppend(server: Server, log: seq<Served>, more: seq<Served>)
    ensures RequestsOf(log + more) == RequestsOf(log) + RequestsOf(more)
    ensures RepliesOf(server, log + more) == RepliesOf(server, log) + RepliesOf(server, more)
    ensures Concat(RepliesOf(server, log + more)) == Concat(RepliesOf(server, log)) + Concat(RepliesOf(server, more))
  {
    assert RepliesOf(server, log + more) == RepliesOf(server, log) + RepliesOf(server, more);
    ConcatAppend(RepliesOf(server, log), RepliesOf(server, more));
  }

  /** A log answers its requests, and only its last entry may end the connection. */
  ghost predicate GoodLog(server: Server, log: seq<Served>) {
    && (forall i :: 0 <= i < |log| ==> Answers(server, log[i]))
    && (forall i :: 0 <= i < |log| - 1 ==> !Closes(log[i]))
  }

  ghost predicate LastCloses(log: seq<Served>) {
    log != [] && Closes(log[|log| - 1])
  }

  /** What a finished batch promises about the window it ran over. */
  ghost predicate BatchOk(server: Server, frames: seq<Bytes>, b: Batch) {
    && |b.served| <= |frames| && RequestsOf(b.served) == frames[..|b.served|]
    && GoodLog(server, b.served)
    && |Concat(RepliesOf(server, b.served))| <= WRITE_REGION
    && match b.end
       case Flush(closeAfter) => (closeAfter <==> LastCloses(b.served)) && (frames != [] ==> b.served != [])
       case Park(req) => b.served == [] && frames != [] && req == frames[0] && NeedsTask(server, req)
       case Abort => b.served == []
  }

  /** Whatever the batch does, it serves a prefix of the window, one reply each, and never overfills the region. */
  lemma {:induction false} BatchServes(server: Server, date: Date, frames: seq<Bytes>, log: seq<Served>, written: nat)
    requires |log| <= |frames| && RequestsOf(log) == frames[..|log|]
    requires GoodLog(server, log) && !LastCloses(log)
    requires written == |Concat(RepliesOf(server, log))| <= WRITE_REGION
    ensures BatchOk(server, frames, RunBatch(server, date, frames, log, written))
    ensures |log| <= |RunBatch(server, date, frames, log, written).served|
    decreases |frames| - |log|
  {
    hide ClassOf, Baked, Concat, RequestsOf, RepliesOf, Reply;
    if |log| < |frames| {
      var req := frames[|log|];
      var via := Immediate(server, date, req);
      if via.Some? {
        var e := Served(req, via.value);
        assert Answers(server, e);
        ServeOne(server, frames, log, e);
        if written + |Reply(server, e)| <= WRITE_REGION && !Closes(e) {
          BatchServes(server, date, frames, log + [e], written + |Reply(server, e)|);
        }
      }
    }
  }

  lemma ServeOne(server: Server, frames: seq<Bytes>, log: seq<Served>, e: Served)
    requires |log| < |frames| && RequestsOf(log) == frames[..|log|] && e.req == frames[|log|]
    requires GoodLog(server, log) && !LastCloses(log) && Answers(server, e)
    ensures RequestsOf(log + [e]) == frames[..|log + [e]|]
    ensures GoodLog(server, log + [e]) && (LastCloses(log + [e]) <==> Closes(e))
    ensures |Concat(RepliesOf(server, log + [e]))| == |Concat(RepliesOf(server, log))| + |Reply(server, e)|
  {
    hide Answers, Closes, Reply, Concat, RequestsOf, RepliesOf;
    RequestsSnoc(log, e);
    RepliesSnoc(server, log, e);
    assert frames[..|log| + 1] == frames[..|log|] + [e.req];
  }

  // ---------------------------------------------------------------- where a batch stops

  /** None of the replies this pass could give the request fits behind those already written. */
  ghost predicate NoneFits(server: Server, date: Date, req: Bytes, written: nat) {
    forall e: Served :: e.req == req && Answers(server, e) && (e.via.FromSnapshot? ==> e.via.date == date) ==>
      written + |Reply(server, e)| > 49152
  }

  /** Whatever a batch takes from the snapshot bears this pass's date. */
  predicate Dated(date: Date, log: seq<Served>) {
    forall i :: 0 <= i < |log| && log[i].via.FromSnapshot? ==> log[i].via.date == date
  }

  /** Without a closing reply, only a request that has to wait or whose reply does not fit is left for the next pass. */
  lemma {:induction false} BatchStops(server: Server, date: Date, frames: seq<Bytes>, log: seq<Served>, written: nat)
    requires |log| <= |frames| && Dated(date, log)
    requires written == |Concat(RepliesOf(server, log))|
    ensures var b := RunBatch(server, date, frames, log, written);
            && Dated(date, b.served) && |b.served| <= |frames|
            && (b.end == Flush(false) && |b.served| < |frames| ==>
                  var next := frames[|b.served|];
                  || (RouteOf(next) == NotFound && server.dispatch(next).Async?)
                  || NoneFits(server, date, next, |Concat(RepliesOf(server, b.served))|))
    decreases |frames| - |log|
  {
    hide ClassOf, Baked, Concat, RepliesOf, Reply;
    if |log| < |frames| {
      var req := frames[|log|];
      var via := Immediate(server, date, req);
      if via.Some? {
        var e := Served(req, via.value);
        RepliesSnoc(server, log, e);
        if written + |Reply(server, e)| <= WRITE_REGION {
          if !Closes(e) { BatchStops(server, date, frames, log + [e], written + |Reply(server, e)|); }
        } else if !server.dispatch(req).Async? || RouteOf(req) != NotFound {
          OnlyReply(server, date, e);
        }
      }
    }
  }

  /** Without waiting there is one reply to give. */
  lemma OnlyReply(server: Server, date: Date, e: Served)
    requires Immediate(server, date, e.req) == Some(e.via)
    requires RouteOf(e.req) == NotFound ==> !server.dispatch(e.req).Async?
    ensures forall o: Served :: o.req == e.req && Answers(server, o) && (o.via.FromSnapshot? ==> o.via.date == date) ==>
              o == e
  {
    hide ClassOf;
  }
}
