/**
 The connection object (rust-core/src/uring/connection.rs) over its two regions of the buffer pool,
 proved to do what `Session` says of the connection as a value.
 */
module Connections {
  import opened Bytes
  import opened Pipeline
  import opened Replies
  import opened Session
  import opened Ledger
  import opened Worker
  import opened Resources

  datatype Status = Alive | Gone | SubmissionFull

  predicate Appends<T(==)>(before: seq<T>, after: seq<T>, more: Option<T>) {
    match more
    case None => after == before
    case Some(x) => after == before + [x]
  }

  lemma NothingAppended<T>(s: seq<T>)
    ensures Appends(s, s, None)
  {
  }

  /** What became of one request of a batch; the bytes counted are in the write region already. */
  datatype Turn = Written(n: nat) | AsyncRoute | Overflow

  predicate IsAsync(server: Server, req: Bytes) {
    RouteOf(req) == NotFound && server.dispatch(req).Async?
  }

  function InlineVia(server: Server, date: Date, req: Bytes): Via {
    if RouteOf(req) == NotFound && server.dispatch(req).Sync? then Inline else FromSnapshot(date)
  }

  function TurnOf(server: Server, date: Date, req: Bytes, filled: nat): Turn {
    var n := |Reply(server, Served(req, InlineVia(server, date, req)))|;
    if IsAsync(server, req) then AsyncRoute else if filled + n > WRITE_REGION then Overflow else Written(n)
  }

  /** Requests and replies of a batch that has served the first `i` of its requests. */
  ghost predicate Serving(server: Server, date: Date, frames: seq<Bytes>, log: seq<Served>, filled: nat) {
    && |log| <= |frames| && RequestsOf(log) == frames[..|log|]
    && RunBatch(server, date, frames, [], 0) == RunBatch(server, date, frames, log, filled)
  }

  // ---------------------------------------------------------------- facts about one turn

  /** The next request starts where the bytes of the earlier ones end. */
  lemma {:induction false} RequestAt(frames: seq<Bytes>, rest: Bytes, i: nat)
    requires i < |frames|
    ensures |Concat(frames[..i + 1])| == |Concat(frames[..i])| + |frames[i]|
    ensures |Concat(frames[..i + 1])| <= |Concat(frames) + rest|
    ensures (Concat(frames) + rest)[|Concat(frames[..i])|..][..|frames[i]|] == frames[i]
  {
    var before, after := frames[..i], frames[i + 1..];
    assert frames == before + ([frames[i]] + after) && frames[..i + 1] == before + [frames[i]];
    ConcatSnoc(before, frames[i]);
    ConcatAppend(before, [frames[i]] + after);
    assert Concat([frames[i]] + after) == frames[i] + Concat(after);
    assert (Concat(frames) + rest)[|Concat(before)|..] == frames[i] + (Concat(after) + rest);
  }

  /** What the loop reads from the read region for request `i` of the window. */
  lemma WindowRequest(read: Bytes, i: nat)
    requires i < |Window(read)|
    ensures Window(read)[i] == Frames(read)[i]
    ensures |Concat(Window(read)[..i + 1])| == |Concat(Window(read)[..i])| + |Window(read)[i]| <= |read|
    ensures read[|Concat(Window(read)[..i])|..][..|Window(read)[i]|] == Window(read)[i]
  {
    FramesPartition(read);
    RequestAt(Frames(read), Leftover(read), i);
    assert Window(read)[..i] == Frames(read)[..i] && Window(read)[..i + 1] == Frames(read)[..i + 1];
  }

  /** A reply goes into the batch, and ends it when it closes the connection. */
  lemma TakeTurn(server: Server, date: Date, frames: seq<Bytes>, log: seq<Served>, filled: nat, e: Served)
    requires Serving(server, date, frames, log, filled) && |log| < |frames| && e.req == frames[|log|]
    requires Immediate(server, date, e.req) == Some(e.via) && (IsAsync(server, e.req) ==> log == [])
    requires filled + |Reply(server, e)| <= WRITE_REGION
    ensures RequestsOf(log + [e]) == frames[..|log| + 1]
    ensures Concat(RepliesOf(server, log + [e])) == Concat(RepliesOf(server, log)) + Reply(server, e)
    ensures if Closes(e) then RunBatch(server, date, frames, [], 0) == Batch(log + [e], Flush(true))
            else Serving(server, date, frames, log + [e], filled + |Reply(server, e)|)
  {
    hide ClassOf, Baked, Concat, RequestsOf, RepliesOf, Reply;
    RequestsSnoc(log, e);
    RepliesSnoc(server, log, e);
    assert frames[..|log| + 1] == frames[..|log|] + [e.req];
  }

  /** The batch ends before the next request, or with it. */
  lemma LastTurn(server: Server, date: Date, frames: seq<Bytes>, log: seq<Served>, filled: nat)
    requires Serving(server, date, frames, log, filled) && |log| < |frames|
    ensures var b, req := RunBatch(server, date, frames, [], 0), frames[|log|];
            && (IsAsync(server, req) && log != [] ==> b == Batch(log, Flush(false)))
            && (IsAsync(server, req) && log == [] && server.hasRegistry ==> b == Batch([], Park(req)))
            && (TurnOf(server, date, req, filled).Overflow? ==>
               b == Batch(log, if log == [] then Abort else Flush(false)))
            && (IsAsync(server, req) ==> Immediate(server, date, req) == if server.hasRegistry then None
               else Some(Unavailable))
            && (!IsAsync(server, req) ==> Immediate(server, date, req) == Some(InlineVia(server, date, req)))
            && (TurnOf(server, date, req, filled).AsyncRoute? <==> IsAsync(server, req))
    ensures RequestsOf(log) == frames[..|log|] && RequestsOf([]) == [] && frames[..0] == []
  {
    hide ClassOf, Baked, Concat, RepliesOf, Reply;
  }

  lemma WrittenTurn(server: Server, date: Date, req: Bytes, filled: nat)
    ensures var turn, reply := TurnOf(server, date, req, filled),
            Reply(server, Served(req, InlineVia(server, date, req)));
            turn.Written? ==> turn.n == |reply| && filled + |reply| <= WRITE_REGION && !IsAsync(server, req)
  {
    hide ClassOf, Baked;
  }

  lemma TakenFlushed(log: seq<Served>, last: BatchEnd)
    ensures RequestsOf(log) == Taken(Batch(log, Flush(true))) == Taken(Batch(log, Flush(false)))
              == Taken(Batch(log, Abort))
    ensures last.Park? ==> Taken(Batch([], last)) == [last.req] && Concat([last.req]) == last.req
  {
    assert RequestsOf([]) == [];
  }

  lemma BatchStarts(server: Server, date: Date, frames: seq<Bytes>)
    ensures Serving(server, date, frames, [], 0)
    ensures Concat(frames[..0]) == [] && Concat(RepliesOf(server, [])) == []
  {
    EmptyLog(server);
    assert frames[..0] == [];
  }

  lemma BatchOver(server: Server, date: Date, frames: seq<Bytes>, log: seq<Served>, filled: nat)
    requires Serving(server, date, frames, log, filled) && |log| == |frames|
    ensures RunBatch(server, date, frames, [], 0) == Batch(log, Flush(false))
    ensures Taken(Batch(log, Flush(false))) == frames[..|log|]
  {
    hide ClassOf, Baked, Concat, RequestsOf, RepliesOf, Reply;
    TakenFlushed(log, Abort);
  }

  lemma ClassMeans(server: Server, date: Date, req: Bytes)
    requires |req| <= READ_REGION
    ensures ClassOf(req).requestLen == |req|
    ensures Closes(Served(req, InlineVia(server, date, req))) == ClassOf(req).close
  {
  }

  /** What each turn means for the batch as a whole. */
  lemma TurnMeans(server: Server, date: Date, frames: seq<Bytes>, log: seq<Served>, filled: nat)
    requires Serving(server, date, frames, log, filled) && |log| < |frames| && |frames[|log|]| <= READ_REGION
    ensures var req, b := frames[|log|], RunBatch(server, date, frames, [], 0);
            var e := Served(req, InlineVia(server, date, req));
            match TurnOf(server, date, req, filled)
            case Overflow =>
              && b == Batch(log, if log == [] then Abort else Flush(false))
              && |Concat(Taken(b))| == |Concat(frames[..|log|])|
            case AsyncRoute =>
              && IsAsync(server, req)
              && (log != [] ==> b == Batch(log, Flush(false)) && |Concat(Taken(b))| == |Concat(frames[..|log|])|)
            case Written(n) =>
              && n == |Reply(server, e)|
              && Concat(RepliesOf(server, log + [e])) == Concat(RepliesOf(server, log)) + Reply(server, e)
              && if ClassOf(req).close
                 then b == Batch(log + [e], Flush(true)) && |Concat(Taken(b))| == |Concat(frames[..|log| + 1])|
                 else Serving(server, date, frames, log + [e], filled + n)
  {
    hide ClassOf, Baked, Concat, RequestsOf, RepliesOf, Reply, RunBatch, TurnOf, Taken, Closes, Serving, Immediate,
      InlineVia, IsAsync;
    var req := frames[|log|];
    var e := Served(req, InlineVia(server, date, req));
    ClassMeans(server, date, req);
    LastTurn(server, date, frames, log, filled);
    WrittenTurn(server, date, req, filled);
    TakenFlushed(log, Abort);
    TakenFlushed(log + [e], Abort);
    if TurnOf(server, date, req, filled).Written? { TakeTurn(server, date, frames, log, filled, e); }
  }

  /** An async request alone in front of its batch. */
  lemma RefusedTurn(server: Server, date: Date, frames: seq<Bytes>, req: Bytes)
    requires frames != [] && req == frames[0] && IsAsync(server, req)
    ensures var log, b := [Served(req, Unavailable)], RunBatch(server, date, frames, [], 0);
            && Concat(Taken(b)) == req
            && if server.hasRegistry then b == Batch([], Park(req)) && Concat(RepliesOf(server, [])) == []
               else b == Batch(log, Flush(true)) && Concat(RepliesOf(server, log)) == UNAVAILABLE
  {
    hide ClassOf, Baked, UNAVAILABLE;
    UnavailableFits();
    var log := [Served(req, Unavailable)];
    var none: seq<Served> := [];
    assert none + [Served(req, Unavailable)] == log;
    assert RepliesOf(server, log) == [UNAVAILABLE] && RequestsOf(log) == [req];
    TakenFlushed(log, Park(req));
    EmptyConcat();
    assert Concat([req]) == req + Concat([]) && Concat([UNAVAILABLE]) == UNAVAILABLE + Concat([]);
    EmptyLog(server);
  }

  /** Parking spawns the one task of the batch. */
  predicate Parked(before: seq<Task>, after: seq<Task>, end: BatchEnd, token: nat) {
    Appends(before, after, if end.Park? then Some(Task(token % U32, end.req, token, false)) else None)
  }

  lemma NotParked(tasks: seq<Task>, end: BatchEnd, token: nat)
    ensures !end.Park? ==> Parked(tasks, tasks, end, token)
  {
  }

  lemma FirstIsNotEmpty(read: Bytes, i: nat)
    requires i < |Window(read)|
    ensures |Concat(Window(read)[..i + 1])| > 0
  {
    hide IsRequest;
    TakeFromRead(read, i + 1);
    RequestsTakeRoom(Window(read)[..i + 1]);
  }

  lemma UnavailableFits()
    ensures 0 < |UNAVAILABLE| <= 300
  {
    HeadSize(UNAVAILABLE_LINES);
  }

  /** What a pass that starts with an empty write region does, in terms of its batch. */
  lemma PassReaction(server: Server, date: Date, c: Conn)
    requires HandlersReply(server) && c.write == [] && c.offset == 0
    ensures var b := RunBatch(server, date, Window(c.read), [], 0);
            var n, filled := |Concat(Taken(b))|, Concat(RepliesOf(server, b.served));
            && n <= |c.read| && (Window(c.read) != [] ==> (b.end.Flush? <==> |filled| > 0))
            && Session.ProcessBuffered(server, date, c) ==
                 if Window(c.read) == [] then
                   if |c.read| == READ_REGION then Dead(c)
                     else Reaction(c, true, Some(Recv(READ_REGION - |c.read|)), None, [])
                 else match b.end
                   case Abort => Dead(c)
                   case Park(req) =>
                     var c' := c.(read := c.read[n..], write := filled, state := AwaitingAsync,
                       parkedCloseAfter := ClassOf(req).close);
                     Reaction(c', true, None, Some(req), b.served)
                   case Flush(closeAfter) =>
                     var c' := c.(read := c.read[n..], write := filled, state := Writing,
                       closeAfterDrain := closeAfter);
                     Reaction(c', true, Some(Send(Drop(filled, 0))), None, b.served)
  {
    hide Concat, RunBatch, Window, RepliesOf, GoodLog, ClassOf, Taken;
    EmptyLog(server);
    PassTakes(server, date, c.read);
    var b := RunBatch(server, date, Window(c.read), [], 0);
    if b.end.Flush? && Window(c.read) != [] { BatchWrites(server, b.served); }
    assert c.write + Concat(RepliesOf(server, b.served)) == Concat(RepliesOf(server, b.served));
  }

  // ---------------------------------------------------------------- the object

  class Connection {
    const fd: int
    const storage: array<Byte>
    const slot: Slot
    var readFilled: nat
    var writeFilled: nat
    var writeOffset: nat
    var state: State
    var closeAfterDrain: bool
    var parkedCloseAfter: bool

    /** All region indices stay in bounds. */
    ghost predicate Valid() reads this {
      && SlotFits(slot, storage)
      && readFilled <= READ_REGION && writeFilled <= WRITE_REGION && writeOffset <= writeFilled
    }

    /** Between two completions: something to send exactly while writing, and room to read while reading. */
    ghost predicate Live() reads this {
      && Valid()
      && match state
         case Reading => writeFilled == 0 && writeOffset == 0 && readFilled < READ_REGION
         case Writing => writeOffset < writeFilled
         case AwaitingAsync => writeFilled == 0 && writeOffset == 0
    }

    ghost function ReadBytes(): Bytes reads this, storage requires Valid() {
      storage[slot.readPtr..slot.readPtr + readFilled]
    }

    ghost function WriteBytes(): Bytes reads this, storage requires Valid() {
      storage[slot.writePtr..slot.writePtr + writeFilled]
    }

    /** The value this object stands for. */
    ghost function View(): Conn reads this, storage requires Valid() {
      Conn(ReadBytes(), WriteBytes(), writeOffset, state, closeAfterDrain, parkedCloseAfter)
    }

    /** Every other slot of the pool. */
    twostate predicate OthersUntouched() reads this, storage {
      forall k :: 0 <= k < storage.Length && !(slot.readPtr <= k < slot.readPtr + SLOT_BYTES) ==>
        storage[k] == old(storage[k])
    }

    constructor (fd: int, storage: array<Byte>, slot: Slot)
      requires SlotFits(slot, storage)
      ensures Live() && View() == FRESH && this.fd == fd && this.storage == storage && this.slot == slot
    {
      this.fd, this.storage, this.slot := fd, storage, slot;
      readFilled, writeFilled, writeOffset := 0, 0, 0;
      state, closeAfterDrain, parkedCloseAfter := Reading, false, false;
    }

    /** Asks for as many bytes as the read region has room for. */
    method SubmitRead(ring: SubmissionQueue, token: nat) returns (status: Status)
      requires Valid() && readFilled < READ_REGION
      modifies ring
      ensures status == (if |old(ring.entries)| >= RING_ENTRIES then SubmissionFull else Alive)
      ensures Appends(old(ring.entries), ring.entries,
                if status == Alive then Some(Sqe(token, ConnIo(Recv(READ_REGION - readFilled)))) else None)
    {
      var ok := ring.Push(Sqe(token, ConnIo(Recv(READ_REGION - readFilled))));
      status := if ok then Alive else SubmissionFull;
    }

    method SubmitWrite(ring: SubmissionQueue, token: nat) returns (status: Status)
      requires Valid() && writeOffset < writeFilled
      modifies ring
      ensures status == (if |old(ring.entries)| >= RING_ENTRIES then SubmissionFull else Alive)
      ensures Appends(old(ring.entries), ring.entries,
                if status == Alive then Some(Sqe(token, ConnIo(Send(Drop(WriteBytes(), writeOffset))))) else None)
    {
      ghost var all := storage[slot.writePtr..slot.writePtr + writeFilled];
      var unsent := storage[slot.writePtr + writeOffset..slot.writePtr + writeFilled];
      assert unsent == all[writeOffset..];
      var ok := ring.Push(Sqe(token, ConnIo(Send(unsent))));
      status := if ok then Alive else SubmissionFull;
    }

    /** Copies bytes behind the filled part of the write region. */
    method Copy(bytes: Bytes)
      requires Valid() && writeFilled + |bytes| <= WRITE_REGION
      modifies storage
      ensures OthersUntouched() && ReadBytes() == old(ReadBytes()) && WriteBytes() == old(WriteBytes())
      ensures storage[slot.writePtr..slot.writePtr + writeFilled + |bytes|] == old(WriteBytes()) + bytes
    {
      var at := slot.writePtr + writeFilled;
      forall k | 0 <= k < |bytes| { storage[at + k] := bytes[k]; }
    }

    /** Moves what is left of the read region to its front; source and target may overlap. */
    method Compact(consumed: nat)
      requires Valid() && consumed <= readFilled
      modifies this`readFilled, storage
      ensures Valid() && OthersUntouched() && readFilled == old(readFilled) - consumed
      ensures ReadBytes() == old(ReadBytes())[consumed..]
      ensures WriteBytes() == old(WriteBytes())
    {
      var at, left := slot.readPtr, readFilled - consumed;
      if consumed > 0 {
        forall k | 0 <= k < left { storage[at + k] := storage[at + consumed + k]; }
      }
      readFilled := left;
    }

    /** One request of a batch: its reply goes behind the earlier ones, when it has one now and it fits. */
    method Dispatch(server: Server, date: Date, cls: Classification, start: nat, ghost req: Bytes) returns (turn: Turn)
      requires Valid() && start + cls.requestLen <= readFilled
      requires req == ReadBytes()[start..][..cls.requestLen] && cls == ClassOf(req)
      modifies storage
      ensures OthersUntouched() && ReadBytes() == old(ReadBytes()) && WriteBytes() == old(WriteBytes())
      ensures turn == TurnOf(server, date, req, writeFilled)
      ensures turn.Written? ==>
                && writeFilled + turn.n <= WRITE_REGION
                && storage[slot.writePtr..slot.writePtr + writeFilled + turn.n]
                     == old(WriteBytes()) + Reply(server, Served(req, InlineVia(server, date, req)))
    {
      hide ClassOf, Baked;
      var request := storage[slot.readPtr + start..slot.readPtr + start + cls.requestLen];
      assert request == req;
      var bytes;
      if cls.route != NotFound {
        bytes := Baked(date, cls.route, cls.close);
      } else {
        var outcome := server.dispatch(request);
        match outcome {
          case Sync(written) => bytes := written;
          case NoMatch => bytes := Baked(date, cls.route, cls.close);
          case Async => return AsyncRoute;
        }
      }
      if writeFilled + |bytes| > WRITE_REGION {
        return Overflow;
      }
      Copy(bytes);
      turn := Written(|bytes|);
    }

    method ParkForAsync(closeAfter: bool)
      modifies this`state, this`parkedCloseAfter
      ensures state == AwaitingAsync && parkedCloseAfter == closeAfter
    {
      state := AwaitingAsync;
      parkedCloseAfter := closeAfter;
    }

    /** An async request at the front of its batch: parked when there is a registry, refused when there is none. */
    method TakeAsync(server: Server, date: Date, cls: Classification, bridge: WorkerBridge, token: nat,
                     ghost frames: seq<Bytes>)
      returns (end: BatchEnd, ghost log: seq<Served>)
      requires Valid() && writeFilled == 0 && cls.requestLen <= readFilled && frames != []
      requires frames[0] == ReadBytes()[..cls.requestLen] && IsAsync(server, frames[0]) && cls == ClassOf(frames[0])
      modifies this`writeFilled, this`state, this`parkedCloseAfter, storage, bridge
      ensures Valid() && OthersUntouched() && ReadBytes() == old(ReadBytes())
      ensures WriteBytes() == Concat(RepliesOf(server, log))
      ensures RunBatch(server, date, frames, [], 0) == Batch(log, end)
              && |Concat(Taken(Batch(log, end)))| == cls.requestLen
      ensures StateFits(Some(end), frames[0], old(state), old(parkedCloseAfter))
      ensures Parked(old(bridge.tasks), bridge.tasks, end, token)
      ensures bridge.completions == old(bridge.completions) && bridge.counter == old(bridge.counter)
    {
      hide UNAVAILABLE, RunBatch, Taken, Concat, RepliesOf, ClassOf, IsAsync;
      var request := storage[slot.readPtr..slot.readPtr + cls.requestLen];
      RefusedTurn(server, date, frames, request);
      assert request == frames[0] && WriteBytes() == [];
      if server.hasRegistry {
        bridge.Spawn(token % U32, request, token);
        ParkForAsync(cls.close);
        end, log := Park(request), [];
      } else {
        UnavailableFits();
        Copy(UNAVAILABLE);
        writeFilled := writeFilled + |UNAVAILABLE|;
        end, log := Flush(true), [Served(request, Unavailable)];
      }
    }

    /** One turn of the batch loop: what it writes, how far it moves, and whether the batch is over. */
    method ServeNext(server: Server, date: Date, cls: Classification, start: nat, bridge: WorkerBridge, token: nat,
                     ghost frames: seq<Bytes>, ghost log: seq<Served>)
      returns (consumed: nat, end: Option<BatchEnd>, ghost log': seq<Served>)
      requires Valid() && Serving(server, date, frames, log, writeFilled) && |log| < |frames|
      requires frames == Window(ReadBytes()) && start == |Concat(frames[..|log|])| <= readFilled
      requires WriteBytes() == Concat(RepliesOf(server, log)) && cls == ClassOf(frames[|log|])
      requires start == 0 <==> log == []
      modifies this`writeFilled, this`state, this`parkedCloseAfter, storage, bridge
      ensures Valid() && OthersUntouched() && ReadBytes() == old(ReadBytes())
      ensures WriteBytes() == Concat(RepliesOf(server, log')) && consumed <= readFilled
      ensures end.None? ==> |log'| == |log| + 1 && Serving(server, date, frames, log', writeFilled)
                            && consumed == |Concat(frames[..|log'|])|
      ensures end.Some? ==>
                var b := Batch(log', end.value);
                RunBatch(server, date, frames, [], 0) == b && consumed == |Concat(Taken(b))|
      ensures StateFits(end, frames[0], old(state), old(parkedCloseAfter))
      ensures Parked(old(bridge.tasks), bridge.tasks, if end.Some? then end.value else Flush(false), token)
      ensures bridge.completions == old(bridge.completions) && bridge.counter == old(bridge.counter)
    {
      hide ClassOf, Concat, RequestsOf, RepliesOf, Reply, RunBatch, Window, TurnOf, Taken, Serving, InlineVia, IsAsync,
        Parked;
      ghost var req := frames[|log|];
      NotParked(bridge.tasks, Flush(false), token);
      NotParked(bridge.tasks, Flush(true), token);
      NotParked(bridge.tasks, Abort, token);
      WindowRequest(ReadBytes(), |log|);
      ClassMeans(server, date, req);
      TurnMeans(server, date, frames, log, writeFilled);
      var turn := Dispatch(server, date, cls, start, req);
      match turn {
        case Overflow =>
          consumed, end, log' := start, Some(if start == 0 then Abort else Flush(false)), log;
        case AsyncRoute =>
          if start > 0 {
            return start, Some(Flush(false)), log;
          }
          EmptyLog(server);
          assert writeFilled == |WriteBytes()| == 0;
          var last;
          last, log' := TakeAsync(server, date, cls, bridge, token, frames);
          consumed, end := cls.requestLen, Some(last);
        case Written(n) =>
          writeFilled := writeFilled + n;
          log' := log + [Served(req, InlineVia(server, date, req))];
          consumed, end := start + cls.requestLen, if cls.close then Some(Flush(true)) else None;
      }
    }

    /** Only parking changes the state. */
    predicate StateFits(end: Option<BatchEnd>, first: Bytes, s: State, closeAfter: bool) reads this {
      if end.Some? && end.value.Park?
      then state == AwaitingAsync && end.value.req == first && parkedCloseAfter == ClassOf(first).close
      else state == s && parkedCloseAfter == closeAfter
    }

    /** The loop over one batch: replies are written until one closes, parks, does not fit, or all are served. */
    method ServeBatch(server: Server, date: Date, classes: array<Classification>, count: nat, bridge: WorkerBridge,
                      token: nat)
      returns (consumed: nat, end: BatchEnd)
      requires Valid() && writeFilled == 0 && writeOffset == 0
      requires 0 < count == |Window(ReadBytes())| <= classes.Length
      requires forall k :: 0 <= k < count ==> classes[k] == ClassOf(Window(ReadBytes())[k])
      modifies this`writeFilled, this`state, this`parkedCloseAfter, storage, bridge
      ensures Valid() && OthersUntouched() && ReadBytes() == old(ReadBytes())
      ensures var b := RunBatch(server, date, Window(old(ReadBytes())), [], 0);
              && end == b.end && consumed == |Concat(Taken(b))| <= readFilled
              && WriteBytes() == Concat(RepliesOf(server, b.served))
      ensures StateFits(Some(end), Window(old(ReadBytes()))[0], old(state), old(parkedCloseAfter))
      ensures Parked(old(bridge.tasks), bridge.tasks, end, token)
      ensures bridge.completions == old(bridge.completions) && bridge.counter == old(bridge.counter)
    {
      hide ClassOf, Concat, RepliesOf, RunBatch, Window, Taken, Serving;
      ghost var frames := Window(ReadBytes());
      ghost var log: seq<Served> := [];
      BatchStarts(server, date, frames);
      consumed := 0;
      var i := 0;
      while i < count
        invariant Valid() && OthersUntouched() && ReadBytes() == old(ReadBytes()) && i == |log| <= count
        invariant forall k :: 0 <= k < count ==> classes[k] == ClassOf(frames[k])
        invariant Serving(server, date, frames, log, writeFilled)
        invariant consumed == |Concat(frames[..i])| <= readFilled && (consumed == 0 <==> i == 0)
        invariant WriteBytes() == Concat(RepliesOf(server, log))
        invariant state == old(state) && parkedCloseAfter == old(parkedCloseAfter)
        invariant bridge.tasks == old(bridge.tasks)
        invariant bridge.completions == old(bridge.completions) && bridge.counter == old(bridge.counter)
      {
        var over;
        FirstIsNotEmpty(ReadBytes(), i);
        consumed, over, log := ServeNext(server, date, classes[i], consumed, bridge, token, frames, log);
        if over.Some? {
          return consumed, over.value;
        }
        i := i + 1;
      }
      BatchOver(server, date, frames, log, writeFilled);
      end := Flush(false);
    }

    /** The objects around the connection have seen exactly this reaction; nothing is queued when the queue is full. */
    twostate predicate Reacted(r: Reaction, status: Status, ring: SubmissionQueue, bridge: WorkerBridge,
                               os: Descriptors, token: nat)
      reads this, storage, ring, bridge, os
    {
      && Valid() && View() == r.conn && OthersUntouched()
      && status == (if !r.alive then Gone else if r.io.Some? && |old(ring.entries)| >= RING_ENTRIES then SubmissionFull
         else Alive)
      && Appends(old(ring.entries), ring.entries,
         if status == Alive && r.io.Some? then Some(Sqe(token, ConnIo(r.io.value))) else None)
      && Appends(old(bridge.tasks), bridge.tasks,
         if r.spawn.Some? then Some(Task(token % U32, r.spawn.value, token, false)) else None)
      && bridge.completions == old(bridge.completions) && bridge.counter == old(bridge.counter)
      && os.Closes(if status == Gone then Some(fd) else None)
    }

    method Close(os: Descriptors)
      modifies os
      ensures os.Closes(Some(fd))
    {
      os.Close(fd);
    }

    /** The requests of this pass, classified. */
    method ParseRead() returns (classes: array<Classification>, count: nat)
      requires Valid()
      ensures fresh(classes) && count == |Window(ReadBytes())| <= classes.Length
      ensures forall k :: 0 <= k < count ==> classes[k] == ClassOf(Window(ReadBytes())[k])
    {
      hide ClassOf, Concat, Frames;
      classes := new Classification[MAX_PIPELINE](_ => Classification(NotFound, false, 0));
      var read := storage[slot.readPtr..slot.readPtr + readFilled];
      assert read == ReadBytes();
      var _, parsed := ParsePipeline(read, classes);
      count := parsed;
    }

    /** No whole request: read on, unless the region is full of one that never ends. */
    method ReadOn(ring: SubmissionQueue, os: Descriptors, token: nat) returns (status: Status)
      requires Valid()
      modifies ring, os
      ensures status == (if readFilled == READ_REGION then Gone
                else if |old(ring.entries)| >= RING_ENTRIES then SubmissionFull else Alive)
      ensures Appends(old(ring.entries), ring.entries,
                if status == Alive then Some(Sqe(token, ConnIo(Recv(READ_REGION - readFilled)))) else None)
      ensures os.Closes(if status == Gone then Some(fd) else None)
    {
      if readFilled == READ_REGION {
        Close(os);
        return Gone;
      }
      status := SubmitRead(ring, token);
    }

    /** Drops what the batch consumed, and sends what it wrote. */
    method FlushBatch(consumed: nat, closeAfter: bool, ring: SubmissionQueue, token: nat) returns (status: Status)
      requires Valid() && consumed <= readFilled && writeOffset == 0 && writeFilled > 0
      modifies this`readFilled, this`state, this`closeAfterDrain, storage, ring
      ensures Live() && OthersUntouched()
      ensures View() == old(View()).(read := old(ReadBytes())[consumed..], state := Writing,
                closeAfterDrain := closeAfter)
      ensures status == (if |old(ring.entries)| >= RING_ENTRIES then SubmissionFull else Alive)
      ensures Appends(old(ring.entries), ring.entries,
                if status == Alive then Some(Sqe(token, ConnIo(Send(Drop(View().write, 0))))) else None)
    {
      hide Appends, Drop;
      Compact(consumed);
      closeAfterDrain := closeAfter;
      state := Writing;
      status := SubmitWrite(ring, token);
    }

    /** The batch is over. */
    method FinishBatch(consumed: nat, end: BatchEnd, ring: SubmissionQueue, os: Descriptors, token: nat)
      returns (status: Status)
      requires Valid() && consumed <= readFilled && writeOffset == 0 && (end.Flush? <==> writeFilled > 0)
      modifies this`readFilled, this`state, this`closeAfterDrain, storage, ring, os
      ensures Valid() && OthersUntouched() && (end.Flush? ==> Live())
      ensures var kept := old(View()).(read := old(ReadBytes())[consumed..]);
              View() == match end
                        case Abort => old(View())
                        case Park(_) => kept
                        case Flush(closeAfter) => kept.(state := Writing, closeAfterDrain := closeAfter)
      ensures status == (if end.Abort? then Gone
                else if end.Flush? && |old(ring.entries)| >= RING_ENTRIES then SubmissionFull else Alive)
      ensures Appends(old(ring.entries), ring.entries,
                if status == Alive && end.Flush? then Some(Sqe(token, ConnIo(Send(Drop(View().write, 0))))) else None)
      ensures os.Closes(if status == Gone then Some(fd) else None)
    {
      hide Appends, Drop;
      NothingAppended(ring.entries);
      match end {
        case Abort =>
          Close(os);
          status := Gone;
        case Park(_) =>
          Compact(consumed);
          assert writeFilled == 0;
          status := Alive;
        case Flush(closeAfter) =>
          status := FlushBatch(consumed, closeAfter, ring, token);
      }
    }

    /** A pass with at least one whole request. */
    method ServePass(server: Server, date: Date, classes: array<Classification>, count: nat, ring: SubmissionQueue,
                     bridge: WorkerBridge, os: Descriptors, token: nat)
      returns (status: Status)
      requires Valid() && state == Reading && writeFilled == 0 && writeOffset == 0 && HandlersReply(server)
      requires 0 < count == |Window(ReadBytes())| <= classes.Length
      requires forall k :: 0 <= k < count ==> classes[k] == ClassOf(Window(ReadBytes())[k])
      modifies this, storage, ring, bridge, os
      ensures Reacted(Session.ProcessBuffered(server, date, old(View())), status, ring, bridge, os, token)
      ensures status != Gone ==> Live()
    {
      hide ClassOf, Concat, RepliesOf, RunBatch, Taken, Window, Session.ProcessBuffered, Appends, Drop;
      NothingAppended(bridge.tasks);
      assert WriteBytes() == [];
      PassReaction(server, date, View());
      var consumed, end := ServeBatch(server, date, classes, count, bridge, token);
      status := FinishBatch(consumed, end, ring, os, token);
    }

    /** One pass over the read region. */
    method ProcessBuffered(server: Server, date: Date, ring: SubmissionQueue, bridge: WorkerBridge, os: Descriptors,
                           token: nat)
      returns (status: Status)
      requires Valid() && state == Reading && writeFilled == 0 && writeOffset == 0 && HandlersReply(server)
      modifies this, storage, ring, bridge, os
      ensures Reacted(Session.ProcessBuffered(server, date, old(View())), status, ring, bridge, os, token)
      ensures status != Gone ==> Live()
    {
      hide ClassOf, Concat, RepliesOf, RunBatch, Taken, Window, Session.ProcessBuffered, Appends, Drop;
      var classes, count := ParseRead();
      if count > 0 {
        status := ServePass(server, date, classes, count, ring, bridge, os, token);
        return;
      }
      NothingAppended(bridge.tasks);
      assert WriteBytes() == [];
      PassReaction(server, date, View());
      status := ReadOn(ring, os, token);
    }

    /** The kernel moves no more than it was asked to. */
    predicate KernelKeepsTo(result: int) reads this {
      match state
      case Reading => readFilled + result <= READ_REGION
      case Writing => writeOffset + result <= writeFilled
      case AwaitingAsync => true
    }

    /** What a completion has moved: bytes already in the read region, or bytes of the write region. */
    ghost function Moved(result: int): Bytes
      requires Valid() && KernelKeepsTo(result)
      reads this, storage
    {
      if result <= 0 then [] else
      match state
      case Reading => storage[slot.readPtr + readFilled..slot.readPtr + readFilled + result]
      case Writing => storage[slot.writePtr + writeOffset..slot.writePtr + writeOffset + result]
      case AwaitingAsync => []
    }

    /** The kernel has put bytes behind the filled part of the read region. */
    method Received(server: Server, date: Date, ring: SubmissionQueue, bridge: WorkerBridge, os: Descriptors,
                    token: nat, result: nat)
      returns (status: Status)
      requires Live() && state == Reading && 0 < result && KernelKeepsTo(result) && HandlersReply(server)
      modifies this, storage, ring, bridge, os
      ensures Reacted(OnCompletion(server, date, old(View()), result, old(Moved(result))), status, ring, bridge, os,
                token)
      ensures status != Gone ==> Live()
    {
      hide Session.ProcessBuffered, Appends;
      ghost var before, data := ReadBytes(), Moved(result);
      readFilled := readFilled + result;
      assert ReadBytes() == before + data;
      status := ProcessBuffered(server, date, ring, bridge, os, token);
    }

    /** Part of the write region is sent: keep draining it. */
    method SendRest(ring: SubmissionQueue, bridge: WorkerBridge, os: Descriptors, token: nat, result: nat)
      returns (status: Status)
      requires Live() && state == Writing && writeOffset + result < writeFilled
      modifies this`writeOffset, ring
      ensures var c := old(View()).(offset := old(writeOffset) + result);
              Reacted(Reaction(c, true, Some(Send(Drop(c.write, c.offset))), None, []), status, ring, bridge, os, token)
      ensures Live()
    {
      ghost var before := View();
      writeOffset := writeOffset + result;
      assert View() == before.(offset := writeOffset);
      status := SubmitWrite(ring, token);
    }

    method BecomeIdle()
      requires Valid()
      modifies this`writeFilled, this`writeOffset, this`state
      ensures Valid() && OthersUntouched() && View() == old(View()).(write := [], offset := 0, state := Reading)
    {
      ghost var read := ReadBytes();
      writeFilled, writeOffset, state := 0, 0, Reading;
      assert ReadBytes() == read && WriteBytes() == [];
    }

    /** Everything is sent: close, or read again after looking at what is already there. */
    method Drained(server: Server, date: Date, ring: SubmissionQueue, bridge: WorkerBridge, os: Descriptors, token: nat)
      returns (status: Status)
      requires Live() && state == Writing && HandlersReply(server)
      modifies this, storage, ring, bridge, os
      ensures var sent := old(View()).(offset := old(writeFilled));
              var idle := sent.(write := [], offset := 0, state := Reading);
              var r := if old(closeAfterDrain) then Dead(sent)
                       else if idle.read != [] then Session.ProcessBuffered(server, date, idle)
                       else Reaction(idle, true, Some(Recv(READ_REGION)), None, []);
              Reacted(r, status, ring, bridge, os, token)
      ensures status != Gone ==> Live()
    {
      hide Session.ProcessBuffered;
      if closeAfterDrain {
        ghost var before := View();
        writeOffset := writeFilled;
        assert View() == before.(offset := writeFilled);
        Close(os);
        return Gone;
      }
      BecomeIdle();
      if readFilled > 0 {
        status := ProcessBuffered(server, date, ring, bridge, os, token);
      } else {
        status := SubmitRead(ring, token);
      }
    }

    /** The connection's part in one completion. */
    method HandleCompletion(server: Server, date: Date, ring: SubmissionQueue, bridge: WorkerBridge, os: Descriptors,
                            token: nat, result: int)
      returns (status: Status)
      requires Live() && KernelKeepsTo(result) && HandlersReply(server)
      modifies this, storage, ring, bridge, os
      ensures Reacted(OnCompletion(server, date, old(View()), result, old(Moved(result))), status, ring, bridge, os,
                token)
      ensures status != Gone ==> Live()
    {
      hide Session.ProcessBuffered, Moved;
      if state == AwaitingAsync || result <= 0 {
        Close(os);
        status := Gone;
      } else if state == Reading {
        status := Received(server, date, ring, bridge, os, token, result);
      } else if writeOffset + result < writeFilled {
        status := SendRest(ring, bridge, os, token, result);
      } else {
        status := Drained(server, date, ring, bridge, os, token);
      }
    }

    method Fill(bytes: Bytes)
      requires Live() && state == AwaitingAsync && 0 < |bytes| <= WRITE_REGION
      modifies this, storage
      ensures Live() && OthersUntouched()
      ensures View() == old(View()).(write := bytes, offset := 0, closeAfterDrain := old(parkedCloseAfter),
                state := Writing)
      ensures Drop(WriteBytes(), 0) == bytes
    {
      assert WriteBytes() == [];
      Copy(bytes);
      writeFilled, writeOffset := |bytes|, 0;
      closeAfterDrain := parkedCloseAfter;
      state := Writing;
    }

    /** Copies an async handler's response into the write region; anything but a parked connection is left alone. */
    method DeliverAsyncResponse(ring: SubmissionQueue, bridge: WorkerBridge, os: Descriptors, token: nat, bytes: Bytes,
                                ghost req: Bytes)
      returns (status: Status)
      requires Live() && bytes != []
      modifies this, storage, ring, os
      ensures Reacted(OnDelivery(old(View()), req, bytes), status, ring, bridge, os, token)
      ensures status != Gone ==> Live()
    {
      if state != AwaitingAsync {
        return Alive;
      }
      if |bytes| > WRITE_REGION {
        Close(os);
        return Gone;
      }
      Fill(bytes);
      status := SubmitWrite(ring, token);
    }
  }
}
