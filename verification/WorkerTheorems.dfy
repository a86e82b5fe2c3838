/** What the invariant says to someone who talks to the worker. */
module WorkerTheorems {
  import opened Bytes
  import opened Pipeline
  import opened Wire
  import opened Replies
  import opened Session
  import opened Ledger
  import opened Counting
  import opened Worker
  import opened RingInvariant
  import opened AsyncInvariant
  import opened PoolInvariant
  import opened WorkerInvariant
  import opened Resources

  /** The worker's state after a run from start-up. */
  function After(server: Server, events: seq<Event>): World
    requires IsRun(server, Initial(), events)
  {
    Run(server, Initial(), events)
  }

  lemma Reached(server: Server, events: seq<Event>)
    requires HandlersReply(server) && IsRun(server, Initial(), events)
    ensures Inv(server, After(server, events))
  {
    hide Inv;
    InitialHolds(server);
    RunKeeps(server, Initial(), events);
  }

  // ---------------------------------------------------------------- responses

  /** The write region's bytes the kernel has not taken yet. */
  function Unsent(t: Tracked): Bytes {
    Drop(t.conn.write, t.conn.offset)
  }

  /**
   The requests taken from the buffer are the first ones the input frames into; what was sent and what
   is about to be are their replies, one each, in order; only the last may end the connection.
   */
  ghost predicate InOrder(server: Server, t: Tracked) {
    var l := t.ledger;
    && TakenSoFar(l) <= Frames(l.input)
    && l.sent + Unsent(t) == Concat(RepliesOf(server, l.served))
    && GoodLog(server, l.served)
  }

  lemma KeptInOrder(server: Server, t: Tracked)
    requires Kept(server, t)
    ensures InOrder(server, t)
    ensures Frames(t.ledger.input) == TakenSoFar(t.ledger) + Frames(t.conn.read)
  {
    hide Frames, Leftover, Concat, IsRequest, RepliesOf, GoodLog;
    FramesAfter(TakenSoFar(t.ledger), t.conn.read);
  }

  /** In every reachable state, for every live connection and for every closed one. */
  lemma RepliesInOrder(server: Server, events: seq<Event>)
    requires HandlersReply(server) && IsRun(server, Initial(), events)
    ensures var w := After(server, events);
            && (forall i :: i in w.conns ==> InOrder(server, w.conns[i].session))
            && (forall k :: 0 <= k < |w.closed| ==> InOrder(server, w.closed[k].session))
  {
    hide InOrder, Kept, RingHolds, AsyncHolds, SlotsHold, FdsHold, Run;
    Reached(server, events);
    var w := After(server, events);
    forall i | i in w.conns ensures InOrder(server, w.conns[i].session) { KeptInOrder(server, w.conns[i].session); }
    forall k | 0 <= k < |w.closed| ensures InOrder(server, w.closed[k].session) {
      KeptInOrder(server, w.closed[k].session);
    }
  }

  lemma ReadingAnswered(server: Server, t: Tracked)
    requires Settled(server, t) && t.conn.state.Reading?
    ensures RequestsOf(t.ledger.served) == Frames(t.ledger.input)
    ensures t.ledger.sent == Concat(RepliesOf(server, t.ledger.served))
  {
    hide Frames, Concat, RepliesOf, RequestsOf, GoodLog, AllRequests;
    KeptInOrder(server, t);
    assert TakenSoFar(t.ledger) == RequestsOf(t.ledger.served);
    assert Unsent(t) == [];
  }

  /** Whenever a connection waits for input, every request it has received is answered, and answered in full. */
  lemma AllAnswered(server: Server, events: seq<Event>, i: nat)
    requires HandlersReply(server) && IsRun(server, Initial(), events)
    requires var w := After(server, events); i in w.conns && w.conns[i].session.conn.state.Reading?
    ensures var l := After(server, events).conns[i].session.ledger;
            && RequestsOf(l.served) == Frames(l.input)
            && l.sent == Concat(RepliesOf(server, l.served))
            && GoodLog(server, l.served)
  {
    hide Settled, RingHolds, AsyncHolds, SlotsHold, FdsHold, Run, Concat, RepliesOf;
    Reached(server, events);
    var w := After(server, events);
    assert Settled(server, w.conns[i].session);
    ReadingAnswered(server, w.conns[i].session);
    SettledInOrder(server, w.conns[i].session);
  }

  lemma SettledInOrder(server: Server, t: Tracked)
    requires Settled(server, t)
    ensures InOrder(server, t) && GoodLog(server, t.ledger.served)
  {
    KeptInOrder(server, t);
  }

  lemma RepliesFramed(server: Server, log: seq<Served>)
    requires HandlersFrame(server) && GoodLog(server, log)
    ensures AllFramed(RepliesOf(server, log))
  {
    hide WellFramed, Baked, ClassOf;
    forall i | 0 <= i < |log| ensures WellFramed(Reply(server, log[i])) {
      assert Answers(server, log[i]);
      match log[i].via
      case FromSnapshot(date) => BakedIsFramed(date, RouteOf(log[i].req), ClassOf(log[i].req).close);
      case Inline =>
      case Unavailable => UnavailableIsFramed();
      case Awaited(_) =>
    }
  }

  /** A framed response is not empty, so framing handlers reply. */
  lemma FramingReplies(server: Server)
    requires HandlersFrame(server)
    ensures HandlersReply(server)
  {
    assert !WellFramed([]) by { assert FirstEnd([], 0).None?; }
    hide WellFramed;
  }

  /**
   Bytes the kernel has taken from connection `i` in a send whose completion the loop has not handled yet, or
   none.
   */
  ghost predicate JustTaken(w: World, i: nat, data: Bytes)
    requires i in w.conns
  {
    data == [] ||
      (w.conns[i].session.conn.state.Writing? &&
       exists k :: 0 <= k < |w.ring.cq| && IsConnCqe(w, k) && w.ring.cq[k].token == TokenAt(w.conns, i)
         && w.ring.cq[k].data == data)
  }

  /** Any such bytes are the next ones of the write region. */
  lemma JustTakenIsUnsent(server: Server, w: World, i: nat, data: Bytes)
    requires Inv(server, w) && i in w.conns && JustTaken(w, i, data)
    ensures data <= Unsent(w.conns[i].session)
  {
    hide Inv, Settled, UnpackToken;
    if data != [] {
      var k :| 0 <= k < |w.ring.cq| && IsConnCqe(w, k) && w.ring.cq[k].token == TokenAt(w.conns, i)
        && w.ring.cq[k].data == data;
      TakenNames(server, w, k);
      TokenNames(server, w, i);
    }
  }

  lemma TokenNames(server: Server, w: World, i: nat)
    requires Inv(server, w) && i in w.conns
    ensures TokenAt(w.conns, i) % U32 == i
  {
    hide Settled, AsyncHolds, SlotsHold, FdsHold, SessionsHold, AcceptFds, Parked, Outstanding, OpFits, CqeFits,
      UnpackToken, PackToken;
    PackUnpack(w.conns[i].generation, i);
    UnpackedIndex(TokenAt(w.conns, i));
  }

  lemma UnpackedIndex(token: nat)
    ensures UnpackToken(token).1 == token % U32
  {
  }

  lemma SentAreReplies(server: Server, t: Tracked, data: Bytes)
    requires HandlersFrame(server) && InOrder(server, t) && data <= Unsent(t)
    ensures Responses(t.ledger.sent + data) <= RepliesOf(server, t.ledger.served)
    ensures RequestsOf(t.ledger.served) <= Frames(t.ledger.input)
  {
    hide WellFramed, Responses, Frames, Concat, RepliesOf, InOrder, HandlersFrame, RequestsOf, Unsent;
    InOrderParts(server, t);
    RepliesFramed(server, t.ledger.served);
    var rest := Unsent(t)[|data|..];
    assert t.ledger.sent + Unsent(t) == t.ledger.sent + data + rest;
    ClientSeesPrefix(RepliesOf(server, t.ledger.served), t.ledger.sent + data, rest);
  }

  /**
   If each handler writes one response, a client that cuts the bytes it has got so far at header ends and
   Content-Lengths sees the replies to its first requests, in order, and nothing else: on live connections,
   with what the kernel has just taken, and on closed ones.
   */
  lemma ClientView(server: Server, events: seq<Event>)
    requires HandlersFrame(server) && IsRun(server, Initial(), events)
    ensures var w := After(server, events);
            && (forall i, data :: i in w.conns && JustTaken(w, i, data) ==>
                  var l := w.conns[i].session.ledger;
                  Responses(l.sent + data) <= RepliesOf(server, l.served) && RequestsOf(l.served) <= Frames(l.input))
            && (forall k :: 0 <= k < |w.closed| ==>
                  var l := w.closed[k].session.ledger;
                  Responses(l.sent) <= RepliesOf(server, l.served) && RequestsOf(l.served) <= Frames(l.input))
  {
    hide Run, Responses, Frames, RepliesOf, InOrder, HandlersFrame, HandlersReply, RequestsOf, Inv, JustTaken, Unsent;
    FramingReplies(server);
    Reached(server, events);
    RepliesInOrder(server, events);
    var w := After(server, events);
    forall i, data | i in w.conns && JustTaken(w, i, data)
      ensures var l := w.conns[i].session.ledger;
              Responses(l.sent + data) <= RepliesOf(server, l.served) && RequestsOf(l.served) <= Frames(l.input)
    {
      JustTakenIsUnsent(server, w, i, data);
      SentAreReplies(server, w.conns[i].session, data);
    }
    forall k | 0 <= k < |w.closed|
      ensures var l := w.closed[k].session.ledger;
              Responses(l.sent) <= RepliesOf(server, l.served) && RequestsOf(l.served) <= Frames(l.input)
    {
      SentAreReplies(server, w.closed[k].session, []);
      assert w.closed[k].session.ledger.sent + [] == w.closed[k].session.ledger.sent;
    }
  }

  /** A client of a connection that waits for input has got exactly one response for each of its requests. */
  lemma ClientHasAll(server: Server, events: seq<Event>, i: nat)
    requires HandlersFrame(server) && IsRun(server, Initial(), events)
    requires var w := After(server, events); i in w.conns && w.conns[i].session.conn.state.Reading?
    ensures var l := After(server, events).conns[i].session.ledger;
            && Responses(l.sent) == RepliesOf(server, l.served)
            && RequestsOf(l.served) == Frames(l.input) && |Responses(l.sent)| == |Frames(l.input)|
  {
    hide Run, WellFramed, Responses, Frames, Concat, RepliesOf, HandlersFrame, HandlersReply, RequestsOf;
    FramingReplies(server);
    AllAnswered(server, events, i);
    var l := After(server, events).conns[i].session.ledger;
    RepliesFramed(server, l.served);
    ClientRecovers(RepliesOf(server, l.served));
    SameLength(server, l.served);
  }

  lemma InOrderParts(server: Server, t: Tracked)
    requires InOrder(server, t)
    ensures GoodLog(server, t.ledger.served) && t.ledger.sent + Unsent(t) == Concat(RepliesOf(server, t.ledger.served))
    ensures RequestsOf(t.ledger.served) <= Frames(t.ledger.input)
  {
    hide Frames, Concat, RepliesOf, GoodLog;
  }

  lemma SameLength(server: Server, log: seq<Served>)
    ensures |RequestsOf(log)| == |RepliesOf(server, log)|
  {
  }

  // ---------------------------------------------------------------- faults, obligations, capacity

  /** No defensive branch is ever taken, no descriptor closed twice, no submission refused, no result misdelivered. */
  lemma NoFaults(server: Server, events: seq<Event>)
    requires HandlersReply(server) && IsRun(server, Initial(), events)
    ensures After(server, events).faults == {}
  {
    Reached(server, events);
  }

  /**
   Exactly one outstanding operation for a connection that reads or writes, exactly one piece of async work
   for a parked one.
   */
  lemma OneObligation(server: Server, events: seq<Event>, i: nat)
    requires HandlersReply(server) && IsRun(server, Initial(), events) && i in After(server, events).conns
    ensures var w := After(server, events);
            var parked := w.conns[i].session.conn.state.AwaitingAsync?;
            && Outstanding(w.ring, TokenAt(w.conns, i)) == (if parked then 0 else 1)
            && Owed(w.tasks, Results(w), i) == (if parked then 1 else 0)
  {
    hide Settled, SlotsHold, FdsHold, Run, Outstanding, Owed, Results, OpFits, CqeFits, TaskFits, ResultFits;
    Reached(server, events);
  }

  /**
   Whatever is outstanding belongs to a live connection of the same generation, and is what that connection
   expects.
   */
  lemma NothingStale(server: Server, events: seq<Event>)
    requires HandlersReply(server) && IsRun(server, Initial(), events)
    ensures var w := After(server, events);
            && (forall k :: 0 <= k < |w.ring.sq| ==> OpFits(w.conns, w.ring.sq[k]))
            && (forall k :: 0 <= k < |w.ring.kernel| ==> OpFits(w.conns, w.ring.kernel[k]))
            && (forall k :: 0 <= k < |w.ring.cq| ==> CqeFits(w.conns, w.ring.cq[k]))
            && (forall k :: 0 <= k < |w.tasks| ==> TaskFits(w.conns, w.tasks[k]))
            && (forall k :: 0 <= k < |Results(w)| ==> ResultFits(server, w.conns, Results(w)[k]))
  {
    hide Settled, SlotsHold, FdsHold, Run, Outstanding, Owed, Results, OpFits, CqeFits, TaskFits, ResultFits;
    Reached(server, events);
  }

  lemma Capacity(server: Server, events: seq<Event>)
    requires HandlersReply(server) && IsRun(server, Initial(), events)
    ensures var w := After(server, events);
            && |w.ring.sq| + |w.ring.kernel| <= SLOT_COUNT + 2 < RING_ENTRIES
            && |w.conns| + |w.free| == SLOT_COUNT && w.slabLen <= SLOT_COUNT
  {
    hide Settled, RingHolds, AsyncHolds, SlotsHold, FdsHold, Run;
    Reached(server, events);
    var w := After(server, events);
    RoomInQueue(w.conns, w.ring, Duty(true, w.draining.None?, Parked(w.conns) + {}), w.free);
    PoolCount(w.conns, w.free);
  }

  /** Slots and descriptors: every one free or owned once, and the regions of two connections never overlap. */
  lemma NothingShared(server: Server, events: seq<Event>)
    requires HandlersReply(server) && IsRun(server, Initial(), events)
    ensures var w := After(server, events);
            && SlotsHold(w.conns, w.free)
            && FdsHold(w.conns, AcceptFds(w.ring.cq), w.openFds)
            && (forall i, j :: i in w.conns && j in w.conns && i != j ==>
                  var a, b := SlotAt(w.conns[i].slot).readPtr, SlotAt(w.conns[j].slot).readPtr;
                  a + SLOT_BYTES <= b || b + SLOT_BYTES <= a)
  {
    hide Settled, RingHolds, AsyncHolds, FdsHold, Run, Held, SlotAt;
    Reached(server, events);
    var w := After(server, events);
    forall i, j | i in w.conns && j in w.conns && i != j
      ensures var a, b := SlotAt(w.conns[i].slot).readPtr, SlotAt(w.conns[j].slot).readPtr;
              a + SLOT_BYTES <= b || b + SLOT_BYTES <= a
    {
      RegionsApart(w.conns[i].slot, w.conns[j].slot);
    }
  }

  lemma RegionsApart(a: nat, b: nat)
    requires a != b
    ensures SlotAt(a).readPtr + SLOT_BYTES <= SlotAt(b).readPtr || SlotAt(b).readPtr + SLOT_BYTES <= SlotAt(a).readPtr
  {
    if a < b { SlotsApart(a, b); } else { SlotsApart(b, a); }
  }

  // ---------------------------------------------------------------- wake-ups

  /** While a result is queued, the eventfd is readable, its completion is posted, or its write is still to come. */
  lemma NoLostWakeUp(server: Server, events: seq<Event>)
    requires HandlersReply(server) && IsRun(server, Initial(), events)
    ensures var w := After(server, events);
            && (w.queue != [] ==> WakeUpDue(w))
            && Outstanding(w.ring, EVENTFD_TOKEN) == (if w.draining.None? then 1 else 0)
            && Outstanding(w.ring, ACCEPT_TOKEN) == 1
  {
    hide Settled, Outstanding, AsyncHolds, SlotsHold, FdsHold, Run, WakeUpDue, OpFits, CqeFits;
    Reached(server, events);
  }

  /** Nothing is left to happen but I/O, new connections, failing eventfd reads, and handlers still running. */
  ghost predicate Quiet(server: Server, w: World) {
    forall e: Event :: Enabled(server, w, e) ==>
      e.FinishIo? || e.FinishAccept? || e.Resolve? || (e.FinishEventfd? && !e.read)
  }

  lemma SlabHasRoom(w: World)
    requires SlabHolds(w.conns, w.slabLen)
    ensures exists v: nat :: SlabKey(w, v)
  {
    if i: nat :| i < w.slabLen && i !in w.conns {
      assert SlabKey(w, i);
    } else {
      assert SlabKey(w, w.slabLen);
    }
  }

  /** In a quiet state the loop has handled everything that was posted, and nothing is half done. */
  lemma QuietLoop(server: Server, w: World, date: Date)
    requires Quiet(server, w) && SlabHolds(w.conns, w.slabLen)
    ensures w.ring.sq == [] && w.draining.None? && w.ring.cq == []
    ensures forall k :: 0 <= k < |w.tasks| ==> !w.tasks[k].queued
    ensures forall k :: 0 <= k < |w.ring.kernel| ==> !w.ring.kernel[k].op.EventfdRead? || w.eventfd == 0
  {
    QuietSays(server, w, Enter(0));
    QuietSays(server, w, Rearm);
    QuietSays(server, w, Deliver);
    SlabHasRoom(w);
    var v: nat :| SlabKey(w, v);
    QuietSays(server, w, Handle(0, date, v));
    forall k | 0 <= k < |w.tasks| ensures !w.tasks[k].queued {
      QuietSays(server, w, Signal(k));
    }
    forall k | 0 <= k < |w.ring.kernel| ensures !w.ring.kernel[k].op.EventfdRead? || w.eventfd == 0 {
      QuietSays(server, w, FinishEventfd(k, true));
    }
  }

  lemma QuietSays(server: Server, w: World, e: Event)
    requires Quiet(server, w) && !e.FinishIo? && !e.FinishAccept? && !e.Resolve? && (e.FinishEventfd? ==> e.read)
    ensures !Enabled(server, w, e)
  {
  }

  /** With nothing queued or posted, the standing eventfd read is in the kernel. */
  lemma ReadIsArmed(conns: map<nat, Entry>, r: Ring, d: Duty)
    requires RingHolds(conns, r, d) && d.watching && r.sq == [] && r.cq == []
    ensures exists k :: 0 <= k < |r.kernel| && r.kernel[k].op.EventfdRead?
  {
    hide Names, ExpectedIo;
    assert EVENTFD_TOKEN in multiset(SqeTokens(r.kernel));
    var k :| 0 <= k < |SqeTokens(r.kernel)| && SqeTokens(r.kernel)[k] == EVENTFD_TOKEN;
    KernelOp(conns, r, d, k);
  }

  lemma StillRunning(server: Server, conns: map<nat, Entry>, tasks: seq<Task>, waiting: set<nat>, i: nat)
    requires AsyncHolds(server, conns, tasks, [], waiting) && i in conns && i in waiting
    ensures exists k :: 0 <= k < |tasks| && !tasks[k].queued && tasks[k].slotId == i
  {
    hide TaskFits;
    assert i in multiset(TaskSlots(tasks));
    var k :| 0 <= k < |TaskSlots(tasks)| && TaskSlots(tasks)[k] == i;
    assert TaskSlot(tasks[k]) == i && i < SLOT_COUNT;
  }

  /**
   No finished response is ever stuck: once the loop has nothing to do but wait for input, connections and
   handlers, no result is queued, and each parked connection's own handler has not resolved yet.
   */
  lemma NothingStuck(server: Server, events: seq<Event>, date: Date)
    requires HandlersReply(server) && IsRun(server, Initial(), events) && Quiet(server, After(server, events))
    ensures var w := After(server, events);
            && w.queue == [] && w.draining.None?
            && forall i :: i in w.conns && w.conns[i].session.conn.state.AwaitingAsync? ==>
                 exists k :: 0 <= k < |w.tasks| && !w.tasks[k].queued && w.tasks[k].slotId == i
  {
    hide Settled, RingHolds, AsyncHolds, SlotsHold, FdsHold, Run, Quiet;
    Reached(server, events);
    var w := After(server, events);
    QuietLoop(server, w, date);
    ReadIsArmed(w.conns, w.ring, Duty(true, true, Parked(w.conns) + {}));
    assert Results(w) == [];
    forall i | i in w.conns && w.conns[i].session.conn.state.AwaitingAsync?
      ensures exists k :: 0 <= k < |w.tasks| && !w.tasks[k].queued && w.tasks[k].slotId == i
    {
      StillRunning(server, w.conns, w.tasks, Parked(w.conns) - {}, i);
    }
  }
}
