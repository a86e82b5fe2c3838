/** Why connections are closed: in every reachable state, for every step, exactly these causes. */
module Departures {
  import opened Bytes
  import opened Pipeline
  import opened Replies
  import opened Session
  import opened Ledger
  import opened Counting
  import opened Worker
  import opened RingInvariant
  import opened AsyncInvariant
  import opened PoolInvariant
  import opened WorkerInvariant
  import opened WorkerTheorems

  /**
   A buffer no pass can go on with: a request larger than the read region, or one whose reply no write region
   holds.
   */
  predicate Outgrown(server: Server, read: Bytes) {
    if Frames(read) == [] then |read| >= READ_REGION else TooLarge(server, Frames(read)[0])
  }

  /** The operation failed, the reply just drained was the closing one, or what is buffered has outgrown its region. */
  predicate MustClose(server: Server, t: Tracked, result: int, data: Bytes) {
    var c := t.conn;
    || result <= 0
    || (c.state.Reading? && Outgrown(server, c.read + data))
    || (c.state.Writing? && c.offset + result >= |c.write| && (c.closeAfterDrain || Outgrown(server, c.read)))
  }

  lemma EmptyStays(server: Server)
    ensures !Outgrown(server, [])
  {
    assert FirstEnd([], 0).None?;
  }

  /** A completion closes its connection exactly for one of these causes. */
  lemma CompletionCloses(server: Server, date: Date, t: Tracked, result: int, data: Bytes)
    requires Settled(server, t) && HandlersReply(server)
    requires ExpectedIo(t.conn).Some? && KernelAnswers(ExpectedIo(t.conn).value, result, data)
    ensures !OnCompletion(server, date, t.conn, result, data).alive <==> MustClose(server, t, result, data)
  {
    hide Kept, LastCloses, ProcessBuffered, HandlersReply, Frames, TooLarge;
    var c, l := t.conn, t.ledger;
    if result > 0 {
      if c.state.Reading? {
        var t1 := Tracked(c.(read := c.read + data), l.(input := l.input + data));
        RecvAppends(server, t, data);
        assert Ready(server, t1);
        PassProgress(server, date, t1);
      } else {
        var t1 := Tracked(c.(offset := c.offset + result), l.(sent := l.sent + data));
        SendMoves(server, t, result);
        if t1.conn.offset == |c.write| && !c.closeAfterDrain {
          DrainedIsReady(server, t1);
          var t2 := t1.(conn := c.(write := [], offset := 0, state := Reading));
          if c.read != [] { PassProgress(server, date, t2); } else { EmptyStays(server); }
        }
      }
    }
  }

  /** A closing reply is the last one served, and it has been sent in full. */
  lemma DrainedWasClosing(server: Server, t: Tracked)
    requires Settled(server, t) && t.conn.state.Writing?
    ensures t.conn.closeAfterDrain <==> LastCloses(t.ledger.served)
  {
    hide Kept, LastCloses;
  }

  /** What makes an event close connection `i`. */
  predicate Cause(server: Server, w: World, e: Event, i: nat)
    requires i in w.conns && Enabled(server, w, e)
  {
    match e
    case Handle(k, _, _) =>
      var c := w.ring.cq[k];
      c.token != ACCEPT_TOKEN && c.token != EVENTFD_TOKEN && c.token % U32 == i
        && MustClose(server, w.conns[i].session, c.result, c.data)
    case Deliver => w.draining.value[0].slotId == i && |w.draining.value[0].bytes| > WRITE_REGION
    case _ => false
  }

  lemma ApplyRemoves(w: World, i: nat, e: Entry, r: Reaction)
    ensures forall j :: j in Apply(w, i, e, r).conns <==> if j == i then r.alive else j in w.conns
  {
    hide PackToken;
  }

  lemma AcceptKeepsAll(w: World, c: Cqe, vacant: nat, i: nat)
    requires i in w.conns
    ensures i in HandleAccept(w, c, vacant).conns
  {
    hide PackToken;
  }

  /**
   In every reachable state, a step closes a connection exactly when the operation it completes failed, or
   the closing reply has drained, or a request or a reply has outgrown its region.
   */
  lemma ClosesExactly(server: Server, events: seq<Event>, e: Event, i: nat)
    requires HandlersReply(server) && IsRun(server, Initial(), events)
    requires i in After(server, events).conns && Enabled(server, After(server, events), e)
    ensures i !in Step(server, After(server, events), e).conns <==> Cause(server, After(server, events), e, i)
  {
    hide Run, Inv, HandlersReply;
    Reached(server, events);
    StepCloses(server, After(server, events), e, i);
  }

  lemma StepCloses(server: Server, w: World, e: Event, i: nat)
    requires HandlersReply(server) && Inv(server, w) && i in w.conns && Enabled(server, w, e)
    ensures i !in Step(server, w, e).conns <==> Cause(server, w, e, i)
  {
    hide Inv, HandlersReply, HandleConn, HandleAccept, HandleDelivery, MustClose;
    match e
    case Handle(k, date, vacant) =>
      if IsConnCqe(w, k) {
        ConnCloses(server, w, k, date, vacant, i);
      } else if w.ring.cq[k].token == ACCEPT_TOKEN {
        AcceptKeepsAll(WorkerInvariant.Taken(w, k), w.ring.cq[k], vacant, i);
      }
    case Deliver => DeliveryCloses(server, w, i);
    case _ =>
  }

  lemma ConnCloses(server: Server, w: World, k: nat, date: Date, vacant: nat, i: nat)
    requires HandlersReply(server) && Inv(server, w) && i in w.conns
    requires Enabled(server, w, Handle(k, date, vacant)) && IsConnCqe(w, k)
    ensures i !in Step(server, w, Handle(k, date, vacant)).conns <==>
              w.ring.cq[k].token % U32 == i && MustClose(server, w.conns[i].session, w.ring.cq[k].result,
                w.ring.cq[k].data)
  {
    hide Inv, HandlersReply, Settled, KernelAnswers, ExpectedIo, OnCompletion, AfterCompletion, Apply, Step,
      UnpackToken, MustClose;
    var c := w.ring.cq[k];
    var j := c.token % U32;
    TakenNames(server, w, k);
    HandleConnApplies(server, w, k, date, vacant, j);
    var t := w.conns[j].session;
    var r := OnCompletion(server, date, t.conn, c.result, c.data);
    CompletionCloses(server, date, t, c.result, c.data);
    ApplyRemoves(WorkerInvariant.Taken(w, k), j,
      w.conns[j].(session := AfterCompletion(server, date, t, c.result, c.data)), r);
  }

  lemma DeliveryCloses(server: Server, w: World, i: nat)
    requires HandlersReply(server) && Inv(server, w) && i in w.conns && Enabled(server, w, Deliver)
    ensures i !in Step(server, w, Deliver).conns <==> Cause(server, w, Deliver, i)
  {
    hide Inv, HandlersReply, Settled, OnDelivery, AfterDelivery, Apply, Step, PackToken;
    DeliveryNames(server, w);
    DeliverApplies(server, w);
    var c := w.draining.value[0];
    var e := w.conns[c.slotId];
    var r := OnDelivery(e.session.conn, ParkedRequest(e.session.ledger), c.bytes);
    DeliverySettles(server, e.session, c.bytes);
    ApplyRemoves(TakenResult(w), c.slotId, e.(session := AfterDelivery(e.session, c.bytes)), r);
  }
}
