/** How far a pass over the buffered requests goes, and what it stamps on the replies. */
module Passes {
  import opened Bytes
  import opened Pipeline
  import opened Replies
  import opened Session
  import opened Ledger
  import opened Worker
  import opened RingInvariant
  import opened WorkerInvariant
  import opened WorkerTheorems
  import opened Answering

  /** The handler of this request has to be waited for. */
  predicate HasToWait(server: Server, req: Bytes) {
    !Opens(req, PLAIN_START) && !Opens(req, JSON_START) && server.dispatch(req).Async?
  }

  /**
   Requests may be left for the next pass behind 64 served ones, a closing one, or where the next cannot be
   served.
   */
  ghost predicate GoesOn(server: Server, date: Date, c: Conn, log: seq<Served>) {
    || Frames(c.read) == [] || |log| == 64 || c.closeAfterDrain
    || HasToWait(server, Frames(c.read)[0]) || NoneFits(server, date, Frames(c.read)[0], |c.write|)
  }

  /** A pass that serves anything serves all it can, with this pass's date. */
  lemma PassGoesOn(server: Server, date: Date, c: Conn)
    requires c.write == []
    ensures var r := ProcessBuffered(server, date, c);
            Dated(date, r.log) && (r.log != [] && r.alive ==>
              r.conn.state.Writing? && GoesOn(server, date, r.conn, r.log))
  {
    hide RunBatch, Frames, Concat, NoneFits, RepliesOf, Session.Reply, ClassOf, Opens, Drop;
    var frames := Window(c.read);
    if frames != [] {
      EmptyLog(server);
      BatchStops(server, date, frames, [], 0);
      PassTakes(server, date, c.read);
      FramesLeft(server, date, c.read);
      var b := RunBatch(server, date, frames, [], 0);
      var r := ProcessBuffered(server, date, c);
      if b.end == Flush(false) && Frames(r.conn.read) != [] && |r.log| != 64 {
        assert Session.Taken(b) == RequestsOf(b.served);
        var next := Frames(r.conn.read)[0];
        assert Frames(c.read)[|b.served|] == next;
        assert |b.served| < |frames| && frames[|b.served|] == next;
        Classified(next);
      }
    }
  }

  lemma CompletionGoesOn(server: Server, date: Date, t: Tracked, result: int, data: Bytes)
    requires Settled(server, t)
    ensures var r := OnCompletion(server, date, t.conn, result, data);
            Dated(date, r.log) && (r.log != [] && r.alive ==>
              r.conn.state.Writing? && GoesOn(server, date, r.conn, r.log))
  {
    hide GoesOn, ProcessBuffered, Kept;
    if result > 0 {
      if t.conn.state.Reading? {
        PassGoesOn(server, date, t.conn.(read := t.conn.read + data));
      } else {
        PassGoesOn(server, date, t.conn.(offset := 0, write := [], state := Reading));
      }
    }
  }

  /**
   In every reachable state, a completion adds to the history of one connection at most, dates what it adds by
   the pass it belongs to, and stops serving only where it has to.
   */
  lemma StepGoesOn(server: Server, events: seq<Event>, k: nat, date: Date, vacant: nat, i: nat)
    requires HandlersReply(server) && IsRun(server, Initial(), events)
    requires Enabled(server, After(server, events), Handle(k, date, vacant)) && i in After(server, events).conns
    requires i in Step(server, After(server, events), Handle(k, date, vacant)).conns
    ensures var w := After(server, events);
            var was, t := w.conns[i].session.ledger.served, Step(server, w, Handle(k, date, vacant)).conns[i].session;
            && was <= t.ledger.served && Dated(date, t.ledger.served[|was|..])
            && (t.ledger.served != was ==>
                  && w.ring.cq[k].token % 0x1_0000_0000 == i && t.conn.state.Writing?
                  && GoesOn(server, date, t.conn, t.ledger.served[|was|..]))
  {
    hide Run, Inv, HandlersReply, GoesOn, Settled, KernelAnswers, ExpectedIo, OnCompletion, UnpackToken, Step, Dated,
      Apply;
    Reached(server, events);
    var w := After(server, events);
    NoneDated(date);
    var was := w.conns[i].session.ledger.served;
    assert was[|was|..] == [];
    if IsConnCqe(w, k) {
      var c := w.ring.cq[k];
      var j := c.token % U32;
      TakenNames(server, w, k);
      HandleConnApplies(server, w, k, date, vacant, j);
      var e := w.conns[j];
      var r := OnCompletion(server, date, e.session.conn, c.result, c.data);
      CompletionGoesOn(server, date, e.session, c.result, c.data);
      var t := AfterCompletion(server, date, e.session, c.result, c.data);
      ApplySets(WorkerInvariant.Taken(w, k), j, e.(session := t), r, i);
      assert t.ledger.served == e.session.ledger.served + r.log;
      assert (e.session.ledger.served + r.log)[|e.session.ledger.served|..] == r.log;
    } else {
      OtherStays(server, w, k, date, vacant, i);
    }
  }

  lemma NoneDated(date: Date)
    ensures Dated(date, [])
  {
  }

  lemma ApplySets(w: World, j: nat, e: Entry, r: Reaction, i: nat)
    requires i in Apply(w, j, e, r).conns && i in w.conns
    ensures Apply(w, j, e, r).conns[i] == if i == j then e else w.conns[i]
    ensures i == j ==> r.alive
  {
    hide PackToken;
  }

  lemma OtherStays(server: Server, w: World, k: nat, date: Date, vacant: nat, i: nat)
    requires Enabled(server, w, Handle(k, date, vacant)) && !IsConnCqe(w, k) && i in w.conns
    ensures var w' := Step(server, w, Handle(k, date, vacant)); i in w'.conns && w'.conns[i] == w.conns[i]
  {
    hide PackToken, HandleConn;
  }
}
