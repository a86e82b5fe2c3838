/** A run from start-up in which a client is accepted, asks, and is answered. */
module FirstRequest {
  import opened Bytes
  import opened Pipeline
  import opened Decimal
  import opened Wire
  import opened Replies
  import opened Session
  import opened Ledger
  import opened Counting
  import opened Worker
  import opened WorkerTheorems
  import opened Reading
  import opened Answering

  const ACCEPT: Sqe := Sqe(ACCEPT_TOKEN, AcceptMulti)
  const WAKE: Sqe := Sqe(EVENTFD_TOKEN, EventfdRead)

  function Io0(io: Io): Sqe { Sqe(0, ConnIo(io)) }

  /** The worker with one connection, and these operations queued, running and completed. */
  function Serving(fd: int, t: Tracked, sq: seq<Sqe>, kernel: seq<Sqe>, cq: seq<Cqe>): World {
    var free := Initial().free;
    World(map[0 := Entry(0, fd, 0, t)], 1, 1, free[..1023], Ring(sq, kernel, cq), [], [], 0, None, {fd}, [], {})
  }

  const EMPTY: Ledger := Ledger([], [], [], None)
  const OPEN: Tracked := Tracked(FRESH, EMPTY)

  /** The events of the accept, of the request and of the reply. */
  function Accepting(fd: int, date: Date): seq<Event> {
    [Enter(0), FinishAccept(0, fd, true), Handle(0, date, 0)]
  }

  function Moving(data: Bytes, date: Date): seq<Event> {
    [Enter(1), FinishIo(1, |data|, data), Handle(0, date, 0)]
  }

  lemma {:induction false} RunsOn(server: Server, w: World, a: seq<Event>, b: seq<Event>)
    requires IsRun(server, w, a) && IsRun(server, Run(server, w, a), b)
    ensures IsRun(server, w, a + b) && Run(server, w, a + b) == Run(server, Run(server, w, a), b)
    decreases |a|
  {
    hide Enabled, Step;
    if a == [] {
      assert a + b == b;
    } else {
      RunsOn(server, Step(server, w, a[0]), a[1..], b);
      assert (a + b)[1..] == a[1..] + b && (a + b)[0] == a[0];
    }
  }

  lemma RunOfThree(server: Server, w: World, a: Event, b: Event, c: Event)
    requires Enabled(server, w, a)
    requires Enabled(server, Step(server, w, a), b)
    requires Enabled(server, Step(server, Step(server, w, a), b), c)
    ensures IsRun(server, w, [a, b, c])
    ensures Run(server, w, [a, b, c]) == Step(server, Step(server, Step(server, w, a), b), c)
  {
    hide Enabled, Step;
    var none: seq<Event> := [];
    assert [a, b, c][1..] == [b, c] && [b, c][1..] == [c] && [c][1..] == none;
    var w3 := Step(server, Step(server, Step(server, w, a), b), c);
    assert IsRun(server, w3, none) && Run(server, w3, none) == w3;
    var w2 := Step(server, Step(server, w, a), b);
    assert IsRun(server, w2, [c]) && Run(server, w2, [c]) == w3;
    var w1 := Step(server, w, a);
    assert IsRun(server, w1, [b, c]) && Run(server, w1, [b, c]) == w3;
  }

  /** A client connects. */
  lemma Accepts(server: Server, fd: int, date: Date)
    requires fd >= 0
    ensures IsRun(server, Initial(), Accepting(fd, date))
    ensures Run(server, Initial(), Accepting(fd, date)) == Serving(fd, OPEN, [WAKE, Io0(Recv(16384))], [ACCEPT], [])
  {
    hide IsRun, Run, Baked;
    var w0 := Initial();
    var w1 := w0.(ring := Ring([WAKE], [ACCEPT], []));
    var w2 := w1.(ring := Ring([WAKE], [ACCEPT], [Cqe(ACCEPT_TOKEN, fd, [], true)]), openFds := {fd});
    assert RemoveAt(w0.ring.sq, 0) == [WAKE];
    assert Step(server, w0, Enter(0)) == w1;
    assert Step(server, w1, FinishAccept(0, fd, true)) == w2;
    assert RemoveAt(w2.ring.cq, 0) == [];
    assert w2.free[..1023] == w2.free[..|w2.free| - 1];
    assert Step(server, w2, Handle(0, date, 0)) == Serving(fd, OPEN, [WAKE, Io0(Recv(16384))], [ACCEPT], []);
    RunOfThree(server, w0, Enter(0), FinishAccept(0, fd, true), Handle(0, date, 0));
  }

  /** The kernel moves the bytes of the connection's operation, and the loop handles its completion. */
  lemma Moves(server: Server, fd: int, t: Tracked, io: Io, data: Bytes, date: Date)
    requires KernelAnswers(io, |data|, data) && !t.conn.state.AwaitingAsync?
    requires OnCompletion(server, date, t.conn, |data|, data).alive
    requires OnCompletion(server, date, t.conn, |data|, data).io.Some?
    requires OnCompletion(server, date, t.conn, |data|, data).spawn.None?
    ensures var w, r := Serving(fd, t, [WAKE, Io0(io)], [ACCEPT], []), OnCompletion(server, date, t.conn, |data|, data);
            && IsRun(server, w, Moving(data, date))
            && Run(server, w, Moving(data, date)) ==
                 Serving(fd, AfterCompletion(server, date, t, |data|, data), [WAKE, Io0(r.io.value)], [ACCEPT], [])
  {
    hide IsRun, Run, OnCompletion, AfterCompletion, KernelAnswers;
    var w0 := Serving(fd, t, [WAKE, Io0(io)], [ACCEPT], []);
    var w1 := Serving(fd, t, [WAKE], [ACCEPT, Io0(io)], []);
    var w2 := Serving(fd, t, [WAKE], [ACCEPT], [Cqe(0, |data|, data, false)]);
    assert RemoveAt(w0.ring.sq, 1) == [WAKE];
    assert Step(server, w0, Enter(1)) == w1;
    assert RemoveAt(w1.ring.kernel, 1) == [ACCEPT];
    assert Step(server, w1, FinishIo(1, |data|, data)) == w2;
    assert RemoveAt(w2.ring.cq, 0) == [];
    assert UnpackToken(0) == (0, 0) && PackToken(0, 0) == 0;
    RunOfThree(server, w0, Enter(1), FinishIo(1, |data|, data), Handle(0, date, 0));
  }

  lemma OnlyFrame(req: Bytes)
    requires IsRequest(req)
    ensures Window(req) == [req] && Concat([req]) == req
  {
    hide Frames, IsRequest, EndsAt;
    NothingIncomplete();
    FramesUnique([req], []);
    assert Concat([req]) + [] == req by { assert [req][1..] == []; }
  }

  lemma NotEmpty(req: Bytes)
    requires IsRequest(req)
    ensures req != []
  {
  }

  lemma NothingIncomplete()
    ensures Incomplete([])
  {
  }

  /** The pass over one benchmark request: it is answered at once. */
  lemma AnswersAtOnce(server: Server, date: Date, req: Bytes, reply: Bytes)
    requires IsRequest(req) && RouteOf(req) != NotFound && !ClassOf(req).close
    requires reply == Baked(date, RouteOf(req), false) && 0 < |reply| <= 300
    ensures OnCompletion(server, date, FRESH, |req|, req) ==
              Reaction(FRESH.(write := reply, state := Writing), true, Some(Send(reply)), None,
                       [Served(req, FromSnapshot(date))])
  {
    hide ClassOf, Frames, Baked, IsRequest, Window, RunBatch, Concat, RepliesOf, RequestsOf;
    OnlyFrame(req);
    NotEmpty(req);
    OneServed(server, date, req, reply);
    var e, c := Served(req, FromSnapshot(date)), FRESH.(read := req);
    assert FRESH.read + req == req && FRESH.(read := FRESH.read + req) == c;
    assert RequestsOf([e]) + [] == [req];
    assert [] + reply == reply && Drop(req, |req|) == [] && Drop(reply, 0) == reply;
    assert ProcessBuffered(server, date, c) ==
        Reaction(FRESH.(write := reply, state := Writing), true, Some(Send(reply)), None, [e]);
  }

  lemma OneServed(server: Server, date: Date, req: Bytes, reply: Bytes)
    requires RouteOf(req) != NotFound && !ClassOf(req).close
    requires reply == Baked(date, RouteOf(req), false) && |reply| <= 300
    ensures var e := Served(req, FromSnapshot(date));
            && RunBatch(server, date, [req], [], 0) == Batch([e], Flush(false))
            && RequestsOf([e]) == [req] && Concat(RepliesOf(server, [e])) == reply
  {
    hide ClassOf, Baked;
    var e := Served(req, FromSnapshot(date));
    var none: seq<Served> := [];
    assert none + [e] == [e];
    assert RunBatch(server, date, [req], [e], |reply|) == Batch([e], Flush(false));
    assert RepliesOf(server, [e]) == [reply] && Concat([reply]) == reply by { assert [reply][1..] == []; }
  }

  /** The whole reply has been sent. */
  lemma Drains(server: Server, date: Date, reply: Bytes)
    requires reply != []
    ensures OnCompletion(server, date, FRESH.(write := reply, state := Writing), |reply|, reply)
         == Reaction(FRESH, true, Some(Recv(16384)), None, [])
  {
    hide ProcessBuffered;
  }

  /**
   Started, a worker accepts a client, reads its request and answers it, and waits for the next: for every
   plaintext request that fits the read region, whatever the descriptor and the date.
   */
  lemma ServesOne(server: Server, fd: int, date: Date, req: Bytes)
    requires fd >= 0 && IsRequest(req) && |req| <= 16384
    requires Opens(req, PLAIN_START) && !OldVersion(req, PLAIN_START)
    ensures exists reply: Bytes ::
              && ReadReply(reply) == Some(Plain(200, date, "text/plain; charset=utf-8", HELLO))
              && var events := Accepting(fd, date) + Moving(req, date) + Moving(reply, date);
                 && IsRun(server, Initial(), events)
                 && After(server, events) ==
                      Serving(fd, Tracked(FRESH, Ledger(req, reply, [Served(req, FromSnapshot(date))], None)),
                              [WAKE, Io0(Recv(16384))], [ACCEPT], [])
  {
    hide Opens, ReadReply, Plain, Baked, IsRun, Run, OnCompletion, Serving, Ascii, IsRequest, ClassOf;
    Classified(req);
    var reply := Baked(date, Plaintext, false);
    BakedIsSmall(date, Plaintext, false);
    PlainRead(date);
    NotEmpty(req);
    AnswersAtOnce(server, date, req, reply);
    Drains(server, date, reply);
    var e := Served(req, FromSnapshot(date));
    var asked := Tracked(FRESH.(write := reply, state := Writing), Ledger(req, [], [e], None));
    AskedIs(server, date, req, reply);
    Accepts(server, fd, date);
    Moves(server, fd, OPEN, Recv(16384), req, date);
    Moves(server, fd, asked, Send(reply), reply, date);
    RunsOn(server, Initial(), Accepting(fd, date), Moving(req, date));
    RunsOn(server, Initial(), Accepting(fd, date) + Moving(req, date), Moving(reply, date));
  }

  lemma PlainRead(date: Date)
    ensures ReadReply(Baked(date, Plaintext, false)) == Some(Plain(200, date, "text/plain; charset=utf-8", HELLO))
  {
    hide ReadReply, Plain, Rendered, StatusText, Ascii;
    StatusTexts();
    ReadRendered("200 OK", 200, "text/plain; charset=utf-8", HELLO, date, false);
  }

  /** The histories in between. */
  lemma AskedIs(server: Server, date: Date, req: Bytes, reply: Bytes)
    requires reply != []
    requires var e := Served(req, FromSnapshot(date));
             && OnCompletion(server, date, FRESH, |req|, req) ==
                  Reaction(FRESH.(write := reply, state := Writing), true, Some(Send(reply)), None, [e])
             && OnCompletion(server, date, FRESH.(write := reply, state := Writing), |reply|, reply)
                  == Reaction(FRESH, true, Some(Recv(16384)), None, [])
             && req != []
    ensures var e := Served(req, FromSnapshot(date));
            var asked := Tracked(FRESH.(write := reply, state := Writing), Ledger(req, [], [e], None));
            && AfterCompletion(server, date, OPEN, |req|, req) == asked
            && AfterCompletion(server, date, asked, |reply|, reply) == Tracked(FRESH, Ledger(req, reply, [e], None))
            && KernelAnswers(Send(reply), |reply|, reply)
  {
    hide OnCompletion;
  }
}
