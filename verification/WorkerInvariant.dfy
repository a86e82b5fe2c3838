/**
 The worker's invariant, and that every step keeps it, so that it holds of every reachable state: sessions
 are settled, operations and async work match the connections one to one, slots and descriptors are owned
 once, registry indices stay below the pool's size, a wake-up is due while results are queued, and no fault
 is recorded. `Holds` makes room for the one connection whose completion or result is being handled.
 */
module WorkerInvariant {
  import opened Bytes
  import opened Pipeline
  import opened Replies
  import opened Session
  import opened Ledger
  import opened Counting
  import opened Worker
  import opened RingInvariant
  import opened AsyncInvariant
  import opened PoolInvariant

  function Parked(conns: map<nat, Entry>): set<nat> {
    set i | i in conns && ConnAt(conns, i).state.AwaitingAsync?
  }

  /** Results on their way to the loop: the ones it has drained, then the ones still queued. */
  function Results(w: World): seq<Completion> {
    (match w.draining case None => [] case Some(rest) => rest) + w.queue
  }

  /** Somebody will make the loop look at the queue. */
  ghost predicate WakeUpDue(w: World) {
    || w.eventfd > 0
    || (exists k :: 0 <= k < |w.ring.cq| && w.ring.cq[k].token == EVENTFD_TOKEN)
    || (exists k :: 0 <= k < |w.tasks| && w.tasks[k].queued)
  }

  /** All connections but `except` are settled. */
  ghost predicate SessionsHold(server: Server, conns: map<nat, Entry>, except: set<nat>) {
    forall i :: i in conns && i !in except ==> Settled(server, conns[i].session)
  }

  /** Everything, while connection `except` owes no operation and waits for no work. */
  ghost predicate Holds(server: Server, w: World, except: set<nat>) {
    && w.faults == {}
    && w.nextGeneration < U32
    && SessionsHold(server, w.conns, except)
    && (forall k :: 0 <= k < |w.closed| ==> Kept(server, w.closed[k].session))
    && RingHolds(w.conns, w.ring, Duty(true, w.draining.None?, Parked(w.conns) + except))
    && AsyncHolds(server, w.conns, w.tasks, Results(w), Parked(w.conns) - except)
    && SlotsHold(w.conns, w.free)
    && SlabHolds(w.conns, w.slabLen)
    && FdsHold(w.conns, AcceptFds(w.ring.cq), w.openFds)
    && (w.queue != [] ==> WakeUpDue(w))
  }

  ghost predicate Inv(server: Server, w: World) {
    Holds(server, w, {})
  }

  // ---------------------------------------------------------------- pushing

  /** The submission queue never fills up: 1024 connections and two standing operations at most. */
  lemma RoomInQueue(conns: map<nat, Entry>, r: Ring, d: Duty, free: seq<nat>)
    requires RingHolds(conns, r, d) && SlotsHold(conns, free)
    ensures |r.sq| + |r.kernel| <= SLOT_COUNT + 2 < RING_ENTRIES
  {
    hide RingHolds, SlotsHold;
    OpsBounded(conns, r, d);
    PoolCount(conns, free);
  }

  // ---------------------------------------------------------------- a connection reacts

  /** What a reaction must be for the worker to carry on. */
  ghost predicate GoodReaction(server: Server, old_: Entry, e: Entry, r: Reaction) {
    && e == old_.(session := e.session) && e.session.conn == r.conn
    && Kept(server, e.session)
    && (r.alive ==> Settled(server, e.session) && r.io == ExpectedIo(r.conn) && r.spawn == e.session.ledger.parked)
  }

  lemma SessionsChange(server: Server, conns: map<nat, Entry>, i: nat, e: Entry)
    requires SessionsHold(server, conns, {i})
    ensures Settled(server, e.session) ==> SessionsHold(server, conns[i := e], {})
    ensures SessionsHold(server, Without(conns, i), {})
  {
    hide Settled;
  }

  lemma ParkedChange(conns: map<nat, Entry>, i: nat, e: Entry)
    ensures Parked(conns[i := e]) == (if e.session.conn.state.AwaitingAsync? then Parked(conns) + {i}
              else Parked(conns) - {i})
    ensures Parked(Without(conns, i)) == Parked(conns) - {i}
  {
  }

  /** It closes: its descriptor, slot and registry entry are given back. */
  lemma CloseKeeps(server: Server, w: World, i: nat, e: Entry, r: Reaction)
    requires Holds(server, w, {i}) && i in w.conns && GoodReaction(server, w.conns[i], e, r) && !r.alive
    ensures Inv(server, Apply(w, i, e, r))
  {
    hide Kept, SessionsHold, RingHolds, AsyncHolds, SlotsHold, FdsHold, AcceptFds, Parked;
    SessionsChange(server, w.conns, i, e);
    ParkedChange(w.conns, i, e);
    RingForget(w.conns, w.ring, Duty(true, w.draining.None?, Parked(w.conns) + {i}), i);
    IndexInRange(w.conns, w.ring, Duty(true, w.draining.None?, Parked(w.conns) + {i}), i);
    AsyncChange(server, w.conns, w.tasks, Results(w), Parked(w.conns) - {i}, i, e);
    SlotsRelease(w.conns, w.free, i);
    FdsClose(w.conns, AcceptFds(w.ring.cq), w.openFds, i);
    FdOpen(w.conns, AcceptFds(w.ring.cq), w.openFds, i);
    assert (Parked(w.conns) + {i}) - {i} == Parked(w.conns) - {i} + {};
    assert Parked(w.conns) - {i} == Parked(w.conns) - {i} - {};
    var w' := Apply(w, i, e, r);
    assert w'.conns == Without(w.conns, i);
    assert Results(w') == Results(w);
  }

  lemma FdOpen(conns: map<nat, Entry>, fds: seq<int>, openFds: set<int>, i: nat)
    requires FdsHold(conns, fds, openFds) && i in conns
    ensures conns[i].fd in openFds
  {
  }

  lemma IndexInRange(conns: map<nat, Entry>, r: Ring, d: Duty, i: nat)
    requires RingHolds(conns, r, d) && i in conns
    ensures i < SLOT_COUNT && conns[i].generation < U32 && TokenAt(conns, i) % U32 == i
  {
    TokensApart(conns);
  }

  /** It lives on, with an operation: reading or writing. */
  lemma SubmitKeeps(server: Server, w: World, i: nat, e: Entry, r: Reaction)
    requires Holds(server, w, {i}) && i in w.conns && GoodReaction(server, w.conns[i], e, r) && r.alive && r.io.Some?
    ensures Inv(server, Apply(w, i, e, r))
  {
    hide Kept, SessionsHold, RingHolds, AsyncHolds, SlotsHold, FdsHold, AcceptFds, Parked, Results;
    var d := Duty(true, w.draining.None?, Parked(w.conns) + {i});
    var conns := w.conns[i := e];
    SessionsChange(server, w.conns, i, e);
    ParkedChange(w.conns, i, e);
    IndexInRange(w.conns, w.ring, d, i);
    RoomInQueue(w.conns, w.ring, d, w.free);
    RingChange(w.conns, w.ring, d, i, e);
    RingPush(conns, w.ring, d, i, r.io.value);
    AsyncChange(server, w.conns, w.tasks, Results(w), Parked(w.conns) - {i}, i, e);
    SlotsChange(w.conns, w.free, i, e);
    FdsChange(w.conns, AcceptFds(w.ring.cq), w.openFds, i, e);
    assert (Parked(w.conns) + {i}) - {i} == Parked(conns) + {};
    assert Parked(w.conns) - {i} == Parked(conns) - {};
    var w' := Apply(w, i, e, r);
    SameResults(w, w');
  }

  /** It lives on, parked: a task runs for it. */
  lemma ParkKeeps(server: Server, w: World, i: nat, e: Entry, r: Reaction)
    requires Holds(server, w, {i}) && i in w.conns && GoodReaction(server, w.conns[i], e, r) && r.alive && r.io.None?
    ensures Inv(server, Apply(w, i, e, r))
  {
    hide Kept, SessionsHold, RingHolds, AsyncHolds, SlotsHold, FdsHold, AcceptFds, Parked, Results;
    var d := Duty(true, w.draining.None?, Parked(w.conns) + {i});
    var conns := w.conns[i := e];
    SessionsChange(server, w.conns, i, e);
    ParkedChange(w.conns, i, e);
    IndexInRange(w.conns, w.ring, d, i);
    RingChange(w.conns, w.ring, d, i, e);
    AsyncChange(server, w.conns, w.tasks, Results(w), Parked(w.conns) - {i}, i, e);
    var t := Task(i, r.spawn.value, TokenAt(conns, i), false);
    AsyncSpawn(server, conns, w.tasks, Results(w), Parked(w.conns) - {i}, t);
    SlotsChange(w.conns, w.free, i, e);
    FdsChange(w.conns, AcceptFds(w.ring.cq), w.openFds, i, e);
    assert Parked(w.conns) + {i} == Parked(conns) + {};
    assert (Parked(w.conns) - {i}) + {i} == Parked(conns) - {};
    var w' := Apply(w, i, e, r);
    assert w'.tasks == w.tasks + [t];
    SameResults(w, w');
    if exists k :: 0 <= k < |w.tasks| && w.tasks[k].queued {
      var k :| 0 <= k < |w.tasks| && w.tasks[k].queued;
      assert w'.tasks[k].queued;
    }
  }

  lemma SameResults(w: World, w': World)
    requires w'.draining == w.draining && w'.queue == w.queue
    ensures Results(w') == Results(w)
  {
  }

  lemma ApplyKeeps(server: Server, w: World, i: nat, e: Entry, r: Reaction)
    requires Holds(server, w, {i}) && i in w.conns && GoodReaction(server, w.conns[i], e, r)
    ensures Inv(server, Apply(w, i, e, r))
  {
    hide *;
    if !r.alive {
      CloseKeeps(server, w, i, e, r);
    } else if r.io.Some? {
      SubmitKeeps(server, w, i, e, r);
    } else {
      ParkKeeps(server, w, i, e, r);
    }
  }

  // ---------------------------------------------------------------- wake-ups

  /** Appending anything, or taking a completion that is not the eventfd's, keeps a due wake-up due. */
  lemma WakeUpStays(w: World, w': World)
    requires WakeUpDue(w) && w'.eventfd >= w.eventfd && w'.tasks == w.tasks
    requires forall k :: 0 <= k < |w.ring.cq| && w.ring.cq[k].token == EVENTFD_TOKEN
               ==> exists j :: 0 <= j < |w'.ring.cq| && w'.ring.cq[j] == w.ring.cq[k]
    ensures WakeUpDue(w')
  {
    if k :| 0 <= k < |w.ring.cq| && w.ring.cq[k].token == EVENTFD_TOKEN {
      var j :| 0 <= j < |w'.ring.cq| && w'.ring.cq[j] == w.ring.cq[k];
      assert w'.ring.cq[j].token == EVENTFD_TOKEN;
    }
  }

  lemma WakeUpPosted(w: World, w': World, c: Cqe)
    requires WakeUpDue(w) && w'.tasks == w.tasks && w'.ring.cq == w.ring.cq + [c]
    requires w'.eventfd == w.eventfd || c.token == EVENTFD_TOKEN
    ensures WakeUpDue(w')
  {
    if c.token == EVENTFD_TOKEN {
      assert w'.ring.cq[|w.ring.cq|].token == EVENTFD_TOKEN;
    } else {
      forall k | 0 <= k < |w.ring.cq| ensures exists j :: 0 <= j < |w'.ring.cq| && w'.ring.cq[j] == w.ring.cq[k] {
        assert w'.ring.cq[k] == w.ring.cq[k];
      }
      WakeUpStays(w, w');
    }
  }

  lemma WakeUpTaken(w: World, w': World, k: nat)
    requires WakeUpDue(w) && k < |w.ring.cq| && w.ring.cq[k].token != EVENTFD_TOKEN
    requires w'.tasks == w.tasks && w'.eventfd == w.eventfd && w'.ring.cq == RemoveAt(w.ring.cq, k)
    ensures WakeUpDue(w')
  {
    forall a | 0 <= a < |w.ring.cq| && w.ring.cq[a].token == EVENTFD_TOKEN
      ensures exists j :: 0 <= j < |w'.ring.cq| && w'.ring.cq[j] == w.ring.cq[a]
    {
      assert w'.ring.cq[if a < k then a else a - 1] == w.ring.cq[a];
    }
    WakeUpStays(w, w');
  }

  // ---------------------------------------------------------------- the kernel's steps

  lemma EnterKeeps(server: Server, w: World, k: nat)
    requires Inv(server, w) && Enabled(server, w, Enter(k))
    ensures Inv(server, Step(server, w, Enter(k)))
  {
    RingEnter(w.conns, w.ring, Duty(true, w.draining.None?, Parked(w.conns) + {}), k);
    var w' := Step(server, w, Enter(k));
    assert WakeUpDue(w) ==> WakeUpDue(w');
    hide Kept, SessionsHold, RingHolds, AsyncHolds, SlotsHold, FdsHold, AcceptFds, Parked, WakeUpDue;
  }

  /** An operation is over and its completion posted, whatever the result. */
  lemma FinishKeeps(server: Server, w: World, w': World, k: nat, c: Cqe)
    requires Inv(server, w) && k < |w.ring.kernel| && c.token == w.ring.kernel[k].token
    requires CqeFits(w.conns, c) && AcceptFd(c) !in w.openFds
    requires w' == w.(ring := Finish(w.ring, k, c), openFds := w'.openFds, eventfd := w'.eventfd)
    requires w'.openFds == if AcceptFd(c) >= 0 then w.openFds + {AcceptFd(c)} else w.openFds
    requires w'.eventfd == w.eventfd || c.token == EVENTFD_TOKEN
    ensures Inv(server, w')
  {
    hide Kept, SessionsHold, RingHolds, AsyncHolds, SlotsHold, FdsHold, AcceptFds, Parked, WakeUpDue;
    RingFinish(w.conns, w.ring, Duty(true, w.draining.None?, Parked(w.conns) + {}), k, c);
    FdsPost(w.conns, w.ring.cq, w.openFds, c);
    SameResults(w, w');
    if w.queue != [] { WakeUpPosted(w, w', c); }
  }

  lemma NoNegativeFd(conns: map<nat, Entry>, fds: seq<int>, openFds: set<int>)
    requires FdsHold(conns, fds, openFds)
    ensures -1 !in openFds
  {
  }

  /** What a kernel operation is, and that its completion fits. */
  lemma KernelOp(conns: map<nat, Entry>, r: Ring, d: Duty, k: nat)
    requires RingHolds(conns, r, d) && k < |r.kernel|
    ensures OpFits(conns, r.kernel[k])
    ensures r.kernel[k].op.ConnIo? ==> r.kernel[k].token < EVENTFD_TOKEN
  {
    TokensApart(conns);
  }

  lemma FinishIoKeeps(server: Server, w: World, k: nat, result: int, data: Bytes)
    requires Inv(server, w) && Enabled(server, w, FinishIo(k, result, data))
    ensures Inv(server, Step(server, w, FinishIo(k, result, data)))
  {
    hide Kept, SessionsHold, RingHolds, AsyncHolds, SlotsHold, FdsHold, AcceptFds, Parked, WakeUpDue, PackToken,
      KernelAnswers, ExpectedIo;
    KernelOp(w.conns, w.ring, Duty(true, w.draining.None?, Parked(w.conns) + {}), k);
    NoNegativeFd(w.conns, AcceptFds(w.ring.cq), w.openFds);
    FinishKeeps(server, w, Step(server, w, FinishIo(k, result, data)), k,
      Cqe(w.ring.kernel[k].token, result, data, false));
  }

  lemma FinishAcceptKeeps(server: Server, w: World, k: nat, result: int, more: bool)
    requires Inv(server, w) && Enabled(server, w, FinishAccept(k, result, more))
    ensures Inv(server, Step(server, w, FinishAccept(k, result, more)))
  {
    hide Kept, SessionsHold, RingHolds, AsyncHolds, SlotsHold, FdsHold, AcceptFds, Parked, WakeUpDue, PackToken,
      KernelAnswers, ExpectedIo;
    KernelOp(w.conns, w.ring, Duty(true, w.draining.None?, Parked(w.conns) + {}), k);
    NoNegativeFd(w.conns, AcceptFds(w.ring.cq), w.openFds);
    FinishKeeps(server, w, Step(server, w, FinishAccept(k, result, more)), k,
      Cqe(w.ring.kernel[k].token, result, [], more));
  }

  lemma FinishEventfdKeeps(server: Server, w: World, k: nat, read_: bool)
    requires Inv(server, w) && Enabled(server, w, FinishEventfd(k, read_))
    ensures Inv(server, Step(server, w, FinishEventfd(k, read_)))
  {
    hide Kept, SessionsHold, RingHolds, AsyncHolds, SlotsHold, FdsHold, AcceptFds, Parked, WakeUpDue, PackToken,
      KernelAnswers, ExpectedIo;
    KernelOp(w.conns, w.ring, Duty(true, w.draining.None?, Parked(w.conns) + {}), k);
    NoNegativeFd(w.conns, AcceptFds(w.ring.cq), w.openFds);
    FinishKeeps(server, w, Step(server, w, FinishEventfd(k, read_)), k,
                Cqe(w.ring.kernel[k].token, if read_ then 8 else -1, [], false));
  }

  // ---------------------------------------------------------------- the tasks' steps

  lemma ResolveKeeps(server: Server, w: World, k: nat, bytes: Bytes)
    requires Inv(server, w) && Enabled(server, w, Resolve(k, bytes))
    ensures Inv(server, Step(server, w, Resolve(k, bytes)))
  {
    hide Kept, SessionsHold, RingHolds, AsyncHolds, SlotsHold, FdsHold, AcceptFds, Parked;
    var w' := Step(server, w, Resolve(k, bytes));
    var c := Completion(w.tasks[k].slotId, bytes, w.tasks[k].origin);
    AsyncResolve(server, w.conns, w.tasks, Results(w), Parked(w.conns) - {}, k, bytes);
    assert Results(w') == Results(w) + [c];
    assert w'.tasks[k].queued;
  }

  lemma SignalKeeps(server: Server, w: World, k: nat)
    requires Inv(server, w) && Enabled(server, w, Signal(k))
    ensures Inv(server, Step(server, w, Signal(k)))
  {
    hide Kept, SessionsHold, RingHolds, AsyncHolds, SlotsHold, FdsHold, AcceptFds, Parked, Results;
    var w' := Step(server, w, Signal(k));
    AsyncSignal(server, w.conns, w.tasks, Results(w), Parked(w.conns) - {}, k);
    SameResults(w, w');
  }

  // ---------------------------------------------------------------- the loop's steps

  lemma DrainKeeps(server: Server, w: World, k: nat, date: Date, vacant: nat)
    requires Inv(server, w) && Enabled(server, w, Handle(k, date, vacant)) && w.ring.cq[k].token == EVENTFD_TOKEN
    ensures Inv(server, Step(server, w, Handle(k, date, vacant)))
  {
    hide Kept, SessionsHold, RingHolds, AsyncHolds, SlotsHold, FdsHold, AcceptFds, Parked;
    NoNegativeFd(w.conns, AcceptFds(w.ring.cq), w.openFds);
    var w' := Step(server, w, Handle(k, date, vacant));
    RingTakeEventfd(w.conns, w.ring, Duty(true, w.draining.None?, Parked(w.conns) + {}), k);
    FdsTake(w.conns, w.ring.cq, w.openFds, k);
    assert w.openFds - {-1} == w.openFds;
    assert Results(w') == Results(w);
  }

  lemma RearmKeeps(server: Server, w: World)
    requires Inv(server, w) && Enabled(server, w, Rearm)
    ensures Inv(server, Step(server, w, Rearm))
  {
    hide Kept, SessionsHold, RingHolds, AsyncHolds, SlotsHold, FdsHold, AcceptFds, Parked;
    var d := Duty(true, false, Parked(w.conns) + {});
    RoomInQueue(w.conns, w.ring, d, w.free);
    RingArm(w.conns, w.ring, d, Sqe(EVENTFD_TOKEN, EventfdRead));
    var w' := Step(server, w, Rearm);
    assert Results(w') == Results(w);
  }

  function Taken(w: World, k: nat): World
    requires k < |w.ring.cq|
  {
    w.(ring := w.ring.(cq := RemoveAt(w.ring.cq, k)))
  }

  ghost predicate IsConnCqe(w: World, k: nat) {
    k < |w.ring.cq| && w.ring.cq[k].token != EVENTFD_TOKEN && w.ring.cq[k].token != ACCEPT_TOKEN
  }

  /** A connection's completion names it exactly, and answers the operation it expects. */
  lemma TakenNames(server: Server, w: World, k: nat)
    requires Inv(server, w) && IsConnCqe(w, k)
    ensures var c := w.ring.cq[k];
            var i := c.token % U32;
            && i in w.conns && UnpackToken(c.token) == (w.conns[i].generation, i)
            && Settled(server, w.conns[i].session) && !w.conns[i].session.conn.state.AwaitingAsync?
            && ExpectedIo(w.conns[i].session.conn).Some?
            && KernelAnswers(ExpectedIo(w.conns[i].session.conn).value, c.result, c.data)
  {
    hide AsyncHolds, SlotsHold, FdsHold, AcceptFds, Parked, KernelAnswers, Settled, Kept;
    assert CqeFits(w.conns, w.ring.cq[k]);
    var i := w.ring.cq[k].token % U32;
    PackUnpack(w.conns[i].generation, i);
  }

  /** Taking its completion leaves connection `i` owing nothing. */
  lemma TakenHolds(server: Server, w: World, k: nat)
    requires Inv(server, w) && IsConnCqe(w, k)
    ensures Holds(server, Taken(w, k), {w.ring.cq[k].token % U32})
  {
    hide Kept, Settled, RingHolds, AsyncHolds, SlotsHold, FdsHold, AcceptFds, PackToken, Parked, Results, WakeUpDue,
      UnpackToken, CqeFits;
    var d := Duty(true, w.draining.None?, Parked(w.conns) + {});
    var i := w.ring.cq[k].token % U32;
    var w1 := Taken(w, k);
    NoNegativeFd(w.conns, AcceptFds(w.ring.cq), w.openFds);
    RingTake(w.conns, w.ring, d, k);
    assert (Parked(w.conns) + {}) + {i} == Parked(w.conns) + {i} && Parked(w.conns) - {} == Parked(w.conns) - {i};
    FdsTake(w.conns, w.ring.cq, w.openFds, k);
    assert AcceptFd(w.ring.cq[k]) == -1 && w.openFds - {-1} == w.openFds;
    if w.queue != [] { WakeUpTaken(w, w1, k); }
    SameResults(w, w1);
  }

  /** With its token in order, a completion is simply applied to its connection. */
  lemma HandleConnApplies(server: Server, w: World, k: nat, date: Date, vacant: nat, i: nat)
    requires Enabled(server, w, Handle(k, date, vacant)) && IsConnCqe(w, k)
    requires i in w.conns && UnpackToken(w.ring.cq[k].token) == (w.conns[i].generation, i)
    requires !w.conns[i].session.conn.state.AwaitingAsync?
    ensures var e, c := w.conns[i], w.ring.cq[k];
            var t := AfterCompletion(server, date, e.session, c.result, c.data);
            var r := OnCompletion(server, date, e.session.conn, c.result, c.data);
            Step(server, w, Handle(k, date, vacant)) == Apply(Taken(w, k), i, e.(session := t), r)
  {
    hide UnpackToken, OnCompletion, AfterCompletion, Apply;
  }

  lemma HandleConnKeeps(server: Server, w: World, k: nat, date: Date, vacant: nat)
    requires Inv(server, w) && HandlersReply(server) && Enabled(server, w, Handle(k, date, vacant)) && IsConnCqe(w, k)
    ensures Inv(server, Step(server, w, Handle(k, date, vacant)))
  {
    hide Inv, Holds, Settled, Kept, KernelAnswers, ExpectedIo, OnCompletion, UnpackToken, HandlersReply, Apply, Step;
    var c := w.ring.cq[k];
    var i := c.token % U32;
    TakenNames(server, w, k);
    TakenHolds(server, w, k);
    HandleConnApplies(server, w, k, date, vacant, i);
    var e := w.conns[i];
    var r := OnCompletion(server, date, e.session.conn, c.result, c.data);
    var t := AfterCompletion(server, date, e.session, c.result, c.data);
    CompletionSettles(server, date, e.session, c.result, c.data);
    ApplyKeeps(server, Taken(w, k), i, e.(session := t), r);
  }

  // ---------------------------------------------------------------- deliveries

  /** The loop takes the next drained result. */
  function TakenResult(w: World): World
    requires w.draining.Some? && w.draining.value != []
  {
    w.(draining := Some(w.draining.value[1..]))
  }

  lemma ResultsSplit(w: World)
    requires w.draining.Some? && w.draining.value != []
    ensures Results(w) != [] && Results(w)[0] == w.draining.value[0] && Results(TakenResult(w)) == Results(w)[1..]
  {
  }

  /** A drained result names the parked connection that asked for it. */
  lemma DeliveryNames(server: Server, w: World)
    requires Inv(server, w) && Enabled(server, w, Deliver)
    ensures var c := w.draining.value[0];
            && Awaits(w.conns, c.slotId, c.origin) && Settled(server, w.conns[c.slotId].session)
            && server.mayResolve(w.conns[c.slotId].session.ledger.parked.value, c.bytes)
  {
    ResultsSplit(w);
    assert ResultFits(server, w.conns, Results(w)[0]);
    hide Settled, Results, RingHolds, SlotsHold, FdsHold, AcceptFds, WakeUpDue, PackToken;
  }

  lemma ParkedHas(conns: map<nat, Entry>, i: nat)
    requires i in conns && ConnAt(conns, i).state.AwaitingAsync?
    ensures Parked(conns) + {i} == Parked(conns) + {} && (Parked(conns) - {}) - {i} == Parked(conns) - {i}
  {
  }

  lemma SessionsBut(server: Server, conns: map<nat, Entry>, i: nat)
    requires SessionsHold(server, conns, {})
    ensures SessionsHold(server, conns, {i})
  {
  }

  lemma WakeUpKept(w: World, w': World)
    requires w'.eventfd == w.eventfd && w'.tasks == w.tasks && w'.ring == w.ring
    ensures WakeUpDue(w') == WakeUpDue(w)
  {
  }

  /** Taking a result leaves its connection waiting for nothing, and it had no operation. */
  lemma DeliveryHolds(server: Server, w: World)
    requires Inv(server, w) && Enabled(server, w, Deliver)
    ensures Holds(server, TakenResult(w), {w.draining.value[0].slotId})
  {
    hide Settled, Kept, Results, RingHolds, AsyncHolds, SlotsHold, FdsHold, AcceptFds, PackToken, Parked, TokenAt;
    DeliveryNames(server, w);
    ResultsSplit(w);
    var i := w.draining.value[0].slotId;
    AsyncTake(server, w.conns, w.tasks, Results(w), Parked(w.conns) - {});
    ParkedHas(w.conns, i);
    hide ConnAt, Awaits;
    SessionsBut(server, w.conns, i);
    WakeUpKept(w, TakenResult(w));
  }

  lemma DeliverApplies(server: Server, w: World)
    requires Enabled(server, w, Deliver)
    requires var c := w.draining.value[0]; Awaits(w.conns, c.slotId, c.origin)
    ensures var c := w.draining.value[0];
            var e := w.conns[c.slotId];
            var t, r := AfterDelivery(e.session, c.bytes),
              OnDelivery(e.session.conn, ParkedRequest(e.session.ledger), c.bytes);
            Step(server, w, Deliver) == Apply(TakenResult(w), c.slotId, e.(session := t), r)
  {
    hide PackToken, OnDelivery, AfterDelivery, Apply;
  }

  lemma DeliverKeeps(server: Server, w: World)
    requires Inv(server, w) && HandlersReply(server) && Enabled(server, w, Deliver)
    ensures Inv(server, Step(server, w, Deliver))
  {
    hide Inv, Holds, HandlersReply, Apply, Step, TokenAt, GoodReaction, OnDelivery, AfterDelivery, ParkedRequest,
      Settled;
    DeliveryNames(server, w);
    DeliveryHolds(server, w);
    var c := w.draining.value[0];
    DeliverApplies(server, w);
    var e := w.conns[c.slotId];
    DeliveryReacts(server, e, c.bytes);
    var t := AfterDelivery(e.session, c.bytes);
    var r := OnDelivery(e.session.conn, ParkedRequest(e.session.ledger), c.bytes);
    ApplyKeeps(server, TakenResult(w), c.slotId, e.(session := t), r);
  }

  lemma DeliveryReacts(server: Server, e: Entry, bytes: Bytes)
    requires Settled(server, e.session) && HandlersReply(server)
    requires e.session.conn.state.AwaitingAsync? && server.mayResolve(e.session.ledger.parked.value, bytes)
    ensures GoodReaction(server, e, e.(session := AfterDelivery(e.session, bytes)),
                         OnDelivery(e.session.conn, ParkedRequest(e.session.ledger), bytes))
  {
    hide Settled, Kept, OnDelivery, AfterDelivery, ExpectedIo;
    DeliverySettles(server, e.session, bytes);
  }

  // ---------------------------------------------------------------- accepts

  /** Everything, while the accept may not be armed. */
  ghost predicate HoldsUnarmed(server: Server, w: World, listening: bool) {
    && w.faults == {}
    && w.nextGeneration < U32
    && SessionsHold(server, w.conns, {})
    && (forall k :: 0 <= k < |w.closed| ==> Kept(server, w.closed[k].session))
    && RingHolds(w.conns, w.ring, Duty(listening, w.draining.None?, Parked(w.conns)))
    && AsyncHolds(server, w.conns, w.tasks, Results(w), Parked(w.conns))
    && SlotsHold(w.conns, w.free)
    && SlabHolds(w.conns, w.slabLen)
    && FdsHold(w.conns, AcceptFds(w.ring.cq), w.openFds)
    && (w.queue != [] ==> WakeUpDue(w))
  }

  lemma ArmedIsInv(server: Server, w: World)
    ensures Inv(server, w) <==> HoldsUnarmed(server, w, true)
  {
    assert Parked(w.conns) + {} == Parked(w.conns) && Parked(w.conns) - {} == Parked(w.conns);
    hide SessionsHold, RingHolds, AsyncHolds, SlotsHold, FdsHold, AcceptFds, Parked, Results, Kept, WakeUpDue;
  }

  /** The accept is armed again, if it has to be. */
  lemma ArmKeeps(server: Server, w: World, listening: bool)
    requires HoldsUnarmed(server, w, listening)
    ensures Inv(server, if listening then w else Push(w, Sqe(ACCEPT_TOKEN, AcceptMulti)))
  {
    hide SessionsHold, RingHolds, AsyncHolds, SlotsHold, FdsHold, AcceptFds, Parked, Kept;
    var s := Sqe(ACCEPT_TOKEN, AcceptMulti);
    var d := Duty(listening, w.draining.None?, Parked(w.conns));
    RoomInQueue(w.conns, w.ring, d, w.free);
    if listening {
      ArmedIsInv(server, w);
    } else {
      RingArm(w.conns, w.ring, d, s);
      ArmedIsInv(server, Push(w, s));
      SameResults(w, Push(w, s));
    }
  }

  /** Taking an accept completion: the accept stays armed only with MORE, and the descriptor has no owner yet. */
  lemma TakenAccept(server: Server, w: World, k: nat)
    requires Inv(server, w) && k < |w.ring.cq| && w.ring.cq[k].token == ACCEPT_TOKEN
    ensures var c := w.ring.cq[k];
            && (c.result < 0 ==> !c.more)
            && (c.result >= 0 ==> c.result in w.openFds && c.result !in AcceptFds(Taken(w, k).ring.cq))
            && HoldsUnarmed(server, Taken(w, k).(openFds := w.openFds - {c.result}), c.more)
  {
    hide SessionsHold, AsyncHolds, SlotsHold, Parked, Kept, Results, WakeUpDue;
    ArmedIsInv(server, w);
    var c, w1 := w.ring.cq[k], Taken(w, k);
    NoNegativeFd(w.conns, AcceptFds(w.ring.cq), w.openFds);
    assert CqeFits(w.conns, c);
    hide RingHolds;
    RingTakeAccept(w.conns, w.ring, Duty(true, w.draining.None?, Parked(w.conns)), k);
    FdsTake(w.conns, w.ring.cq, w.openFds, k);
    NegativeNotOpen(w.conns, AcceptFds(w.ring.cq), w.openFds, c.result);
    assert w.openFds - {c.result} == w.openFds - {AcceptFd(c)};
    hide FdsHold, AcceptFds;
    if w.queue != [] {
      WakeUpTaken(w, w1, k);
      WakeUpTaken(w, w1.(openFds := w.openFds - {c.result}), k);
    }
    SameResults(w, w1.(openFds := w.openFds - {c.result}));
  }

  lemma NegativeNotOpen(conns: map<nat, Entry>, fds: seq<int>, openFds: set<int>, f: int)
    requires FdsHold(conns, fds, openFds)
    ensures f < 0 ==> f !in openFds && -1 !in openFds
  {
  }

  lemma OpenedIsSettled(server: Server)
    ensures Settled(server, OPENED) && ExpectedIo(FRESH) == Some(Recv(READ_REGION)) && OPENED.conn == FRESH
  {
    EmptyLog(server);
    assert Frames([]) == [];
  }

  lemma AddKeeps(server: Server, w: World, listening: bool, fd: int, v: nat)
    requires HoldsUnarmed(server, w, listening) && SlabKey(w, v) && w.free != []
    requires fd >= 0 && fd !in w.openFds && fd !in AcceptFds(w.ring.cq)
    ensures HoldsUnarmed(server, AddConn(w, fd, v).(openFds := w.openFds + {fd}), listening)
  {
    hide RingHolds, AsyncHolds, SlotsHold, FdsHold, AcceptFds, Parked, Kept, Results, Settled, WakeUpDue, ExpectedIo;
    OpenedIsSettled(server);
    var d := Duty(listening, w.draining.None?, Parked(w.conns));
    var e := Entry(w.nextGeneration, fd, w.free[|w.free| - 1], OPENED);
    var conns := w.conns[v := e];
    SlabStaysSmall(w.conns, w.free, w.slabLen, v);
    RoomInQueue(w.conns, w.ring, d, w.free);
    RingAdd(w.conns, w.ring, d, v, e);
    RingPush(conns, w.ring, d.(idle := d.idle + {v}), v, Recv(READ_REGION));
    ParkedChange(w.conns, v, e);
    NotParked(w.conns, v);
    assert d.idle + {v} - {v} == Parked(conns);
    AsyncChange(server, w.conns, w.tasks, Results(w), Parked(w.conns), v, e);
    SlotsAcquire(w.conns, w.free, v, e);
    FdsAdopt(w.conns, AcceptFds(w.ring.cq), w.openFds, v, e);
    var w' := AddConn(w, fd, v).(openFds := w.openFds + {fd});
    SameResults(w, w');
    if w.queue != [] { WakeUpStays(w, w'); }
  }

  lemma NotParked(conns: map<nat, Entry>, v: nat)
    requires v !in conns
    ensures v !in Parked(conns)
  {
  }

  lemma AcceptKeeps(server: Server, w: World, k: nat, date: Date, vacant: nat)
    requires Inv(server, w) && Enabled(server, w, Handle(k, date, vacant)) && w.ring.cq[k].token == ACCEPT_TOKEN
    ensures Inv(server, Step(server, w, Handle(k, date, vacant)))
  {
    hide Inv, HoldsUnarmed, AddConn, AcceptFds, Push;
    var c := w.ring.cq[k];
    var w1 := Taken(w, k);
    var w2 := w1.(openFds := w.openFds - {c.result});
    TakenAccept(server, w, k);
    assert Step(server, w, Handle(k, date, vacant)) == HandleAccept(w1, c, vacant);
    if c.result < 0 {
      NegativeClosed(server, w, c.result);
      assert w2 == w1;
      ArmKeeps(server, w2, false);
    } else if w1.free == [] {
      ArmKeeps(server, w2, c.more);
    } else {
      AddKeeps(server, w2, c.more, c.result, vacant);
      assert w2.openFds + {c.result} == w.openFds;
      AddConnFds(w1, w2, c.result, vacant);
      ArmKeeps(server, AddConn(w1, c.result, vacant), c.more);
    }
  }

  lemma NegativeClosed(server: Server, w: World, f: int)
    requires Inv(server, w) && f < 0
    ensures w.openFds - {f} == w.openFds
  {
    hide RingHolds, AsyncHolds, SlotsHold, AcceptFds, Parked, Kept, Results, Settled, WakeUpDue;
    NegativeNotOpen(w.conns, AcceptFds(w.ring.cq), w.openFds, f);
  }

  lemma AddConnFds(w1: World, w2: World, fd: int, v: nat)
    requires w1.free != [] && w2 == w1.(openFds := w2.openFds)
    ensures AddConn(w2, fd, v).(openFds := w1.openFds) == AddConn(w1, fd, v)
  {
  }

  // ---------------------------------------------------------------- every step, every run

  lemma StepKeeps(server: Server, w: World, e: Event)
    requires Inv(server, w) && HandlersReply(server) && Enabled(server, w, e)
    ensures Inv(server, Step(server, w, e))
  {
    hide Inv, Step, HandlersReply;
    match e
    case Enter(k) => EnterKeeps(server, w, k);
    case FinishIo(k, result, data) => FinishIoKeeps(server, w, k, result, data);
    case FinishAccept(k, result, more) => FinishAcceptKeeps(server, w, k, result, more);
    case FinishEventfd(k, r) => FinishEventfdKeeps(server, w, k, r);
    case Handle(k, date, vacant) =>
      if w.ring.cq[k].token == EVENTFD_TOKEN {
        DrainKeeps(server, w, k, date, vacant);
      } else if w.ring.cq[k].token == ACCEPT_TOKEN {
        AcceptKeeps(server, w, k, date, vacant);
      } else {
        HandleConnKeeps(server, w, k, date, vacant);
      }
    case Deliver => DeliverKeeps(server, w);
    case Rearm => RearmKeeps(server, w);
    case Resolve(k, bytes) => ResolveKeeps(server, w, k, bytes);
    case Signal(k) => SignalKeeps(server, w, k);
  }

  lemma InitialRing()
    ensures var w := Initial(); RingHolds(w.conns, w.ring, Duty(true, true, Parked(w.conns) + {}))
  {
    var r := Initial().ring;
    assert SqeTokens(r.sq) == [ACCEPT_TOKEN, EVENTFD_TOKEN];
    assert SqeTokens(r.kernel) == [] && CqeTokens(r.cq) == [];
  }

  lemma InitialPool()
    ensures SlotsHold(map[], Initial().free)
  {
    var free := Initial().free;
    assert forall k :: 0 <= k < SLOT_COUNT ==> free[k] == SLOT_COUNT - 1 - k;
    forall s: nat | s < SLOT_COUNT ensures s in free { assert free[SLOT_COUNT - 1 - s] == s; }
  }

  lemma InitialHolds(server: Server)
    ensures Inv(server, Initial())
  {
    hide RingHolds, SlotsHold;
    InitialRing();
    InitialPool();
  }

  lemma {:induction false} RunKeeps(server: Server, w: World, events: seq<Event>)
    requires Inv(server, w) && HandlersReply(server) && IsRun(server, w, events)
    ensures Inv(server, Run(server, w, events))
    decreases |events|
  {
    hide Inv, Step, Enabled;
    if events != [] {
      StepKeeps(server, w, events[0]);
      RunKeeps(server, Step(server, w, events[0]), events[1..]);
    }
  }
}
