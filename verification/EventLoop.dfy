/**
 The loop body of one worker in its own form (rust-core/src/uring/accept.rs): a registry of connection
 objects over one buffer pool, one submission queue and one bridge, changed in place, one completion after
 the other. Proved to take exactly the steps of `Worker`, whole runs of them for a drain.
 */
module EventLoop {
  import opened Bytes
  import opened Pipeline
  import opened Replies
  import opened Session
  import opened Ledger
  import opened Counting
  import opened Worker
  import opened RingInvariant
  import opened AsyncInvariant
  import opened PoolInvariant
  import opened WorkerInvariant
  import opened Resources
  import opened Connections
  import opened Registry

  // ---------------------------------------------------------------- a drain as a run

  function Delivers(n: nat): seq<Event> {
    if n == 0 then [Rearm] else [Deliver] + Delivers(n - 1)
  }

  lemma DeliveryKeepsDraining(w: World, c: Completion)
    ensures HandleDelivery(w, c).draining == w.draining
            && HandleDelivery(w, c).ring == w.ring.(sq := HandleDelivery(w, c).ring.sq)
  {
    hide PackToken;
  }

  /** Delivering what was drained, one result after the other, then arming the read again, is a run. */
  lemma {:induction false} DrainIsRun(server: Server, w: World, results: seq<Completion>)
    requires w.draining == Some(results)
    ensures IsRun(server, w, Delivers(|results|))
    decreases |results|
  {
    hide HandleDelivery, Push;
    var events := Delivers(|results|);
    if results == [] {
      assert events[1..] == [];
    } else {
      DeliveryKeepsDraining(w.(draining := Some(results[1..])), results[0]);
      DrainIsRun(server, Step(server, w, Deliver), results[1..]);
      assert events[0] == Deliver && events[1..] == Delivers(|results[1..]|);
    }
  }

  /**
   The events of handling one completion: for the eventfd read, one delivery per queued result and the
   re-arming besides.
   */
  function Handling(w: World, k: nat, date: Date, vacant: nat): seq<Event>
    requires k < |w.ring.cq|
  {
    [Handle(k, date, vacant)] + if w.ring.cq[k].token == EVENTFD_TOKEN then Delivers(|w.queue|) else []
  }

  lemma HandlingRuns(server: Server, w: World, k: nat, date: Date, vacant: nat)
    requires Enabled(server, w, Handle(k, date, vacant))
    ensures var rest := if w.ring.cq[k].token == EVENTFD_TOKEN then Delivers(|w.queue|) else [];
            var next := Step(server, w, Handle(k, date, vacant));
            && (IsRun(server, w, Handling(w, k, date, vacant)) <==> IsRun(server, next, rest))
            && (IsRun(server, next, rest) ==> Run(server, w, Handling(w, k, date, vacant)) == Run(server, next, rest))
  {
    hide HandleConn, HandleAccept, Delivers;
    var events := Handling(w, k, date, vacant);
    assert events[0] == Handle(k, date, vacant);
    assert events[1..] == if w.ring.cq[k].token == EVENTFD_TOKEN then Delivers(|w.queue|) else [];
  }

  // ---------------------------------------------------------------- the loop's own state

  /** Only data of an operation that succeeded matters. */
  lemma SameReaction(server: Server, date: Date, c: Conn, result: int, moved: Bytes, data: Bytes)
    requires result > 0 && !c.state.AwaitingAsync? ==> moved == data
    ensures OnCompletion(server, date, c, result, moved) == OnCompletion(server, date, c, result, data)
  {
    hide Session.ProcessBuffered;
  }

  /** A drained result is not empty, there is room for its reply, and the rest of the run goes on from there. */
  lemma NextDelivery(server: Server, w: World, n: nat)
    requires Inv(server, w) && HandlersReply(server) && w.draining.Some? && n == |w.draining.value| > 0
    requires IsRun(server, w, Delivers(n))
    ensures w.draining.value[0].bytes != [] && |w.ring.sq| < RING_ENTRIES
    ensures var w' := Step(server, w, Deliver);
            && Inv(server, w') && w'.draining == Some(w.draining.value[1..]) && w'.ring == w.ring.(sq := w'.ring.sq)
            && w' == HandleDelivery(w.(draining := Some(w.draining.value[1..])), w.draining.value[0])
            && IsRun(server, w', Delivers(n - 1)) && Run(server, w', Delivers(n - 1)) == Run(server, w, Delivers(n))
  {
    hide Inv, HandleDelivery;
    DeliveryNames(server, w);
    StepKeeps(server, w, Deliver);
    RoomToArm(server, w);
    var events := Delivers(n);
    assert events[0] == Deliver && events[1..] == Delivers(n - 1);
    DeliveryKeepsDraining(w.(draining := Some(w.draining.value[1..])), w.draining.value[0]);
  }

  lemma RoomToArm(server: Server, w: World)
    requires Inv(server, w)
    ensures |w.ring.sq| + 1 < RING_ENTRIES
  {
    hide RingHolds, AsyncHolds, SlotsHold, FdsHold, Settled, Kept;
    RoomInQueue(w.conns, w.ring, Duty(true, w.draining.None?, WorkerInvariant.Parked(w.conns) + {}), w.free);
  }

  lemma AcceptIgnoresData(w: World, c: Cqe, vacant: nat)
    ensures HandleAccept(w, c, vacant) == HandleAccept(w, Cqe(ACCEPT_TOKEN, c.result, [], c.more), vacant)
  {
    hide PackToken;
  }

  lemma DeliveryKeepsConn(t: Tracked, bytes: Bytes)
    ensures AfterDelivery(t, bytes).conn == OnDelivery(t.conn, ParkedRequest(t.ledger), bytes).conn
    ensures OnDelivery(t.conn, ParkedRequest(t.ledger), bytes).spawn.None?
  {
  }

  lemma ConnAdded(w: World, w': World, fd: int, slot: nat, vacant: nat)
    requires |w.ring.sq| < RING_ENTRIES
    requires w' == w.(conns := w.conns[vacant := Entry(w.nextGeneration, fd, slot, OPENED)],
                      ring := w.ring.(sq := w.ring.sq +
                        [Sqe(PackToken(w.nextGeneration, vacant), ConnIo(Recv(READ_REGION)))]),
                      nextGeneration := (w.nextGeneration + 1) % U32,
                      slabLen := if vacant == w.slabLen then w.slabLen + 1 else w.slabLen)
    ensures w' == AddConn(w.(free := w.free + [slot]), fd, vacant)
  {
    hide PackToken;
    assert (w.free + [slot])[..|w.free|] == w.free;
  }

  lemma TokenOf(token: nat)
    ensures var (generation, i) := UnpackToken(token); PackToken(generation, i) == token
  {
  }

  lemma AfterKeepsConn(server: Server, date: Date, t: Tracked, result: int, data: Bytes)
    ensures AfterCompletion(server, date, t, result, data).conn == OnCompletion(server, date, t.conn, result, data).conn
    ensures !OnCompletion(server, date, t.conn, result, data).alive ==>
            OnCompletion(server, date, t.conn, result, data).spawn.None?
  {
    hide RunBatch, Window, Concat;
  }

  /** The step's change, field by field. */
  lemma ReactionApplied(w: World, w': World, index: nat, e: Entry, r: Reaction)
    requires |w.ring.sq| < RING_ENTRIES && index in w.conns
    requires w' == w.(conns := w'.conns, free := w'.free, ring := w.ring.(sq := w'.ring.sq), tasks := w'.tasks,
               openFds := w'.openFds,
                      closed := w'.closed, faults := w'.faults)
    requires var token := PackToken(e.generation, index);
             && w'.conns == (if r.alive then w.conns[index := e] else Without(w.conns, index))
             && w'.free == (if r.alive then w.free else w.free + [e.slot])
             && w'.closed == (if r.alive then w.closed else w.closed + [e])
             && w'.faults == (if !r.alive && e.fd !in w.openFds then w.faults + {DoubleClose} else w.faults)
             && w'.openFds == (if r.alive then w.openFds else w.openFds - {e.fd})
             && Appends(w.ring.sq, w'.ring.sq, if r.alive && r.io.Some? then Some(Sqe(token, ConnIo(r.io.value)))
                else None)
             && Appends(w.tasks, w'.tasks, if r.spawn.Some? then Some(Task(token % U32, r.spawn.value, token, false))
                else None)
    requires !r.alive ==> r.spawn.None?
    ensures w' == Apply(w, index, e, r)
  {
    hide PackToken;
  }

  class WorkerLoop {
    const ring: SubmissionQueue
    const bridge: WorkerBridge
    const pool: FixedBuffers
    const os: Descriptors
    var conns: map<nat, Tenant>
    var slabLen: nat
    var nextGeneration: nat
    ghost var entries: map<nat, Entry>   // what the registry stands for, with each connection's history
    ghost var closed: seq<Entry>
    ghost var faults: set<Fault>

    ghost function Objects(): set<Connection> reads this {
      ObjectsOf(conns)
    }

    /** Slots are held once, and not free. */
    ghost predicate SlotsHeld() reads this, pool {
      && pool.Valid() && entries.Keys == conns.Keys
      && (forall i :: i in entries ==> entries[i].slot < SLOT_COUNT && entries[i].slot !in pool.free)
      && (forall i, j :: i in entries && j in entries && i != j ==> entries[i].slot != entries[j].slot)
    }

    /** All objects but one stand for their entries. */
    ghost predicate OthersStand(stored: Bytes, index: nat) reads this, Objects() {
      entries.Keys == conns.Keys && forall i :: i in conns && i != index ==> Stands(conns[i], entries[i], pool, stored)
    }

    ghost predicate AllStand(stored: Bytes) reads this, Objects() {
      entries.Keys == conns.Keys && forall i :: i in conns ==> Stands(conns[i], entries[i], pool, stored)
    }

    ghost predicate Valid() reads this, pool, pool.storage, Objects() {
      SlotsHeld() && AllStand(pool.storage[..])
    }

    /** The worker's state, where `others` holds what the kernel does. */
    ghost function AsWorld(others: World): World reads this, ring, bridge, pool, os {
      others.(conns := entries, slabLen := slabLen, nextGeneration := nextGeneration, free := pool.free,
              ring := others.ring.(sq := ring.entries), tasks := bridge.tasks, queue := bridge.completions,
                eventfd := bridge.counter,
              openFds := os.open, closed := closed, faults := faults)
    }

    /** A worker starts with an empty registry, an accept armed and the eventfd read behind it. */
    constructor (ring: SubmissionQueue, pool: FixedBuffers, bridge: WorkerBridge, os: Descriptors)
      requires ring.entries == [] && pool.Valid() && pool.free == Initial().free
      requires bridge.tasks == [] && bridge.completions == [] && bridge.counter == 0 && os.open == {}
      modifies ring
      ensures Valid() && Objects() == {} && this.ring == ring && this.pool == pool && this.bridge == bridge
              && this.os == os
      ensures AsWorld(Initial()) == Initial()
    {
      this.ring, this.pool, this.bridge, this.os := ring, pool, bridge, os;
      conns, entries, slabLen, nextGeneration := map[], map[], 0, 0;
      closed, faults := [], {};
      new;
      hide Stands;
      var _ := ring.Push(Sqe(ACCEPT_TOKEN, AcceptMulti));
      var _ := ring.Push(Sqe(EVENTFD_TOKEN, EventfdRead));
    }

    /** The registry entry goes, and its buffer slot back to the pool. */
    method Remove(index: nat, slot: Slot, ghost e: Entry, ghost open: set<int>)
      requires SlotsHeld() && index in conns && slot.idx == e.slot == entries[index].slot
               && OthersStand(pool.storage[..], index)
      modifies this`conns, this`entries, this`closed, this`faults, pool
      ensures Valid() && Objects() <= old(Objects())
      ensures entries == Without(old(entries), index)
      ensures pool.free == old(pool.free) + [e.slot] && closed == old(closed) + [e]
      ensures faults == if e.fd in open then old(faults) else old(faults) + {DoubleClose}
    {
      hide Stands;
      conns := map j | j in conns && j != index :: conns[j];
      entries := Without(entries, index);
      closed := closed + [e];
      faults := if e.fd in open then faults else faults + {DoubleClose};
      pool.Release(slot);
      forall i | i in conns ensures Stands(conns[i], entries[i], pool, pool.storage[..]) {
        var t := old(conns)[i];
        assert old(allocated(t.conn));
      }
    }

    /** The objects around connection `index` have seen its reaction, and it stands for `e` unless it is gone. */
    twostate predicate Concluded(index: nat, e: Entry, r: Reaction, status: Status, token: nat)
      reads this, ring, bridge, os, pool.storage, Objects()
    {
      && status == (if !r.alive then Gone else if r.io.Some? && |old(ring.entries)| >= RING_ENTRIES then SubmissionFull
         else Alive)
      && index in conns && (status != Gone ==> Stands(conns[index], e, pool, pool.storage[..]))
      && Appends(old(ring.entries), ring.entries,
         if status == Alive && r.io.Some? then Some(Sqe(token, ConnIo(r.io.value))) else None)
      && Appends(old(bridge.tasks), bridge.tasks,
         if r.spawn.Some? then Some(Task(token % U32, r.spawn.value, token, false)) else None)
      && bridge.completions == old(bridge.completions) && bridge.counter == old(bridge.counter)
      && os.open == (if status == Gone then old(os.open) - {e.fd} else old(os.open))
    }

    /** Objects that have not been touched keep standing for their entries. */
    twostate lemma StillStand()
      requires old(AllStand(pool.storage[..])) && conns == old(conns) && entries == old(entries)
      requires pool.storage[..] == old(pool.storage[..])
      requires forall c <- Objects() :: unchanged(c)
      ensures AllStand(pool.storage[..])
    {
      hide Stands;
      forall i | i in conns ensures Stands(conns[i], entries[i], pool, pool.storage[..]) {
        assert conns[i].conn in Objects();
        assert old(Stands(conns[i], entries[i], pool, pool.storage[..]));
      }
    }

    /** Every entry has an object of its own, over the slot it holds. */
    lemma ObjectsApart(index: nat)
      requires Valid() && index in conns
      ensures forall i :: i in conns && i != index ==>
                conns[i].conn != conns[index].conn && entries[i].slot != entries[index].slot
      ensures var e, conn := entries[index], conns[index].conn;
              && conn.storage == pool.storage && conn.slot == SlotAt(e.slot) && e.generation == conns[index].generation
                 && e.fd == conn.fd
              && conn.Live() && conn.View() == e.session.conn
    {
      hide Stands, SlotAt;
      forall i | i in conns ensures conns[i].conn.slot == SlotAt(entries[i].slot) {
        StandsConn(conns[i], entries[i], pool, pool.storage[..]);
      }
      forall i | i in conns ensures SlotAt(entries[i].slot).idx == entries[i].slot { SlotIndex(entries[i].slot); }
      StandsConn(conns[index], entries[index], pool, pool.storage[..]);
      StandsMeans(conns[index], entries[index], pool);
    }

    /** The entry's connection handles a completion. */
    method React(server: Server, date: Date, index: nat, c: Cqe, ghost e: Entry) returns (status: Status)
      requires Valid() && HandlersReply(server) && index in conns && Landed(conns[index].conn, c)
      requires e == entries[index].(session := e.session)
      requires e.session.conn == OnCompletion(server, date, entries[index].session.conn, c.result, c.data).conn
      modifies ring, bridge, os, pool.storage, conns[index].conn
      ensures OthersStand(pool.storage[..], index)
      ensures Concluded(index, e, OnCompletion(server, date, entries[index].session.conn, c.result, c.data), status,
                c.token)
    {
      hide OnCompletion, Stands, HandlersReply, SlotAt;
      var conn := conns[index].conn;
      ghost var stored, was := pool.storage[..], entries[index];
      ObjectsApart(index);
      SlotIndex(was.slot);
      SameReaction(server, date, conn.View(), c.result, conn.Moved(c.result), c.data);
      status := conn.HandleCompletion(server, date, ring, bridge, os, c.token, c.result);
      if status != Gone { StandsMeans(conns[index], e, pool); }
      forall i | i in conns && i != index ensures Stands(conns[i], entries[i], pool, pool.storage[..]) {
        assert old(allocated(conns[i].conn));
        StandsStill(conns[i], entries[i], pool, stored, pool.storage[..], conn.slot);
      }
    }

    /** The registry after the reaction of connection `index`: its entry stays, or goes. */
    method Settle(index: nat, status: Status, ghost e: Entry, ghost open: set<int>)
      requires SlotsHeld() && index in conns && OthersStand(pool.storage[..], index)
      requires conns[index].conn.slot.idx == e.slot == entries[index].slot
      requires status != Gone ==> Stands(conns[index], e, pool, pool.storage[..])
      modifies this`conns, this`entries, this`closed, this`faults, pool
      ensures Valid() && Objects() <= old(Objects())
      ensures entries == if status == Gone then Without(old(entries), index) else old(entries)[index := e]
      ensures pool.free == if status == Gone then old(pool.free) + [e.slot] else old(pool.free)
      ensures closed == if status == Gone then old(closed) + [e] else old(closed)
      ensures faults == if status == Gone && e.fd !in open then old(faults) + {DoubleClose} else old(faults)
    {
      hide Stands;
      if status == Gone {
        Remove(index, conns[index].conn.slot, e, open);
        return;
      }
      entries := entries[index := e];
      forall i | i in conns ensures Stands(conns[i], entries[i], pool, pool.storage[..]) {
        assert old(allocated(conns[i].conn));
      }
    }

    /** Puts one of the loop's own operations on the queue. */
    method Submit(e: Sqe, ghost others: World) returns (ok: bool)
      requires Valid()
      modifies ring
      ensures Valid() && ok == (|old(ring.entries)| < RING_ENTRIES)
      ensures ok ==> AsWorld(others) == Push(old(AsWorld(others)), e)
    {
      hide Stands;
      ok := ring.Push(e);
      StillStand();
    }

    /** Without a free slot, a new connection is closed. */
    method Refuse(fd: int, ghost others: World)
      requires Valid()
      modifies os, this`faults
      ensures Valid() && AsWorld(others) == CloseFd(old(AsWorld(others)), fd)
    {
      hide Stands;
      Note(fd !in os.open, DoubleClose, others);
      os.Close(fd);
      StillStand();
    }

    /** A slot of the pool that no entry holds. */
    predicate Spare(slot: Slot) reads this, pool {
      slot == SlotAt(slot.idx) && slot.idx < SLOT_COUNT && slot.idx !in pool.free
    }

    method TakeSlot() returns (slot: Option<Slot>)
      requires Valid()
      modifies pool
      ensures Valid()
      ensures if slot.None? then old(pool.free) == [] == pool.free
              else
                && Spare(slot.value) && old(pool.free) == pool.free + [slot.value.idx]
                && forall i :: i in entries ==> entries[i].slot != slot.value.idx
    {
      hide Stands;
      slot := pool.Acquire();
      StillStand();
    }

    /** A new entry of the registry. */
    method Insert(vacant: nat, t: Tenant, ghost e: Entry)
      requires Valid() && vacant !in conns && Stands(t, e, pool, pool.storage[..])
      requires e.slot < SLOT_COUNT && e.slot !in pool.free && forall i :: i in entries ==> entries[i].slot != e.slot
      modifies this`conns, this`entries, this`slabLen, this`nextGeneration
      ensures Valid() && Objects() <= old(Objects()) + {t.conn} && entries == old(entries)[vacant := e]
      ensures nextGeneration == (old(nextGeneration) + 1) % U32
      ensures slabLen == if vacant == old(slabLen) then old(slabLen) + 1 else old(slabLen)
    {
      hide Stands, ObjectsOf;
      nextGeneration := (nextGeneration + 1) % U32;
      conns := conns[vacant := t];
      entries := entries[vacant := e];
      slabLen := if vacant == slabLen then slabLen + 1 else slabLen;
      forall i | i in conns && i != vacant ensures Stands(conns[i], entries[i], pool, pool.storage[..]) {
        assert old(allocated(conns[i].conn));
      }
      OneMoreObject(old(conns), vacant, t);
    }

    /** A new connection on its slot, its first read submitted. */
    method Open(generation: nat, fd: int, slot: Slot, token: nat) returns (t: Tenant, ok: bool)
      requires Valid() && Spare(slot)
      modifies ring
      ensures Valid() && fresh(t.conn) && Stands(t, Entry(generation, fd, slot.idx, OPENED), pool, pool.storage[..])
      ensures ok == (|old(ring.entries)| < RING_ENTRIES)
      ensures ok ==> ring.entries == old(ring.entries) + [Sqe(token, ConnIo(Recv(READ_REGION)))]
    {
      hide Stands, SlotAt;
      SlotInStorage(slot.idx);
      var conn := new Connection(fd, pool.storage, slot);
      var status := conn.SubmitRead(ring, token);
      StillStand();
      t, ok := Tenant(generation, conn), status == Alive;
      StandsMeans(t, Entry(generation, fd, slot.idx, OPENED), pool);
    }

    method Admit(fd: int, slot: Slot, vacant: nat, ghost others: World) returns (ok: bool)
      requires Valid() && vacant !in conns && Spare(slot) && forall i :: i in entries ==> entries[i].slot != slot.idx
      modifies this`conns, this`entries, this`slabLen, this`nextGeneration, ring
      ensures fresh(Objects() - old(Objects()))
      ensures ok == (|old(ring.entries)| < RING_ENTRIES)
      ensures ok ==>
                var w := old(AsWorld(others));
                |ring.entries| == |old(ring.entries)| + 1 && Valid()
                  && AsWorld(others) == AddConn(w.(free := w.free + [slot.idx]), fd, vacant)
    {
      hide Stands, SlotAt, PackToken, AddConn;
      ghost var w := AsWorld(others);
      var generation := nextGeneration;
      var t;
      t, ok := Open(generation, fd, slot, PackToken(generation, vacant));
      if ok {
        Insert(vacant, t, Entry(generation, fd, slot.idx, OPENED));
        ConnAdded(w, AsWorld(others), fd, slot.idx, vacant);
      }
    }

    /** A completion of the multishot accept: with room in the submission queue, exactly the step's change. */
    method Accepted(result: int, more: bool, vacant: nat, ghost others: World) returns (ok: bool)
      requires Valid() && vacant !in conns
      modifies this, ring, pool, os
      ensures fresh(Objects() - old(Objects()))
      ensures |old(ring.entries)| + 1 < RING_ENTRIES ==>
                ok && Valid() && AsWorld(others) == HandleAccept(old(AsWorld(others)),
                  Cqe(ACCEPT_TOKEN, result, [], more), vacant)
    {
      hide Stands, SlotAt, PackToken;
      if result < 0 {
        ok := Submit(Sqe(ACCEPT_TOKEN, AcceptMulti), others);
        return;
      }
      var slot := TakeSlot();
      if slot.None? {
        Refuse(result, others);
        ok := true;
        if !more { ok := Submit(Sqe(ACCEPT_TOKEN, AcceptMulti), others); }
        return;
      }
      ok := Admit(result, slot.value, vacant, others);
      if ok && !more {
        ok := Submit(Sqe(ACCEPT_TOKEN, AcceptMulti), others);
      }
    }

    /** Records a branch taken only defensively. */
    ghost method Note(bad: bool, f: Fault, others: World)
      requires Valid()
      modifies this`faults
      ensures Valid() && AsWorld(others) == Flag(old(AsWorld(others)), bad, f)
    {
      hide Stands;
      if bad { faults := faults + {f}; }
      StillStand();
    }

    /** The entry at `index` handles a completion meant for it. */
    method Complete(server: Server, date: Date, index: nat, c: Cqe, ghost e: Entry, ghost others: World)
      returns (ok: bool)
      requires Valid() && HandlersReply(server) && index in conns
               && c.token == PackToken(conns[index].generation, index)
      requires conns[index].conn.Valid() && Landed(conns[index].conn, c)
      requires e == entries[index].(session := AfterCompletion(server, date, entries[index].session, c.result, c.data))
      modifies this, ring, bridge, pool, os, pool.storage, conns[index].conn
      ensures Objects() <= old(Objects())
      ensures |old(ring.entries)| < RING_ENTRIES ==>
                var r := OnCompletion(server, date, old(entries)[index].session.conn, c.result, c.data);
                ok && Valid() && AsWorld(others) == Apply(old(AsWorld(others)), index, e, r)
    {
      hide OnCompletion, AfterCompletion, Apply, Stands, SlotAt, HandlersReply, Landed, Without, PackToken, Appends;
      ObjectsApart(index);
      SlotIndex(e.slot);
      AfterKeepsConn(server, date, entries[index].session, c.result, c.data);
      ghost var w, open, was := AsWorld(others), os.open, entries[index].session;
      var status := React(server, date, index, c, e);
      if status == SubmissionFull {
        return false;
      }
      Settle(index, status, e, open);
      if |w.ring.sq| < RING_ENTRIES {
        ReactionApplied(w, AsWorld(others), index, e, OnCompletion(server, date, was.conn, c.result, c.data));
      }
      ok := true;
    }

    /** A completion of a Recv or a Send: with room in the submission queue, exactly the step's change. */
    method Completed(server: Server, date: Date, c: Cqe, ghost others: World) returns (ok: bool)
      requires Valid() && HandlersReply(server)
      requires var (generation, index) := UnpackToken(c.token);
               index in conns && conns[index].generation == generation ==>
                 conns[index].conn.Valid() && Landed(conns[index].conn, c)
      modifies this, ring, bridge, pool, os, pool.storage, Objects()
      ensures Objects() <= old(Objects())
      ensures |old(ring.entries)| < RING_ENTRIES ==>
              ok && Valid() && AsWorld(others) == HandleConn(server, date, old(AsWorld(others)), c)
    {
      hide OnCompletion, AfterCompletion, Apply, Stands, HandlersReply, Landed, PackToken, UnpackToken;
      var (generation, index) := UnpackToken(c.token);
      if index !in conns {
        Note(true, StaleIndex, others);
        return true;
      }
      ObjectsApart(index);
      TokenOf(c.token);
      if conns[index].generation != generation {
        Note(true, StaleGeneration, others);
        return true;
      }
      ghost var was := entries[index];
      Note(was.session.conn.state.AwaitingAsync?, ParkedCompletion, others);
      ok := Complete(server, date, index, c, was.(session := AfterCompletion(server, date, was.session, c.result,
        c.data)), others);
    }

    /** The entry's connection is handed an async response. */
    method Hand(index: nat, bytes: Bytes, token: nat, ghost e: Entry) returns (status: Status)
      requires Valid() && index in conns && bytes != []
      requires e == entries[index].(session := AfterDelivery(entries[index].session, bytes))
      modifies ring, os, pool.storage, conns[index].conn
      ensures OthersStand(pool.storage[..], index)
      ensures var t := entries[index].session;
              Concluded(index, e, OnDelivery(t.conn, ParkedRequest(t.ledger), bytes), status, token)
    {
      hide OnDelivery, Stands, SlotAt;
      var conn := conns[index].conn;
      ghost var stored, was := pool.storage[..], entries[index];
      ObjectsApart(index);
      SlotIndex(was.slot);
      status := conn.DeliverAsyncResponse(ring, bridge, os, token, bytes, ParkedRequest(was.session.ledger));
      if status != Gone { StandsMeans(conns[index], e, pool); }
      forall i | i in conns && i != index ensures Stands(conns[i], entries[i], pool, pool.storage[..]) {
        assert old(allocated(conns[i].conn));
        StandsStill(conns[i], entries[i], pool, stored, pool.storage[..], conn.slot);
      }
    }

    /** A drained result for the entry at `index`; a response that cannot be sent loses its connection. */
    method Deliver(index: nat, bytes: Bytes, ghost e: Entry, ghost others: World)
      requires Valid() && index in conns && bytes != []
      requires e == entries[index].(session := AfterDelivery(entries[index].session, bytes))
      modifies this, ring, pool, os, pool.storage, conns[index].conn
      ensures Valid() && Objects() <= old(Objects())
      ensures |old(ring.entries)| < RING_ENTRIES ==>
                var t := old(entries)[index].session;
                AsWorld(others) == Apply(old(AsWorld(others)), index, e,
                  OnDelivery(t.conn, ParkedRequest(t.ledger), bytes))
    {
      hide OnDelivery, AfterDelivery, Apply, Stands, SlotAt, Without, PackToken, Appends;
      ObjectsApart(index);
      SlotIndex(e.slot);
      DeliveryKeepsConn(entries[index].session, bytes);
      ghost var w, open, t := AsWorld(others), os.open, entries[index].session;
      var status := Hand(index, bytes, PackToken(conns[index].generation, index), e);
      Settle(index, if status == Alive then Alive else Gone, e, open);
      if |w.ring.sq| < RING_ENTRIES {
        ReactionApplied(w, AsWorld(others), index, e, OnDelivery(t.conn, ParkedRequest(t.ledger), bytes));
      }
    }

    /** One drained result finds its connection: with room in the submission queue, exactly the step's change. */
    method Delivered(c: Completion, ghost others: World)
      requires Valid() && c.bytes != []
      modifies this, ring, pool, os, pool.storage, Objects()
      ensures Valid() && Objects() <= old(Objects())
      ensures |old(ring.entries)| < RING_ENTRIES ==> AsWorld(others) == HandleDelivery(old(AsWorld(others)), c)
    {
      hide OnDelivery, AfterDelivery, Apply, Stands, PackToken;
      if c.slotId !in conns {
        Note(true, LostCompletion, others);
        return;
      }
      ObjectsApart(c.slotId);
      ghost var e := entries[c.slotId];
      Note(!e.session.conn.state.AwaitingAsync?, LateDelivery, others);
      Note(PackToken(e.generation, c.slotId) != c.origin, Misdelivered, others);
      Deliver(c.slotId, c.bytes, e.(session := AfterDelivery(e.session, c.bytes)), others);
    }

    method TakeQueue() returns (drained: seq<Completion>)
      requires Valid()
      modifies bridge
      ensures Valid() && drained == old(bridge.completions) && bridge.completions == []
      ensures bridge.tasks == old(bridge.tasks) && bridge.counter == old(bridge.counter)
    {
      hide Stands;
      drained := bridge.Drain();
      StillStand();
    }

    /** The eventfd read completed: everything queued is delivered, in order, then the read is armed again. */
    method Drain(server: Server, ghost woken: World) returns (ok: bool)
      requires Valid() && HandlersReply(server) && Inv(server, woken)
      requires woken.draining == Some(bridge.completions) && woken == AsWorld(woken).(queue := [])
      modifies this, ring, bridge, pool, os, pool.storage, Objects()
      ensures ok && Valid() && Objects() <= old(Objects())
      ensures IsRun(server, woken, Delivers(|old(bridge.completions)|))
      ensures AsWorld(woken.(draining := None)) == Run(server, woken, Delivers(|old(bridge.completions)|))
    {
      hide Inv, Push, HandleDelivery, HandlersReply, SlotsHeld, AllStand;
      var drained := TakeQueue();
      DrainIsRun(server, woken, drained);
      ghost var w := woken;
      var i := 0;
      assert drained[0..] == drained;
      while i < |drained|
        invariant 0 <= i <= |drained| && Valid() && Objects() <= old(Objects())
        invariant Inv(server, w) && w.draining == Some(drained[i..]) && AsWorld(w) == w
        invariant w.ring == woken.ring.(sq := w.ring.sq)
        invariant IsRun(server, w, Delivers(|drained| - i))
        invariant Run(server, w, Delivers(|drained| - i)) == Run(server, woken, Delivers(|drained|))
      {
        assert drained[i..][0] == drained[i] && drained[i..][1..] == drained[i + 1..];
        NextDelivery(server, w, |drained| - i);
        Delivered(drained[i], w.(draining := Some(drained[i + 1..])));
        w := Step(server, w, Worker.Deliver);
        i := i + 1;
      }
      RoomToArm(server, w);
      ok := Submit(Sqe(EVENTFD_TOKEN, EventfdRead), w.(draining := None));
    }

    /** The kernel has put received bytes where the connection's read asked for them. */
    ghost predicate Received(c: Cqe)
      requires Valid()
      reads this, pool, pool.storage, Objects()
    {
      var i := c.token % U32;
      i in conns && conns[i].conn.state.Reading? && conns[i].conn.KernelKeepsTo(c.result) && c.result > 0 ==>
        conns[i].conn.Moved(c.result) == c.data
    }

    /** In a reachable state, any completion of a connection has landed where it should. */
    lemma HasLanded(server: Server, w: World, k: nat)
      requires Valid() && Inv(server, w) && w == AsWorld(w) && IsConnCqe(w, k) && Received(w.ring.cq[k])
      ensures var c := w.ring.cq[k];
              var i := c.token % U32;
              i in conns && UnpackToken(c.token) == (conns[i].generation, i) && conns[i].conn.Valid()
                && Landed(conns[i].conn, c)
    {
      hide Inv, Stands, SlotAt, Settled, UnpackToken;
      var c := w.ring.cq[k];
      var i := c.token % U32;
      TakenNames(server, w, k);
      ObjectsApart(i);
      var conn := conns[i].conn;
      if conn.state.Writing? && c.result > 0 {
        assert c.result <= |Drop(conn.View().write, conn.writeOffset)| == conn.writeFilled - conn.writeOffset;
        SendMoved(conn, c.result);
      }
    }

    /**
     One completion taken off the queue, in any reachable state: what happens to the objects is one step of
     the worker, or, for the eventfd read, the run that wakes, delivers everything queued and arms the read
     again. No submission is refused.
     */
    method HandleCqe(server: Server, date: Date, vacant: nat, c: Cqe, ghost k: nat, ghost before: World)
      returns (ok: bool)
      requires Valid() && HandlersReply(server) && Inv(server, before) && before == AsWorld(before)
               && before.draining.None?
      requires k < |before.ring.cq| && before.ring.cq[k] == c && Received(c)
      requires c.token == ACCEPT_TOKEN ==> SlabKey(before, vacant)
      modifies this, ring, bridge, pool, os, pool.storage, Objects()
      ensures ok && Valid() && fresh(Objects() - old(Objects()))
      ensures IsRun(server, before, Handling(before, k, date, vacant))
      ensures AsWorld(WorkerInvariant.Taken(before, k)) == Run(server, before, Handling(before, k, date, vacant))
      ensures Inv(server, AsWorld(WorkerInvariant.Taken(before, k)))
    {
      hide Inv, HandleAccept, HandleConn, HandleDelivery, Push, HandlersReply, UnpackToken, Landed, Received, AllStand;
      ghost var others := WorkerInvariant.Taken(before, k);
      assert AsWorld(others) == others;
      RoomToArm(server, before);
      HandlingRuns(server, before, k, date, vacant);
      if c.token == EVENTFD_TOKEN {
        ghost var woken := Step(server, before, Handle(k, date, vacant));
        StepKeeps(server, before, Handle(k, date, vacant));
        ok := Drain(server, woken);
      } else if c.token == ACCEPT_TOKEN {
        AcceptIgnoresData(others, c, vacant);
        ok := Accepted(c.result, c.more, vacant, others);
      } else {
        HasLanded(server, before, k);
        ok := Completed(server, date, c, others);
      }
      RunKeeps(server, before, Handling(before, k, date, vacant));
    }
  }
}
