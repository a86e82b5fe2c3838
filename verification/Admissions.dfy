/** How connections come: in every reachable state, for every step, exactly from an accept with a slot to spare. */
module Admissions {
  import opened Bytes
  import opened Pipeline
  import opened Replies
  import opened Session
  import opened Ledger
  import opened Counting
  import opened Worker
  import opened RingInvariant
  import opened AsyncInvariant
  import opened PoolInvariant
  import opened WorkerInvariant
  import opened WorkerTheorems

  const NEVER_SERVED: Tracked := Tracked(Conn([], [], 0, Reading, false, false), Ledger([], [], [], None))

  /** A completion of the multishot accept that brings a descriptor. */
  predicate Brings(w: World, e: Event) {
    e.Handle? && e.k < |w.ring.cq| && w.ring.cq[e.k].token == 0xFFFF_FFFF_FFFF_FFFF && w.ring.cq[e.k].result >= 0
  }

  /** What the loop asks the kernel for: all of the read region, and the accept again if it is over. */
  function FirstAsks(token: nat, more: bool): seq<Sqe> {
    [Sqe(token, ConnIo(Recv(16384)))] + if more then [] else [Sqe(0xFFFF_FFFF_FFFF_FFFF, AcceptMulti)]
  }

  lemma ReactionAddsNone(w: World, i: nat, e: Entry, r: Reaction, j: nat)
    requires i in w.conns && j !in w.conns
    ensures j !in Apply(w, i, e, r).conns
  {
    hide PackToken;
  }

  lemma ConnAddsNone(server: Server, date: Date, w: World, c: Cqe, j: nat)
    requires j !in w.conns
    ensures j !in HandleConn(server, date, w, c).conns
  {
    hide OnCompletion, AfterCompletion, Apply, UnpackToken;
    var (generation, i) := UnpackToken(c.token);
    if i in w.conns && w.conns[i].generation == generation {
      var e := w.conns[i];
      var r := OnCompletion(server, date, e.session.conn, c.result, c.data);
      ReactionAddsNone(Flag(w, e.session.conn.state.AwaitingAsync?, ParkedCompletion), i,
        e.(session := AfterCompletion(server, date, e.session, c.result, c.data)), r, j);
    }
  }

  lemma DeliveryAddsNone(w: World, c: Completion, j: nat)
    requires j !in w.conns
    ensures j !in HandleDelivery(w, c).conns
  {
    hide PackToken, OnDelivery;
  }

  /** Of all steps, only such an accept with a slot to spare adds a connection, under the slab's vacant index. */
  lemma OpensExactly(server: Server, events: seq<Event>, e: Event, i: nat)
    requires HandlersReply(server) && IsRun(server, Initial(), events)
    requires i !in After(server, events).conns && Enabled(server, After(server, events), e)
    ensures var w := After(server, events);
            i in Step(server, w, e).conns <==> Brings(w, e) && w.free != [] && e.vacant == i
  {
    hide Run, HandleConn, HandleDelivery, PackToken, HandlersReply;
    var w := After(server, events);
    match e
    case Handle(k, date, vacant) => ConnAddsNone(server, date, WorkerInvariant.Taken(w, k), w.ring.cq[k], i);
    case Deliver => DeliveryAddsNone(w.(draining := Some(w.draining.value[1..])), w.draining.value[0], i);
    case _ =>
  }

  lemma AcceptAdds(w: World, c: Cqe, vacant: nat)
    requires c.result >= 0 && w.free != [] && |w.ring.sq| + 1 < RING_ENTRIES && vacant < 1024
    ensures var g, last := w.nextGeneration, |w.free| - 1;
            HandleAccept(w, c, vacant) ==
              w.(conns := w.conns[vacant := Entry(g, c.result, w.free[last], NEVER_SERVED)], free := w.free[..last],
                 slabLen := HandleAccept(w, c, vacant).slabLen, nextGeneration := (g + 1) % 0x1_0000_0000,
                 ring := w.ring.(sq := w.ring.sq + FirstAsks(g * 0x1_0000_0000 + vacant, c.more)))
  {
    SmallIndex(w.nextGeneration, vacant);
    hide PackToken;
  }

  /**
   In every reachable state: an accept with a slot to spare opens a connection that has seen nothing yet, on
   that descriptor and the slot last given back, under a generation the next one will not have; its first read
   is queued under its token, and nothing else changes.
   */
  lemma Opens(server: Server, events: seq<Event>, e: Event)
    requires HandlersReply(server) && IsRun(server, Initial(), events)
    requires Enabled(server, After(server, events), e) && Brings(After(server, events), e)
    requires After(server, events).free != []
    ensures var w := After(server, events);
            var w', c := Step(server, w, e), w.ring.cq[e.k];
            && e.vacant !in w.conns && e.vacant < 1024
            && w'.conns.Keys == w.conns.Keys + {e.vacant} && (forall j :: j in w.conns ==> w'.conns[j] == w.conns[j])
            && var n := w'.conns[e.vacant];
               && n.fd == c.result && n.fd in w'.openFds && n.session == NEVER_SERVED
               && w.free == w'.free + [n.slot] && n.slot !in w'.free
               && n.generation == w.nextGeneration && w'.nextGeneration == (w.nextGeneration + 1) % 0x1_0000_0000
               && w'.ring.sq == w.ring.sq + FirstAsks(n.generation * 0x1_0000_0000 + e.vacant, c.more)
               && w' == w.(conns := w'.conns, free := w'.free, slabLen := w'.slabLen,
                           nextGeneration := w'.nextGeneration,
                           ring := w.ring.(sq := w'.ring.sq, cq := RemoveAt(w.ring.cq, e.k)))
  {
    hide Run, Inv, Step, HandleAccept, FirstAsks, NEVER_SERVED, HandlersReply, IsRun;
    Reached(server, events);
    var w := After(server, events);
    AcceptMeets(server, w, e);
    AcceptAdds(WorkerInvariant.Taken(w, e.k), w.ring.cq[e.k], e.vacant);
  }

  /** What the handling of such an accept meets. */
  lemma AcceptMeets(server: Server, w: World, e: Event)
    requires Inv(server, w) && Enabled(server, w, e) && Brings(w, e)
    ensures w.ring.cq[e.k].result in w.openFds && e.vacant !in w.conns && |w.ring.sq| + 1 < RING_ENTRIES
    ensures |w.conns| + |w.free| == 1024
    ensures w.free != [] ==> e.vacant < 1024 && w.free[|w.free| - 1] !in w.free[..|w.free| - 1]
    ensures Step(server, w, e) == HandleAccept(WorkerInvariant.Taken(w, e.k), w.ring.cq[e.k], e.vacant)
  {
    hide RingHolds, AsyncHolds, FdsHold, SessionsHold, Kept, Parked, WakeUpDue, HandleAccept, HandleConn;
    TakenAccept(server, w, e.k);
    PoolCount(w.conns, w.free);
    RoomInQueue(w.conns, w.ring, Duty(true, w.draining.None?, Parked(w.conns) + {}), w.free);
    if w.free != [] { SlabStaysSmall(w.conns, w.free, w.slabLen, e.vacant); }
  }

  lemma SmallIndex(generation: nat, i: nat)
    requires i < 1024
    ensures PackToken(generation, i) == generation * 0x1_0000_0000 + i
  {
  }

  /** Without one the descriptor is closed, and nothing is opened. */
  lemma Refuses(server: Server, events: seq<Event>, e: Event)
    requires HandlersReply(server) && IsRun(server, Initial(), events)
    requires Enabled(server, After(server, events), e) && Brings(After(server, events), e)
    ensures var w := After(server, events);
            var w', fd := Step(server, w, e), w.ring.cq[e.k].result;
            && fd in w.openFds && (fd !in w'.openFds <==> w.free == [])
            && (w.free == [] ==>
                  && w'.conns == w.conns && w'.free == [] && w'.openFds == w.openFds - {fd} && |w.conns| == 1024
                  && w'.ring.sq == w.ring.sq + if w.ring.cq[e.k].more then []
                     else [Sqe(0xFFFF_FFFF_FFFF_FFFF, AcceptMulti)])
  {
    hide Run, Inv, Step, HandlersReply, IsRun, PackToken;
    Reached(server, events);
    var w := After(server, events);
    AcceptMeets(server, w, e);
  }
}
