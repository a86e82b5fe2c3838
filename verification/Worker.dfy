/**
 One io_uring worker as a step system (rust-core/src/uring/accept.rs, rust-core/src/uring/buffers.rs,
 rust-core/src/runtime/async_bridge.rs): the loop thread, the kernel, and the tokio tasks it spawned.

 The kernel may take any queued submission at any time, and the loop may handle any posted completion
 next, so every order the real queues can produce is one of the orders here. Branches the code takes
 only defensively are kept, and each records a fault.
 */
module Worker {
  import opened Bytes
  import opened Pipeline
  import opened Replies
  import opened Session
  import opened Ledger
  import opened Counting

  // ---------------------------------------------------------------- tokens

  const ACCEPT_TOKEN: nat := 0xFFFF_FFFF_FFFF_FFFF
  const EVENTFD_TOKEN: nat := 0xFFFF_FFFF_FFFF_FFFE
  const RING_ENTRIES: nat := 4096
  const SLOT_COUNT: nat := 1024

  /** `(generation << 32) | (index as u32)`, for a 32-bit generation. */
  function PackToken(generation: nat, index: nat): nat {
    generation * U32 + index % U32
  }

  function UnpackToken(token: nat): (nat, nat) {
    (token / U32, token % U32)
  }

  // ---------------------------------------------------------------- state

  datatype Op = ConnIo(io: Io) | AcceptMulti | EventfdRead

  datatype Sqe = Sqe(token: nat, op: Op)

  /** `data` is what moved between the kernel and the connection's regions. */
  datatype Cqe = Cqe(token: nat, result: int, data: Bytes, more: bool)

  /** Operations on their way through: queued by the loop, running in the kernel, completed. */
  datatype Ring = Ring(sq: seq<Sqe>, kernel: seq<Sqe>, cq: seq<Cqe>)

  /** `origin` remembers the token of the connection that spawned the task; the code does not have it. */
  datatype Completion = Completion(slotId: nat, bytes: Bytes, origin: nat)

  /** A spawned handler; once `queued`, only its eventfd write is still to come. */
  datatype Task = Task(slotId: nat, req: Bytes, origin: nat, queued: bool)

  datatype Entry = Entry(generation: nat, fd: int, slot: nat, session: Tracked)

  datatype Fault =
    | SqFull            // a push found the submission queue full
    | StaleIndex        // a completion named a vacant registry index
    | StaleGeneration   // a completion named an earlier tenant of its index
    | ParkedCompletion  // an I/O completion reached a parked connection
    | LostCompletion    // an async result found no connection
    | LateDelivery      // an async result found a connection that is not parked
    | Misdelivered      // an async result found another connection than the one that asked
    | DoubleClose       // a descriptor was closed that was not open

  datatype World = World(
    conns: map<nat, Entry>, slabLen: nat, nextGeneration: nat, free: seq<nat>,
    ring: Ring, tasks: seq<Task>, queue: seq<Completion>, eventfd: nat, draining: Option<seq<Completion>>,
    openFds: set<int>, closed: seq<Entry>, faults: set<Fault>)

  datatype Event =
    | Enter(k: nat)                                      // the kernel takes a submission
    | FinishIo(k: nat, result: int, data: Bytes)         // a Recv or Send completes
    | FinishAccept(k: nat, result: int, more: bool)      // the multishot accept posts a completion
    | FinishEventfd(k: nat, read: bool)                  // the eventfd read completes, or fails
    | Handle(k: nat, date: Date, vacant: nat)            // the loop handles one completion
    | Deliver                                            // the loop delivers the next drained result
    | Rearm                                              // the drain is over: read the eventfd again
    | Resolve(k: nat, bytes: Bytes)                      // a handler's future resolves and is queued
    | Signal(k: nat)                                     // and then the eventfd is written

  function Initial(): World {
    World(map[], 0, 0, seq(SLOT_COUNT, i requires 0 <= i < SLOT_COUNT => SLOT_COUNT - 1 - i),
          Ring([Sqe(ACCEPT_TOKEN, AcceptMulti), Sqe(EVENTFD_TOKEN, EventfdRead)], [], []),
          [], [], 0, None, {}, [], {})
  }

  // ---------------------------------------------------------------- what may happen

  /** The slab hands out a vacant index, and grows only when it has none. */
  predicate SlabKey(w: World, v: nat) {
    v !in w.conns && v <= w.slabLen && (v == w.slabLen ==> forall i: nat :: i < w.slabLen ==> i in w.conns)
  }

  predicate Enabled(server: Server, w: World, e: Event) {
    match e
    case Enter(k) => k < |w.ring.sq|
    case FinishIo(k, result, data) =>
      k < |w.ring.kernel| && w.ring.kernel[k].op.ConnIo? && KernelAnswers(w.ring.kernel[k].op.io, result, data)
    case FinishAccept(k, result, more) =>
      k < |w.ring.kernel| && w.ring.kernel[k].op.AcceptMulti? && (if result >= 0 then result !in w.openFds else !more)
    case FinishEventfd(k, read) =>
      k < |w.ring.kernel| && w.ring.kernel[k].op.EventfdRead? && (read ==> w.eventfd > 0)
    case Handle(k, date, vacant) =>
      w.draining.None? && k < |w.ring.cq| && (w.ring.cq[k].token == ACCEPT_TOKEN ==> SlabKey(w, vacant))
    case Deliver => w.draining.Some? && w.draining.value != []
    case Rearm => w.draining == Some([])
    case Resolve(k, bytes) => k < |w.tasks| && !w.tasks[k].queued && server.mayResolve(w.tasks[k].req, bytes)
    case Signal(k) => k < |w.tasks| && w.tasks[k].queued
  }

  // ---------------------------------------------------------------- what the loop does

  function Flag(w: World, bad: bool, f: Fault): World {
    if bad then w.(faults := w.faults + {f}) else w
  }

  function Push(w: World, e: Sqe): World {
    if |w.ring.sq| == RING_ENTRIES then Flag(w, true, SqFull) else w.(ring := w.ring.(sq := w.ring.sq + [e]))
  }

  function CloseFd(w: World, fd: int): World {
    Flag(w, fd !in w.openFds, DoubleClose).(openFds := w.openFds - {fd})
  }

  function RemoveConn(w: World, i: nat, last: Entry): World {
    CloseFd(w, last.fd).(conns := map j | j in w.conns && j != i :: w.conns[j],
                         free := w.free + [last.slot], closed := w.closed + [last])
  }

  /** The connection at `i` has reacted: keep it with its next op or task, or remove it. */
  function Apply(w: World, i: nat, e: Entry, r: Reaction): World {
    var token := PackToken(e.generation, i);
    if !r.alive then RemoveConn(w, i, e)
    else
      var w1 := w.(conns := w.conns[i := e]);
      var w2 := match r.io case None => w1 case Some(io) => Push(w1, Sqe(token, ConnIo(io)));
      match r.spawn
      case None => w2
      case Some(req) => w2.(tasks := w2.tasks + [Task(token % U32, req, token, false)])
  }

  /** A new connection: the last free slot, the next generation, and a first Recv. */
  function AddConn(w: World, fd: int, vacant: nat): World
    requires w.free != []
  {
    var slot, g := w.free[|w.free| - 1], w.nextGeneration;
    var w1 := Push(w, Sqe(PackToken(g, vacant), ConnIo(Recv(READ_REGION))));
    w1.(conns := w1.conns[vacant := Entry(g, fd, slot, OPENED)],
        free := w1.free[..|w1.free| - 1], nextGeneration := (g + 1) % U32,
        slabLen := if vacant == w1.slabLen then w1.slabLen + 1 else w1.slabLen)
  }

  function HandleAccept(w: World, c: Cqe, vacant: nat): World {
    var accept := Sqe(ACCEPT_TOKEN, AcceptMulti);
    if c.result < 0 then Push(w, accept)
    else
      var w1 := if w.free == [] then CloseFd(w, c.result) else AddConn(w, c.result, vacant);
      if c.more then w1 else Push(w1, accept)
  }

  function HandleConn(server: Server, date: Date, w: World, c: Cqe): World {
    var (generation, i) := UnpackToken(c.token);
    if i !in w.conns then Flag(w, true, StaleIndex)
    else if w.conns[i].generation != generation then Flag(w, true, StaleGeneration)
    else
      var e := w.conns[i];
      var r := OnCompletion(server, date, e.session.conn, c.result, c.data);
      var t := AfterCompletion(server, date, e.session, c.result, c.data);
      Apply(Flag(w, e.session.conn.state.AwaitingAsync?, ParkedCompletion), i, e.(session := t), r)
  }

  function HandleDelivery(w: World, c: Completion): World {
    if c.slotId !in w.conns then Flag(w, true, LostCompletion)
    else
      var e := w.conns[c.slotId];
      var r := OnDelivery(e.session.conn, ParkedRequest(e.session.ledger), c.bytes);
      var w1 := Flag(w, !e.session.conn.state.AwaitingAsync?, LateDelivery);
      var w2 := Flag(w1, PackToken(e.generation, c.slotId) != c.origin, Misdelivered);
      Apply(w2, c.slotId, e.(session := AfterDelivery(e.session, c.bytes)), r)
  }

  /** A kernel operation posts a completion, and is over unless MORE is set. */
  function Finish(r: Ring, k: nat, c: Cqe): Ring
    requires k < |r.kernel|
  {
    r.(kernel := if c.more then r.kernel else RemoveAt(r.kernel, k), cq := r.cq + [c])
  }

  function Step(server: Server, w: World, e: Event): World
    requires Enabled(server, w, e)
  {
    match e
    case Enter(k) => w.(ring := Ring(RemoveAt(w.ring.sq, k), w.ring.kernel + [w.ring.sq[k]], w.ring.cq))
    case FinishIo(k, result, data) => w.(ring := Finish(w.ring, k, Cqe(w.ring.kernel[k].token, result, data, false)))
    case FinishAccept(k, result, more) =>
      w.(ring := Finish(w.ring, k, Cqe(w.ring.kernel[k].token, result, [], more)),
         openFds := if result >= 0 then w.openFds + {result} else w.openFds)
    case FinishEventfd(k, read) =>
      w.(ring := Finish(w.ring, k, Cqe(w.ring.kernel[k].token, if read then 8 else -1, [], false)),
         eventfd := if read then 0 else w.eventfd)
    case Handle(k, date, vacant) =>
      var c := w.ring.cq[k];
      var w1 := w.(ring := w.ring.(cq := RemoveAt(w.ring.cq, k)));
      if c.token == EVENTFD_TOKEN then w1.(draining := Some(w.queue), queue := [])
      else if c.token == ACCEPT_TOKEN then HandleAccept(w1, c, vacant)
      else HandleConn(server, date, w1, c)
    case Deliver =>
      HandleDelivery(w.(draining := Some(w.draining.value[1..])), w.draining.value[0])
    case Rearm => Push(w.(draining := None), Sqe(EVENTFD_TOKEN, EventfdRead))
    case Resolve(k, bytes) =>
      var t := w.tasks[k];
      w.(tasks := w.tasks[k := t.(queued := true)], queue := w.queue + [Completion(t.slotId, bytes, t.origin)])
    case Signal(k) => w.(tasks := RemoveAt(w.tasks, k), eventfd := w.eventfd + 1)
  }

  // ---------------------------------------------------------------- runs

  /** Every event of the list may happen when its turn comes. */
  predicate IsRun(server: Server, w: World, events: seq<Event>)
    decreases |events|
  {
    events == [] || (Enabled(server, w, events[0]) && IsRun(server, Step(server, w, events[0]), events[1..]))
  }

  function Run(server: Server, w: World, events: seq<Event>): World
    requires IsRun(server, w, events)
    decreases |events|
  {
    if events == [] then w else Run(server, Step(server, w, events[0]), events[1..])
  }
}
