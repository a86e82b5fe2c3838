/**
 Outstanding async work: each parked connection has exactly one piece of it, a running task, a queued result
 or a drained one, which carries the connection's index and the token it parked under; and no other work is
 outstanding. Kept by spawning, resolving, signalling and delivering.
 */
module AsyncInvariant {
  import opened Bytes
  import opened Pipeline
  import opened Replies
  import opened Session
  import opened Ledger
  import opened Counting
  import opened Worker
  import opened RingInvariant

  /** The connection at `slotId` is the one that spawned the work, and is waiting for `req`. */
  predicate Awaits(conns: map<nat, Entry>, slotId: nat, origin: nat) {
    slotId in conns && ConnAt(conns, slotId).state.AwaitingAsync? && conns[slotId].session.ledger.parked.Some?
    && origin == TokenAt(conns, slotId)
  }

  predicate TaskFits(conns: map<nat, Entry>, t: Task) {
    !t.queued ==> Awaits(conns, t.slotId, t.origin) && conns[t.slotId].session.ledger.parked == Some(t.req)
  }

  predicate ResultFits(server: Server, conns: map<nat, Entry>, c: Completion) {
    Awaits(conns, c.slotId, c.origin) && server.mayResolve(conns[c.slotId].session.ledger.parked.value, c.bytes)
  }

  /** No registry index: marks a task whose result has been queued already. */
  const QUEUED: nat := SLOT_COUNT

  function TaskSlot(t: Task): nat { if t.queued then QUEUED else t.slotId }

  function TaskSlots(tasks: seq<Task>): seq<nat> {
    seq(|tasks|, i requires 0 <= i < |tasks| => TaskSlot(tasks[i]))
  }

  function ResultSlots(results: seq<Completion>): seq<nat> {
    seq(|results|, i requires 0 <= i < |results| => results[i].slotId)
  }

  /** Running tasks, queued results and drained results for one registry index. */
  function Owed(tasks: seq<Task>, results: seq<Completion>, i: nat): nat {
    multiset(TaskSlots(tasks))[i] + multiset(ResultSlots(results))[i]
  }

  /** Exactly one piece of work for each index in `waiting`, and none for the other connections. */
  ghost predicate AsyncHolds(server: Server, conns: map<nat, Entry>, tasks: seq<Task>, results: seq<Completion>,
                             waiting: set<nat>) {
    && Keyed(conns)
    && (forall k :: 0 <= k < |tasks| ==> TaskFits(conns, tasks[k]))
    && (forall k :: 0 <= k < |results| ==> ResultFits(server, conns, results[k]))
    && (forall i :: i in conns ==> Owed(tasks, results, i) == (if i in waiting then 1 else 0))
  }

  // ---------------------------------------------------------------- steps

  lemma NothingOwed(tasks: seq<Task>, results: seq<Completion>, i: nat)
    requires Owed(tasks, results, i) == 0
    ensures forall k :: 0 <= k < |tasks| ==> TaskSlot(tasks[k]) != i
    ensures forall k :: 0 <= k < |results| ==> results[k].slotId != i
  {
    forall k | 0 <= k < |tasks| ensures TaskSlot(tasks[k]) != i {
      assert TaskSlots(tasks)[k] in multiset(TaskSlots(tasks));
    }
    forall k | 0 <= k < |results| ensures results[k].slotId != i {
      assert ResultSlots(results)[k] in multiset(ResultSlots(results));
    }
  }

  lemma SlotsAppend(tasks: seq<Task>, t: Task, results: seq<Completion>, more: seq<Completion>)
    ensures multiset(TaskSlots(tasks + [t])) == multiset(TaskSlots(tasks)) + multiset{TaskSlot(t)}
    ensures multiset(ResultSlots(results + more)) == multiset(ResultSlots(results)) + multiset(ResultSlots(more))
    ensures |more| == 1 ==> multiset(ResultSlots(more)) == multiset{more[0].slotId}
  {
    assert TaskSlots(tasks + [t]) == TaskSlots(tasks) + [TaskSlot(t)];
    assert ResultSlots(results + more) == ResultSlots(results) + ResultSlots(more);
    if |more| == 1 { assert ResultSlots(more) == [more[0].slotId]; }
  }

  lemma SlotsQueue(tasks: seq<Task>, k: nat, t: Task)
    requires k < |tasks| && t.queued
    ensures multiset(TaskSlots(tasks[k := t])) + multiset{TaskSlot(tasks[k])}
         == multiset(TaskSlots(tasks)) + multiset{QUEUED}
  {
    var slots := TaskSlots(tasks);
    assert TaskSlots(tasks[k := t]) == slots[k := QUEUED];
    assert slots[k] in multiset(slots);
  }

  lemma SlotsRemove(tasks: seq<Task>, k: nat)
    requires k < |tasks|
    ensures multiset(TaskSlots(tasks)) == multiset(TaskSlots(RemoveAt(tasks, k))) + multiset{TaskSlot(tasks[k])}
  {
    RemoveCounts(TaskSlots(tasks), k);
    assert TaskSlots(RemoveAt(tasks, k)) == RemoveAt(TaskSlots(tasks), k);
  }

  lemma SlotsHead(results: seq<Completion>)
    requires results != []
    ensures multiset(ResultSlots(results)) == multiset{results[0].slotId} + multiset(ResultSlots(results[1..]))
  {
    assert ResultSlots(results) == [results[0].slotId] + ResultSlots(results[1..]);
  }

  lemma ResultNames(server: Server, conns: map<nat, Entry>, c: Completion)
    requires ResultFits(server, conns, c)
    ensures c.slotId in conns
  {
  }

  lemma TaskBecomesResult(server: Server, conns: map<nat, Entry>, t: Task, c: Completion)
    requires TaskFits(conns, t) && !t.queued && server.mayResolve(t.req, c.bytes)
    requires c.slotId == t.slotId && c.origin == t.origin
    ensures ResultFits(server, conns, c)
  {
  }

  lemma AsyncSpawn(server: Server, conns: map<nat, Entry>, tasks: seq<Task>, results: seq<Completion>,
                   waiting: set<nat>, t: Task)
    requires AsyncHolds(server, conns, tasks, results, waiting)
    requires !t.queued && TaskFits(conns, t) && t.slotId !in waiting
    ensures AsyncHolds(server, conns, tasks + [t], results, waiting + {t.slotId})
  {
    hide TaskFits, ResultFits, TaskSlots, ResultSlots;
    SlotsAppend(tasks, t, results, []);
  }

  lemma AsyncResolve(server: Server, conns: map<nat, Entry>, tasks: seq<Task>, results: seq<Completion>,
                     waiting: set<nat>, k: nat, bytes: Bytes)
    requires AsyncHolds(server, conns, tasks, results, waiting)
    requires k < |tasks| && !tasks[k].queued && server.mayResolve(tasks[k].req, bytes)
    ensures var t := tasks[k];
            AsyncHolds(server, conns, tasks[k := t.(queued := true)],
              results + [Completion(t.slotId, bytes, t.origin)], waiting)
  {
    hide ResultFits, TaskSlots, ResultSlots;
    var t := tasks[k];
    var c := Completion(t.slotId, bytes, t.origin);
    assert TaskFits(conns, t);
    TaskBecomesResult(server, conns, t, c);
    SlotsAppend([], t, results, [c]);
    SlotsQueue(tasks, k, t.(queued := true));
    var ts, rs := tasks[k := t.(queued := true)], results + [c];
    forall i | i in conns ensures Owed(ts, rs, i) == Owed(tasks, results, i) {
      assert i != QUEUED;
      assert (multiset(TaskSlots(ts)) + multiset{TaskSlot(t)})[i] == (multiset(TaskSlots(tasks)) + multiset{QUEUED})[i];
    }
  }

  lemma AsyncSignal(server: Server, conns: map<nat, Entry>, tasks: seq<Task>, results: seq<Completion>,
                    waiting: set<nat>, k: nat)
    requires AsyncHolds(server, conns, tasks, results, waiting) && k < |tasks| && tasks[k].queued
    ensures AsyncHolds(server, conns, RemoveAt(tasks, k), results, waiting)
  {
    hide TaskFits, ResultFits, TaskSlots, ResultSlots;
    SlotsRemove(tasks, k);
  }

  /** The loop takes the first result: its connection waits for nothing more. */
  lemma AsyncTake(server: Server, conns: map<nat, Entry>, tasks: seq<Task>, results: seq<Completion>, waiting: set<nat>)
    requires AsyncHolds(server, conns, tasks, results, waiting) && results != []
    ensures results[0].slotId in conns && results[0].slotId in waiting
    ensures AsyncHolds(server, conns, tasks, results[1..], waiting - {results[0].slotId})
  {
    hide TaskFits, ResultFits, TaskSlots, ResultSlots;
    ResultNames(server, conns, results[0]);
    SlotsHead(results);
  }

  lemma OthersKeepWaiting(server: Server, conns: map<nat, Entry>, i: nat, e: Entry)
    ensures forall t: Task :: TaskFits(conns, t) && TaskSlot(t) != i ==>
              TaskFits(conns[i := e], t) && TaskFits(Without(conns, i), t)
    ensures forall c: Completion :: ResultFits(server, conns, c) && c.slotId != i
              ==> ResultFits(server, conns[i := e], c) && ResultFits(server, Without(conns, i), c)
  {
    hide PackToken;
  }

  /** A connection no work is outstanding for may change, leave, or arrive. */
  lemma AsyncChange(server: Server, conns: map<nat, Entry>, tasks: seq<Task>, results: seq<Completion>,
                    waiting: set<nat>, i: nat, e: Entry)
    requires AsyncHolds(server, conns, tasks, results, waiting) && i !in waiting
    requires i < SLOT_COUNT && e.generation < U32
    ensures AsyncHolds(server, conns[i := e], tasks, results, waiting)
    ensures AsyncHolds(server, Without(conns, i), tasks, results, waiting)
  {
    hide TaskFits, ResultFits, Owed;
    if i in conns {
      NothingOwed(tasks, results, i);
    } else {
      NobodyWaits(server, conns, tasks, results, waiting, i);
    }
    OthersKeepWaiting(server, conns, i, e);
  }

  lemma NobodyWaits(server: Server, conns: map<nat, Entry>, tasks: seq<Task>, results: seq<Completion>,
                    waiting: set<nat>, i: nat)
    requires AsyncHolds(server, conns, tasks, results, waiting) && i !in conns && i < SLOT_COUNT
    ensures Owed(tasks, results, i) == 0
    ensures forall k :: 0 <= k < |tasks| ==> TaskSlot(tasks[k]) != i
    ensures forall k :: 0 <= k < |results| ==> results[k].slotId != i
  {
    forall k | 0 <= k < |tasks| ensures TaskSlots(tasks)[k] != i { assert TaskFits(conns, tasks[k]); }
    forall k | 0 <= k < |results| ensures ResultSlots(results)[k] != i { assert ResultFits(server, conns, results[k]); }
    assert i !in TaskSlots(tasks) && i !in ResultSlots(results);
  }
}
