/**
 Buffer slots and descriptors over whole runs: every slot is free or held by one connection, so that live
 connections and free slots always sum to the pool's size; every open descriptor belongs to one connection or
 one accept completion not handled yet. Nothing is lost, shared or given back twice.
 */
module PoolInvariant {
  import opened Bytes
  import opened Pipeline
  import opened Session
  import opened Ledger
  import opened Counting
  import opened Worker
  import opened RingInvariant

  // ---------------------------------------------------------------- slots

  /** Free slots and slots held by live connections partition the pool. */
  ghost predicate SlotsHold(conns: map<nat, Entry>, free: seq<nat>) {
    && (forall a, b :: 0 <= a < b < |free| ==> free[a] != free[b])
    && (forall s :: s in free ==> s < SLOT_COUNT)
    && (forall i :: i in conns ==> conns[i].slot < SLOT_COUNT && conns[i].slot !in free)
    && (forall i, j :: i in conns && j in conns && i != j ==> conns[i].slot != conns[j].slot)
    && (forall s: nat :: s < SLOT_COUNT ==> s in free || Held(conns, s))
  }

  ghost predicate Held(conns: map<nat, Entry>, s: nat) {
    exists i :: i in conns && conns[i].slot == s
  }

  ghost function HeldSlots(conns: map<nat, Entry>): set<nat> {
    set i | i in conns :: conns[i].slot
  }

  lemma HeldCount(conns: map<nat, Entry>)
    requires forall i, j :: i in conns && j in conns && i != j ==> conns[i].slot != conns[j].slot
    ensures |HeldSlots(conns)| == |conns|
  {
    var slots := map i | i in conns :: conns[i].slot;
    assert slots.Keys == conns.Keys;
    ImageSize(slots, HeldSlots(conns));
  }

  lemma PoolCount(conns: map<nat, Entry>, free: seq<nat>)
    requires SlotsHold(conns, free)
    ensures |conns| + |free| == SLOT_COUNT
  {
    hide Upto, HeldSlots, SlotsHold;
    var held, spare := HeldSlots(conns), set s | s in free;
    PoolCovers(conns, free);
    HeldCount(conns);
    DistinctSize(free);
    UptoSize(SLOT_COUNT);
    assert held + spare == Upto(SLOT_COUNT);
    assert |held + spare| == |held| + |spare|;
  }

  lemma PoolCovers(conns: map<nat, Entry>, free: seq<nat>)
    requires SlotsHold(conns, free)
    ensures forall s :: s in HeldSlots(conns) ==> s !in free
    ensures forall s: nat :: s in free || s in HeldSlots(conns) <==> s < SLOT_COUNT
    ensures forall i, j :: i in conns && j in conns && i != j ==> conns[i].slot != conns[j].slot
    ensures forall a, b :: 0 <= a < b < |free| ==> free[a] != free[b]
  {
  }

  lemma SlotsChange(conns: map<nat, Entry>, free: seq<nat>, i: nat, e: Entry)
    requires SlotsHold(conns, free) && i in conns && e.slot == conns[i].slot
    ensures SlotsHold(conns[i := e], free)
  {
    forall s: nat | s < SLOT_COUNT && s !in free ensures Held(conns[i := e], s) {
      var j :| j in conns && conns[j].slot == s;
      assert j in conns[i := e];
    }
  }

  lemma SlotsRelease(conns: map<nat, Entry>, free: seq<nat>, i: nat)
    requires SlotsHold(conns, free) && i in conns
    ensures SlotsHold(Without(conns, i), free + [conns[i].slot])
  {
    forall s: nat | s < SLOT_COUNT && s !in free + [conns[i].slot] ensures Held(Without(conns, i), s) {
      var j :| j in conns && conns[j].slot == s;
      assert j in Without(conns, i);
    }
  }

  lemma SlotsAcquire(conns: map<nat, Entry>, free: seq<nat>, i: nat, e: Entry)
    requires SlotsHold(conns, free) && i !in conns && free != [] && e.slot == free[|free| - 1]
    ensures SlotsHold(conns[i := e], free[..|free| - 1])
  {
    var rest := free[..|free| - 1];
    assert e.slot in free && forall a :: 0 <= a < |rest| ==> rest[a] == free[a];
    assert forall s :: s in rest ==> s in free && s != e.slot;
    forall s: nat | s < SLOT_COUNT && s !in rest ensures Held(conns[i := e], s) {
      if s in free {
        assert s == e.slot;
        assert i in conns[i := e] && conns[i := e][i].slot == s;
      } else {
        var j :| j in conns && conns[j].slot == s;
        assert j in conns[i := e] && conns[i := e][j].slot == s;
      }
    }
  }

  // ---------------------------------------------------------------- registry keys

  /** The slab has handed out only indices below its length, and is no longer than the pool. */
  ghost predicate SlabHolds(conns: map<nat, Entry>, slabLen: nat) {
    slabLen <= SLOT_COUNT && forall i :: i in conns ==> i < slabLen
  }

  /** A free slot means a free index below 1024: the slab never outgrows the pool. */
  lemma SlabStaysSmall(conns: map<nat, Entry>, free: seq<nat>, slabLen: nat, v: nat)
    requires SlotsHold(conns, free) && SlabHolds(conns, slabLen) && free != []
    requires v !in conns && v <= slabLen && (v == slabLen ==> forall i: nat :: i < slabLen ==> i in conns)
    ensures v < SLOT_COUNT
  {
    hide Upto;
    PoolCount(conns, free);
    UptoSize(slabLen);
    if v == slabLen {
      assert conns.Keys == Upto(slabLen);
      assert |conns| == |conns.Keys|;
    }
  }

  // ---------------------------------------------------------------- descriptors

  /** The descriptor an accept completion carries, or -1. */
  function AcceptFd(c: Cqe): int {
    if c.token == ACCEPT_TOKEN && c.result >= 0 then c.result else -1
  }

  function AcceptFds(cq: seq<Cqe>): seq<int> {
    seq(|cq|, i requires 0 <= i < |cq| => AcceptFd(cq[i]))
  }

  /** Every open descriptor has exactly one owner: a live connection or a completion still to be handled. */
  ghost predicate FdsHold(conns: map<nat, Entry>, fds: seq<int>, openFds: set<int>) {
    && (forall a, b :: 0 <= a < b < |fds| && fds[a] >= 0 ==> fds[a] != fds[b])
    && (forall f :: f in fds && f >= 0 ==> f in openFds)
    && (forall i :: i in conns ==> conns[i].fd >= 0 && conns[i].fd in openFds && conns[i].fd !in fds)
    && (forall i, j :: i in conns && j in conns && i != j ==> conns[i].fd != conns[j].fd)
    && (forall f :: f in openFds ==> f >= 0 && (f in fds || Owned(conns, f)))
  }

  ghost predicate Owned(conns: map<nat, Entry>, f: int) {
    exists i :: i in conns && conns[i].fd == f
  }

  lemma FdsChange(conns: map<nat, Entry>, fds: seq<int>, openFds: set<int>, i: nat, e: Entry)
    requires FdsHold(conns, fds, openFds) && i in conns && e.fd == conns[i].fd
    ensures FdsHold(conns[i := e], fds, openFds)
  {
    forall f | f in openFds && f !in fds ensures Owned(conns[i := e], f) {
      var j :| j in conns && conns[j].fd == f;
      assert j in conns[i := e];
    }
  }

  lemma FdsClose(conns: map<nat, Entry>, fds: seq<int>, openFds: set<int>, i: nat)
    requires FdsHold(conns, fds, openFds) && i in conns
    ensures FdsHold(Without(conns, i), fds, openFds - {conns[i].fd})
  {
    forall f | f in openFds - {conns[i].fd} && f !in fds ensures Owned(Without(conns, i), f) {
      var j :| j in conns && conns[j].fd == f;
      assert j in Without(conns, i);
    }
  }

  lemma AcceptAppend(cq: seq<Cqe>, c: Cqe)
    ensures AcceptFds(cq + [c]) == AcceptFds(cq) + [AcceptFd(c)]
  {
  }

  lemma AcceptRemove(cq: seq<Cqe>, k: nat)
    requires k < |cq|
    ensures |AcceptFds(cq)| == |cq| && AcceptFds(cq)[k] == AcceptFd(cq[k])
    ensures AcceptFds(RemoveAt(cq, k)) == RemoveAt(AcceptFds(cq), k)
  {
  }

  /** A completion without a descriptor is posted or taken. */
  lemma FdsPost(conns: map<nat, Entry>, cq: seq<Cqe>, openFds: set<int>, c: Cqe)
    requires FdsHold(conns, AcceptFds(cq), openFds) && AcceptFd(c) !in openFds
    ensures FdsHold(conns, AcceptFds(cq + [c]), if AcceptFd(c) >= 0 then openFds + {AcceptFd(c)} else openFds)
  {
    hide AcceptFds, AcceptFd;
    AcceptAppend(cq, c);
  }

  lemma FdsTake(conns: map<nat, Entry>, cq: seq<Cqe>, openFds: set<int>, k: nat)
    requires FdsHold(conns, AcceptFds(cq), openFds) && k < |cq|
    ensures var f, fds := AcceptFd(cq[k]), AcceptFds(RemoveAt(cq, k));
            && (f >= 0 ==> f in openFds && f !in fds && !Owned(conns, f))
            && (forall g :: g in AcceptFds(cq) && g != f ==> g in fds)
            && FdsHold(conns, fds, openFds - {f})
  {
    hide AcceptFds, AcceptFd;
    var fds := AcceptFds(cq);
    AcceptRemove(cq, k);
    var f := fds[k];
    assert f in fds;
    forall g | g in fds && g != f ensures g in RemoveAt(fds, k) {
      var j :| 0 <= j < |fds| && fds[j] == g;
      assert RemoveAt(fds, k)[if j < k then j else j - 1] == g;
    }
  }

  lemma FdsAdopt(conns: map<nat, Entry>, fds: seq<int>, openFds: set<int>, i: nat, e: Entry)
    requires FdsHold(conns, fds, openFds) && i !in conns
    requires e.fd >= 0 && e.fd !in openFds && e.fd !in fds
    ensures FdsHold(conns[i := e], fds, openFds + {e.fd})
  {
    forall f | f in openFds + {e.fd} && f !in fds ensures Owned(conns[i := e], f) {
      if f == e.fd {
        assert i in conns[i := e] && conns[i := e][i].fd == f;
      } else {
        var j :| j in conns && conns[j].fd == f;
        assert j in conns[i := e] && conns[i := e][j].fd == f;
      }
    }
  }
}
