/**
 The registry's connection objects over one shared storage (rust-core/src/uring/accept.rs, buffers.rs): what
 each stands for.
 */
module Registry {
  import opened Bytes
  import opened Session
  import opened Ledger
  import opened Worker
  import opened Resources
  import opened Connections

  /** An entry of the registry. */
  datatype Tenant = Tenant(generation: nat, conn: Connection)

  function ObjectsOf(conns: map<nat, Tenant>): set<Connection> {
    set i | i in conns :: conns[i].conn
  }

  lemma OneMoreObject(conns: map<nat, Tenant>, i: nat, t: Tenant)
    requires i !in conns
    ensures ObjectsOf(conns[i := t]) <= ObjectsOf(conns) + {t.conn}
  {
    forall c | c in ObjectsOf(conns[i := t]) ensures c in ObjectsOf(conns) + {t.conn} {
      var j :| j in conns[i := t] && conns[i := t][j].conn == c;
      assert j != i ==> j in conns && conns[j].conn == c;
    }
  }

  /** What the object of an entry stands for, between two completions; `stored` is what the pool's storage holds. */
  ghost predicate Stands(t: Tenant, e: Entry, pool: FixedBuffers, stored: Bytes) reads t.conn {
    var c, s := t.conn, SlotAt(e.slot);
    && c.storage == pool.storage && c.slot == s && c.Live() && s.readPtr + SLOT_BYTES <= |stored|
    && e.generation == t.generation && e.fd == c.fd
    && e.session.conn == Conn(stored[s.readPtr..s.readPtr + c.readFilled],
       stored[s.writePtr..s.writePtr + c.writeFilled],
                              c.writeOffset, c.state, c.closeAfterDrain, c.parkedCloseAfter)
  }

  lemma StandsMeans(t: Tenant, e: Entry, pool: FixedBuffers)
    requires pool.Valid() && e.slot < SLOT_COUNT && t.conn.slot == SlotAt(e.slot) && t.conn.storage == pool.storage
    requires e.generation == t.generation && e.fd == t.conn.fd
    ensures Stands(t, e, pool, pool.storage[..]) <==> t.conn.Live() && t.conn.View() == e.session.conn
  {
    SlotInStorage(e.slot);
  }

  lemma StandsConn(t: Tenant, e: Entry, pool: FixedBuffers, stored: Bytes)
    requires Stands(t, e, pool, stored)
    ensures t.conn.storage == pool.storage && t.conn.slot == SlotAt(e.slot) && t.conn.Live()
            && e.generation == t.generation && e.fd == t.conn.fd
  {
  }

  lemma SlotIndex(idx: nat)
    ensures SlotAt(idx).idx == idx
  {
  }

  lemma SlotInStorage(idx: nat)
    requires idx < SLOT_COUNT
    ensures SlotAt(idx).readPtr + SLOT_BYTES <= SLOT_COUNT * SLOT_BYTES
            && SlotAt(idx).writePtr == SlotAt(idx).readPtr + READ_REGION
  {
  }

  /** Only bytes of slot `a` differ. */
  predicate DiffersAt(before: Bytes, after: Bytes, a: Slot) {
    |before| == |after| && forall k :: 0 <= k < |before| && !(a.readPtr <= k < a.readPtr + SLOT_BYTES) ==>
                             after[k] == before[k]
  }

  /** A connection keeps its bytes while those of another slot change. */
  lemma StandsStill(t: Tenant, e: Entry, pool: FixedBuffers, before: Bytes, after: Bytes, a: Slot)
    requires Stands(t, e, pool, before) && DiffersAt(before, after, a) && a == SlotAt(a.idx) && a.idx != e.slot
    ensures Stands(t, e, pool, after) && a != t.conn.slot
  {
    if a.idx < e.slot { SlotsApart(a.idx, e.slot); } else { SlotsApart(e.slot, a.idx); }
    var c, s := t.conn, t.conn.slot;
    assert after[s.readPtr..s.readPtr + c.readFilled] == before[s.readPtr..s.readPtr + c.readFilled];
    assert after[s.writePtr..s.writePtr + c.writeFilled] == before[s.writePtr..s.writePtr + c.writeFilled];
  }

  /**
   What the kernel has done for a completion: it moved no more than it was asked to, and exactly the
   completion's bytes.
   */
  ghost predicate Landed(conn: Connection, c: Cqe)
    requires conn.Valid()
    reads conn, conn.storage
  {
    conn.KernelKeepsTo(c.result) && (c.result > 0 && !conn.state.AwaitingAsync? ==> conn.Moved(c.result) == c.data)
  }

  /** What a send moved is the front of what was left to send. */
  lemma SendMoved(conn: Connection, result: nat)
    requires conn.Valid() && conn.state.Writing? && 0 < result && conn.writeOffset + result <= conn.writeFilled
    ensures conn.Moved(result) == Drop(conn.View().write, conn.writeOffset)[..result]
  {
    var at, from := conn.slot.writePtr, conn.writeOffset;
    var all := conn.storage[at..at + conn.writeFilled];
    assert all[from..][..result] == all[from..from + result] == conn.storage[at + from..at + from + result];
  }
}
