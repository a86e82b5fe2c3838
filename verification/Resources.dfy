/**
 The shared objects a worker's connections act on: the buffer pool (rust-core/src/uring/buffers.rs), the
 submission queue, the process's descriptors, and the bridge to the tokio tasks
 (rust-core/src/runtime/async_bridge.rs).
 */
module Resources {
  import opened Bytes
  import opened Session
  import opened Counting
  import opened Worker

  const SLOT_BYTES: nat := READ_REGION + WRITE_REGION

  /** `readPtr` and `writePtr` are offsets into the pool's storage. */
  datatype Slot = Slot(idx: nat, readPtr: nat, writePtr: nat)

  predicate SlotFits(s: Slot, storage: array<Byte>) {
    s.writePtr == s.readPtr + READ_REGION && s.readPtr + SLOT_BYTES <= storage.Length
  }

  function SlotAt(idx: nat): Slot {
    Slot(idx, idx * SLOT_BYTES, idx * SLOT_BYTES + READ_REGION)
  }

  /** Regions of different slots never overlap: neither read with read, nor write with write, nor read with write. */
  lemma SlotsApart(i: nat, j: nat)
    requires i < j
    ensures SlotAt(i).readPtr + READ_REGION == SlotAt(i).writePtr
    ensures SlotAt(i).writePtr + WRITE_REGION <= SlotAt(j).readPtr < SlotAt(j).writePtr
  {
    assert (i + 1) * SLOT_BYTES <= j * SLOT_BYTES;
  }

  /** No index twice, and none outside the pool. */
  predicate FreeList(free: seq<nat>) {
    && (forall k :: 0 <= k < |free| ==> free[k] < SLOT_COUNT)
    && (forall j, k :: 0 <= j < k < |free| ==> free[j] != free[k])
  }

  class FixedBuffers {
    const storage: array<Byte>
    var free: seq<nat>

    ghost predicate Valid() reads this {
      storage.Length == SLOT_COUNT * SLOT_BYTES && FreeList(free)
    }

    /** The free list starts in reverse, so that index 0 is handed out first. */
    constructor Register()
      ensures Valid() && fresh(storage)
      ensures free == Initial().free
    {
      storage := new Byte[SLOT_COUNT * SLOT_BYTES];
      free := seq(SLOT_COUNT, i requires 0 <= i < SLOT_COUNT => SLOT_COUNT - 1 - i);
    }

    /** Hands out a slot inside the storage that no one else can be handed until it is released. */
    method Acquire() returns (slot: Option<Slot>)
      requires Valid()
      modifies this
      ensures Valid()
      ensures slot.None? <==> old(free) == []
      ensures slot.None? ==> free == old(free)
      ensures slot.Some? ==>
                && slot.value == SlotAt(slot.value.idx) && SlotFits(slot.value, storage)
                && old(free) == free + [slot.value.idx] && slot.value.idx !in free
    {
      if free == [] {
        return None;
      }
      var idx := free[|free| - 1];
      free := free[..|free| - 1];
      assert (idx + 1) * SLOT_BYTES <= storage.Length;
      return Some(SlotAt(idx));
    }

    method Release(slot: Slot)
      requires Valid() && slot.idx < SLOT_COUNT && slot.idx !in free
      modifies this
      ensures Valid() && free == old(free) + [slot.idx]
    {
      free := free + [slot.idx];
    }
  }

  class SubmissionQueue {
    var entries: seq<Sqe>

    /** `io_uring`'s push: fails when the queue is full. */
    method Push(e: Sqe) returns (ok: bool)
      modifies this
      ensures ok == (|old(entries)| < RING_ENTRIES)
      ensures entries == if ok then old(entries) + [e] else old(entries)
    {
      ok := |entries| < RING_ENTRIES;
      if ok { entries := entries + [e]; }
    }
  }

  /** The process's open descriptors, and those closed so far. */
  class Descriptors {
    var open: set<int>
    var closed: seq<int>

    /** Exactly this descriptor was closed, or none. */
    twostate predicate Closes(fd: Option<int>) reads this {
      match fd
      case None => closed == old(closed) && open == old(open)
      case Some(x) => closed == old(closed) + [x] && open == old(open) - {x}
    }

    method Close(fd: int)
      modifies this
      ensures Closes(Some(fd))
    {
      closed := closed + [fd];
      open := open - {fd};
    }
  }

  /** `tasks` are the futures the runtime is driving; `counter` is the eventfd's. */
  class WorkerBridge {
    var tasks: seq<Task>
    var completions: seq<Completion>
    var counter: nat

    constructor ()
      ensures tasks == [] && completions == [] && counter == 0
    {
      tasks, completions, counter := [], [], 0;
    }

    method Spawn(slotId: nat, req: Bytes, origin: nat)
      modifies this
      ensures tasks == old(tasks) + [Task(slotId, req, origin, false)]
      ensures completions == old(completions) && counter == old(counter)
    {
      tasks := tasks + [Task(slotId, req, origin, false)];
    }

    /** A future resolves: its result goes to the back of the queue, before the eventfd is written. */
    method PushBack(k: nat, bytes: Bytes)
      requires k < |tasks| && !tasks[k].queued
      modifies this
      ensures tasks == old(tasks)[k := old(tasks)[k].(queued := true)]
      ensures completions == old(completions) + [Completion(old(tasks)[k].slotId, bytes, old(tasks)[k].origin)]
      ensures counter == old(counter)
    {
      var t := tasks[k];
      completions := completions + [Completion(t.slotId, bytes, t.origin)];
      tasks := tasks[k := t.(queued := true)];
    }

    method WriteEventfd(k: nat)
      requires k < |tasks| && tasks[k].queued
      modifies this
      ensures tasks == RemoveAt(old(tasks), k) && counter == old(counter) + 1
      ensures completions == old(completions)
    {
      tasks := tasks[..k] + tasks[k + 1..];
      counter := counter + 1;
    }

    method Drain() returns (drained: seq<Completion>)
      modifies this
      ensures drained == old(completions) && completions == []
      ensures tasks == old(tasks) && counter == old(counter)
    {
      drained, completions := completions, [];
    }
  }
}
