/** Reusable response slots and their pool (src/production/response_pool.rs). */
module ResponsePool {
  import opened Numbers

  /** What a slot's single lock guards; `W` stands for a task's waker. */
  datatype SlotState<T, W> = SlotState(value: Option<T>, waker: Option<W>)

  function Sent<T, W>(s: SlotState<T, W>, v: T): SlotState<T, W> {
    SlotState(Some(v), None)
  }

  function Polled<T, W>(s: SlotState<T, W>, w: W): SlotState<T, W> {
    if s.value.Some? then s.(value := None) else s.(waker := Some(w))
  }

  /** A value that was sent is taken by the next poll and by no later one, and sending leaves no waker to be
      woken again. */
  lemma TakenOnce<T, W>(s: SlotState<T, W>, v: T, w: W)
    ensures var sent := Sent(s, v);
            sent.value == Some(v) && sent.waker == None && Polled(sent, w) == SlotState(None, None)
  {
  }

  class ResponseSlot<T(==), W(==)> {
    var state: SlotState<T, W>

    constructor ()
      ensures state == SlotState(None, None)
    {
      state := SlotState(None, None);
    }

    /** Stores the value; the waker it returns is the one to wake after the lock is released. */
    method Send(v: T) returns (toWake: Option<W>)
      modifies this
      ensures state == Sent(old(state), v) && toWake == old(state.waker)
    {
      toWake := state.waker;
      state := SlotState(Some(v), None);
    }

    method Reset()
      modifies this
      ensures state == SlotState(None, None)
    {
      state := SlotState(None, None);
    }

    /** Takes the value, or leaves the caller's waker behind. */
    method Poll(w: W) returns (ready: Option<T>)
      modifies this
      ensures ready == old(state.value) && state == Polled(old(state), w)
    {
      ready := state.value;
      if ready.Some? {
        state := state.(value := None);
      } else {
        state := state.(waker := Some(w));
      }
    }
  }

  class ResponsePool<T(==), W(==)> {
    var pool: seq<ResponseSlot<T, W>>
    const capacity: nat

    ghost predicate Valid()
      reads this
    {
      |pool| <= capacity
    }

    ghost predicate AllEmpty()
      reads this, pool
    {
      forall s :: s in pool ==> s.state == SlotState(None, None)
    }

    ghost predicate Distinct()
      reads this
    {
      forall i, j :: 0 <= i < j < |pool| ==> pool[i] != pool[j]
    }

    constructor (capacity: nat, prewarm: nat)
      requires 0 < capacity
      ensures Valid() && AllEmpty() && Distinct() && this.capacity == capacity && fresh(pool)
      ensures |pool| == if prewarm <= capacity then prewarm else capacity
    {
      this.capacity := capacity;
      pool := [];
      new;
      var i := 0;
      while i < prewarm
        invariant i <= prewarm && Valid() && AllEmpty() && Distinct() && fresh(pool)
        invariant |pool| == if i <= capacity then i else capacity
      {
        var slot := new ResponseSlot<T, W>();
        if |pool| < capacity { pool := pool + [slot]; }
        i := i + 1;
      }
    }

    /** The oldest pooled slot, or a new one. If the pooled slots were empty the slot is empty, and
        if they were distinct it has left the pool. */
    method Acquire() returns (slot: ResponseSlot<T, W>)
      requires Valid()
      modifies this
      ensures Valid()
      ensures if old(pool) == [] then pool == [] && fresh(slot) else [slot] + pool == old(pool)
      ensures old(AllEmpty()) ==> AllEmpty() && slot.state == SlotState(None, None)
      ensures old(Distinct()) ==> Distinct() && slot !in pool
    {
      if pool == [] {
        slot := new ResponseSlot<T, W>();
      } else {
        slot := pool[0];
        pool := pool[1..];
      }
    }

    /** Resets the slot and queues it, unless the queue is full. */
    method Release(slot: ResponseSlot<T, W>)
      requires Valid()
      modifies this, slot
      ensures Valid() && slot.state == SlotState(None, None)
      ensures pool == if |old(pool)| < capacity then old(pool) + [slot] else old(pool)
      ensures old(AllEmpty()) ==> AllEmpty()
      ensures old(Distinct()) && slot !in old(pool) ==> Distinct()
    {
      slot.Reset();
      if |pool| < capacity { pool := pool + [slot]; }
    }
  }
}
