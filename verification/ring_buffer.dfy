/** `won::memory::RingBuffer<T>`: a fixed pool of slots handed out by a
    shared ticket. The ticket is a `Size`, so it wraps at 2^64; slots are
    named by their index in the pool. */
module RingBuffer {
  import opened Common
  import MathUtils

  datatype RingBuffer = RingBuffer(capacity: nat, ticket: nat)

  /** The constructor: `capacity` slots, ticket 0. */
  function New(capacity: nat): (b: RingBuffer)
    ensures b.capacity == capacity && b.ticket == 0
  {
    RingBuffer(capacity, 0)
  }

  /** `Allocate(count)`: take the ticket, advance it by `count` (mod 2^64),
      and return the slot the old ticket lands on. A zero capacity divides
      by zero in C++, so it is excluded. */
  function Allocate(b: RingBuffer, count: nat): (r: (nat, RingBuffer))
    requires b.capacity > 0 && b.ticket < U64 && count < U64
    ensures r.0 < b.capacity && r.0 == b.ticket % b.capacity
    ensures r.1.capacity == b.capacity && r.1.ticket < U64
    ensures b.ticket + count < U64 ==> r.1.ticket == b.ticket + count
    ensures b.ticket + count >= U64 ==> r.1.ticket == b.ticket + count - U64
  {
    MathUtils.DivModUnique(b.ticket + count, U64, if b.ticket + count < U64 then 0 else 1,
      if b.ticket + count < U64 then b.ticket + count else b.ticket + count - U64);
    (b.ticket % b.capacity, b.(ticket := (b.ticket + count) % U64))
  }

  /** The slots of `n` successive allocations of `count` each. */
  function AllocateMany(b: RingBuffer, count: nat, n: nat): (r: (seq<nat>, RingBuffer))
    requires b.capacity > 0 && b.ticket < U64 && count < U64
    ensures |r.0| == n && r.1.capacity == b.capacity && r.1.ticket < U64
    decreases n
  {
    if n == 0 then ([], b)
    else
      var (slot, b1) := Allocate(b, count);
      var (rest, b2) := AllocateMany(b1, count, n - 1);
      ([slot] + rest, b2)
  }

  /** Before the ticket wraps, the `k`-th of a run of allocations lands on
      slot `(ticket + k * count) mod capacity`, and the ticket ends `n *
      count` further on. */
  lemma {:induction false} AllocateManySlots(b: RingBuffer, count: nat, n: nat)
    requires b.capacity > 0 && count < U64 && b.ticket + n * count < U64
    ensures var (slots, b') := AllocateMany(b, count, n);
      && b'.ticket == b.ticket + n * count
      && forall k :: 0 <= k < n ==> slots[k] == (b.ticket + k * count) % b.capacity
    decreases n
  {
    if n > 0 {
      assert b.ticket + count <= b.ticket + n * count by {
        MathUtils.MulLe(1, n, count);
      }
      var b1 := Allocate(b, count).1;
      assert b1.ticket == b.ticket + count;
      assert b1.ticket + (n - 1) * count == b.ticket + n * count;
      AllocateManySlots(b1, count, n - 1);
      var slots := AllocateMany(b, count, n).0;
      var rest := AllocateMany(b1, count, n - 1).0;
      assert slots == [b.ticket % b.capacity] + rest;
      forall k | 1 <= k < n
        ensures slots[k] == (b.ticket + k * count) % b.capacity
      {
        assert slots[k] == rest[k - 1];
        assert b1.ticket + (k - 1) * count == b.ticket + k * count;
      }
    }
  }

  /** A fresh buffer's first allocation is slot 0. */
  lemma FirstSlotIsZero(capacity: nat, count: nat)
    requires capacity > 0 && count < U64
    ensures Allocate(New(capacity), count).0 == 0
  {
  }
}
