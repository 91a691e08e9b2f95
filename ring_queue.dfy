/**
 * The fixed-capacity message queues of the tunnel sketches: an array of
 * QUEUE_SIZE slots with a head index (next slot to write) and a tail index
 * (next slot to read), both advanced modulo QUEUE_SIZE. One slot always
 * stays free, so "full" is (head + 1) % QUEUE_SIZE == tail and "empty" is
 * tail == head.
 */
module RingQueue {

  /** Position `a` of a ring of `c` slots, for `a` below two turns of the ring. */
  function Wrap(a: int, c: int): (r: int)
    requires 0 <= a < 2 * c
    ensures 0 <= r < c && (r == a || r == a - c)
  {
    if a < c then a else a - c
  }

  /** `Wrap` is the C `%` the sketches compute with. */
  lemma WrapIsMod(a: int, c: int)
    requires 0 <= a < 2 * c
    ensures a % c == Wrap(a, c)
  {
    if c <= a {
      assert a == (a - c) + c;
    }
  }

  class Ring<T(0)> {
    /** QUEUE_SIZE. */
    const capacity: nat
    var slots: array<T>
    var head: int
    var tail: int
    /** The queued messages, oldest first. */
    ghost var items: seq<T>

    ghost predicate Valid()
      reads this, slots
    {
      1 <= capacity && slots.Length == capacity
      && 0 <= head < capacity && 0 <= tail < capacity
      && |items| < capacity && head == Wrap(tail + |items|, capacity)
      && forall i :: 0 <= i < |items| ==> slots[Wrap(tail + i, capacity)] == items[i]
    }

    /** The zero-initialised global array with both indices at 0. */
    constructor(size: nat)
      requires 1 <= size
      ensures Valid() && fresh(slots) && capacity == size
      ensures items == [] && head == 0 && tail == 0
    {
      capacity := size;
      slots := new T[size];
      head, tail := 0, 0;
      items := [];
    }

    /** The queue holds capacity - 1 messages: one more would make head meet tail. */
    predicate Full()
      reads this, slots
      requires Valid()
      ensures Full() <==> |items| == capacity - 1
    {
      WrapIsMod(head + 1, capacity);
      (head + 1) % capacity == tail
    }

    /**
     * addToQueue / addToBleLoraQueue / addToLoraBleQueue: a full queue is
     * left as it is (the message is lost); otherwise the message goes into
     * the slot at head and head moves on.
     */
    method Add(x: T)
      requires Valid()
      modifies this, slots
      ensures Valid() && slots == old(slots) && tail == old(tail)
      ensures old(|items|) == capacity - 1 ==> items == old(items) && head == old(head) && slots[..] == old(slots[..])
      ensures old(|items|) < capacity - 1 ==>
        items == old(items) + [x] && head == (old(head) + 1) % capacity && slots[..] == old(slots[..])[old(head) := x]
    {
      WrapIsMod(head + 1, capacity);
      var next := (head + 1) % capacity;
      if next != tail {
        slots[head] := x;
        head := next;
        items := items + [x];
      }
    }

    /**
     * getFromQueue / getBleLoraMessage / getLoraBleMessage: false on an
     * empty queue; otherwise the oldest message, and tail moves on.
     */
    method Take() returns (ok: bool, x: T)
      requires Valid()
      modifies this
      ensures Valid() && slots == old(slots) && head == old(head)
      ensures ok <==> old(items) != []
      ensures !ok ==> items == old(items) && tail == old(tail)
      ensures ok ==> x == old(items)[0] && items == old(items)[1..] && tail == (old(tail) + 1) % capacity
    {
      if tail != head {
        x := slots[tail];
        assert x == items[0];
        WrapIsMod(tail + 1, capacity);
        tail := (tail + 1) % capacity;
        items := items[1..];
        return true, x;
      }
      ok := false;
      x := *;
    }

    /** `(queueHead - queueTail + QUEUE_SIZE) % QUEUE_SIZE`: the number of queued messages, at most capacity - 1. */
    function Count(): (n: int)
      reads this, slots
      requires Valid()
      ensures n == |items| && 0 <= n < capacity
    {
      WrapIsMod(head - tail + capacity, capacity);
      (head - tail + capacity) % capacity
    }
  }
}
