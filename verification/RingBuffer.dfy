/** The fixed-size circular buffer behind each context's event history. */
module RingBuffers {
  import opened Events

  lemma Wrap(x: nat, c: nat)
    requires x < 2 * c
    ensures x % c == if x < c then x else x - c
  {
    if x >= c { assert x == 1 * c + (x - c); }
  }

  class RingBuffer<T(0)> {
    const capacity: nat
    const buffer: array<T>
    var head: nat
    var size: nat

    ghost predicate Valid()
      reads this
    {
      && 0 < capacity == buffer.Length
      && head < capacity && size <= capacity
      && (size < capacity ==> head == size)
    }

    /** The elements, oldest first. */
    ghost function Contents(): seq<T>
      requires Valid()
      reads this, buffer
    {
      if size < capacity then buffer[..size] else buffer[head..] + buffer[..head]
    }

    constructor (capacity: nat)
      requires capacity > 0
      ensures Valid() && Contents() == [] && this.capacity == capacity && fresh(buffer)
    {
      this.capacity := capacity;
      buffer := new T[capacity];
      head, size := 0, 0;
    }

    /** Appends an element, overwriting the oldest one when full. */
    method Push(item: T)
      requires Valid()
      modifies this, buffer
      ensures Valid() && Contents() == LastN(old(Contents()) + [item], capacity)
    {
      ghost var before, h := Contents(), head;
      Wrap(head + 1, capacity);
      buffer[head] := item;
      head := (head + 1) % capacity;
      if size < capacity {
        size := size + 1;
        assert buffer[..h + 1] == old(buffer[..h]) + [item];
        if size == capacity { assert Contents() == buffer[..h + 1]; }
      } else {
        assert LastN(before + [item], capacity) == before[1..] + [item];
        assert buffer[h + 1..] == old(buffer[h + 1..]) && buffer[..h] == old(buffer[..h]);
        assert old(buffer[h..])[1..] == old(buffer[h + 1..]);
        if h + 1 < capacity {
          assert buffer[..h + 1] == buffer[..h] + [item];
        } else {
          assert before == old(buffer[h..]) + old(buffer[..h]);
          assert Contents() == buffer[..h] + [item];
        }
      }
    }

    method GetAll() returns (all: seq<T>)
      requires Valid()
      ensures all == Contents()
    {
      if size == 0 { return []; }
      all := [];
      if size < capacity {
        for i := 0 to size
          invariant all == buffer[..i]
        {
          all := all + [buffer[i]];
        }
      } else {
        for i := 0 to capacity
          invariant all == Contents()[..i]
        {
          Wrap(head + i, capacity);
          var idx := (head + i) % capacity;
          all := all + [buffer[idx]];
        }
      }
    }

    method Clear()
      requires Valid()
      modifies this
      ensures Valid() && Contents() == []
    {
      head, size := 0, 0;
    }
  }

  /** Pushing into a truncated history is truncating the pushed history. */
  lemma LastNAbsorbs<T>(history: seq<T>, x: T, n: nat)
    requires n > 0
    ensures LastN(LastN(history, n) + [x], n) == LastN(history + [x], n)
  {
  }
}
