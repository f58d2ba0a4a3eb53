/**
 The fixed-size event queue (`utility_event_queue.c`): a sequence of at most `capacity`
 items kept in a ring.
 */
module EventQueue {
  import opened Ring

  datatype Result = Ok | Empty | Full

  class Queue<T(0)> {
    const storage: array<T>
    var head: nat
    var tail: nat
    var count: nat

    ghost predicate Valid()
      reads this, storage
    {
      TailFits(head, tail, count, storage.Length)
    }

    ghost function Items(): seq<T>
      reads this, storage
      requires Valid()
    {
      Contents(storage[..], head, count)
    }

    constructor (capacity: nat)
      requires capacity > 0
      ensures Valid() && fresh(storage) && storage.Length == capacity && Items() == []
    {
      storage := new T[capacity];
      head, tail, count := 0, 0, 0;
    }

    method Push(item: T) returns (result: Result)
      requires Valid()
      modifies this, storage
      ensures Valid()
      ensures result == if |old(Items())| == storage.Length then Full else Ok
      ensures Items() == if result == Ok then old(Items()) + [item] else old(Items())
    {
      if count == storage.Length {
        return Full;
      }
      Pushed(storage[..], head, tail, count, item);
      storage[tail] := item;
      assert storage[..] == old(storage[..])[old(tail) := item];
      tail := (tail + 1) % storage.Length;
      count := count + 1;
      return Ok;
    }

    method Pop(default: T) returns (result: Result, item: T)
      requires Valid()
      modifies this
      ensures Valid()
      ensures result == if old(Items()) == [] then Empty else Ok
      ensures result == Ok ==> old(Items()) == [item] + Items()
      ensures result == Empty ==> Items() == old(Items()) && item == default
    {
      if count == 0 {
        return Empty, default;
      }
      Popped(storage[..], head, tail, count);
      item := storage[head];
      head := (head + 1) % storage.Length;
      count := count - 1;
      return Ok, item;
    }

    method Peek(default: T) returns (result: Result, item: T)
      requires Valid()
      ensures result == if Items() == [] then Empty else Ok
      ensures item == if Items() == [] then default else Items()[0]
    {
      if count == 0 {
        return Empty, default;
      }
      return Ok, storage[head];
    }

    method Clear()
      requires Valid()
      modifies this
      ensures Valid() && Items() == []
    {
      head, tail, count := 0, 0, 0;
    }
  }
}
