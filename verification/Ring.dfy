/**
 The ring storage shared by the queues: `count` items from `head` on, wrapping at the end.
 */
module Ring {

  /** The cell of the k-th item. */
  function Cell(head: nat, k: nat, n: nat): nat {
    if head + k < n then head + k else head + k - n
  }

  lemma NextIndex(x: nat, n: nat)
    requires x < n
    ensures (x + 1) % n == if x + 1 < n then x + 1 else 0
  {
    if x + 1 == n {
      assert n % n == 0;
    }
  }

  /** Whether `tail` is the cell behind the last of `count` items. */
  predicate TailFits(head: nat, tail: nat, count: nat, n: nat) {
    head < n && tail < n && count <= n && tail == if count == n then head else Cell(head, count, n)
  }

  function Contents<T>(storage: seq<T>, head: nat, count: nat): seq<T>
    requires head < |storage| && count <= |storage|
  {
    seq(count, k requires 0 <= k < count => storage[Cell(head, k, |storage|)])
  }

  /** Writing at the tail appends. */
  lemma Pushed<T>(storage: seq<T>, head: nat, tail: nat, count: nat, item: T)
    requires TailFits(head, tail, count, |storage|) && count < |storage|
    ensures TailFits(head, (tail + 1) % |storage|, count + 1, |storage|)
    ensures Contents(storage[tail := item], head, count + 1) == Contents(storage, head, count) + [item]
  {
    NextIndex(tail, |storage|);
    assert forall k :: 0 <= k < count ==> Cell(head, k, |storage|) != tail;
  }

  /** Advancing the head removes the first item. */
  lemma Popped<T>(storage: seq<T>, head: nat, tail: nat, count: nat)
    requires TailFits(head, tail, count, |storage|) && count > 0
    ensures TailFits((head + 1) % |storage|, tail, count - 1, |storage|)
    ensures Contents(storage, head, count) == [storage[head]] + Contents(storage, (head + 1) % |storage|, count - 1)
  {
    NextIndex(head, |storage|);
    var next := if head + 1 < |storage| then head + 1 else 0;
    assert forall k :: 0 <= k < count - 1 ==> Cell(next, k, |storage|) == Cell(head, k + 1, |storage|);
    assert Contents(storage, head, count)[0] == storage[head];
  }
}
