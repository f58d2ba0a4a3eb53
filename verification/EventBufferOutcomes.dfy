/**
 When the calls on envelopes succeed, and what they leave behind: the results, by what is owned,
 queued, on loan and free.
 */
module EventBufferOutcomes {
  import opened Wrappers
  import opened Arena
  import opened ArenaRefinement
  import opened EventBuffer
  import opened EventBufferConservation

  /** The arena has a free slot and a free interval of that many bytes. */
  ghost predicate HasRoom(a: Arena, size: nat) {
    (exists i :: 0 <= i < |a.slots| && !Active(a.slots[i])) && exists offset: nat :: Fits(a.slots, |a.bytes|, size, offset)
  }

  predicate SameElsewhere(cells: seq<Message>, next: seq<Message>, capacity: nat, at: nat) {
    |next| == |cells| && forall p :: capacity <= p < |cells| && p != at ==> next[p] == cells[p]
  }

  lemma AllocRoom(a: Arena, size: nat)
    requires Valid(a) && size > 0
    ensures Step(a, Alloc(size)).1.Handle? <==> HasRoom(a, size)
  {
    AllocFailsExactly(a, size);
    hide Fits, Apart;
  }

  /** What a creation is to do: `next` and `result` follow from what is owned and what is free. */
  ghost predicate Created(sys: System, next: System, result: Result, at: nat, eventId: nat, sourceId: nat, source: seq<bv8>)
    requires Sized(sys) && at < |sys.cells|
  {
    && Sized(next)
    && (result == BadArgument <==> sys.cells[at].owns || source == [])
    && (result == Ok <==> !sys.cells[at].owns && source != [] && HasRoom(sys.arena, |source|))
    && (result == Full <==> !sys.cells[at].owns && source != [] && !HasRoom(sys.arena, |source|))
    && SameElsewhere(sys.cells, next.cells, 0, at) && next.ring == sys.ring
    && (result == Ok ==> Holds(sys, next, at, eventId, sourceId, source))
    && (result != Ok ==> Abs(next.arena) == Abs(sys.arena) && next.cells == sys.cells)
  }

  /** Cell `at` owns a buffer that is new and holds `source`; no other buffer changed. */
  ghost predicate Holds(sys: System, next: System, at: nat, eventId: nat, sourceId: nat, source: seq<bv8>)
    requires Sized(sys) && Sized(next)
  {
    && at < |next.cells| && IsOwned(next.cells[at], at) && next.cells[at].length == |source|
    && next.cells[at].eventId == eventId && next.cells[at].sourceId == sourceId
    && next.cells[at].handle !in Abs(sys.arena)
    && Abs(next.arena) == Abs(sys.arena)[next.cells[at].handle := Buffer(source, |source|, false)]
  }

  /**
   An envelope is created if and only if its cell owns nothing, there are bytes to copy, and the
   arena has a slot and an interval for them. It then owns a new buffer that holds the bytes, and
   no other cell or buffer changes.
   */
  lemma CreateExactly(sys: System, at: nat, eventId: nat, sourceId: nat, source: seq<bv8>)
    requires Inv(sys) && sys.ring.capacity <= at < |sys.cells|
    ensures var (next, result) := CreateCopy(sys, at, eventId, sourceId, source);
            Created(sys, next, result, at, eventId, sourceId, source)
  {
    hide Valid, Step, Abs, Ownership, RingInv, RingOk, HasRoom, Lookup, Fits;
    if !sys.cells[at].owns && source != [] {
      AllocRoom(sys.arena, |source|);
      if HasRoom(sys.arena, |source|) {
        CreateEffect(sys.arena, source);
      } else {
        RefusedEffect(sys.arena, source);
      }
    }
  }

  lemma OwnedIffOwns(sys: System, at: nat)
    requires Inv(sys) && at < |sys.cells|
    ensures IsOwned(sys.cells[at], at) <==> sys.cells[at].owns
    ensures !sys.cells[at].owns ==> sys.cells[at] == EMPTY
  {
    hide Valid, Abs, Lookup;
  }

  ghost predicate Pushed(sys: System, next: System, result: Result, at: nat)
    requires Sized(sys) && at < |sys.cells|
  {
    var queued, owns := Queued(sys.cells, sys.ring), sys.cells[at].owns;
    && Sized(next)
    && (result == BadArgument <==> !owns)
    && (result == Full <==> owns && |queued| == sys.ring.capacity)
    && (result == Ok <==> owns && |queued| < sys.ring.capacity)
    && (result == Ok ==> Queued(next.cells, next.ring) == queued + [Bare(sys.cells[at])]
                         && SameElsewhere(sys.cells, next.cells, sys.ring.capacity, at)
                         && next.cells[at] == EMPTY && next.arena == sys.arena)
    && (result != Ok ==> next == sys)
  }

  /** What the call does to the cells, the queue aside. */
  lemma PushCells(sys: System, at: nat)
    requires Sized(sys) && sys.ring.capacity <= at < |sys.cells|
    ensures var (next, result) := PushMove(sys, at); var r := sys.ring;
            && result == (if !IsOwned(sys.cells[at], at) then BadArgument else if r.count == r.capacity then Full else Ok)
            && next.arena == sys.arena && (result != Ok ==> next == sys)
            && (result == Ok ==> next.cells == Moved(sys.cells, at, r.tail))
  {
    hide Valid, Moved, IsOwned;
  }

  lemma PushedBy(sys: System, next: System, result: Result, at: nat)
    requires Sized(sys) && Sized(next) && sys.ring.capacity <= at < |sys.cells| && sys.ring.tail < sys.ring.capacity
    requires sys.ring.count <= sys.ring.capacity && |Queued(sys.cells, sys.ring)| == sys.ring.count
    requires result == if !sys.cells[at].owns then BadArgument else if sys.ring.count == sys.ring.capacity then Full else Ok
    requires next.arena == sys.arena && (result != Ok ==> next == sys)
    requires result == Ok ==>
               && next.cells == Moved(sys.cells, at, sys.ring.tail)
               && Queued(next.cells, next.ring) == Queued(sys.cells, sys.ring) + [Bare(sys.cells[at])]
    ensures Pushed(sys, next, result, at)
  {
    hide Valid, Queued, Moved, RingOk;
    if result == Ok {
      MovedCells(sys.cells, at, sys.ring.tail);
    }
  }

  /** An envelope is pushed if and only if its cell owns a buffer and the queue is not full. */
  lemma PushExactly(sys: System, at: nat)
    requires Inv(sys) && sys.ring.capacity <= at < |sys.cells|
    ensures Sized(sys) && Pushed(sys, PushMove(sys, at).0, PushMove(sys, at).1, at)
  {
    InvSized(sys);
    RingBounds(sys);
    OwnedIffOwns(sys, at);
    PushKeeps(sys, at);
    InvSized(PushMove(sys, at).0);
    hide Inv, Sized, Queued, RingOk, PushMove, IsOwned, Pushed;
    PushCells(sys, at);
    QueuedLength(sys.cells, sys.ring);
    PushedBy(sys, PushMove(sys, at).0, PushMove(sys, at).1, at);
  }

  lemma InvSized(sys: System)
    requires Inv(sys)
    ensures Sized(sys) && RingOk(sys.ring) && sys.ring.capacity <= |sys.cells|
  {
    hide Valid, Abs, Ownership, RingInv, RingOk;
  }

  lemma RingBounds(sys: System)
    requires Inv(sys)
    ensures sys.ring.count <= sys.ring.capacity <= |sys.cells|
    ensures sys.ring.tail < sys.ring.capacity && sys.ring.head < sys.ring.capacity
  {
    hide Valid, Abs, Ownership, RingInv;
  }

  lemma QueuedLength(cells: seq<Message>, r: Ring)
    requires RingOk(r) && r.capacity <= |cells|
    ensures |Queued(cells, r)| == r.count
  {
  }

  ghost predicate Taken(sys: System, next: System, result: Result, at: nat)
    requires Sized(sys) && at < |sys.cells|
  {
    var queued, owns := Queued(sys.cells, sys.ring), sys.cells[at].owns;
    && Sized(next)
    && (result == BadArgument <==> owns)
    && (result == QueueEmpty <==> !owns && queued == [])
    && (result == Ok <==> !owns && queued != [])
    && (result == Ok ==> SameElsewhere(sys.cells, next.cells, sys.ring.capacity, at)
                         && queued == [Bare(next.cells[at])] + Queued(next.cells, next.ring)
                         && IsOwned(next.cells[at], at) && next.arena == sys.arena)
    && (result != Ok ==> next == sys)
  }

  lemma PopCells(sys: System, at: nat)
    requires Sized(sys) && sys.ring.capacity <= at < |sys.cells|
    ensures var (next, result) := PopMove(sys, at); var r := sys.ring;
            && result == (if sys.cells[at].owns then BadArgument else if r.count == 0 then QueueEmpty else Ok)
            && next.arena == sys.arena && (result != Ok ==> next == sys)
            && (result == Ok ==> next.cells == Moved(sys.cells, r.head, at))
  {
    hide Valid, Moved, Popped;
  }

  lemma TakenBy(sys: System, next: System, result: Result, at: nat)
    requires Sized(sys) && Sized(next) && sys.ring.capacity <= at < |sys.cells| && sys.ring.head < sys.ring.capacity
    requires |Queued(sys.cells, sys.ring)| == sys.ring.count
    requires result == if sys.cells[at].owns then BadArgument else if sys.ring.count == 0 then QueueEmpty else Ok
    requires next.arena == sys.arena && (result != Ok ==> next == sys)
    requires result == Ok ==>
               && next.cells == Moved(sys.cells, sys.ring.head, at)
               && IsOwned(next.cells[at], at)
               && Queued(sys.cells, sys.ring) == [Bare(next.cells[at])] + Queued(next.cells, next.ring)
    ensures Taken(sys, next, result, at)
  {
    hide Valid, Queued, Moved, RingOk, IsOwned;
    if result == Ok {
      MovedCells(sys.cells, sys.ring.head, at);
    }
  }

  /** An envelope is popped if and only if the cell owns nothing and the queue is not empty. */
  lemma PopExactly(sys: System, at: nat)
    requires Inv(sys) && sys.ring.capacity <= at < |sys.cells|
    ensures Sized(sys) && Taken(sys, PopMove(sys, at).0, PopMove(sys, at).1, at)
  {
    InvSized(sys);
    RingBounds(sys);
    HeadOwned(sys);
    PopKeeps(sys, at);
    InvSized(PopMove(sys, at).0);
    hide Inv, Sized, Queued, RingOk, PopMove, IsOwned, Taken, Moved;
    PopCells(sys, at);
    QueuedLength(sys.cells, sys.ring);
    if PopMove(sys, at).1 == Ok {
      MovedCells(sys.cells, sys.ring.head, at);
      OwnedIffOwns(PopMove(sys, at).0, at);
    }
    TakenBy(sys, PopMove(sys, at).0, PopMove(sys, at).1, at);
  }

  lemma HeadOwned(sys: System)
    requires Inv(sys)
    ensures sys.ring.count > 0 ==> sys.cells[sys.ring.head].owns
  {
    hide Valid, Abs, Ownership, RingInv;
    if sys.ring.count > 0 {
      HeadIsOwned(sys.cells, sys.ring);
    }
  }

  /** The envelope's buffer is mapped by someone. */
  ghost predicate OnLoan(sys: System, m: Message)
    requires Valid(sys.arena)
  {
    m.handle in Abs(sys.arena) && Abs(sys.arena)[m.handle].mapped
  }

  ghost predicate Freed(sys: System, next: System, result: Result, at: nat)
    requires Sized(sys) && at < |sys.cells|
  {
    var owns := sys.cells[at].owns;
    && Sized(next) && next.ring == sys.ring
    && (result == BadArgument <==> !owns)
    && (result == Locked <==> owns && OnLoan(sys, sys.cells[at]))
    && (result == Ok <==> owns && !OnLoan(sys, sys.cells[at]))
    && (result == Ok ==> next.cells == sys.cells[at := EMPTY] && Abs(next.arena) == Abs(sys.arena) - {sys.cells[at].handle})
    && (result != Ok ==> next.cells == sys.cells && Abs(next.arena) == Abs(sys.arena))
  }

  lemma ReleaseCells(sys: System, at: nat)
    requires Sized(sys) && at < |sys.cells|
    ensures var (next, result) := ReleaseAt(sys, at); var reply := Step(sys.arena, Free(sys.cells[at].handle)).1;
            if !IsOwned(sys.cells[at], at) then next == sys && result == BadArgument
            else && next.arena == Step(sys.arena, Free(sys.cells[at].handle)).0 && next.ring == sys.ring
                 && result == (if reply == Done then Ok else Mapped(reply))
                 && next.cells == if reply == Done then sys.cells[at := EMPTY] else sys.cells
  {
    hide Valid, Step, IsOwned, RingOk, Mapped;
  }

  /** What freeing does, put together. */
  lemma FreedBy(sys: System, next: System, result: Result, at: nat, reply: Reply)
    requires Sized(sys) && Sized(next) && at < |sys.cells| && next.ring == sys.ring
    requires !sys.cells[at].owns ==> next == sys && result == BadArgument
    requires sys.cells[at].owns ==>
               var h := sys.cells[at].handle; var m := Abs(sys.arena);
               && h in m && reply == (if m[h].mapped then Failed(Busy) else Done)
               && result == (if reply == Done then Ok else Mapped(reply))
               && next.cells == (if reply == Done then sys.cells[at := EMPTY] else sys.cells)
               && Abs(next.arena) == if m[h].mapped then m else m - {h}
    ensures Freed(sys, next, result, at)
  {
    hide Valid, Abs, RingOk, Lookup;
  }

  lemma ReleaseSized(sys: System, at: nat)
    requires Inv(sys) && at < |sys.cells|
    ensures Sized(sys) && Sized(ReleaseAt(sys, at).0)
    ensures IsOwned(sys.cells[at], at) <==> sys.cells[at].owns
    ensures sys.cells[at].owns ==> sys.cells[at].handle in Abs(sys.arena)
  {
    hide Valid, Step, Abs, Ownership, RingInv, RingOk, Lookup, ReleaseAt, IsOwned;
    ReleaseAtSized(sys, at);
    OwnedIffOwns(sys, at);
    if sys.cells[at].owns {
      OwnedFacts(sys, at);
    }
  }

  lemma SizedValid(sys: System)
    requires Sized(sys)
    ensures Valid(sys.arena)
  {
    hide Valid, RingOk;
  }

  /** A cell is released if and only if it owns a buffer that is not on loan; exactly that buffer is freed. */
  lemma ReleaseExactly(sys: System, at: nat)
    requires Inv(sys) && at < |sys.cells|
    ensures Sized(sys) && Freed(sys, ReleaseAt(sys, at).0, ReleaseAt(sys, at).1, at)
  {
    ReleaseSized(sys, at);
    SizedValid(sys);
    ReleaseCells(sys, at);
    hide Valid, Step, Abs, Inv, Sized, Lookup, IsOwned, ReleaseAt, Freed;
    var reply := Step(sys.arena, Free(sys.cells[at].handle)).1;
    if sys.cells[at].owns {
      FreeEffect(sys.arena, sys.cells[at].handle);
    }
    FreedBy(sys, ReleaseAt(sys, at).0, ReleaseAt(sys, at).1, at, reply);
  }

  /** After the release of the head the rest of the queue is as before. */
  lemma RestStays(sys: System, next: System)
    requires Inv(sys) && sys.ring.count > 0 && ReleaseAt(sys, sys.ring.head) == (next, Ok) && Sized(next)
    ensures var rest := next.(ring := Popped(next.ring));
            && Inv(rest) && rest.ring.capacity == sys.ring.capacity && rest.ring.count == sys.ring.count - 1
            && Queued(sys.cells, sys.ring) == [Bare(sys.cells[sys.ring.head])] + Queued(rest.cells, rest.ring)
            && rest.cells == sys.cells[sys.ring.head := EMPTY]
  {
    hide Valid, Abs, Lookup, Ownership, RingInv, Queued, ReleaseAt, Popped;
    HeadIsOwned(sys.cells, sys.ring);
    ReleaseEffect(sys, sys.ring.head);
    PoppedOk(sys.ring);
    HeadRing(sys.cells, sys.ring, next.cells);
  }

  /** What is queued behind the head is on loan as before. */
  lemma LoansStay(sys: System, next: System)
    requires Inv(sys) && sys.ring.count > 0 && ReleaseAt(sys, sys.ring.head) == (next, Ok) && Sized(next)
    ensures Inv(next.(ring := Popped(next.ring))) && next.ring == sys.ring
    ensures var rest := next.(ring := Popped(next.ring));
            forall m :: m in Queued(rest.cells, rest.ring) ==> (OnLoan(rest, m) <==> OnLoan(sys, m))
  {
    RestStays(sys, next);
    ReleaseExactly(sys, sys.ring.head);
    HeadOwned(sys);
    RingBounds(sys);
    InvSized(next.(ring := Popped(next.ring)));
    hide Inv, Valid, Abs, Lookup, RingOk, Queued, ReleaseAt, Popped, Moved;
    var rest, head := next.(ring := Popped(next.ring)), sys.ring.head;
    forall m | m in Queued(rest.cells, rest.ring)
      ensures OnLoan(rest, m) <==> OnLoan(sys, m)
    {
      QueuedOwns(rest, m);
      OthersDiffer(sys, head, m.handle);
    }
  }

  lemma QueuedOwns(sys: System, m: Message)
    requires Inv(sys) && m in Queued(sys.cells, sys.ring)
    ensures m.handle in OwnedHandles(sys.cells)
  {
    var r := sys.ring;
    var k :| 0 <= k < r.count && m == Queued(sys.cells, r)[k];
    WindowHolds(sys.cells, r, k);
    hide Valid, Abs, Lookup, RingInv;
    assert sys.cells[Wrap(r, k)].owns;
  }

  lemma WindowHolds(cells: seq<Message>, r: Ring, k: nat)
    requires RingInv(cells, r) && k < r.count
    ensures Wrap(r, k) < r.capacity && cells[Wrap(r, k)].owns
  {
    assert InWindow(r, Wrap(r, k));
  }

  lemma OthersDiffer(sys: System, at: nat, handle: nat)
    requires Inv(sys) && at < |sys.cells| && sys.cells[at].owns && handle in OwnedHandles(sys.cells[at := EMPTY])
    ensures handle != sys.cells[at].handle
  {
    hide Valid, Abs, Lookup, RingInv;
    HandlesRemove(sys.cells, at);
  }

  ghost predicate FreedUpTo(sys: System, next: System, result: Result, k: nat)
    requires Sized(sys)
  {
    var queued := Queued(sys.cells, sys.ring);
    && Sized(next) && k <= |queued| && (forall i :: 0 <= i < k ==> !OnLoan(sys, queued[i]))
    && (k < |queued| ==> OnLoan(sys, queued[k]))
    && result == (if k == |queued| then Ok else Locked)
    && Queued(next.cells, next.ring) == queued[k..]
  }

  /** Freeing the head and going on behind it. */
  lemma FreedOneMore(sys: System, rest: System, next: System, result: Result, k: nat)
    requires Sized(sys) && Sized(rest) && FreedUpTo(rest, next, result, k)
    requires var left := Queued(rest.cells, rest.ring); var queued := Queued(sys.cells, sys.ring);
             && |queued| == |left| + 1 && queued[1..] == left && !OnLoan(sys, queued[0])
             && forall m :: m in left ==> (OnLoan(rest, m) <==> OnLoan(sys, m))
    ensures FreedUpTo(sys, next, result, k + 1)
  {
    hide Valid, OnLoan, Queued;
    var left, queued := Queued(rest.cells, rest.ring), Queued(sys.cells, sys.ring);
    assert forall i :: 0 < i < |queued| ==> queued[i] == left[i - 1] && left[i - 1] in left;
    assert queued[k + 1..] == left[k..];
  }

  /**
   Releasing the queue frees its envelopes from the first on and stops at the first one on loan:
   that one and those behind it stay queued, and the result is Ok if and only if there is none.
   */
  lemma {:induction false} ReleaseAllExactly(sys: System) returns (k: nat)
    requires Inv(sys)
    ensures FreedUpTo(sys, ReleaseQueue(sys).0, ReleaseQueue(sys).1, k)
    decreases sys.ring.count
  {
    k := 0;
    QueuedLength(sys.cells, sys.ring);
    if sys.ring.count > 0 {
      HeadIsOwned(sys.cells, sys.ring);
      ReleaseExactly(sys, sys.ring.head);
      ReleaseAtSized(sys, sys.ring.head);
      HeadIsFirst(sys, sys.ring.head);
      hide Valid, Abs, Lookup, ReleaseAt, RingInv, RingOk, Queued, Ownership, Popped, FreedUpTo, OnLoan;
      var (next, result) := ReleaseAt(sys, sys.ring.head);
      if result == Ok {
        RestStays(sys, next);
        LoansStay(sys, next);
        var rest := next.(ring := Popped(next.ring));
        k := ReleaseAllExactly(rest);
        FreedOneMore(sys, rest, ReleaseQueue(rest).0, ReleaseQueue(rest).1, k);
        k := k + 1;
      } else {
        FreedNone(sys, next);
      }
    }
  }

  lemma FreedNone(sys: System, next: System)
    requires Sized(sys) && Sized(next) && next.cells == sys.cells && next.ring == sys.ring && sys.ring.count > 0
    requires OnLoan(sys, Queued(sys.cells, sys.ring)[0])
    ensures FreedUpTo(sys, next, Locked, 0)
  {
    hide OnLoan;
  }

  lemma HeadIsFirst(sys: System, head: nat)
    requires Sized(sys) && RingInv(sys.cells, sys.ring) && sys.ring.count > 0 && head == sys.ring.head
    ensures |Queued(sys.cells, sys.ring)| > 0 && Queued(sys.cells, sys.ring)[0] == Bare(sys.cells[head])
    ensures OnLoan(sys, Bare(sys.cells[head])) <==> OnLoan(sys, sys.cells[head])
  {
    hide Valid, Abs, Lookup;
    assert Wrap(sys.ring, 0) == sys.ring.head;
  }
}
