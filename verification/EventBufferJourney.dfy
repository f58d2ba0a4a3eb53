/**
 From producer to consumer: an envelope that is not released stays owned by exactly one
 cell, wherever it is moved, and reads the bytes and ids it was created with.
 */
module EventBufferJourney {
  import opened Wrappers
  import opened Arena
  import opened ArenaRefinement
  import opened EventBuffer
  import opened EventBufferConservation

  datatype Envelope = Envelope(handle: nat, eventId: nat, sourceId: nat, source: seq<bv8>)

  /** Cell `p` holds the envelope, and its buffer the bytes. */
  predicate Holds(sys: System, p: nat, e: Envelope) {
    && p < |sys.cells|
    && sys.cells[p] == Message(e.eventId, e.sourceId, Some(p), true, e.handle, |e.source|, true)
    && e.handle in sys.made && sys.made[e.handle] == e.source
  }

  /** The two calls that can free the buffer of the envelope in cell `p`. */
  predicate AsksRelease(sys: System, call: Call, p: nat) {
    call == Release(p) || (call == ReleaseAll && p < sys.ring.capacity)
  }

  // ----- One call -----

  lemma CreateHolds(sys: System, at: nat, eventId: nat, sourceId: nat, source: seq<bv8>)
    requires Inv(sys) && sys.ring.capacity <= at < |sys.cells|
    requires CreateCopy(sys, at, eventId, sourceId, source).1 == Ok
    ensures var next := CreateCopy(sys, at, eventId, sourceId, source).0;
            at < |next.cells| && Holds(next, at, Envelope(next.cells[at].handle, eventId, sourceId, source))
  {
    hide Valid, Step, Abs, Ownership, RingInv, Lookup;
    if Step(sys.arena, Alloc(|source|)).1.Handle? {
      CreateEffect(sys.arena, source);
    } else {
      RefusedEffect(sys.arena, source);
    }
  }

  lemma HeldByCreate(sys: System, at: nat, eventId: nat, sourceId: nat, source: seq<bv8>, p: nat, e: Envelope)
    requires Inv(sys) && sys.ring.capacity <= at < |sys.cells| && Holds(sys, p, e)
    ensures Holds(CreateCopy(sys, at, eventId, sourceId, source).0, p, e)
  {
    hide Valid, Step, Abs, Ownership, RingInv, Lookup, RingOk;
    MadeIsLive(sys);
    if !sys.cells[at].owns && source != [] {
      if Step(sys.arena, Alloc(|source|)).1.Handle? {
        CreateEffect(sys.arena, source);
      } else {
        RefusedEffect(sys.arena, source);
      }
    }
  }

  lemma MadeIsLive(sys: System)
    requires Inv(sys)
    ensures sys.made.Keys == Abs(sys.arena).Keys
  {
    hide Valid, Abs, RingInv, Lookup;
  }

  /** Two owners never share a handle. */
  lemma OneOwner(sys: System, p: nat, q: nat)
    requires Inv(sys) && p < |sys.cells| && q < |sys.cells| && sys.cells[p].owns && sys.cells[q].owns
    requires sys.cells[p].handle == sys.cells[q].handle
    ensures p == q
  {
    hide Valid, Abs, RingInv, Lookup, Intact;
  }

  lemma InvSized(sys: System)
    requires Inv(sys)
    ensures Sized(sys)
  {
    hide Valid, Abs, Ownership, RingInv;
  }

  /** A release clears its cell and forgets its buffer, or changes neither. */
  lemma ReleaseShape(sys: System, at: nat)
    requires Sized(sys) && at < |sys.cells|
    ensures var (next, result) := ReleaseAt(sys, at);
            if result == Ok
            then IsOwned(sys.cells[at], at) && next.cells == sys.cells[at := EMPTY] && next.made == sys.made - {sys.cells[at].handle}
            else next.cells == sys.cells && next.made == sys.made
  {
    hide Valid, Step, RingOk;
    FreeReply(sys.arena, sys.cells[at].handle);
  }

  lemma FreeReply(a: Arena, h: nat)
    requires Valid(a)
    ensures Step(a, Free(h)).1 == Done || Step(a, Free(h)).1.Failed?
  {
    hide Valid, WellFormed;
    ValidSize(a);
  }

  lemma HeldByRelease(sys: System, at: nat, p: nat, e: Envelope)
    requires Inv(sys) && at < |sys.cells| && Holds(sys, p, e)
    ensures var next := ReleaseAt(sys, at).0;
            if e.handle in next.made then Holds(next, p, e) else p == at
  {
    hide Inv, Sized, ReleaseAt;
    InvSized(sys);
    ReleaseShape(sys, at);
    if sys.cells[at].owns && sys.cells[at].handle == e.handle {
      OneOwner(sys, at, p);
    }
  }

  lemma HeldByMove(sys: System, from: nat, to: nat, ring: Ring, p: nat, e: Envelope) returns (q: nat)
    requires Holds(sys, p, e) && from < |sys.cells| && to < |sys.cells| && from != to && !sys.cells[to].owns
    ensures Holds(sys.(cells := Moved(sys.cells, from, to), ring := ring), q, e)
  {
    MovedCells(sys.cells, from, to);
    q := if p == from then to else p;
  }

  lemma ReleasedRest(sys: System)
    requires Inv(sys) && sys.ring.count > 0 && ReleaseAt(sys, sys.ring.head).1 == Ok
    ensures var next := ReleaseAt(sys, sys.ring.head).0;
            && RingOk(next.ring) && next.ring == sys.ring && Inv(next.(ring := Popped(next.ring)))
            && Popped(next.ring).count == sys.ring.count - 1 && Popped(next.ring).capacity == sys.ring.capacity
  {
    hide Valid, Step, Abs, Ownership, ReleaseAt, RingInv, Popped, Lookup;
    HeadIsOwned(sys.cells, sys.ring);
    ReleaseEffect(sys, sys.ring.head);
    PoppedOk(sys.ring);
    HeadRing(sys.cells, sys.ring, ReleaseAt(sys, sys.ring.head).0.cells);
  }

  lemma {:induction false} QueueReleaseShrinks(sys: System)
    requires Inv(sys)
    ensures ReleaseQueue(sys).0.made.Keys <= sys.made.Keys
    decreases sys.ring.count
  {
    hide Inv, Sized, ReleaseAt, Popped;
    InvSized(sys);
    if sys.ring.count > 0 {
      QueueHead(sys);
      var (next, result) := ReleaseAt(sys, sys.ring.head);
      ReleaseShape(sys, sys.ring.head);
      if result == Ok {
        ReleasedRest(sys);
        QueueReleaseShrinks(next.(ring := Popped(next.ring)));
      }
    }
  }

  lemma QueueHead(sys: System)
    requires Inv(sys)
    ensures sys.ring.head < sys.ring.capacity <= |sys.cells|
  {
    hide Valid, Abs, Ownership, RingInv;
  }

  lemma {:induction false} HeldByReleaseAll(sys: System, p: nat, e: Envelope)
    requires Inv(sys) && Holds(sys, p, e)
    ensures var next := ReleaseQueue(sys).0;
            if e.handle in next.made then Holds(next, p, e) else p < sys.ring.capacity
    decreases sys.ring.count
  {
    hide Inv, Sized, ReleaseAt, Popped, Holds;
    InvSized(sys);
    if sys.ring.count > 0 {
      QueueHead(sys);
      var head := sys.ring.head;
      var (next, result) := ReleaseAt(sys, head);
      HeldByRelease(sys, head, p, e);
      if result == Ok {
        ReleasedRest(sys);
        var rest := next.(ring := Popped(next.ring));
        QueueReleaseShrinks(rest);
        if e.handle in next.made {
          RingAside(next, rest, p, e);
          HeldByReleaseAll(rest, p, e);
        }
      }
    } else {
      IsMade(sys, p, e);
    }
  }

  lemma IsMade(sys: System, p: nat, e: Envelope)
    requires Holds(sys, p, e)
    ensures e.handle in sys.made
  {
  }

  /** What a cell holds does not depend on the ring or the arena. */
  lemma RingAside(sys: System, next: System, p: nat, e: Envelope)
    requires Holds(sys, p, e) && next.cells == sys.cells && next.made == sys.made
    ensures Holds(next, p, e)
  {
  }

  /** After any call the envelope is held by one cell, unless that call was asked to release it. */
  lemma HeldOrReleased(sys: System, call: Call, p: nat, e: Envelope) returns (q: nat)
    requires Inv(sys) && Enabled(sys, call) && Holds(sys, p, e)
    ensures var next := Next(sys, call).0;
            if e.handle in next.made then Holds(next, q, e) else AsksRelease(sys, call, p)
  {
    hide CreateCopy, ReleaseAt, ReleaseQueue, Moved, Valid, Abs, Ownership, Lookup;
    q := p;
    match call
    case Create(at, eventId, sourceId, source) => HeldByCreate(sys, at, eventId, sourceId, source, p, e);
    case Release(at) => HeldByRelease(sys, at, p, e);
    case Push(at) =>
      if PushMove(sys, at).1 == Ok {
        TailIsFree(sys.cells, sys.ring);
        q := HeldByMove(sys, at, sys.ring.tail, PushMove(sys, at).0.ring, p, e);
      }
    case Pop(at) =>
      if PopMove(sys, at).1 == Ok {
        q := HeldByMove(sys, sys.ring.head, at, PopMove(sys, at).0.ring, p, e);
      }
    case ReleaseAll => HeldByReleaseAll(sys, p, e);
    case Lend(at) =>
    case GiveBack(at) =>
  }

  // ----- Runs -----

  /** The buffer stays allocated after call `i` up to state `k`. */
  ghost predicate NotFreed(states: seq<System>, handle: nat, i: nat, k: nat)
    requires i <= k < |states|
  {
    forall j :: i <= j <= k ==> Sized(states[j]) && handle in Abs(states[j].arena)
  }

  lemma {:induction false} StaysHeld(states: seq<System>, calls: seq<Call>, i: nat, k: nat, p: nat, e: Envelope) returns (q: nat)
    requires EventBufferConservation.IsRun(states, calls) && i <= k < |states|
    requires Holds(states[i], p, e) && NotFreed(states, e.handle, i, k)
    ensures Inv(states[k]) && Holds(states[k], q, e)
    decreases k - i
  {
    hide Next, Enabled, Inv, Abs, Valid, Holds, Sized, OwnedHandles, Unique;
    RunConserves(states, calls, k);
    if i == k {
      return p;
    }
    var before := StaysHeld(states, calls, i, k - 1, p, e);
    q := HeldOrReleased(states[k - 1], calls[k - 1], before, e);
    InvSized(states[k]);
    MadeIsLive(states[k]);
  }

  /**
   An envelope created by call `i`, whose buffer is not freed up to state `k`, is owned there
   by exactly one cell, with its ids; unless it is on loan, that cell reads the bytes it was
   created with, whatever happened to other envelopes.
   */
  lemma FromProducerToConsumer(states: seq<System>, calls: seq<Call>, i: nat, k: nat) returns (q: nat)
    requires EventBufferConservation.IsRun(states, calls) && i < k < |states| && calls[i].Create?
    requires Sized(states[i]) && Enabled(states[i], calls[i]) && Next(states[i], calls[i]).1 == Ok
    requires calls[i].at < |states[i + 1].cells|
    requires NotFreed(states, states[i + 1].cells[calls[i].at].handle, i + 1, k)
    ensures var h, sys := states[i + 1].cells[calls[i].at].handle, states[k];
            && Inv(sys) && q < |sys.cells| && sys.cells[q].owns && sys.cells[q].handle == h
            && sys.cells[q].eventId == calls[i].eventId && sys.cells[q].sourceId == calls[i].sourceId
            && (forall p :: 0 <= p < |sys.cells| && sys.cells[p].owns && sys.cells[p].handle == h ==> p == q)
            && h in Abs(sys.arena)
            && (!Abs(sys.arena)[h].mapped ==> ReadAt(sys, q, 0, |calls[i].source|) == (Ok, calls[i].source))
  {
    hide CreateCopy, Inv, Abs, Valid, Holds, Sized, ReadAt, Ownership;
    var Create(at, eventId, sourceId, source) := calls[i];
    RunConserves(states, calls, i);
    CreateHolds(states[i], at, eventId, sourceId, source);
    var e := Envelope(states[i + 1].cells[at].handle, eventId, sourceId, source);
    q := StaysHeld(states, calls, i + 1, k, at, e);
    HolderReads(states[k], q, e);
    forall p | 0 <= p < |states[k].cells| && states[k].cells[p].owns && states[k].cells[p].handle == e.handle
      ensures p == q
    {
      OneOwner(states[k], p, q);
    }
  }

  lemma HolderReads(sys: System, q: nat, e: Envelope)
    requires Inv(sys) && Holds(sys, q, e)
    ensures q < |sys.cells| && sys.cells[q].owns && sys.cells[q].handle == e.handle
    ensures sys.cells[q].eventId == e.eventId && sys.cells[q].sourceId == e.sourceId
    ensures e.handle in Abs(sys.arena)
    ensures !Abs(sys.arena)[e.handle].mapped ==> ReadAt(sys, q, 0, |e.source|) == (Ok, e.source)
  {
    hide Valid, Abs, Ownership, RingInv, Lookup, ReadAt;
    MadeIsLive(sys);
    if !Abs(sys.arena)[e.handle].mapped {
      ReadReturnsMade(sys, q, 0, |e.source|);
      assert e.source[0..|e.source|] == e.source;
    }
  }
}
