/**
 What every interleaving of publishing and dispatching keeps: slots are owned one to one,
 and every accepted event is delivered once, in order, with its bytes.
 */
module PublisherSafety {
  import opened Wrappers
  import opened Bytes
  import opened PublisherModel

  /** The events on their way: the one in its handlers, then the queue. */
  function Flow(p: Publisher): seq<Event> {
    (if p.current.Some? then [p.current.value.0] else []) + p.store.queue
  }

  function SlotOf(e: Event, slotSize: nat): nat
    requires slotSize > 0
  {
    if e.payload.Some? then e.payload.value / slotSize else 0
  }

  lemma SlotOfOffset(slot: nat, slotSize: nat)
    requires slotSize > 0
    ensures Offset(slot, slotSize) / slotSize == slot
  {
    var q := Offset(slot, slotSize) / slotSize;
    assert Offset(slot, slotSize) == Offset(q, slotSize) + Offset(slot, slotSize) % slotSize;
    hide Offset;
    if q < slot {
      OffsetsOrdered(q, slot, slotSize);
    } else if slot < q {
      OffsetsOrdered(slot, q, slotSize);
    }
  }

  /** The event's payload fits the occupied slot it points at. */
  predicate Backed(e: Event, occupied: seq<bool>, slotSize: nat)
    requires slotSize > 0
  {
    if e.payload.None? then e.size == 0
    else
      && SlotOf(e, slotSize) < |occupied| && occupied[SlotOf(e, slotSize)]
      && e.payload.value == Offset(SlotOf(e, slotSize), slotSize) && 0 < e.size <= slotSize
  }

  function Slots(flow: seq<Event>, slotSize: nat): set<nat>
    requires slotSize > 0
  {
    set k | 0 <= k < |flow| && flow[k].payload.Some? :: SlotOf(flow[k], slotSize)
  }

  function Occupied(occupied: seq<bool>): set<nat> {
    set i | 0 <= i < |occupied| && occupied[i]
  }

  /** The occupied slots are those of the events on their way, each held by one of them. */
  ghost predicate Owned(flow: seq<Event>, occupied: seq<bool>, slotSize: nat)
    requires slotSize > 0
  {
    && (forall k :: 0 <= k < |flow| ==> Backed(flow[k], occupied, slotSize))
    && (forall k, l :: 0 <= k < l < |flow| && flow[k].payload.Some? && flow[l].payload.Some? ==>
          SlotOf(flow[k], slotSize) != SlotOf(flow[l], slotSize))
    && Slots(flow, slotSize) == Occupied(occupied)
  }

  function Parcels(memory: seq<bv8>, flow: seq<Event>): seq<Parcel> {
    seq(|flow|, k requires 0 <= k < |flow| => Seen(memory, flow[k]))
  }

  /** The slot that the end of a delivery releases. */
  function ReleasedLater(e: Event, s: Store): nat
    requires Sized(s)
  {
    if e.payload.Some? then SlotOf(e, s.slotSize) else |s.occupied|
  }

  ghost predicate Inv(p: Publisher) {
    && Sized(p.store) && !p.broken
    && Owned(Flow(p), p.store.occupied, p.store.slotSize)
    && p.accepted == p.delivered + Parcels(p.store.memory, Flow(p))
    && (p.current.Some? ==> p.left.Some? && p.left.value > 0)
    && (p.current.Some? ==> p.current.value.1 == ReleasedLater(p.current.value.0, p.store))
  }

  lemma InitialInv(slots: nat, slotSize: nat, memory: seq<bv8>)
    requires slots > 0 && slotSize > 0 && |memory| == Offset(slots, slotSize)
    ensures Inv(Initial(slots, slotSize, memory))
  {
  }

  // ----- Ownership of slots -----

  lemma OwnedBare(flow: seq<Event>, occupied: seq<bool>, slotSize: nat, e: Event)
    requires slotSize > 0 && Owned(flow, occupied, slotSize) && e.payload == None && e.size == 0
    ensures Owned(flow + [e], occupied, slotSize)
  {
    hide Offset, SlotOf;
    SlotsAppend(flow, slotSize, e);
  }

  lemma SlotsAppend(flow: seq<Event>, slotSize: nat, e: Event)
    requires slotSize > 0
    ensures Slots(flow + [e], slotSize) ==
            Slots(flow, slotSize) + if e.payload.Some? then {SlotOf(e, slotSize)} else {}
  {
    hide SlotOf;
    var next := flow + [e];
    forall s | s in Slots(flow, slotSize)
      ensures s in Slots(next, slotSize)
    {
      var k :| 0 <= k < |flow| && flow[k].payload.Some? && SlotOf(flow[k], slotSize) == s;
      assert next[k] == flow[k];
    }
    assert next[|flow|] == e;
  }

  lemma OwnedMore(flow: seq<Event>, occupied: seq<bool>, slotSize: nat, e: Event, slot: nat)
    requires slotSize > 0 && Owned(flow, occupied, slotSize) && slot < |occupied| && !occupied[slot]
    requires e.payload == Some(Offset(slot, slotSize)) && 0 < e.size <= slotSize
    ensures Owned(flow + [e], occupied[slot := true], slotSize) && slot !in Slots(flow, slotSize)
  {
    SlotOfOffset(slot, slotSize);
    assert SlotOf(e, slotSize) == slot;
    hide Offset, SlotOf;
    SlotsAppend(flow, slotSize, e);
    assert slot !in Occupied(occupied);
    assert forall k :: 0 <= k < |flow| && flow[k].payload.Some? ==> SlotOf(flow[k], slotSize) in Slots(flow, slotSize);
    assert Occupied(occupied[slot := true]) == Occupied(occupied) + {slot};
  }

  lemma SlotsFirst(flow: seq<Event>, slotSize: nat)
    requires slotSize > 0 && flow != []
    ensures Slots(flow, slotSize) ==
            Slots(flow[1..], slotSize) + if flow[0].payload.Some? then {SlotOf(flow[0], slotSize)} else {}
  {
    hide SlotOf;
    forall s | s in Slots(flow[1..], slotSize)
      ensures s in Slots(flow, slotSize)
    {
      var k :| 0 <= k < |flow| - 1 && flow[1..][k].payload.Some? && SlotOf(flow[1..][k], slotSize) == s;
      assert flow[k + 1] == flow[1..][k];
    }
    forall s | s in Slots(flow, slotSize) && (flow[0].payload.None? || s != SlotOf(flow[0], slotSize))
      ensures s in Slots(flow[1..], slotSize)
    {
      var k :| 0 <= k < |flow| && flow[k].payload.Some? && SlotOf(flow[k], slotSize) == s;
      assert flow[k] == flow[1..][k - 1];
    }
  }

  lemma OwnedLess(flow: seq<Event>, occupied: seq<bool>, slotSize: nat)
    requires slotSize > 0 && flow != [] && Owned(flow, occupied, slotSize)
    ensures flow[0].payload.None? ==> Owned(flow[1..], occupied, slotSize)
    ensures flow[0].payload.Some? ==> SlotOf(flow[0], slotSize) < |occupied| &&
                                      Owned(flow[1..], occupied[SlotOf(flow[0], slotSize) := false], slotSize)
  {
    hide Offset, SlotOf;
    SlotsFirst(flow, slotSize);
    if flow[0].payload.Some? {
      var slot := SlotOf(flow[0], slotSize);
      assert Backed(flow[0], occupied, slotSize);
      forall k | 0 <= k < |flow| - 1 && flow[1..][k].payload.Some?
        ensures SlotOf(flow[1..][k], slotSize) != slot
      {
        assert flow[1..][k] == flow[k + 1];
      }
      assert Occupied(occupied[slot := false]) == Occupied(occupied) - {slot};
      assert forall k :: 0 <= k < |flow| - 1 ==> flow[1..][k] == flow[k + 1];
    }
  }

  /** The search by address finds the slot that backs the event. */
  lemma SlotFound(e: Event, occupied: seq<bool>, slotSize: nat)
    requires slotSize > 0 && Backed(e, occupied, slotSize) && e.payload.Some?
    ensures SlotAt(e.payload.value, slotSize, 0, |occupied|) == SlotOf(e, slotSize)
  {
    var slot := SlotOf(e, slotSize);
    var found := SlotAt(e.payload.value, slotSize, 0, |occupied|);
    if found < slot {
      OffsetsOrdered(found, slot, slotSize);
    } else if slot < found {
      OffsetsOrdered(slot, found, slotSize);
    }
  }

  // ----- Bytes -----

  lemma SeenKept(memory: seq<bv8>, e: Event, slot: nat, bytes: seq<bv8>, occupied: seq<bool>, slotSize: nat)
    requires slotSize > 0 && Backed(e, occupied, slotSize) && slot < |occupied| && |bytes| <= slotSize
    requires |memory| == Offset(|occupied|, slotSize) && Offset(slot, slotSize) + |bytes| <= |memory|
    requires e.payload.Some? ==> SlotOf(e, slotSize) != slot
    ensures Seen(Overwrite(memory, Offset(slot, slotSize), bytes), e) == Seen(memory, e)
  {
    if e.payload.Some? {
      var own := SlotOf(e, slotSize);
      OffsetsOrdered(own, |occupied|, slotSize);
      if own < slot {
        OffsetsOrdered(own, slot, slotSize);
      } else {
        OffsetsOrdered(slot, own, slotSize);
      }
      hide Offset, SlotOf;
      CopiedElsewhere(memory, Offset(slot, slotSize), bytes, e.payload.value, e.size);
    }
  }

  lemma CopiedElsewhere(memory: seq<bv8>, at: nat, bytes: seq<bv8>, from: nat, size: nat)
    requires at + |bytes| <= |memory| && from + size <= |memory|
    requires from + size <= at || at + |bytes| <= from
    ensures Overwrite(memory, at, bytes)[from..from + size] == memory[from..from + size]
  {
  }

  lemma ParcelsKept(memory: seq<bv8>, flow: seq<Event>, slot: nat, bytes: seq<bv8>, occupied: seq<bool>, slotSize: nat)
    requires slotSize > 0 && Owned(flow, occupied, slotSize) && slot < |occupied| && !occupied[slot]
    requires |bytes| <= slotSize && |memory| == Offset(|occupied|, slotSize)
    ensures Offset(slot, slotSize) + |bytes| <= |memory|
    ensures Parcels(Overwrite(memory, Offset(slot, slotSize), bytes), flow) == Parcels(memory, flow)
  {
    OffsetsOrdered(slot, |occupied|, slotSize);
    hide Offset, Slots, Occupied, Overwrite, Seen;
    forall k | 0 <= k < |flow|
      ensures Seen(Overwrite(memory, Offset(slot, slotSize), bytes), flow[k]) == Seen(memory, flow[k])
    {
      assert Backed(flow[k], occupied, slotSize);
      SeenKept(memory, flow[k], slot, bytes, occupied, slotSize);
    }
  }

  lemma SeenFresh(memory: seq<bv8>, r: Request, at: nat)
    requires at + |r.bytes| <= |memory|
    ensures Seen(Overwrite(memory, at, r.bytes), Event(r.id, r.source, Some(at), |r.bytes|)) == Parcel(r.id, r.source, r.bytes)
  {
    assert Overwrite(memory, at, r.bytes)[at..at + |r.bytes|] == r.bytes;
  }

  lemma ParcelsAppend(memory: seq<bv8>, flow: seq<Event>, e: Event)
    ensures Parcels(memory, flow + [e]) == Parcels(memory, flow) + [Seen(memory, e)]
  {
    hide Seen;
  }

  // ----- Every step -----

  lemma PublishKeeps(p: Publisher, r: Request)
    requires Inv(p)
    ensures Inv(Next(p, Publish(r)))
  {
    hide Offset, Slots, Occupied, Overwrite, Seen, SlotOf, Parcels, Owned, Backed;
    PublishedSized(p.store, r);
    var q := Next(p, Publish(r));
    var s, flow := p.store, Flow(p);
    var slot := FirstFree(s.occupied, 0);
    if |r.bytes| > s.slotSize {
    } else if r.bytes == [] {
      if |s.queue| < |s.occupied| {
        var e := Event(r.id, r.source, None, 0);
        assert Flow(q) == flow + [e];
        OwnedBare(flow, s.occupied, s.slotSize, e);
        ParcelsAppend(s.memory, flow, e);
        SeenBare(s.memory, r);
        Appended(p.delivered, Parcels(s.memory, flow), Parcel(r.id, r.source, r.bytes));
      }
    } else if slot < |s.occupied| {
      var at := Offset(slot, s.slotSize);
      ParcelsKept(s.memory, flow, slot, r.bytes, s.occupied, s.slotSize);
      if |s.queue| < |s.occupied| {
        var e := Event(r.id, r.source, Some(at), |r.bytes|);
        assert Flow(q) == flow + [e];
        OwnedMore(flow, s.occupied, s.slotSize, e, slot);
        ParcelsAppend(q.store.memory, flow, e);
        SeenFresh(s.memory, r, at);
        Appended(p.delivered, Parcels(s.memory, flow), Parcel(r.id, r.source, r.bytes));
      }
    }
  }

  lemma SeenBare(memory: seq<bv8>, r: Request)
    requires r.bytes == []
    ensures Seen(memory, Event(r.id, r.source, None, 0)) == Parcel(r.id, r.source, r.bytes)
  {
  }

  lemma Appended<T>(a: seq<T>, b: seq<T>, x: T)
    ensures a + b + [x] == a + (b + [x])
  {
  }

  /** Taking the next event never meets a payload without its occupied slot. */
  lemma TakeKeeps(p: Publisher)
    requires Inv(p) && Enabled(p, TakeNext)
    ensures Inv(Next(p, TakeNext))
    ensures PoppedEvent(p.store).1 != BadSlot
  {
    hide Offset, Slots, Occupied, Seen, SlotOf, Parcels;
    var s := p.store;
    if s.queue != [] {
      assert Flow(p)[0] == s.queue[0];
      assert Backed(s.queue[0], s.occupied, s.slotSize);
      if s.queue[0].payload.Some? {
        SlotFound(s.queue[0], s.occupied, s.slotSize);
      }
      var q := p.(store := PoppedEvent(s).0, current := Some((s.queue[0], 0)));
      assert Flow(q) == Flow(p) by {
        assert s.queue == [s.queue[0]] + s.queue[1..];
      }
    }
  }

  lemma SettleKeeps(p: Publisher)
    requires Inv(p) && Enabled(p, Settle)
    ensures Inv(Next(p, Settle))
  {
    hide Offset, Slots, Occupied, Seen, SlotOf, Parcels, Owned, Backed;
    var (e, slot) := p.current.value;
    var s, flow, q := p.store, Flow(p), Next(p, Settle);
    assert flow[0] == e && flow[1..] == s.queue == Flow(q);
    OwnedLess(flow, s.occupied, s.slotSize);
    ParcelsFirst(s.memory, flow);
    Regrouped(p.delivered, Seen(s.memory, e), Parcels(s.memory, s.queue));
  }

  lemma ParcelsFirst(memory: seq<bv8>, flow: seq<Event>)
    requires flow != []
    ensures Parcels(memory, flow) == [Seen(memory, flow[0])] + Parcels(memory, flow[1..])
  {
    hide Seen;
  }

  lemma Regrouped<T>(a: seq<T>, x: T, b: seq<T>)
    ensures a + ([x] + b) == a + [x] + b
  {
  }

  lemma NextKeeps(p: Publisher, a: Action)
    requires Inv(p) && Enabled(p, a)
    ensures Inv(Next(p, a))
  {
    hide Owned, Parcels, Published, PoppedEvent, Released;
    match a
    case Publish(r) => PublishKeeps(p, r);
    case Begin(budget) =>
    case TakeNext => TakeKeeps(p);
    case Settle => SettleKeeps(p);
  }

  lemma {:induction false} RunKeeps(p: Publisher, actions: seq<Action>)
    requires Inv(p) && Run(p, actions)
    ensures Inv(After(p, actions))
    decreases |actions|
  {
    hide Inv, Next;
    if actions != [] {
      NextKeeps(p, actions[0]);
      RunKeeps(Next(p, actions[0]), actions[1..]);
    }
  }

  // ----- Main results -----

  /**
   In every run the accepted events are the delivered ones followed by those on their way,
   all with the bytes they were published with; the bad-slot branch is never taken.
   */
  lemma DeliveredOnceInOrder(slots: nat, slotSize: nat, memory: seq<bv8>, actions: seq<Action>)
    requires slots > 0 && slotSize > 0 && |memory| == Offset(slots, slotSize)
    requires Run(Initial(slots, slotSize, memory), actions)
    ensures var p := After(Initial(slots, slotSize, memory), actions);
            && Sized(p.store) && !p.broken
            && p.accepted == p.delivered + Parcels(p.store.memory, Flow(p))
            && Slots(Flow(p), p.store.slotSize) == Occupied(p.store.occupied)
  {
    InitialInv(slots, slotSize, memory);
    RunKeeps(Initial(slots, slotSize, memory), actions);
  }

  function PayloadCount(flow: seq<Event>): nat {
    if flow == [] then 0 else PayloadCount(flow[1..]) + if flow[0].payload.Some? then 1 else 0
  }

  lemma {:induction false} DistinctSlots(flow: seq<Event>, slotSize: nat)
    requires slotSize > 0
    requires forall k, l :: 0 <= k < l < |flow| && flow[k].payload.Some? && flow[l].payload.Some? ==>
                              SlotOf(flow[k], slotSize) != SlotOf(flow[l], slotSize)
    ensures |Slots(flow, slotSize)| == PayloadCount(flow)
  {
    hide SlotOf;
    if flow != [] {
      SlotsFirst(flow, slotSize);
      DistinctSlots(flow[1..], slotSize);
      forall k | 0 <= k < |flow| - 1 && flow[0].payload.Some? && flow[1..][k].payload.Some?
        ensures SlotOf(flow[1..][k], slotSize) != SlotOf(flow[0], slotSize)
      {
        assert flow[1..][k] == flow[k + 1];
      }
    }
  }

  lemma {:induction false} AllOccupied(occupied: seq<bool>)
    ensures |Occupied(occupied)| <= |occupied|
    ensures |Occupied(occupied)| == |occupied| <==> forall i :: 0 <= i < |occupied| ==> occupied[i]
  {
    if occupied != [] {
      var init := occupied[..|occupied| - 1];
      AllOccupied(init);
      assert Occupied(occupied) == Occupied(init) + if occupied[|init|] then {|init|} else {};
    }
  }

  /**
   A publish succeeds exactly when its payload fits a slot, the queue has room, and, for a
   payload, fewer than `capacity` payload events are queued or in their handlers.
   */
  lemma AcceptedExactly(p: Publisher, r: Request)
    requires Inv(p)
    ensures Published(p.store, r).1 == Ok <==>
            && |r.bytes| <= p.store.slotSize
            && |p.store.queue| < |p.store.occupied|
            && (r.bytes == [] || PayloadCount(Flow(p)) < |p.store.occupied|)
    ensures Published(p.store, r).1 == BadArgument <==> |r.bytes| > p.store.slotSize
  {
    hide SlotOf, Offset, Slots, Occupied, Parcels, Flow;
    DistinctSlots(Flow(p), p.store.slotSize);
    AllOccupied(p.store.occupied);
  }

  /** A dispatch starts unless it has no budget or another one is under way, and changes nothing else. */
  lemma BeginsExactly(p: Publisher, budget: nat)
    requires Sized(p.store)
    ensures var next, result := Next(p, Begin(budget)), Began(p, budget).1;
            && (result == BadArgument <==> budget == 0)
            && (result == Busy <==> budget > 0 && p.left.Some?)
            && (result == Ok <==> budget > 0 && p.left.None?)
            && next == if result == Ok then p.(left := Some(budget)) else p
  {
  }

  // ----- The dispatch call is a run -----

  function PublishActions(requests: seq<Request>): seq<Action> {
    seq(|requests|, k requires 0 <= k < |requests| => Publish(requests[k]))
  }

  lemma {:induction false} RunConcat(p: Publisher, xs: seq<Action>, ys: seq<Action>)
    requires Run(p, xs) && Run(After(p, xs), ys)
    ensures Run(p, xs + ys) && After(p, xs + ys) == After(After(p, xs), ys)
    decreases |xs|
  {
    hide Next;
    if xs == [] {
      assert xs + ys == ys;
    } else {
      RunConcat(Next(p, xs[0]), xs[1..], ys);
      assert (xs + ys)[1..] == xs[1..] + ys;
    }
  }

  lemma {:induction false} PublishesRun(p: Publisher, requests: seq<Request>)
    requires Inv(p)
    ensures Run(p, PublishActions(requests))
    ensures var q := After(p, PublishActions(requests));
            Inv(q) && q == p.(store := PublishAll(p.store, requests), accepted := q.accepted)
    decreases |requests|
  {
    hide Inv;
    assert Sized(p.store) by {
      InvSized(p);
    }
    if requests != [] {
      NextKeeps(p, Publish(requests[0]));
      PublishesRun(Next(p, Publish(requests[0])), requests[1..]);
      assert PublishActions(requests)[1..] == PublishActions(requests[1..]);
    }
  }

  lemma InvSized(p: Publisher)
    requires Inv(p)
    ensures Sized(p.store)
  {
  }

  /** One delivery: the event is taken, its handlers publish, its slot is released. */
  lemma DeliveryRun(p: Publisher, requests: seq<Request>)
    requires Inv(p) && p.left.Some? && p.left.value > 0 && p.current.None? && p.store.queue != []
    ensures PoppedEvent(p.store).1.Popped?
    ensures var actions := [TakeNext] + PublishActions(requests) + [Settle];
            Run(p, actions) && Inv(After(p, actions)) &&
            var q := After(p, actions);
            && q.left == Some(p.left.value - 1) && q.current.None? && |q.delivered| == |p.delivered| + 1
            && Sized(PoppedEvent(p.store).0)
            && q.store == Released(PublishAll(PoppedEvent(p.store).0, requests), PoppedEvent(p.store).1.slot)
  {
    hide Inv, PublishAll, Released, SlotAt, PublishActions;
    InvSized(p);
    TakeKeeps(p);
    var p1 := Next(p, TakeNext);
    PublishesRun(p1, requests);
    var p2 := After(p1, PublishActions(requests));
    InvSized(p1);
    InvSized(p2);
    NextKeeps(p2, Settle);
    assert Run(p2, [Settle]) && After(p2, [Settle]) == Next(p2, Settle);
    assert Run(p, [TakeNext]) && After(p, [TakeNext]) == p1;
    RunConcat(p, [TakeNext], PublishActions(requests));
    RunConcat(p, [TakeNext] + PublishActions(requests), [Settle]);
  }

  /**
   The loop of the dispatch call is a run of the publisher's steps, in which it delivers as
   many events as it reports.
   */
  lemma {:induction false} DispatchIsARun(p: Publisher, budget: nat, dispatched: nat, scripts: seq<seq<Request>>)
    returns (actions: seq<Action>)
    requires Inv(p) && p.left == Some(budget - dispatched) && p.current.None? && dispatched <= budget
    ensures Run(p, actions) && Inv(After(p, actions))
    ensures var q := After(p, actions); var (store, result, count) := DispatchLoop(p.store, budget, dispatched, scripts);
            && q.store == store && result == Ok && q.left.None? && q.current.None?
            && |q.delivered| == |p.delivered| + count - dispatched
            && dispatched <= count <= budget && (count < budget ==> q.store.queue == [])
    decreases budget - dispatched
  {
    hide Inv, PublishAll, Released, SlotAt, PublishActions;
    InvSized(p);
    if dispatched == budget || p.store.queue == [] {
      NextKeeps(p, TakeNext);
      actions := [TakeNext];
      assert Run(p, actions) && After(p, actions) == Next(p, TakeNext);
      return;
    }
    var requests := Script(scripts, dispatched);
    DeliveryRun(p, requests);
    var first := [TakeNext] + PublishActions(requests) + [Settle];
    var rest := DispatchIsARun(After(p, first), budget, dispatched + 1, scripts);
    RunConcat(p, first, rest);
    actions := first + rest;
  }
}
