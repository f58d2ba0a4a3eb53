/**
 The publisher's calls on its payload memory, its slot flags and its event queue.
 */
module PublisherService {
  import opened Wrappers
  import opened Bytes
  import opened PublisherModel
  import EventQueue

  class Publisher {
    const slotSize: nat
    const memory: array<bv8>
    const occupied: array<bool>
    const queue: EventQueue.Queue<Event>
    var dispatching: bool

    ghost predicate Valid()
      reads this, memory, occupied, queue, queue.storage
    {
      && (memory as object) != occupied && (memory as object) != queue.storage && (occupied as object) != queue.storage
      && queue.Valid() && queue.storage.Length == occupied.Length
      && Sized(View())
    }

    ghost function View(): Store
      reads this, memory, occupied, queue, queue.storage
    {
      Store(memory[..], occupied[..], slotSize, if queue.Valid() then queue.Items() else [])
    }

    constructor (capacity: nat, slotSize: nat)
      requires capacity > 0 && slotSize > 0
      ensures Valid() && !dispatching && fresh(memory) && fresh(occupied) && fresh(queue) && fresh(queue.storage)
      ensures View() == Initial(capacity, slotSize, memory[..]).store
    {
      this.slotSize := slotSize;
      memory := new bv8[Offset(capacity, slotSize)];
      occupied := new bool[capacity](_ => false);
      queue := new EventQueue.Queue<Event>(capacity);
      dispatching := false;
    }

    method FindFreeSlot() returns (slot: nat)
      requires Valid()
      ensures slot == FirstFree(occupied[..], 0)
    {
      slot := 0;
      while slot < occupied.Length && occupied[slot]
        invariant slot <= occupied.Length
        invariant FirstFree(occupied[..], slot) == FirstFree(occupied[..], 0)
      {
        slot := slot + 1;
      }
    }

    method FindPayloadSlot(payload: nat) returns (slot: nat)
      requires Valid()
      ensures slot == SlotAt(payload, slotSize, 0, occupied.Length)
    {
      slot := 0;
      while slot < occupied.Length && payload != slot * slotSize
        invariant slot <= occupied.Length
        invariant SlotAt(payload, slotSize, slot, occupied.Length) == SlotAt(payload, slotSize, 0, occupied.Length)
      {
        slot := slot + 1;
      }
    }

    method CopyIn(at: nat, bytes: seq<bv8>)
      requires at + |bytes| <= memory.Length
      modifies memory
      ensures memory[..] == Overwrite(old(memory[..]), at, bytes)
    {
      var i := 0;
      while i < |bytes|
        invariant i <= |bytes|
        invariant memory[..] == Overwrite(old(memory[..]), at, bytes[..i])
      {
        memory[at + i] := bytes[i];
        i := i + 1;
      }
      assert bytes[..i] == bytes;
    }

    method SetOccupied(slot: nat, value: bool)
      requires Valid() && slot < occupied.Length
      modifies occupied
      ensures Valid() && View() == old(View()).(occupied := old(occupied[..])[slot := value])
    {
      occupied[slot] := value;
      assert occupied[..] == old(occupied[..])[slot := value];
      assert memory[..] == old(memory[..]) && queue.storage[..] == old(queue.storage[..]);
    }

    method Enqueue(event: Event) returns (result: Result)
      requires Valid()
      modifies queue, queue.storage
      ensures Valid()
      ensures result == if |old(View()).queue| == occupied.Length then Full else Ok
      ensures View() == if result == Ok then old(View()).(queue := old(View()).queue + [event]) else old(View())
    {
      var pushed := queue.Push(event);
      assert memory[..] == old(memory[..]) && occupied[..] == old(occupied[..]);
      return if pushed == EventQueue.Ok then Ok else Full;
    }

    method WritePayload(slot: nat, bytes: seq<bv8>)
      requires Valid() && slot < occupied.Length && |bytes| <= slotSize
      modifies memory
      ensures Valid() && Offset(slot, slotSize) + |bytes| <= |old(View()).memory|
      ensures View() == old(View()).(memory := Overwrite(old(View()).memory, Offset(slot, slotSize), bytes))
    {
      OffsetsOrdered(slot, occupied.Length, slotSize);
      CopyIn(slot * slotSize, bytes);
      assert occupied[..] == old(occupied[..]) && queue.storage[..] == old(queue.storage[..]);
    }

    method PublishCopy(r: Request) returns (result: Result)
      requires Valid()
      modifies memory, occupied, queue, queue.storage
      ensures Valid() && (View(), result) == Published(old(View()), r)
    {
      hide Overwrite, Offset, FirstFree;
      if |r.bytes| > slotSize {
        return BadArgument;
      }
      if r.bytes == [] {
        result := Enqueue(Event(r.id, r.source, None, 0));
        return;
      }
      var slot := FindFreeSlot();
      if slot >= occupied.Length {
        return Full;
      }
      WritePayload(slot, r.bytes);
      SetOccupied(slot, true);
      result := Enqueue(Event(r.id, r.source, Some(Offset(slot, slotSize)), |r.bytes|));
      if result != Ok {
        SetOccupied(slot, false);
        assert View().occupied == old(View()).occupied;
      }
    }

    method PopEvent() returns (pop: Pop)
      requires Valid()
      modifies queue, queue.storage
      ensures Valid() && (View(), pop) == PoppedEvent(old(View()))
    {
      var popped, event := queue.Pop(Event(0, 0, None, 0));
      assert memory[..] == old(memory[..]) && occupied[..] == old(occupied[..]);
      if popped == EventQueue.Empty {
        return Empty;
      }
      var slot := occupied.Length;
      if event.payload.Some? {
        slot := FindPayloadSlot(event.payload.value);
        if slot >= occupied.Length || !occupied[slot] {
          return BadSlot;
        }
      }
      return Popped(event, slot);
    }

    method ReleaseSlot(slot: nat)
      requires Valid()
      modifies occupied
      ensures Valid() && View() == Released(old(View()), slot)
    {
      if slot < occupied.Length {
        SetOccupied(slot, false);
      }
    }

    /** The handlers of one delivery, as the list of what they publish. */
    method RunHandlers(requests: seq<Request>)
      requires Valid()
      modifies memory, occupied, queue, queue.storage
      ensures Valid() && View() == PublishAll(old(View()), requests)
    {
      var i := 0;
      while i < |requests|
        invariant i <= |requests| && Valid()
        invariant PublishAll(View(), requests[i..]) == PublishAll(old(View()), requests)
      {
        var _ := PublishCopy(requests[i]);
        assert requests[i..][1..] == requests[i + 1..];
        i := i + 1;
      }
    }

    /** One turn of the dispatch loop. */
    method DeliverOne(requests: seq<Request>) returns (pop: Pop)
      requires Valid()
      modifies memory, occupied, queue, queue.storage
      ensures Valid() && pop == PoppedEvent(old(View())).1
      ensures pop == Empty ==> View() == old(View())
      ensures pop == BadSlot ==> View() == PoppedEvent(old(View())).0
      ensures pop.Popped? ==> Sized(PoppedEvent(old(View())).0) &&
                              View() == Released(PublishAll(PoppedEvent(old(View())).0, requests), pop.slot)
    {
      pop := PopEvent();
      if pop.Popped? {
        RunHandlers(requests);
        ReleaseSlot(pop.slot);
      }
    }

    method Dispatch(budget: nat, scripts: seq<seq<Request>>) returns (result: Result, dispatched: nat)
      requires Valid()
      modifies this, memory, occupied, queue, queue.storage
      ensures Valid() && dispatching == old(dispatching)
      ensures if budget == 0 then result == BadArgument && View() == old(View())
              else if old(dispatching) then result == Busy && View() == old(View())
              else (View(), result, dispatched) == DispatchLoop(old(View()), budget, 0, scripts)
    {
      hide PoppedEvent, PublishAll, Released, Sized, Script;
      dispatched := 0;
      if budget == 0 {
        return BadArgument, 0;
      }
      if dispatching {
        return Busy, 0;
      }
      dispatching := true;
      result := Ok;
      while dispatched < budget && result == Ok
        invariant Valid() && dispatching && dispatched <= budget
        invariant result == Ok || result == BadArgument
        invariant result == Ok ==>
                    DispatchLoop(View(), budget, dispatched, scripts) == DispatchLoop(old(View()), budget, 0, scripts)
        invariant result != Ok ==> (View(), result, dispatched) == DispatchLoop(old(View()), budget, 0, scripts)
        decreases budget - dispatched, if result == Ok then 1 else 0
      {
        var pop := DeliverOne(Script(scripts, dispatched));
        if pop == Empty {
          break;
        }
        if pop == BadSlot {
          result := BadArgument;
        } else {
          dispatched := dispatched + 1;
        }
      }
      dispatching := false;
    }
  }
}
