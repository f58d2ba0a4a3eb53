/**
 The dispatcher's calls on its subscription slots.
 */
module DispatcherService {
  import opened Dispatcher

  class EventDispatcher {
    const slots: array<Subscription>
    var count: nat
    var dispatching: bool

    ghost function View(): Registry
      reads this, slots
    {
      Registry(slots[..], count, dispatching)
    }

    constructor (capacity: nat)
      requires capacity > 0
      ensures fresh(slots) && View() == Registry(seq(capacity, _ => VACANT), 0, false)
    {
      slots := new Subscription[capacity](_ => VACANT);
      count, dispatching := 0, false;
    }

    /** One pass looks for the same subscription and for the first vacant slot. */
    method Subscribe(eventId: nat, call: Call) returns (result: Result)
      modifies this, slots
      ensures (View(), result) == Subscribed(old(View()), eventId, call)
    {
      if dispatching {
        return Busy;
      }
      var free, index := slots.Length, 0;
      while index < slots.Length
        invariant index <= slots.Length
        invariant FindSubscription(slots[..], eventId, call, index) == FindSubscription(slots[..], eventId, call, 0)
        invariant if free == slots.Length then FindVacant(slots[..], index) == FindVacant(slots[..], 0)
                  else free < slots.Length && free == FindVacant(slots[..], 0)
      {
        if !slots[index].occupied {
          if free == slots.Length {
            free := index;
          }
        } else if slots[index] == Subscription(eventId, call.handler, call.context, true) {
          return AlreadyExists;
        }
        index := index + 1;
      }
      if free == slots.Length {
        return Full;
      }
      slots[free] := Subscription(eventId, call.handler, call.context, true);
      count := count + 1;
      return Ok;
    }

    method Unsubscribe(eventId: nat, call: Call) returns (result: Result)
      modifies this, slots
      ensures (View(), result) == Unsubscribed(old(View()), eventId, call)
    {
      if dispatching {
        return Busy;
      }
      var index := 0;
      while index < slots.Length
        invariant index <= slots.Length
        invariant FindSubscription(slots[..], eventId, call, index) == FindSubscription(slots[..], eventId, call, 0)
      {
        if slots[index] == Subscription(eventId, call.handler, call.context, true) {
          slots[index] := VACANT;
          count := if count > 0 then count - 1 else 0;
          return Ok;
        }
        index := index + 1;
      }
      return NotFound;
    }

    /** While handlers run, `dispatching` makes every call they make on this dispatcher return Busy. */
    method Dispatch(eventId: nat) returns (result: Result, calls: seq<Call>)
      modifies this
      ensures View() == old(View()) && (calls, result) == Dispatched(View(), eventId)
    {
      calls := [];
      if dispatching {
        return Busy, [];
      }
      dispatching := true;
      var index := 0;
      while index < slots.Length
        invariant index <= slots.Length
        invariant dispatching && count == old(count)
        invariant calls + CallsFrom(slots[..], eventId, index) == CallsFrom(slots[..], eventId, 0)
      {
        ghost var rest := CallsFrom(slots[..], eventId, index + 1);
        var s := slots[index];
        assert calls + ([Call(s.handler, s.context)] + rest) == calls + [Call(s.handler, s.context)] + rest;
        if s.occupied && (s.eventId == eventId || s.eventId == ANY) {
          calls := calls + [Call(s.handler, s.context)];
        }
        index := index + 1;
      }
      dispatching := false;
      assert CallsFrom(slots[..], eventId, index) == [];
      assert calls == CallsFrom(slots[..], eventId, 0);
      return if |calls| == 0 then NotFound else Ok, calls;
    }
  }
}
