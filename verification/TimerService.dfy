/**
 The timer scheduler's calls on its slot array.
 */
module TimerService {
  import opened Wrappers
  import opened TimerModel
  import EventQueue

  class TimerScheduler {
    const slots: array<Slot>
    var count: nat
    var processing: bool

    ghost function View(): Scheduler
      reads this, slots
    {
      Scheduler(slots[..], count, processing)
    }

    constructor (capacity: nat)
      requires capacity > 0
      ensures fresh(slots) && View() == Scheduler(seq(capacity, _ => UNUSED), 0, false)
    {
      slots := new Slot[capacity](_ => UNUSED);
      count, processing := 0, false;
    }

    method Find(id: nat) returns (at: nat)
      ensures at == FindSlot(slots[..], id, 0)
    {
      at := 0;
      while at < slots.Length
        invariant at <= slots.Length
        invariant FindSlot(slots[..], id, at) == FindSlot(slots[..], id, 0)
      {
        if slots[at].active && slots[at].id == id {
          return;
        }
        at := at + 1;
      }
    }

    method FindUnused() returns (at: nat)
      ensures at == FindFree(slots[..], 0)
    {
      at := 0;
      while at < slots.Length
        invariant at <= slots.Length
        invariant FindFree(slots[..], at) == FindFree(slots[..], 0)
      {
        if !slots[at].active {
          return;
        }
        at := at + 1;
      }
    }

    method Start(id: nat, event: Event, now: Tick, delay: Tick, period: Tick) returns (result: Result)
      modifies this, slots
      ensures (View(), result) == TimerModel.Start(old(View()), id, event, now, delay, period)
    {
      if delay > MAX - now {
        return InvalidArgument;
      }
      if processing {
        return Busy;
      }
      var at := Find(id);
      if at < slots.Length {
        return AlreadyExists;
      }
      at := FindUnused();
      if at == slots.Length {
        return Full;
      }
      slots[at] := Slot(id, event, now + delay, period, true);
      count := count + 1;
      return Ok;
    }

    method Restart(id: nat, event: Event, now: Tick, delay: Tick, period: Tick) returns (result: Result)
      modifies this, slots
      ensures (View(), result) == TimerModel.Restart(old(View()), id, event, now, delay, period)
    {
      if delay > MAX - now {
        return InvalidArgument;
      }
      if processing {
        return Busy;
      }
      var at := Find(id);
      if at == slots.Length {
        return NotFound;
      }
      slots[at] := Slot(id, event, now + delay, period, true);
      return Ok;
    }

    method Cancel(id: nat) returns (result: Result)
      modifies this, slots
      ensures (View(), result) == TimerModel.Cancel(old(View()), id)
    {
      if processing {
        return Busy;
      }
      var at := Find(id);
      if at == slots.Length {
        return NotFound;
      }
      slots[at] := UNUSED;
      count := Less(count);
      return Ok;
    }

    /** The event of a due timer goes to the queue; a timer that was sent is advanced or stopped. */
    method Emit(index: nat, now: Tick, queue: EventQueue.Queue<Event>) returns (sent: bool)
      requires index < slots.Length && Due(slots[index], now)
      requires queue.Valid() && (queue.storage as object) != slots
      modifies this`count, slots, queue, queue.storage
      ensures queue.Valid()
      ensures sent == (|old(queue.Items())| < queue.storage.Length)
      ensures !sent ==> slots[..] == old(slots[..]) && count == old(count) && queue.Items() == old(queue.Items())
      ensures sent ==> var fired := Fired(old(slots[index]), now);
                       && slots[..] == old(slots[..])[index := fired]
                       && count == (if fired.active then old(count) else Less(old(count)))
                       && queue.Items() == old(queue.Items()) + [old(slots[index]).event]
    {
      hide Fired;
      var slot := slots[index];
      var pushed := queue.Push(slot.event);
      assert slots[..] == old(slots[..]);
      if pushed != EventQueue.Ok {
        return false;
      }
      ghost var items := queue.Items();
      var fired := FireSlot(slot, now);
      slots[index] := fired;
      assert slots[..] == old(slots[..])[index := fired];
      assert queue.Items() == items;
      if !fired.active {
        count := Less(count);
      }
      return true;
    }

    /** Due timers are pushed onto `queue` in slot order until it is full. */
    method Process(now: Tick, queue: EventQueue.Queue<Event>) returns (result: Result, emitted: nat)
      requires queue.Valid() && (queue.storage as object) != slots
      modifies this, slots, queue, queue.storage
      ensures queue.Valid()
      ensures var (next, events, outcome) :=
                TimerModel.Process(old(View()), now, queue.storage.Length - |old(queue.Items())|);
              && View() == next && result == outcome && emitted == |events|
              && queue.Items() == old(queue.Items()) + events
    {
      hide Fired;
      emitted := 0;
      if processing {
        return Busy, 0;
      }
      processing := true;
      result := Ok;
      ghost var whole := ProcessFrom(slots[..], count, 0, now, queue.storage.Length - |queue.Items()|);
      ghost var sent: seq<Event> := [];
      var index := 0;
      while index < slots.Length
        invariant index <= slots.Length && queue.Valid() && processing && emitted == |sent|
        invariant |queue.Items()| <= queue.storage.Length
        invariant queue.Items() == old(queue.Items()) + sent
        invariant result == Ok
        invariant var rest := ProcessFrom(slots[..], count, index, now, queue.storage.Length - |queue.Items()|);
                  whole == rest.(emitted := sent + rest.emitted)
      {
        if !slots[index].active || now < slots[index].deadline {
          index := index + 1;
          continue;
        }
        ghost var event := slots[index].event;
        ghost var room := queue.storage.Length - |queue.Items()|;
        if room > 0 {
          ProcessTurn(slots[..], count, index, now, room, sent);
        }
        var pushed := Emit(index, now, queue);
        if !pushed {
          result := Full;
          break;
        }
        emitted := emitted + 1;
        sent := sent + [event];
        index := index + 1;
      }
      processing := false;
    }

    static method FireSlot(slot: Slot, now: Tick) returns (fired: Slot)
      requires Due(slot, now)
      ensures fired == Fired(slot, now)
    {
      if slot.period == 0 {
        return UNUSED;
      }
      var next := NextDeadline(slot.deadline, slot.period, now);
      return if next == None then UNUSED else slot.(deadline := next.value);
    }

    method NextDeadlineOf() returns (result: Result, deadline: Tick)
      ensures (deadline, result == Ok) == Earliest(slots[..], 0, MAX, false)
      ensures result == Ok || result == NotFound
    {
      deadline := MAX;
      var found := false;
      var index := 0;
      while index < slots.Length
        invariant index <= slots.Length
        invariant Earliest(slots[..], index, deadline, found) == Earliest(slots[..], 0, MAX, false)
      {
        if slots[index].active && (!found || slots[index].deadline < deadline) {
          deadline, found := slots[index].deadline, true;
        }
        index := index + 1;
      }
      result := if found then Ok else NotFound;
    }
  }
}
