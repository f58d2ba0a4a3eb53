/**
 The timer scheduler driven by an external clock (`utility_event_timer.c`).
 */
module TimerModel {
  import opened Wrappers

  const MAX: nat := 0xFFFF_FFFF_FFFF_FFFF

  /** A 64-bit tick. */
  type Tick = x: nat | x <= MAX

  datatype Event = Event(id: nat, source: nat, payload: nat, size: nat)

  const NO_EVENT := Event(0, 0, 0, 0)

  datatype Slot = Slot(id: nat, event: Event, deadline: Tick, period: Tick, active: bool)

  const UNUSED := Slot(0, NO_EVENT, 0, 0, false)

  datatype Result = Ok | InvalidArgument | Busy | AlreadyExists | NotFound | Full

  /** `processing` is set while a process call runs. */
  datatype Scheduler = Scheduler(slots: seq<Slot>, count: nat, processing: bool)

  // ----- Searching -----

  predicate Bears(s: Slot, id: nat) {
    s.active && s.id == id
  }

  function FindSlot(slots: seq<Slot>, id: nat, k: nat): (at: nat)
    requires k <= |slots|
    ensures k <= at <= |slots|
    ensures at < |slots| ==> Bears(slots[at], id)
    ensures forall i :: k <= i < at ==> !Bears(slots[i], id)
    decreases |slots| - k
  {
    if k < |slots| && !Bears(slots[k], id) then FindSlot(slots, id, k + 1) else k
  }

  function FindFree(slots: seq<Slot>, k: nat): (at: nat)
    requires k <= |slots|
    ensures k <= at <= |slots|
    ensures at < |slots| ==> !slots[at].active
    ensures forall i :: k <= i < at ==> slots[i].active
    decreases |slots| - k
  {
    if k < |slots| && slots[k].active then FindFree(slots, k + 1) else k
  }

  // ----- Starting and stopping -----

  predicate DeadlineFits(now: Tick, delay: Tick) {
    delay <= MAX - now
  }

  function Start(s: Scheduler, id: nat, event: Event, now: Tick, delay: Tick, period: Tick): (Scheduler, Result) {
    if !DeadlineFits(now, delay) then (s, InvalidArgument)
    else if s.processing then (s, Busy)
    else if FindSlot(s.slots, id, 0) < |s.slots| then (s, AlreadyExists)
    else
      var at := FindFree(s.slots, 0);
      if at == |s.slots| then (s, Full)
      else (s.(slots := s.slots[at := Slot(id, event, now + delay, period, true)], count := s.count + 1), Ok)
  }

  function Restart(s: Scheduler, id: nat, event: Event, now: Tick, delay: Tick, period: Tick): (Scheduler, Result) {
    if !DeadlineFits(now, delay) then (s, InvalidArgument)
    else if s.processing then (s, Busy)
    else
      var at := FindSlot(s.slots, id, 0);
      if at == |s.slots| then (s, NotFound)
      else (s.(slots := s.slots[at := Slot(id, event, now + delay, period, true)]), Ok)
  }

  function Less(count: nat): nat {
    if count > 0 then count - 1 else 0
  }

  function Cancel(s: Scheduler, id: nat): (Scheduler, Result) {
    if s.processing then (s, Busy)
    else
      var at := FindSlot(s.slots, id, 0);
      if at == |s.slots| then (s, NotFound)
      else (s.(slots := s.slots[at := UNUSED], count := Less(s.count)), Ok)
  }

  // ----- Processing -----

  predicate Due(s: Slot, now: Tick) {
    s.active && s.deadline <= now
  }

  lemma QuotientBounds(x: nat, p: nat)
    requires p > 0
    ensures (x / p) * p <= x < (x / p + 1) * p
  {
  }

  lemma MultiplesOrdered(k: nat, l: nat, p: nat)
    requires k <= l
    ensures k * p <= l * p
  {
    assert (l - k) * p >= 0;
  }

  /** `advance_periodic_deadline`: no operation of the 64-bit arithmetic wraps. */
  function NextDeadline(deadline: Tick, period: Tick, now: Tick): Option<Tick>
    requires deadline <= now && period > 0
  {
    var elapsedPeriods: Tick := (now - deadline) / period;
    if elapsedPeriods == MAX then None
    else
      var steps: Tick := elapsedPeriods + 1;
      if steps > (MAX - deadline) / period then None
      else
        QuotientBounds(MAX - deadline, period);
        MultiplesOrdered(steps, (MAX - deadline) / period, period);
        Some(deadline + steps * period)
  }

  /** The slot after its timer fired. */
  function Fired(s: Slot, now: Tick): Slot
    requires Due(s, now)
  {
    if s.period == 0 then UNUSED
    else
      match NextDeadline(s.deadline, s.period, now)
      case None => UNUSED
      case Some(deadline) => s.(deadline := deadline)
  }

  datatype Outcome = Outcome(slots: seq<Slot>, count: nat, emitted: seq<Event>, result: Result)

  /** The process loop from slot `k` on with `room` free places in the queue. */
  function ProcessFrom(slots: seq<Slot>, count: nat, k: nat, now: Tick, room: nat): (o: Outcome)
    requires k <= |slots|
    ensures |o.slots| == |slots|
    decreases |slots| - k
  {
    if k == |slots| then Outcome(slots, count, [], Ok)
    else if !Due(slots[k], now) then ProcessFrom(slots, count, k + 1, now, room)
    else if room == 0 then Outcome(slots, count, [], Full)
    else
      var fired := Fired(slots[k], now);
      var rest := ProcessFrom(slots[k := fired], if fired.active then count else Less(count), k + 1, now, room - 1);
      rest.(emitted := [slots[k].event] + rest.emitted)
  }

  /** One turn of the loop, `sent` having been emitted before it. */
  lemma ProcessTurn(slots: seq<Slot>, count: nat, k: nat, now: Tick, room: nat, sent: seq<Event>)
    requires k < |slots| && Due(slots[k], now) && room > 0
    ensures var fired := Fired(slots[k], now);
            var o := ProcessFrom(slots, count, k, now, room);
            var rest := ProcessFrom(slots[k := fired], if fired.active then count else Less(count), k + 1, now, room - 1);
            o.(emitted := sent + o.emitted) == rest.(emitted := sent + [slots[k].event] + rest.emitted)
  {
    hide Fired;
  }

  function Process(s: Scheduler, now: Tick, room: nat): (Scheduler, seq<Event>, Result) {
    if s.processing then (s, [], Busy)
    else
      var o := ProcessFrom(s.slots, s.count, 0, now, room);
      (s.(slots := o.slots, count := o.count), o.emitted, o.result)
  }

  /** The earliest of `best` (when `found`) and the active deadlines from slot `k` on. */
  function Earliest(slots: seq<Slot>, k: nat, best: Tick, found: bool): (Tick, bool)
    requires k <= |slots|
    decreases |slots| - k
  {
    if k == |slots| then (best, found)
    else if slots[k].active && (!found || slots[k].deadline < best) then
      Earliest(slots, k + 1, slots[k].deadline, true)
    else Earliest(slots, k + 1, best, found)
  }
}
