/**
 The laws of the timer scheduler.
 */
module TimerLaws {
  import opened Wrappers
  import opened TimerModel

  // ----- One deadline -----

  /** `steps` periods after `deadline` is the first such point after `now`. */
  predicate IsLeastAfter(deadline: Tick, period: Tick, now: Tick, steps: nat) {
    deadline + steps * period > now && forall k: nat :: k < steps ==> deadline + Times(k, period) <= now
  }

  function Times(k: nat, period: nat): nat {
    k * period
  }

  /**
   The next deadline is the least `deadline + k * period` after `now`; the timer stops exactly
   when that value does not fit 64 bits.
   */
  lemma NextDeadlineIsLeast(deadline: Tick, period: Tick, now: Tick)
    requires deadline <= now && period > 0
    ensures var steps := (now - deadline) / period + 1;
            && IsLeastAfter(deadline, period, now, steps)
            && NextDeadline(deadline, period, now) ==
               if deadline + steps * period <= MAX then Some(deadline + steps * period) else None
  {
    var elapsed := (now - deadline) / period;
    var steps := elapsed + 1;
    QuotientBounds(now - deadline, period);
    forall k: nat | k < steps
      ensures deadline + Times(k, period) <= now
    {
      MultiplesOrdered(k, elapsed, period);
    }
    QuotientFits(MAX - deadline, period, steps);
    if elapsed == MAX {
      MultiplesOrdered(1, period, steps);
      assert steps * period == period * steps;
    }
  }

  lemma QuotientFits(room: nat, p: nat, steps: nat)
    requires p > 0
    ensures steps <= room / p <==> steps * p <= room
  {
    QuotientBounds(room, p);
    if steps <= room / p {
      MultiplesOrdered(steps, room / p, p);
    } else {
      MultiplesOrdered(room / p + 1, steps, p);
    }
  }

  /** A fired timer is no longer due. */
  lemma FiredIsLater(s: Slot, now: Tick)
    requires Due(s, now)
    ensures var f := Fired(s, now);
            f.active ==> f.deadline > now && f.id == s.id && f.event == s.event && f.period == s.period
  {
    if s.period > 0 {
      NextDeadlineIsLeast(s.deadline, s.period, now);
    }
  }

  // ----- What a process call emits -----

  function DueEvents(slots: seq<Slot>, k: nat, now: Tick): seq<Event>
    requires k <= |slots|
    decreases |slots| - k
  {
    if k == |slots| then []
    else (if Due(slots[k], now) then [slots[k].event] else []) + DueEvents(slots, k + 1, now)
  }

  lemma {:induction false} DueEventsBehind(slots: seq<Slot>, other: seq<Slot>, k: nat, now: Tick)
    requires k <= |slots| == |other| && slots[k..] == other[k..]
    ensures DueEvents(slots, k, now) == DueEvents(other, k, now)
    decreases |slots| - k
  {
    if k < |slots| {
      assert slots[k] == slots[k..][0] == other[k..][0] == other[k];
      assert slots[k + 1..] == slots[k..][1..] == other[k..][1..] == other[k + 1..];
      DueEventsBehind(slots, other, k + 1, now);
    }
  }

  function Min(a: nat, b: nat): nat {
    if a < b then a else b
  }

  lemma PrefixStep(event: Event, behind: seq<Event>, room: nat)
    requires room > 0
    ensures [event] + behind[..Min(room - 1, |behind|)] == ([event] + behind)[..Min(room, |[event] + behind|)]
  {
  }

  /**
   A call emits the events of the due timers in slot order, as many as fit; it returns Full
   exactly when one did not fit.
   */
  lemma {:induction false} EmitsDueInOrder(slots: seq<Slot>, count: nat, k: nat, now: Tick, room: nat)
    requires k <= |slots|
    ensures var o := ProcessFrom(slots, count, k, now, room); var due := DueEvents(slots, k, now);
            && o.emitted == due[..Min(room, |due|)]
            && o.result == if |due| <= room then Ok else Full
    decreases |slots| - k
  {
    hide Fired, Due;
    if k < |slots| {
      if !Due(slots[k], now) {
        EmitsDueInOrder(slots, count, k + 1, now, room);
      } else if room > 0 {
        var fired := Fired(slots[k], now);
        var next := slots[k := fired];
        var left := if fired.active then count else Less(count);
        EmitsDueInOrder(next, left, k + 1, now, room - 1);
        DueEventsBehind(slots, next, k + 1, now);
        PrefixStep(slots[k].event, DueEvents(slots, k + 1, now), room);
      }
    }
  }

  /** After Ok every active deadline is later than `now`; slots before `k` are not touched. */
  lemma {:induction false} OkLeavesNothingDue(slots: seq<Slot>, count: nat, k: nat, now: Tick, room: nat)
    requires k <= |slots|
    ensures var o := ProcessFrom(slots, count, k, now, room);
            && o.slots[..k] == slots[..k]
            && (o.result == Ok ==> forall i :: k <= i < |slots| ==> !Due(o.slots[i], now))
    decreases |slots| - k
  {
    if k < |slots| {
      if !Due(slots[k], now) {
        OkLeavesNothingDue(slots, count, k + 1, now, room);
        var o := ProcessFrom(slots, count, k + 1, now, room);
        assert o.slots[k] == o.slots[..k + 1][k] == slots[..k + 1][k];
        assert o.slots[..k] == o.slots[..k + 1][..k];
      } else if room > 0 {
        var fired := Fired(slots[k], now);
        var next := slots[k := fired];
        FiredIsLater(slots[k], now);
        OkLeavesNothingDue(next, if fired.active then count else Less(count), k + 1, now, room - 1);
        var o := ProcessFrom(next, if fired.active then count else Less(count), k + 1, now, room - 1);
        assert o.slots[k] == o.slots[..k + 1][k] == next[..k + 1][k] == fired;
        assert o.slots[..k] == o.slots[..k + 1][..k] == next[..k];
      }
    }
  }

  // ----- Resuming -----

  /** A second pass skips the slots the first one dealt with. */
  lemma {:induction false} SkipsSettled(slots: seq<Slot>, count: nat, from: nat, k: nat, now: Tick, room: nat)
    requires from <= k <= |slots| && forall i :: from <= i < k ==> !Due(slots[i], now)
    ensures ProcessFrom(slots, count, from, now, room) == ProcessFrom(slots, count, k, now, room)
    decreases k - from
  {
    if from < k {
      SkipsSettled(slots, count, from + 1, k, now, room);
    }
  }

  /** A pass stopped by a full queue and passed over again is one pass with both rooms. */
  lemma {:induction false} ResumeFrom(slots: seq<Slot>, count: nat, k: nat, now: Tick, room: nat, more: nat)
    requires k <= |slots| && forall i :: 0 <= i < k ==> !Due(slots[i], now)
    requires ProcessFrom(slots, count, k, now, room).result == Full
    ensures var o1 := ProcessFrom(slots, count, k, now, room);
            var o2 := ProcessFrom(o1.slots, o1.count, 0, now, more);
            ProcessFrom(slots, count, k, now, room + more) == Outcome(o2.slots, o2.count, o1.emitted + o2.emitted, o2.result)
    decreases |slots| - k
  {
    if !Due(slots[k], now) {
      ResumeFrom(slots, count, k + 1, now, room, more);
    } else if room == 0 {
      SkipsSettled(slots, count, 0, k, now, more);
    } else {
      var fired := Fired(slots[k], now);
      var next := slots[k := fired];
      var left := if fired.active then count else Less(count);
      FiredIsLater(slots[k], now);
      ResumeFrom(next, left, k + 1, now, room - 1, more);
      var o1 := ProcessFrom(next, left, k + 1, now, room - 1);
      var o2 := ProcessFrom(o1.slots, o1.count, 0, now, more);
      assert [slots[k].event] + (o1.emitted + o2.emitted) == [slots[k].event] + o1.emitted + o2.emitted;
    }
  }

  /** Repeated calls at one tick, each with its own room, until one returns Ok. */
  function Calls(s: Scheduler, now: Tick, rooms: seq<nat>): (Scheduler, seq<Event>, Result)
    decreases |rooms|
  {
    if rooms == [] then (s, [], Full)
    else
      var (s1, emitted, result) := Process(s, now, rooms[0]);
      if result != Full then (s1, emitted, result)
      else
        var (s2, later, last) := Calls(s1, now, rooms[1..]);
        (s2, emitted + later, last)
  }

  /**
   However the queue filled up in between, calls repeated until Ok emit what one call with
   unlimited room emits, in the same order, and leave the same timers.
   */
  lemma {:induction false} RepeatedCallsAreOne(s: Scheduler, now: Tick, rooms: seq<nat>, unlimited: nat)
    requires !s.processing && unlimited >= |s.slots|
    requires Calls(s, now, rooms).2 == Ok
    ensures Calls(s, now, rooms) == Process(s, now, unlimited)
    decreases |rooms|
  {
    var o := ProcessFrom(s.slots, s.count, 0, now, rooms[0]);
    if o.result == Full {
      ResumeFrom(s.slots, s.count, 0, now, rooms[0], unlimited);
      RepeatedCallsAreOne(s.(slots := o.slots, count := o.count), now, rooms[1..], unlimited);
      RoomEnough(s.slots, s.count, 0, now, unlimited, rooms[0] + unlimited);
    } else {
      SameWhenOk(s.slots, s.count, 0, now, rooms[0], unlimited);
    }
  }

  lemma {:induction false} RoomEnough(slots: seq<Slot>, count: nat, k: nat, now: Tick, room: nat, more: nat)
    requires k <= |slots| && room >= |slots| - k && more >= |slots| - k
    ensures ProcessFrom(slots, count, k, now, room) == ProcessFrom(slots, count, k, now, more)
    ensures ProcessFrom(slots, count, k, now, room).result == Ok
    decreases |slots| - k
  {
    if k < |slots| {
      if Due(slots[k], now) {
        var fired := Fired(slots[k], now);
        RoomEnough(slots[k := fired], if fired.active then count else Less(count), k + 1, now, room - 1, more - 1);
      } else {
        RoomEnough(slots, count, k + 1, now, room, more);
      }
    }
  }

  lemma {:induction false} SameWhenOk(slots: seq<Slot>, count: nat, k: nat, now: Tick, room: nat, more: nat)
    requires k <= |slots| && more >= |slots| - k && ProcessFrom(slots, count, k, now, room).result == Ok
    ensures ProcessFrom(slots, count, k, now, room) == ProcessFrom(slots, count, k, now, more)
    decreases |slots| - k
  {
    if k < |slots| {
      if Due(slots[k], now) {
        var fired := Fired(slots[k], now);
        SameWhenOk(slots[k := fired], if fired.active then count else Less(count), k + 1, now, room - 1, more - 1);
      } else {
        SameWhenOk(slots, count, k + 1, now, room, more);
      }
    }
  }

  // ----- Every run -----

  /** What a caller asked of a timer: its event, its first deadline and its period. */
  datatype Asked = Asked(event: Event, first: nat, period: nat)

  /** `asked` remembers what each timer id was last started or restarted with, until it is cancelled. */
  datatype System = System(scheduler: Scheduler, asked: map<nat, Asked>)

  datatype Call =
    | StartTimer(id: nat, event: Event, now: Tick, delay: Tick, period: Tick)
    | RestartTimer(id: nat, event: Event, now: Tick, delay: Tick, period: Tick)
    | CancelTimer(id: nat)
    | ProcessTimers(now: Tick, room: nat)

  function Next(sys: System, call: Call): System {
    var s := sys.scheduler;
    match call
    case StartTimer(id, event, now, delay, period) =>
      var (t, result) := Start(s, id, event, now, delay, period);
      System(t, if result == Ok then sys.asked[id := Asked(event, now + delay, period)] else sys.asked)
    case RestartTimer(id, event, now, delay, period) =>
      var (t, result) := Restart(s, id, event, now, delay, period);
      System(t, if result == Ok then sys.asked[id := Asked(event, now + delay, period)] else sys.asked)
    case CancelTimer(id) =>
      var (t, result) := Cancel(s, id);
      System(t, if result == Ok then sys.asked - {id} else sys.asked)
    case ProcessTimers(now, room) => sys.(scheduler := Process(s, now, room).0)
  }

  function ActiveCount(slots: seq<Slot>): nat {
    if slots == [] then 0 else (if slots[0].active then 1 else 0) + ActiveCount(slots[1..])
  }

  /** The deadline is the first one plus a whole number of periods. */
  predicate OnSchedule(s: Slot, first: nat) {
    s.active ==>
      && first <= s.deadline
      && if s.period == 0 then s.deadline == first else (s.deadline - first) % s.period == 0
  }

  ghost predicate Distinct(slots: seq<Slot>) {
    forall i, j :: 0 <= i < j < |slots| && slots[i].active && slots[j].active ==> slots[i].id != slots[j].id
  }

  /** The timer has the event and the period that were asked for, and is on their schedule. */
  predicate AsAsked(s: Slot, a: Asked) {
    s.event == a.event && s.period == a.period && OnSchedule(s, a.first)
  }

  ghost predicate Faithful(slots: seq<Slot>, asked: map<nat, Asked>) {
    forall i :: 0 <= i < |slots| && slots[i].active ==> slots[i].id in asked && AsAsked(slots[i], asked[slots[i].id])
  }

  ghost predicate Inv(sys: System) {
    var slots := sys.scheduler.slots;
    && !sys.scheduler.processing
    && sys.scheduler.count == ActiveCount(slots)
    && Distinct(slots) && Faithful(slots, sys.asked)
  }

  lemma {:induction false} ActiveCountUpdate(slots: seq<Slot>, at: nat, to: Slot)
    requires at < |slots|
    ensures ActiveCount(slots[at := to]) + (if slots[at].active then 1 else 0)
            == ActiveCount(slots) + (if to.active then 1 else 0)
  {
    if at == 0 {
      assert slots[0 := to][1..] == slots[1..];
    } else {
      assert slots[at := to][1..] == slots[1..][at - 1 := to];
      ActiveCountUpdate(slots[1..], at - 1, to);
    }
  }

  lemma PeriodsLater(s: Slot, first: nat, now: Tick)
    requires Due(s, now) && OnSchedule(s, first)
    ensures OnSchedule(Fired(s, now), first)
  {
    if Fired(s, now).active {
      NextDeadlineIsLeast(s.deadline, s.period, now);
      var steps := (now - s.deadline) / s.period + 1;
      WholePeriods(s.deadline - first, steps, s.period);
    }
  }

  lemma WholePeriods(x: nat, steps: nat, p: nat)
    requires p > 0 && x % p == 0
    ensures (x + steps * p) % p == 0
  {
    var q := x / p;
    assert x + steps * p == (q + steps) * p;
    ModOfMultiple(q + steps, p);
  }

  lemma {:induction false} ModOfMultiple(q: nat, p: nat)
    requires p > 0
    ensures (q * p) % p == 0
  {
    QuotientBounds(q * p, p);
    var d := (q * p) / p;
    if q < d {
      MultiplesOrdered(q + 1, d, p);
    } else if d < q {
      MultiplesOrdered(d + 1, q, p);
    }
  }

  /** A timer that stays active after firing is still as asked. */
  lemma FiredAsAsked(s: Slot, a: Asked, now: Tick)
    requires Due(s, now) && AsAsked(s, a)
    ensures Fired(s, now).active ==> Fired(s, now).id == s.id && AsAsked(Fired(s, now), a)
  {
    FiredIsLater(s, now);
    PeriodsLater(s, a.first, now);
  }

  lemma {:induction false} ProcessKeeps(slots: seq<Slot>, asked: map<nat, Asked>, count: nat, k: nat, now: Tick, room: nat)
    requires k <= |slots| && count == ActiveCount(slots) && Distinct(slots) && Faithful(slots, asked)
    ensures var o := ProcessFrom(slots, count, k, now, room);
            o.count == ActiveCount(o.slots) && Distinct(o.slots) && Faithful(o.slots, asked)
    decreases |slots| - k
  {
    hide AsAsked, ActiveCount, Fired;
    if k < |slots| {
      if !Due(slots[k], now) {
        ProcessKeeps(slots, asked, count, k + 1, now, room);
      } else if room > 0 {
        var fired := Fired(slots[k], now);
        FiredAsAsked(slots[k], asked[slots[k].id], now);
        ActiveCountUpdate(slots, k, fired);
        ProcessKeeps(slots[k := fired], asked, if fired.active then count else Less(count), k + 1, now, room - 1);
      }
    }
  }

  /** Putting a timer with a new id, or no timer, into a slot. */
  lemma PutKeeps(slots: seq<Slot>, asked: map<nat, Asked>, at: nat, to: Slot, next: map<nat, Asked>)
    requires at < |slots| && Distinct(slots) && Faithful(slots, asked)
    requires to.active ==> forall i :: 0 <= i < |slots| && i != at ==> !Bears(slots[i], to.id)
    requires to.active ==> to.id in next && AsAsked(to, next[to.id])
    requires forall i :: 0 <= i < |slots| && i != at && slots[i].active && slots[i].id in asked ==>
               slots[i].id in next && next[slots[i].id] == asked[slots[i].id]
    ensures ActiveCount(slots[at := to]) + (if slots[at].active then 1 else 0)
            == ActiveCount(slots) + (if to.active then 1 else 0)
    ensures Distinct(slots[at := to])
    ensures Faithful(slots[at := to], next)
  {
    hide ActiveCount, AsAsked;
    ActiveCountUpdate(slots, at, to);
  }

  lemma NextKeeps(sys: System, call: Call)
    requires Inv(sys)
    ensures Inv(Next(sys, call))
  {
    hide ActiveCount, ProcessFrom;
    var s := sys.scheduler;
    match call
    case StartTimer(id, event, now, delay, period) =>
      if Start(s, id, event, now, delay, period).1 == Ok {
        PutKeeps(s.slots, sys.asked, FindFree(s.slots, 0), Slot(id, event, now + delay, period, true), Next(sys, call).asked);
      }
    case RestartTimer(id, event, now, delay, period) =>
      if Restart(s, id, event, now, delay, period).1 == Ok {
        PutKeeps(s.slots, sys.asked, FindSlot(s.slots, id, 0), Slot(id, event, now + delay, period, true), Next(sys, call).asked);
      }
    case CancelTimer(id) =>
      if Cancel(s, id).1 == Ok {
        PutKeeps(s.slots, sys.asked, FindSlot(s.slots, id, 0), UNUSED, Next(sys, call).asked);
      }
    case ProcessTimers(now, room) => ProcessKeeps(s.slots, sys.asked, s.count, 0, now, room);
  }

  ghost predicate Reaches(sys: System, calls: seq<Call>, end: System)
    decreases |calls|
  {
    if calls == [] then end == sys else Reaches(Next(sys, calls[0]), calls[1..], end)
  }

  /**
   In every run the count is the number of active timers, their ids are distinct, and every
   active timer has the event and the period it was last started or restarted with and a
   deadline that is its first one plus whole periods; a one-shot stands at its first deadline.
   */
  lemma {:induction false} RunKeeps(sys: System, calls: seq<Call>, end: System)
    requires Inv(sys) && Reaches(sys, calls, end)
    ensures Inv(end)
    decreases |calls|
  {
    hide Inv, Next;
    if calls != [] {
      NextKeeps(sys, calls[0]);
      RunKeeps(Next(sys, calls[0]), calls[1..], end);
    }
  }

  /** A new scheduler. */
  function Initial(capacity: nat): System {
    System(Scheduler(seq(capacity, _ => UNUSED), 0, false), map[])
  }

  lemma {:induction false} InitialInv(capacity: nat)
    ensures Inv(Initial(capacity))
  {
    NoneActive(Initial(capacity).scheduler.slots);
  }

  lemma {:induction false} NoneActive(slots: seq<Slot>)
    requires forall i :: 0 <= i < |slots| ==> !slots[i].active
    ensures ActiveCount(slots) == 0
  {
    if slots != [] {
      NoneActive(slots[1..]);
    }
  }

  // ----- When starting, restarting and cancelling succeed -----

  predicate IsActive(slots: seq<Slot>, id: nat) {
    exists i :: 0 <= i < |slots| && Bears(slots[i], id)
  }

  lemma {:induction false} CountBelow(slots: seq<Slot>)
    ensures ActiveCount(slots) <= |slots|
    ensures ActiveCount(slots) == |slots| <==> forall i :: 0 <= i < |slots| ==> slots[i].active
  {
    if slots != [] {
      CountBelow(slots[1..]);
      assert forall i :: 0 < i < |slots| ==> slots[i] == slots[1..][i - 1];
    }
  }

  /**
   The result of every call, by the timers that are active: a timer can be started if its
   deadline fits 64 bits, its id is not active and a slot is left; restarted if its deadline
   fits and its id is active; cancelled if its id is active.
   */
  lemma ResultsExactly(sys: System, id: nat, event: Event, now: Tick, delay: Tick, period: Tick)
    requires Inv(sys)
    ensures var s := sys.scheduler; var active := IsActive(s.slots, id);
            && Start(s, id, event, now, delay, period).1 == (if now + delay > 0xFFFF_FFFF_FFFF_FFFF then InvalidArgument
                                                             else if active then AlreadyExists
                                                             else if s.count == |s.slots| then Full else Ok)
            && Restart(s, id, event, now, delay, period).1 == (if now + delay > 0xFFFF_FFFF_FFFF_FFFF then InvalidArgument
                                                               else if active then Ok else NotFound)
            && Cancel(s, id).1 == (if active then Ok else NotFound)
  {
    var slots := sys.scheduler.slots;
    CountBelow(slots);
    hide ActiveCount, Distinct, Faithful;
    var at := FindSlot(slots, id, 0);
    assert at < |slots| ==> Bears(slots[at], id);
  }

  /** Starting, restarting and cancelling leave every other timer as it was. */
  lemma OthersStay(sys: System, call: Call, other: Slot)
    requires Inv(sys) && !call.ProcessTimers? && other.active && other.id != call.id
    ensures other in sys.scheduler.slots <==> other in Next(sys, call).scheduler.slots
  {
    hide ActiveCount, Distinct, Faithful;
    var slots, next := sys.scheduler.slots, Next(sys, call).scheduler.slots;
    if other in slots {
      var i :| 0 <= i < |slots| && slots[i] == other;
      assert next[i] == other;
    }
    if other in next {
      var i :| 0 <= i < |next| && next[i] == other;
      assert slots[i] == other;
    }
  }

  // ----- What starting, restarting and cancelling change -----

  lemma {:induction false} SilentSlot(slots: seq<Slot>, at: nat, to: Slot, k: nat, now: Tick)
    requires at < |slots| && k <= |slots| && (k <= at ==> !Due(slots[at], now) && !Due(to, now))
    ensures DueEvents(slots[at := to], k, now) == DueEvents(slots, k, now)
    decreases |slots| - k
  {
    if k < |slots| {
      SilentSlot(slots, at, to, k + 1, now);
    }
  }

  lemma {:induction false} DueSplit(slots: seq<Slot>, at: nat, to: Slot, k: nat, now: Tick)
    returns (before: seq<Event>, behind: seq<Event>)
    requires k <= at < |slots| && !Due(slots[at], now) && Due(to, now)
    ensures DueEvents(slots, k, now) == before + behind
    ensures DueEvents(slots[at := to], k, now) == before + [to.event] + behind
    decreases at - k
  {
    hide Due;
    if k == at {
      before, behind := [], DueEvents(slots, k + 1, now);
      SilentSlot(slots, at, to, k + 1, now);
    } else {
      var rest, here := [], if Due(slots[k], now) then [slots[k].event] else [];
      rest, behind := DueSplit(slots, at, to, k + 1, now);
      before := here + rest;
      assert here + (rest + behind) == before + behind;
      assert here + (rest + [to.event] + behind) == before + [to.event] + behind;
    }
  }

  /**
   A started timer adds its event, and only that, to what is due from its deadline on, and
   nothing before; cancelling it takes the event out again.
   */
  lemma StartAddsOneEvent(s: Scheduler, id: nat, event: Event, now: Tick, delay: Tick, period: Tick, later: Tick)
    requires Start(s, id, event, now, delay, period).1 == Ok
    ensures var before := DueEvents(s.slots, 0, later);
            var behind := DueEvents(Start(s, id, event, now, delay, period).0.slots, 0, later);
            if later < now + delay then behind == before
            else exists i :: 0 <= i <= |before| && behind == before[..i] + [event] + before[i..]
    ensures var (t, result) := Cancel(Start(s, id, event, now, delay, period).0, id);
            result == Ok && t.count == s.count && DueEvents(t.slots, 0, later) == DueEvents(s.slots, 0, later)
  {
    var at := FindFree(s.slots, 0);
    var to := Slot(id, event, now + delay, period, true);
    if later < now + delay {
      SilentSlot(s.slots, at, to, 0, later);
    } else {
      var first, last := DueSplit(s.slots, at, to, 0, later);
      var due := DueEvents(s.slots, 0, later);
      assert due[..|first|] == first && due[|first|..] == last;
    }
    CancelFindsStarted(s.slots, at, to);
    SilentSlot(s.slots, at, UNUSED, 0, later);
  }

  lemma CancelFindsStarted(slots: seq<Slot>, at: nat, to: Slot)
    requires at < |slots| && to.active && FindSlot(slots, to.id, 0) == |slots|
    ensures FindSlot(slots[at := to], to.id, 0) == at && slots[at := to][at := UNUSED] == slots[at := UNUSED]
  {
    assert Bears(slots[at := to][at], to.id);
    var next := slots[at := to];
    assert forall i :: 0 <= i < at ==> !Bears(next[i], to.id);
  }

  // ----- The next deadline -----

  lemma {:induction false} EarliestIsLeast(slots: seq<Slot>, k: nat, best: Tick, found: bool)
    requires k <= |slots|
    ensures var (least, any) := Earliest(slots, k, best, found);
            && (any <==> found || exists i :: k <= i < |slots| && slots[i].active)
            && (found ==> least <= best)
            && (forall i :: k <= i < |slots| && slots[i].active ==> least <= slots[i].deadline)
            && (any ==> (found && least == best) || exists i :: k <= i < |slots| && slots[i].active && slots[i].deadline == least)
    decreases |slots| - k
  {
    if k < |slots| {
      if slots[k].active && (!found || slots[k].deadline < best) {
        EarliestIsLeast(slots, k + 1, slots[k].deadline, true);
      } else {
        EarliestIsLeast(slots, k + 1, best, found);
      }
    }
  }

  /** A process call emits something exactly when the next deadline has come. */
  lemma {:induction false} DueWhenDeadlinePassed(slots: seq<Slot>, count: nat, now: Tick, room: nat)
    requires room > 0
    ensures var (least, any) := Earliest(slots, 0, MAX, false);
            ProcessFrom(slots, count, 0, now, room).emitted != [] <==> any && least <= now
  {
    EarliestIsLeast(slots, 0, MAX, false);
    EmitsDueInOrder(slots, count, 0, now, room);
    NothingDue(slots, 0, now);
  }

  lemma {:induction false} NothingDue(slots: seq<Slot>, k: nat, now: Tick)
    requires k <= |slots|
    ensures DueEvents(slots, k, now) == [] <==> forall i :: k <= i < |slots| ==> !Due(slots[i], now)
    decreases |slots| - k
  {
    if k < |slots| {
      NothingDue(slots, k + 1, now);
    }
  }
}
