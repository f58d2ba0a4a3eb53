/**
 What a process call does to each timer, and where the deadlines of periodic timers lie when
 the caller's clock never goes back.
 */
module TimerPeriods {
  import opened Wrappers
  import opened TimeTypes
  import opened TimerModel
  import opened TimerLaws

  // ----- What firing does -----

  /** The first whole number of periods after `from` that is later than `now`. */
  function LeastPoint(from: nat, period: nat, now: nat): nat
    requires period > 0
  {
    if now < from then from else from + Times((now - from) / period + 1, period)
  }

  /** It is such a point, later than `now`, and every earlier one is not. */
  lemma LeastPointIsLeast(from: nat, period: nat, now: nat)
    requires period > 0
    ensures var point := LeastPoint(from, period, now);
            point > now && exists m: nat :: point == from + Times(m, period)
                                            && forall k: nat :: k < m ==> from + Times(k, period) <= now
  {
    if now < from {
      assert from == from + Times(0, period);
    } else {
      var m := (now - from) / period + 1;
      QuotientBounds(now - from, period);
      forall k: nat | k < m
        ensures from + Times(k, period) <= now
      {
        MultiplesOrdered(k, m - 1, period);
      }
      assert LeastPoint(from, period, now) == from + Times(m, period);
    }
  }

  /**
   A timer that fires is stopped when it is one-shot, or when its next point does not fit 64
   bits; otherwise it moves to that point and nothing else about it changes.
   */
  lemma FiredExactly(s: Slot, now: Tick)
    requires Due(s, now)
    ensures s.period == 0 ==> Fired(s, now) == UNUSED
    ensures s.period > 0 ==>
              var point := LeastPoint(s.deadline, s.period, now);
              Fired(s, now) == if point <= MAX then s.(deadline := point) else UNUSED
  {
    if s.period > 0 {
      NextDeadlineIsLeast(s.deadline, s.period, now);
    }
  }

  // ----- What a process call does to every slot -----

  /** The slot at which the pass from `k` on stops: the first due one without room, or the end. */
  function StopAt(slots: seq<Slot>, k: nat, now: Tick, room: nat): (stop: nat)
    requires k <= |slots|
    ensures k <= stop <= |slots|
    ensures stop < |slots| ==> Due(slots[stop], now)
    decreases |slots| - k
  {
    if k == |slots| then k
    else if !Due(slots[k], now) then StopAt(slots, k + 1, now, room)
    else if room == 0 then k
    else StopAt(slots, k + 1, now, room - 1)
  }

  lemma {:induction false} StopIgnoresPast(slots: seq<Slot>, other: seq<Slot>, k: nat, now: Tick, room: nat)
    requires k <= |slots| == |other| && forall i :: k <= i < |slots| ==> slots[i] == other[i]
    ensures StopAt(slots, k, now, room) == StopAt(other, k, now, room)
    decreases |slots| - k
  {
    if k < |slots| {
      assert slots[k] == other[k];
      StopIgnoresPast(slots, other, k + 1, now, room);
      if room > 0 {
        StopIgnoresPast(slots, other, k + 1, now, room - 1);
      }
    }
  }

  /** Due timers of `k .. stop` have fired, all others are as they were. */
  predicate FiredUpTo(slots: seq<Slot>, after: seq<Slot>, k: nat, stop: nat, now: Tick) {
    |after| == |slots| && forall i :: 0 <= i < |slots| ==>
      after[i] == if k <= i < stop && Due(slots[i], now) then Fired(slots[i], now) else slots[i]
  }

  lemma FiredNone(slots: seq<Slot>, k: nat, now: Tick)
    ensures FiredUpTo(slots, slots, k, k, now)
  {
  }

  lemma FiredOneMore(slots: seq<Slot>, after: seq<Slot>, k: nat, stop: nat, now: Tick)
    requires k < |slots| && k < stop
    requires FiredUpTo(if Due(slots[k], now) then slots[k := Fired(slots[k], now)] else slots, after, k + 1, stop, now)
    ensures FiredUpTo(slots, after, k, stop, now)
  {
    hide Fired, Due;
  }

  /** The whole outcome of the loop, and when it ends early. */
  lemma {:induction false} ProcessOutcome(slots: seq<Slot>, count: nat, k: nat, now: Tick, room: nat)
    requires k <= |slots|
    ensures var o := ProcessFrom(slots, count, k, now, room); var stop := StopAt(slots, k, now, room);
            && (o.result == Ok <==> stop == |slots|) && (o.result == Full <==> stop < |slots|)
            && FiredUpTo(slots, o.slots, k, stop, now)
    decreases |slots| - k
  {
    hide Fired, Due, FiredUpTo;
    if k == |slots| || (Due(slots[k], now) && room == 0) {
      FiredNone(slots, k, now);
      return;
    }
    if Due(slots[k], now) {
      var fired := Fired(slots[k], now);
      var next := slots[k := fired];
      StopIgnoresPast(slots, next, k + 1, now, room - 1);
      ProcessOutcome(next, if fired.active then count else Less(count), k + 1, now, room - 1);
    } else {
      ProcessOutcome(slots, count, k + 1, now, room);
    }
    FiredOneMore(slots, ProcessFrom(slots, count, k, now, room).slots, k, StopAt(slots, k, now, room), now);
  }

  // ----- A clock that never goes back -----

  /** A periodic timer that has fired since it was started is due within one period of the clock. */
  predicate Recent(s: Slot, first: nat, clock: nat) {
    s.active && s.period > 0 && s.deadline != first ==> s.deadline <= clock + s.period
  }

  /** When a timer is to fire next, if it is to fire again after `now`. */
  function NextPoint(a: Asked, now: nat): Option<nat> {
    if now < a.first then Some(a.first)
    else if a.period == 0 || LeastPoint(a.first, a.period, now) > 0xFFFF_FFFF_FFFF_FFFF then None
    else Some(LeastPoint(a.first, a.period, now))
  }

  ghost predicate AllRecent(slots: seq<Slot>, asked: map<nat, Asked>, clock: nat) {
    forall i :: 0 <= i < |slots| && slots[i].active && slots[i].id in asked ==> Recent(slots[i], asked[slots[i].id].first, clock)
  }

  /** A timer that was asked for and is not active has nothing left to fire. */
  ghost predicate NothingLost(slots: seq<Slot>, asked: map<nat, Asked>, clock: nat) {
    forall id :: id in asked && !IsActive(slots, id) ==> NextPoint(asked[id], clock) == None
  }

  ghost predicate Timely(sys: System, clock: nat) {
    AllRecent(sys.scheduler.slots, sys.asked, clock) && NothingLost(sys.scheduler.slots, sys.asked, clock)
  }

  lemma FiredIsRecent(s: Slot, first: nat, now: Tick)
    requires Due(s, now)
    ensures Recent(Fired(s, now), first, now)
  {
    hide Fired, LeastPoint;
    FiredExactly(s, now);
    if s.period > 0 {
      LeastPointWithin(s.deadline, s.period, now);
    }
  }

  lemma LeastPointWithin(from: nat, period: nat, now: nat)
    requires period > 0 && from <= now
    ensures now < LeastPoint(from, period, now) <= now + period
  {
    hide Times;
    PeriodBounds(now - from, period);
  }

  lemma PeriodBounds(x: nat, p: nat)
    requires p > 0
    ensures Times(x / p, p) <= x < Times(x / p + 1, p) <= x + p
  {
    hide Times;
    var q := x / p;
    QuotientBounds(x, p);
    PeriodIs(q, p);
    PeriodIs(q + 1, p);
    PeriodMore(q, p);
  }

  lemma PeriodIs(m: nat, p: nat)
    ensures Times(m, p) == m * p
  {
  }

  lemma PeriodMore(m: nat, p: nat)
    ensures Times(m + 1, p) == Times(m, p) + p
  {
  }

  // ----- Where the deadlines lie -----

  /** A multiple of the period that lies within one period behind `now - first` is the next one. */
  lemma NextMultiple(x: nat, p: nat, elapsed: nat)
    requires p > 0 && x % p == 0 && elapsed < x <= elapsed + p
    ensures x == Times(elapsed / p + 1, p)
  {
    var m := x / p;
    QuotientBounds(x, p);
    assert x == m * p + x % p;
    assert (m - 1) * p == x - p;
    QuotientUnique(elapsed, p, m - 1, elapsed - (x - p));
  }

  lemma PeriodAway(x: nat, p: nat)
    requires p > 0 && x > 0 && x % p == 0
    ensures x >= p
  {
  }

  lemma PendingIsLeast(s: Slot, first: nat, clock: nat, now: Tick)
    requires s.active && s.period > 0 && OnSchedule(s, first) && Recent(s, first, clock) && clock <= now < s.deadline
    ensures s.deadline == LeastPoint(first, s.period, now)
  {
    if s.deadline != first {
      PeriodAway(s.deadline - first, s.period);
      NextMultiple(s.deadline - first, s.period, now - first);
    }
  }

  lemma FiredPointIsLeast(s: Slot, first: nat, now: Tick)
    requires Due(s, now) && s.period > 0 && OnSchedule(s, first)
    ensures LeastPoint(s.deadline, s.period, now) == LeastPoint(first, s.period, now)
  {
    var p := s.period;
    var steps := (now - s.deadline) / p + 1;
    QuotientBounds(now - s.deadline, p);
    WholePeriods(s.deadline - first, steps, p);
    assert Times(steps, p) == steps * p == (steps - 1) * p + p;
    NextMultiple(s.deadline - first + steps * p, p, now - first);
  }

  /** What the timer in a slot becomes by a call that returned Ok, in terms of what was asked. */
  predicate Settled(s: Slot, t: Slot, a: Asked, now: Tick) {
    var point := NextPoint(a, now);
    t == if point.Some? && point.value <= MAX then s.(deadline := point.value) else UNUSED
  }

  lemma SlotSettled(s: Slot, a: Asked, clock: nat, now: Tick)
    requires s.active && AsAsked(s, a) && Recent(s, a.first, clock) && clock <= now
    ensures Settled(s, if Due(s, now) then Fired(s, now) else s, a, now)
  {
    if Due(s, now) {
      FiredExactly(s, now);
      if s.period > 0 {
        FiredPointIsLeast(s, a.first, now);
      }
    } else if s.period > 0 {
      PendingIsLeast(s, a.first, clock, now);
    }
  }

  // ----- Every run -----

  lemma LeastPointLater(first: nat, period: nat, now: nat, later: nat)
    requires period > 0 && first <= now <= later
    ensures LeastPoint(first, period, now) <= LeastPoint(first, period, later)
  {
    var k, l := (now - first) / period, (later - first) / period;
    if l < k {
      QuotientBounds(now - first, period);
      QuotientBounds(later - first, period);
      MultiplesOrdered(l + 1, k, period);
    }
    MultiplesOrdered(k + 1, l + 1, period);
  }

  /** What has nothing left to fire stays so. */
  lemma NothingLater(a: Asked, now: nat, later: nat)
    requires now <= later && NextPoint(a, now) == None
    ensures NextPoint(a, later) == None
  {
    hide LeastPoint;
    if a.period > 0 {
      LeastPointLater(a.first, a.period, now, later);
    }
  }

  lemma ProcessRecent(sys: System, clock: nat, now: Tick, room: nat)
    requires Inv(sys) && Timely(sys, clock) && clock <= now
    ensures AllRecent(ProcessFrom(sys.scheduler.slots, sys.scheduler.count, 0, now, room).slots, sys.asked, now)
  {
    var slots := sys.scheduler.slots;
    var after := ProcessFrom(slots, sys.scheduler.count, 0, now, room).slots;
    ProcessOutcome(slots, sys.scheduler.count, 0, now, room);
    hide Fired, ProcessFrom, OnSchedule, LeastPoint, NothingLost, ActiveCount;
    forall i | 0 <= i < |after| && after[i].active && after[i].id in sys.asked
      ensures Recent(after[i], sys.asked[after[i].id].first, now)
    {
      if Due(slots[i], now) {
        FiredIsRecent(slots[i], sys.asked[after[i].id].first, now);
      }
    }
  }

  /** A timer that a call stopped has nothing left to fire. */
  lemma StoppedIsOver(s: Slot, a: Asked, clock: nat, now: Tick)
    requires Due(s, now) && AsAsked(s, a) && Recent(s, a.first, clock) && clock <= now && !Fired(s, now).active
    ensures NextPoint(a, now) == None
  {
    hide Fired;
    FiredExactly(s, now);
    if s.period > 0 {
      FiredPointIsLeast(s, a.first, now);
    }
  }

  lemma ProcessLosesNothing(sys: System, clock: nat, now: Tick, room: nat)
    requires Inv(sys) && Timely(sys, clock) && clock <= now
    ensures NothingLost(ProcessFrom(sys.scheduler.slots, sys.scheduler.count, 0, now, room).slots, sys.asked, now)
  {
    var slots := sys.scheduler.slots;
    var after := ProcessFrom(slots, sys.scheduler.count, 0, now, room).slots;
    ProcessOutcome(slots, sys.scheduler.count, 0, now, room);
    forall id | id in sys.asked && !IsActive(after, id)
      ensures NextPoint(sys.asked[id], now) == None
    {
      hide Fired, ProcessFrom, AsAsked, Recent, NextPoint, ActiveCount;
      if IsActive(slots, id) {
        var i :| 0 <= i < |slots| && Bears(slots[i], id);
        assert !Bears(after[i], id);
        assert Due(slots[i], now) && after[i] == Fired(slots[i], now);
        assert !after[i].active by { FiredAsAsked(slots[i], sys.asked[id], now); }
        StoppedIsOver(slots[i], sys.asked[id], clock, now);
      } else {
        NothingLater(sys.asked[id], clock, now);
      }
    }
  }

  /** The tick a call passes; cancelling passes none. */
  function TickOf(call: Call, clock: nat): nat {
    if call.CancelTimer? then clock else call.now
  }

  /** Putting a started or cancelled timer into a slot. */
  lemma PutTimely(sys: System, clock: nat, at: nat, to: Slot, next: map<nat, Asked>, now: nat)
    requires Inv(sys) && Timely(sys, clock) && at < |sys.scheduler.slots| && clock <= now
    requires sys.scheduler.slots[at].active && sys.scheduler.slots[at].id in next ==> Bears(to, sys.scheduler.slots[at].id)
    requires to.active ==> to.id in next && to.deadline == next[to.id].first
    requires forall id :: id in next && !Bears(to, id) ==> id in sys.asked && next[id] == sys.asked[id]
    requires to.active ==> forall i :: 0 <= i < |sys.scheduler.slots| && i != at ==> !Bears(sys.scheduler.slots[i], to.id)
    ensures AllRecent(sys.scheduler.slots[at := to], next, now) && NothingLost(sys.scheduler.slots[at := to], next, now)
  {
    hide ActiveCount, AsAsked, LeastPoint, NextPoint;
    var slots, after := sys.scheduler.slots, sys.scheduler.slots[at := to];
    forall id | id in next && !IsActive(after, id)
      ensures NextPoint(next[id], now) == None
    {
      assert !Bears(after[at], id);
      forall i | 0 <= i < |slots|
        ensures !Bears(slots[i], id)
      {
        assert !Bears(after[i], id);
      }
      NothingLater(sys.asked[id], clock, now);
    }
  }

  lemma StartTimely(sys: System, clock: nat, call: Call)
    requires Inv(sys) && Timely(sys, clock) && call.StartTimer? && clock <= call.now
    ensures Timely(Next(sys, call), call.now)
  {
    var s := sys.scheduler;
    if Start(s, call.id, call.event, call.now, call.delay, call.period).1 == Ok {
      PutTimely(sys, clock, FindFree(s.slots, 0), Slot(call.id, call.event, call.now + call.delay, call.period, true),
                Next(sys, call).asked, call.now);
    } else {
      TickTimely(sys, clock, call.now);
    }
  }

  lemma RestartTimely(sys: System, clock: nat, call: Call)
    requires Inv(sys) && Timely(sys, clock) && call.RestartTimer? && clock <= call.now
    ensures Timely(Next(sys, call), call.now)
  {
    var s := sys.scheduler;
    if Restart(s, call.id, call.event, call.now, call.delay, call.period).1 == Ok {
      RestartPlace(sys, call.id);
      hide Inv;
      PutTimely(sys, clock, FindSlot(s.slots, call.id, 0), Slot(call.id, call.event, call.now + call.delay, call.period, true),
                Next(sys, call).asked, call.now);
    } else {
      TickTimely(sys, clock, call.now);
    }
  }

  lemma CancelTimely(sys: System, clock: nat, call: Call)
    requires Inv(sys) && Timely(sys, clock) && call.CancelTimer?
    ensures Timely(Next(sys, call), clock)
  {
    if Cancel(sys.scheduler, call.id).1 == Ok {
      hide Inv, AllRecent, NothingLost;
      PutTimely(sys, clock, FindSlot(sys.scheduler.slots, call.id, 0), UNUSED, Next(sys, call).asked, clock);
    }
  }

  lemma NextTimely(sys: System, clock: nat, call: Call)
    requires Inv(sys) && Timely(sys, clock) && clock <= TickOf(call, clock)
    ensures Timely(Next(sys, call), TickOf(call, clock))
  {
    match call
    case StartTimer(_, _, _, _, _) => StartTimely(sys, clock, call);
    case RestartTimer(_, _, _, _, _) => RestartTimely(sys, clock, call);
    case CancelTimer(_) => CancelTimely(sys, clock, call);
    case ProcessTimers(now, room) =>
      ProcessRecent(sys, clock, now, room);
      ProcessLosesNothing(sys, clock, now, room);
      assert !sys.scheduler.processing;
      hide Inv, AllRecent, NothingLost;
  }

  lemma RestartPlace(sys: System, id: nat)
    requires Inv(sys)
    ensures var at := FindSlot(sys.scheduler.slots, id, 0);
            at < |sys.scheduler.slots| ==>
              forall i :: 0 <= i < |sys.scheduler.slots| && i != at ==> !Bears(sys.scheduler.slots[i], id)
  {
  }

  lemma TickTimely(sys: System, clock: nat, now: nat)
    requires Timely(sys, clock) && clock <= now
    ensures Timely(sys, now)
  {
    hide LeastPoint, NextPoint;
    forall id | id in sys.asked && !IsActive(sys.scheduler.slots, id)
      ensures NextPoint(sys.asked[id], now) == None
    {
      NothingLater(sys.asked[id], clock, now);
    }
  }

  /** A run in which every call passes a tick at or after the last one. */
  ghost predicate ReachesInOrder(sys: System, clock: nat, calls: seq<Call>, end: System, last: nat)
    decreases |calls|
  {
    if calls == [] then end == sys && last == clock
    else
      && clock <= TickOf(calls[0], clock)
      && ReachesInOrder(Next(sys, calls[0]), TickOf(calls[0], clock), calls[1..], end, last)
  }

  /**
   In every such run a periodic timer that has fired is due within one period of the clock,
   and no timer that was asked for is lost: it is active, was cancelled, or is over.
   */
  lemma {:induction false} RunKeepsTimely(sys: System, clock: nat, calls: seq<Call>, end: System, last: nat)
    requires Inv(sys) && Timely(sys, clock) && ReachesInOrder(sys, clock, calls, end, last)
    ensures Inv(end) && Timely(end, last)
    decreases |calls|
  {
    hide Inv, Next, Timely;
    if calls != [] {
      NextKeeps(sys, calls[0]);
      NextTimely(sys, clock, calls[0]);
      RunKeepsTimely(Next(sys, calls[0]), TickOf(calls[0], clock), calls[1..], end, last);
    }
  }

  /** A new scheduler may start such a run at any clock. */
  lemma InitialTimely(capacity: nat, clock: nat)
    ensures Timely(Initial(capacity), clock)
  {
  }

  /** Exactly the timers that have a next point are active, each at that point and with its event. */
  ghost predicate AtNextPoints(slots: seq<Slot>, asked: map<nat, Asked>, now: nat) {
    && (forall id :: IsActive(slots, id) <==> id in asked && NextPoint(asked[id], now).Some?)
    && forall i :: 0 <= i < |slots| && slots[i].active ==>
         slots[i].id in asked && slots[i].event == asked[slots[i].id].event
         && slots[i].period == asked[slots[i].id].period && NextPoint(asked[slots[i].id], now) == Some(slots[i].deadline)
  }

  /**
   In every run of a new scheduler whose ticks never go back, a process call that returns Ok
   leaves active exactly those of the timers asked for and not cancelled that are to fire after
   now: a one-shot until its first deadline, a periodic one always, except when its next point
   does not fit 64 bits. Each has the event and the period asked for and stands at the least
   point after now on the schedule of its first deadline.
   */
  lemma OkLeavesNextPoints(capacity: nat, clock: nat, calls: seq<Call>, end: System, last: nat, now: Tick, room: nat)
    requires ReachesInOrder(Initial(capacity), clock, calls, end, last)
    requires last <= now && Process(end.scheduler, now, room).2 == Ok
    ensures AtNextPoints(Process(end.scheduler, now, room).0.slots, end.asked, now)
  {
    InitialInv(capacity);
    InitialTimely(capacity, clock);
    RunKeepsTimely(Initial(capacity), clock, calls, end, last);
    OkNextPoints(end, last, now, room);
  }

  lemma SettledAtNext(s: Slot, t: Slot, a: Asked, now: Tick)
    requires s.active && AsAsked(s, a) && Settled(s, t, a, now) && t.active
    ensures t.id == s.id && t.event == a.event && t.period == a.period && NextPoint(a, now) == Some(t.deadline)
  {
  }

  lemma OkNextPoints(sys: System, clock: nat, now: Tick, room: nat)
    requires Inv(sys) && Timely(sys, clock) && clock <= now && Process(sys.scheduler, now, room).2 == Ok
    ensures AtNextPoints(Process(sys.scheduler, now, room).0.slots, sys.asked, now)
  {
    var slots, after := sys.scheduler.slots, Process(sys.scheduler, now, room).0.slots;
    NextTimely(sys, clock, ProcessTimers(now, room));
    OkSettles(sys, clock, now, room);
    assert NothingLost(after, sys.asked, now);
    assert Faithful(slots, sys.asked);
    hide Process, Inv, Timely, NothingLost, AsAsked, Settled, LeastPoint, NextPoint;
    forall i | 0 <= i < |after| && after[i].active
      ensures after[i].id in sys.asked && var a := sys.asked[after[i].id];
              after[i].event == a.event && after[i].period == a.period && NextPoint(a, now) == Some(after[i].deadline)
    {
      SettledAtNext(slots[i], after[i], sys.asked[slots[i].id], now);
    }
    LostOrActive(after, sys.asked, now);
  }

  lemma LostOrActive(slots: seq<Slot>, asked: map<nat, Asked>, now: nat)
    requires NothingLost(slots, asked, now)
    requires forall i :: 0 <= i < |slots| && slots[i].active ==>
               slots[i].id in asked && NextPoint(asked[slots[i].id], now) == Some(slots[i].deadline)
    ensures forall id :: IsActive(slots, id) <==> id in asked && NextPoint(asked[id], now).Some?
  {
    hide NextPoint;
  }

  /** After Ok every active timer stands at its next point. */
  lemma OkSettles(sys: System, clock: nat, now: Tick, room: nat)
    requires Inv(sys) && Timely(sys, clock) && clock <= now && Process(sys.scheduler, now, room).2 == Ok
    ensures var slots, after := sys.scheduler.slots, Process(sys.scheduler, now, room).0.slots;
            |after| == |slots| && forall i :: 0 <= i < |slots| ==>
              && (!slots[i].active ==> after[i] == slots[i])
              && (slots[i].active ==> slots[i].id in sys.asked && Settled(slots[i], after[i], sys.asked[slots[i].id], now))
  {
    var slots := sys.scheduler.slots;
    ProcessOutcome(slots, sys.scheduler.count, 0, now, room);
    hide Fired, ProcessFrom, Settled, NextPoint, LeastPoint, ActiveCount, OnSchedule;
    forall i | 0 <= i < |slots| && slots[i].active
      ensures Settled(slots[i], Process(sys.scheduler, now, room).0.slots[i], sys.asked[slots[i].id], now)
    {
      SlotSettled(slots[i], sys.asked[slots[i].id], clock, now);
    }
  }

  /**
   With a clock that goes back it is otherwise: a timer of period 10 first due at 10, processed
   at 100 and then at 5, returns Ok with a deadline that is not the least after 5.
   */
  lemma ClockMustNotGoBack(event: Event)
    ensures var s := Scheduler([Slot(0, event, 10, 10, true)], 1, false);
            var late := Process(s, 100, 1).0;
            && Process(late, 5, 1).2 == Ok && Process(late, 5, 1).0.slots[0].active
            && Process(late, 5, 1).0.slots[0].deadline == 110 != LeastPoint(10, 10, 5)
  {
    var slot := Slot(0, event, 10, 10, true);
    FiredExactly(slot, 100);
    var s := Scheduler([slot], 1, false);
    var late := Process(s, 100, 1).0;
    ProcessOutcome(s.slots, 1, 0, 100, 1);
    assert StopAt([slot], 1, 100, 0) == 1;
    assert late.slots[0] == slot.(deadline := 110);
    ProcessOutcome(late.slots, late.count, 0, 5, 1);
    assert StopAt(late.slots, 1, 5, 1) == 1;
  }
}
