/**
 Every schedule ends a request: whatever units do in between, no step moves a running request
 away from its end, and each process call that finds something to do moves it nearer.
 */
module DomainProgress {
  import opened Wrappers
  import opened WorkflowModel
  import opened DomainModel
  import opened DomainInvariant
  import opened DomainTermination

  // ----- No step leads away from the end -----

  lemma IdleDistance(st: State, next: State)
    requires next.output == st.output && next.started == st.started && next.sequence.running == st.sequence.running
    requires Stage(Pending(next)) == Stage(Pending(st))
    ensures Distance(next) == Distance(st)
  {
    hide Stage, Pending;
  }

  lemma ArmDistance(st: State, now: nat)
    requires st.phase.Outside? && CanTick(st) && RunningStarted(st)
    requires st.sequence.running && !st.sequence.timeoutPublished && now >= st.sequence.deadline
    ensures Distance(Next(st, Process(now))) <= Distance(st)
  {
    hide Stage;
    StageAppend(st.queue, Event(StepTimeout, CurrentPayload(st, TimedOut)));
    PendingOutside(st);
    PendingOutside(Next(st, Process(now)));
  }

  lemma ProcessNotFarther(st: State, now: nat)
    requires Inv(st) && st.phase.Outside? && CanTick(st) && st.output.status == StatusRunning
    ensures Distance(Next(st, Process(now))) <= Distance(st)
  {
    hide Inv, Stage, CanTick, Distance, StartSequence, Pending;
    if !st.started {
      StartLowers(st, now);
    } else if st.sequence.running && !st.sequence.timeoutPublished && now >= st.sequence.deadline {
      ArmDistance(st, now);
    } else {
      PendingOutside(st);
      PendingOutside(Next(st, Process(now)));
      IdleDistance(st, Next(st, Process(now)));
    }
  }

  lemma IneffectiveDistance(st: State)
    requires st.phase.Holding? && !IsChain(st.phase.event)
    ensures Distance(Opened(st)) == Distance(st)
  {
    hide Stage, Pending;
    PendingHeld(st);
  }

  lemma DeliverNotFarther(st: State)
    requires Inv(st) && st.phase.Holding? && CanHandle(st, st.phase.event) && st.output.status == StatusRunning
    ensures Distance(Next(st, Deliver)) <= Distance(st)
  {
    hide Inv, Handle, Distance, CanHandle, Effective, Pending, Fresh;
    StillHandles(st);
    if IsChain(st.phase.event) {
      ChainLowers(st);
    } else if Effective(st, st.phase.event) {
      EffectiveLowers(st);
    } else {
      IneffectiveStays(st);
      IneffectiveDistance(st);
    }
  }

  lemma ResultDistance(st: State, event: Event)
    requires !IsChain(event)
    ensures Distance(Enqueued(st, event)) == Distance(st)
  {
    hide Stage;
    if Occupied(st) < QUEUE_CAPACITY {
      assert Pending(Enqueued(st, event)) == Pending(st) + [event];
      StageAppend(Pending(st), event);
    }
  }

  lemma PopDistance(st: State)
    requires Enabled(st, Pop)
    ensures Pending(Next(st, Pop)) == Pending(st)
  {
  }

  /** No step, of the control thread or of a unit, moves a running request away from its end. */
  lemma NeverFarther(st: State, action: Action)
    requires Inv(st) && Enabled(st, action) && Safe(st, action) && st.output.status == StatusRunning
    ensures Distance(Next(st, action)) <= Distance(st)
  {
    hide Inv, Tick, Handle, CanTick, CanHandle, Distance, Chosen, Stage;
    match action
    case Input(_, _, _) =>
    case Load(_) =>
    case Listen => IdleDistance(st, Next(st, action));
    case Process(now) => ProcessNotFarther(st, now);
    case Pop =>
      PopDistance(st);
      IdleDistance(st, Next(st, action));
    case Deliver => DeliverNotFarther(st);
    case Release => IdleDistance(st, Next(st, action));
    case Finish => IdleDistance(st, Next(st, action));
    case UnitsChange(_) => IdleDistance(st, Next(st, action));
    case UnitResult(unitNumber, requestId, succeeded) =>
      ResultDistance(st, Event(if succeeded then UnitCompleted else UnitError,
                               Payload(0, requestId, 0, 0, 0, unitNumber, if succeeded then NoError else UnitFailed)));
  }

  // ----- A call that will still move the request -----

  /** The delivery of the event moves the request on. */
  predicate Moves(st: State, event: Event) {
    RunningStarted(st) && (IsChain(event) || Effective(st, event))
  }

  /** How many more events the call under way may deliver. */
  function Left(st: State): nat {
    match st.phase
    case Outside => 0
    case Dispatching(budget) => budget
    case Holding(_, budget) => budget + 1
    case Handled(_, budget) => budget
  }

  /** The call under way is still to deliver an event that moves the request on. */
  ghost predicate Owed(st: State) {
    exists i :: 0 <= i < |Pending(st)| && i < Left(st) && Moves(st, Pending(st)[i])
  }

  lemma OwedAt(st: State, i: nat)
    requires i < |Pending(st)| && i < Left(st) && Moves(st, Pending(st)[i])
    ensures Owed(st)
  {
  }

  /** What matters of a state to an owed event at `i` that stays where it is. */
  lemma OwedSame(st: State, next: State, i: nat)
    requires i < |Pending(st)| && i < Left(st) && Moves(st, Pending(st)[i])
    requires Left(next) == Left(st) && Pending(st) <= Pending(next)
    requires next.output == st.output && next.started == st.started && next.sequence == st.sequence
    ensures Owed(next)
  {
    hide Pending, Left;
    assert Pending(next)[i] == Pending(st)[i];
  }

  lemma OwedDelivered(st: State, i: nat)
    requires Inv(st) && st.phase.Holding? && CanHandle(st, st.phase.event)
    requires i < |Pending(st)| && i < Left(st) && Moves(st, Pending(st)[i])
    ensures Distance(Next(st, Deliver)) < Distance(st) || Owed(Next(st, Deliver))
  {
    hide Inv, Handle, Distance, CanHandle, Fresh, Stage, Pending;
    StillHandles(st);
    PendingHeld(st);
    if IsChain(st.phase.event) {
      ChainLowers(st);
    } else if Effective(st, st.phase.event) {
      EffectiveLowers(st);
    } else {
      IneffectiveStays(st);
      assert i > 0 && Pending(Opened(st))[i - 1] == Pending(st)[i];
      OwedAt(Opened(st), i - 1);
    }
  }

  lemma ResultPending(st: State, event: Event)
    ensures Pending(st) <= Pending(Enqueued(st, event))
  {
  }

  lemma OwedIndex(st: State) returns (i: nat)
    requires Owed(st)
    ensures i < |Pending(st)| && i < Left(st) && Moves(st, Pending(st)[i])
    ensures st.phase.Dispatching? ==> st.queue != []
  {
    hide Moves;
    i :| 0 <= i < |Pending(st)| && i < Left(st) && Moves(st, Pending(st)[i]);
  }

  /** Listening, a release and a change of units leave the pending events alone. */
  lemma PendingAside(st: State, next: State)
    requires next.queue == st.queue && !st.phase.Holding? && !next.phase.Holding?
    ensures Pending(next) == Pending(st)
  {
  }

  lemma PendingSame(st: State, next: State)
    requires next.queue == st.queue && st.phase == next.phase
    ensures Pending(next) == Pending(st)
  {
  }

  /** Once a call owes a move, every step makes the move or still owes it: the call cannot end before. */
  lemma OwedStays(st: State, action: Action)
    requires Inv(st) && Enabled(st, action) && Safe(st, action) && Owed(st) && st.output.status == StatusRunning
    ensures Distance(Next(st, action)) < Distance(st) || Owed(Next(st, action))
  {
    hide Inv, Tick, Handle, CanTick, CanHandle, Distance, Chosen, Moves, Owed, Pending;
    var i := OwedIndex(st);
    match action
    case Input(_, _, _) => OwedAt(st, i);
    case Load(_) => OwedAt(st, i);
    case Listen =>
      PendingSame(st, Next(st, action));
      OwedSame(st, Next(st, action), i);
    case Process(now) =>
    case Pop =>
      PopDistance(st);
      OwedSame(st, Next(st, action), i);
    case Deliver => OwedDelivered(st, i);
    case Release =>
      PendingAside(st, Next(st, action));
      OwedSame(st, Next(st, action), i);
    case Finish =>
    case UnitsChange(_) =>
      PendingSame(st, Next(st, action));
      OwedSame(st, Next(st, action), i);
    case UnitResult(unitNumber, requestId, succeeded) =>
      var event := Event(if succeeded then UnitCompleted else UnitError,
                         Payload(0, requestId, 0, 0, 0, unitNumber, if succeeded then NoError else UnitFailed));
      ResultPending(st, event);
      OwedSame(st, Enqueued(st, event), i);
  }

  /**
   A process call that finds the running step's deadline passed, or its result queued, or no
   step running.
   */
  ghost predicate Drives(st: State, action: Action) {
    action.Process? && (action.now >= st.sequence.deadline || !st.sequence.running
                        || exists e :: e in st.queue && Effective(st, e))
  }

  lemma {:induction false} ChainAt(q: seq<Event>) returns (i: nat)
    requires ChainCount(q) > 0
    ensures i < |q| && IsChain(q[i])
  {
    if IsChain(q[|q| - 1]) {
      i := |q| - 1;
    } else {
      i := ChainAt(q[..|q| - 1]);
    }
  }

  lemma QueueFits(st: State)
    requires Inv(st) && st.phase.Outside?
    ensures |st.queue| <= DISPATCH_BUDGET
  {
  }

  lemma OwedOnEntry(st: State, now: nat, i: nat)
    requires st.phase.Outside? && CanTick(st) && Tick(st, now) == st.(now := now)
    requires i < |st.queue| <= DISPATCH_BUDGET && Moves(st, st.queue[i])
    ensures Owed(Next(st, Process(now)))
  {
    var next := Next(st, Process(now));
    PendingOutside(next);
    assert Pending(next)[i] == st.queue[i];
    OwedAt(next, i);
  }

  lemma ArmOwes(st: State, now: nat)
    requires Inv(st) && st.phase.Outside? && CanTick(st) && RunningStarted(st)
    requires st.sequence.running && !st.sequence.timeoutPublished && now >= st.sequence.deadline
    ensures var next := Next(st, Process(now)); next.output.status != StatusRunning || Owed(next)
  {
    QueueFits(st);
    hide Inv;
    var next := Next(st, Process(now));
    if next.output.status == StatusRunning {
      PendingOutside(next);
      assert Pending(next)[|st.queue|].id == StepTimeout;
      OwedAt(next, |st.queue|);
    }
  }

  /** Such a call moves the request on, or owes it a move. */
  lemma DrivenCallOwes(st: State, action: Action)
    requires Inv(st) && TimeoutQueued(st) && Enabled(st, action) && Safe(st, action)
    requires st.output.status == StatusRunning && Drives(st, action)
    ensures Distance(Next(st, action)) < Distance(st) || Owed(Next(st, action))
  {
    var now := action.now;
    if !st.started {
      StartLowers(st, now);
    } else if st.sequence.running && !st.sequence.timeoutPublished && now >= st.sequence.deadline {
      ArmOwes(st, now);
      EndedDistance(st, Next(st, action));
    } else {
      var i := SomethingMoves(st, now);
      QueueFits(st);
      hide Inv;
      OwedOnEntry(st, now, i);
    }
  }

  lemma EndedDistance(st: State, next: State)
    requires Inv(st) && st.output.status == StatusRunning
    ensures 0 < Distance(st) && (next.output.status != StatusRunning ==> Distance(next) == 0)
  {
    if st.started && !st.sequence.running {
      ExactlyOneMover(st);
      hide Inv;
      var i := ChainAt(Pending(st));
      StageOfOne(Pending(st), i);
    }
  }

  lemma {:induction false} StageOfOne(q: seq<Event>, i: nat)
    requires i < |q| && IsChain(q[i])
    ensures Stage(q) > 0
    decreases i
  {
    if i > 0 {
      StageOfOne(q[1..], i - 1);
    }
  }

  lemma ChainQueued(st: State)
    requires Inv(st) && st.phase.Outside? && RunningStarted(st) && !st.sequence.running
    ensures ChainCount(st.queue) > 0
  {
    hide Inv, ChainCount;
    PendingOutside(st);
    ExactlyOneMover(st);
  }

  lemma TimeoutInQueue(st: State) returns (e: Event)
    requires TimeoutQueued(st) && st.phase.Outside? && RunningStarted(st)
    requires st.sequence.running && st.sequence.timeoutPublished
    ensures e in st.queue && Effective(st, e)
  {
    PendingOutside(st);
    hide Pending;
    e :| e in st.queue && e.id == StepTimeout;
  }

  lemma SomethingMoves(st: State, now: nat) returns (i: nat)
    requires Inv(st) && TimeoutQueued(st) && st.phase.Outside? && RunningStarted(st) && Drives(st, Process(now))
    requires !(st.sequence.running && !st.sequence.timeoutPublished && now >= st.sequence.deadline)
    ensures i < |st.queue| && Moves(st, st.queue[i])
  {
    hide Inv, TimeoutQueued, Effective, IsChain, ChainCount;
    if !st.sequence.running {
      ChainQueued(st);
      i := ChainAt(st.queue);
    } else {
      var e: Event;
      if now >= st.sequence.deadline {
        e := TimeoutInQueue(st);
      } else {
        e :| e in st.queue && Effective(st, e);
      }
      i :| 0 <= i < |st.queue| && st.queue[i] == e;
    }
  }

  // ----- Every schedule -----

  ghost function DrivingCalls(states: seq<State>, actions: seq<Action>, i: nat, n: nat): nat
    requires n <= |actions| && n <= |states|
  {
    if n <= i then 0 else DrivingCalls(states, actions, i, n - 1) + if Drives(states[n - 1], actions[n - 1]) then 1 else 0
  }

  ghost predicate RunsThrough(states: seq<State>, i: nat, n: nat)
    requires n < |states|
  {
    forall k :: i <= k <= n ==> states[k].output.status == StatusRunning
  }

  /** While a request runs, every driving call but the last has brought it nearer to its end. */
  lemma {:induction false} DrivingCallsLower(states: seq<State>, actions: seq<Action>, unitCount: nat, i: nat, n: nat)
    requires IsRun(states, actions, unitCount) && unitCount >= 10 && i <= n < |states| && RunsThrough(states, i, n)
    ensures DrivingCalls(states, actions, i, n) + Distance(states[n]) <=
            Distance(states[i]) + if Owed(states[n]) then 1 else 0
    decreases n - i
  {
    hide Inv, TimeoutQueued, Safe, Enabled, Next, Owed, Drives, Distance;
    if i < n {
      var st, action := states[n - 1], actions[n - 1];
      DrivingCallsLower(states, actions, unitCount, i, n - 1);
      RunKeepsTimeout(states, actions, unitCount, n - 1);
      RunKeepsInv(states, actions, unitCount, n - 1);
      NeverFarther(st, action);
      if Owed(st) {
        OwedStays(st, action);
        OwedIsInside(st, action);
      } else if Drives(st, action) {
        DrivenCallOwes(st, action);
      }
    }
  }

  /** A call that owes a move is still under way. */
  lemma OwedIsInside(st: State, action: Action)
    requires Owed(st) && Enabled(st, action)
    ensures !Drives(st, action)
  {
    hide Pending;
  }

  lemma DistanceBound(st: State)
    requires Inv(st) && st.output.status == StatusRunning
    ensures Distance(st) <= 10 * st.output.total + 6
  {
    if !st.started {
      ExactlyOneMover(st);
      NoStage(Pending(st));
    } else if st.sequence.running {
      ExactlyOneMover(st);
      QuietStage(Pending(st));
    } else {
      ExactlyOneMover(st);
      hide Inv;
      OneStage(Pending(st));
    }
  }

  lemma {:induction false} OneStage(q: seq<Event>)
    requires ChainCount(q) <= 1
    ensures Stage(q) <= 5
    decreases |q|
  {
    if q != [] {
      assert q == q[..|q| - 1] + [q[|q| - 1]];
      StageAppend(q[..|q| - 1], q[|q| - 1]);
      if IsChain(q[|q| - 1]) {
        QuietStage(q[..|q| - 1]);
      } else {
        OneStage(q[..|q| - 1]);
      }
    }
  }

  /**
   In every run, whatever units do, a request of `total` steps has ended before its
   (10 * total + 7)-th driving call.
   */
  lemma EveryScheduleEnds(states: seq<State>, actions: seq<Action>, unitCount: nat, i: nat, n: nat)
    requires IsRun(states, actions, unitCount) && unitCount >= 10 && i <= n < |states|
    requires states[i].output.status == StatusRunning
    requires DrivingCalls(states, actions, i, n) > 10 * states[i].output.total + 6
    ensures exists m :: i < m <= n && states[m].output.status != StatusRunning
  {
    hide Inv, Distance, Owed, Drives;
    if RunsThrough(states, i, n) {
      DrivingCallsLower(states, actions, unitCount, i, n);
      RunKeepsInv(states, actions, unitCount, i);
      RunKeepsInv(states, actions, unitCount, n);
      DistanceBound(states[i]);
      EndedDistance(states[n], states[n]);
    }
  }
}
