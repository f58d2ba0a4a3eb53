/**
 A request whose units accept and answer does complete: from every reachable state in which
 it runs undisturbed there is a run in which each step is answered before its deadline and
 the request ends COMPLETED.
 */
module DomainCompletion {
  import opened Wrappers
  import opened WorkflowModel
  import opened DomainModel
  import opened DomainInvariant
  import opened DomainTermination
  import opened DomainProgress
  import opened DomainCauses

  // ----- What a handler changes -----

  /** A handler publishes at most one event, and a step it starts is due later than now. */
  predicate Steady(st: State, next: State) {
    && next.now == st.now && next.accepting == st.accepting && next.started == st.started
    && |next.queue| <= |st.queue| + 1 && next.phase == st.phase
    && (next.sequence.running ==>
          next.sequence.deadline > next.now || (st.sequence.running && next.sequence.deadline == st.sequence.deadline))
  }

  /** The deadlines of all steps of the request, taken from now, fit 64 bits. */
  predicate InTime(st: State) {
    forall i :: 0 <= i < |Flatten(st.history.request.sequences)| ==>
      st.now + Flatten(st.history.request.sequences)[i].timeout <= UINT64_MAX
  }

  lemma ErrorSteady(st: State, error: DomainError)
    ensures Steady(st, PublishSequenceError(st, error))
  {
  }

  lemma StepTimeoutPositive(st: State)
    requires AtStart(st)
    ensures st.sequence.steps.value[st.sequence.stepIndex].timeout > 0
  {
    assert WfSequence(st.history.request.sequences[st.scenario.index], st.unitCount);
    hide WfScenario, StepCount, Flatten;
  }

  lemma StartStepSteady(st: State)
    requires AtStart(st) && InTime(st)
    ensures Steady(st, StartStep(st, st.now))
  {
    NextToIssue(st);
    StepTimeoutPositive(st);
    var step := st.sequence.steps.value[st.sequence.stepIndex];
    assert st.now + step.timeout <= UINT64_MAX;
    hide AtStart, Flatten, PublishSequenceError, InTime;
    ErrorSteady(st, Internal);
    ErrorSteady(st, UnitRejected);
  }

  lemma StartSequenceSteady(st: State)
    requires AtSequence(st) && InTime(st)
    ensures HasSequence(st.scenario, st.scenario.index) && st.scenario.index < |st.scenario.definition.value.sequences|
    ensures Steady(st, StartSequence(st, st.now))
  {
    SequenceAtStart(st);
    StartSequenceKeeps(st, st.now);
    InTimeAside(st, SequenceBegun(st));
    StartStepSteady(SequenceBegun(st));
    hide AtSequence, AtStart, StartStep, InTime;
  }

  lemma InTimeAside(st: State, next: State)
    requires InTime(st) && next.history.request == st.history.request && next.now == st.now
    ensures InTime(next)
  {
  }

  lemma UnitCompletedSteady(st: State, event: Event)
    requires Inv(st) && !st.phase.Holding? && !InCallback(st) && RunningStarted(st) && Effective(st, event)
    requires event.id == UnitCompleted && InTime(st)
    ensures st.sequence.steps.Some? && Steady(st, OnUnitCompleted(st, event))
  {
    StepDoneAtStart(st);
    hide Inv, AtStart, InTime, StartStep;
    var done := StepDone(st);
    InTimeAside(st, done);
    if done.sequence.stepIndex < |st.sequence.steps.value| {
      StartStepSteady(done);
    }
  }

  lemma NextSequenceSteady(st: State, event: Event)
    requires Taken(st, event) && event.id == SequenceCompleted && !InCallback(st) && InTime(st)
    requires st.scenario.index + 1 < |st.history.request.sequences|
    ensures HasSequence(st.scenario, st.scenario.index + 1) && Steady(st, OnSequenceCompleted(st))
  {
    NextAtSequence(st, event);
    OnSequenceCompletedKeeps(st, event);
    hide Taken, AtSequence, Inv, InTime, StartSequence;
    var zero, next := NextSequence(st), st.(scenario := st.scenario.(index := st.scenario.index + 1));
    InTimeAside(st, zero);
    StartSequenceSteady(zero);
    StartSequenceIgnoresRunner(next, zero, st.now);
  }

  lemma LastSequenceSteady(st: State, event: Event)
    requires Taken(st, event) && event.id == SequenceCompleted && !InCallback(st)
    requires st.scenario.index + 1 >= |st.history.request.sequences|
    ensures HasSequence(st.scenario, st.scenario.index + 1) && Steady(st, OnSequenceCompleted(st))
  {
    ScenarioDonePublished(st, event);
    hide Taken, OnSequenceCompleted;
  }

  lemma ChainSteady(st: State)
    requires Inv(st) && st.phase.Holding? && CanHandle(st, st.phase.event) && InTime(st) && IsChain(st.phase.event)
    ensures CanHandle(Opened(st), st.phase.event) && Steady(Opened(st), Handle(Opened(st), st.phase.event))
  {
    hide Inv, InTime, Taken, CanHandle, OnSequenceCompleted;
    var event, next := st.phase.event, Opened(st);
    StillHandles(st);
    if event.id == SequenceCompleted {
      InTimeAside(st, next);
      HeldChain(st);
      if next.scenario.index + 1 < |next.history.request.sequences| {
        NextSequenceSteady(next, event);
      } else {
        LastSequenceSteady(next, event);
      }
    }
  }

  lemma PlainSteady(st: State)
    requires Inv(st) && st.phase.Holding? && CanHandle(st, st.phase.event) && InTime(st) && !IsChain(st.phase.event)
    ensures CanHandle(Opened(st), st.phase.event) && Steady(Opened(st), Handle(Opened(st), st.phase.event))
  {
    hide Inv, InTime, CanHandle, OnUnitCompleted, PublishSequenceError;
    var event, next := st.phase.event, Opened(st);
    StillHandles(st);
    if Effective(st, event) {
      InTimeAside(st, next);
      StepFacts(st);
      OpenedPlainInv(st);
      if event.id == UnitCompleted {
        UnitCompletedSteady(next, event);
      } else {
        ErrorSteady(next, if event.id == StepTimeout then TimedOut else UnitFailed);
      }
    } else {
      IneffectiveStays(st);
    }
  }

  lemma DeliverSteady(st: State)
    requires Inv(st) && st.phase.Holding? && CanHandle(st, st.phase.event) && InTime(st)
    ensures Steady(Opened(st), Next(st, Deliver))
  {
    hide Inv, InTime, CanHandle, Handle, Steady;
    if IsChain(st.phase.event) {
      ChainSteady(st);
    } else {
      PlainSteady(st);
    }
  }

  lemma BeginSteady(st: State)
    requires Inv(st) && st.phase.Outside? && CanTick(st) && st.output.status == StatusRunning && !st.started && InTime(st)
    ensures var next := Tick(st, st.now);
            && next.now == st.now && next.accepting == st.accepting && next.started && next.phase == st.phase
            && |next.queue| <= |st.queue| + 1 && (next.sequence.running ==> next.sequence.deadline > next.now)
  {
    BegunAtSequence(st, st.now);
    hide Inv, AtSequence, StartSequence, InTime;
    var zero, next := Begun(st, st.now), st.(now := st.now, started := true);
    InTimeAside(st, zero);
    StartSequenceSteady(zero);
    StartSequenceForgets(next, zero, st.now);
  }

  // ----- An undisturbed request -----

  /**
   The request runs, nothing has gone wrong, its units accept, its deadlines lie ahead and the
   queue has room.
   */
  ghost predicate Calm(st: State) {
    && Inv(st) && TimeoutQueued(st) && Caused(st, NOTHING) && st.output.status == StatusRunning && InTime(st)
    && Willing(st)
    && (st.started && st.sequence.running ==> st.sequence.deadline > st.now)
    && Roomy(st)
  }

  /** The units of all steps of the request accept inputs. */
  predicate Willing(st: State) {
    forall i :: 0 <= i < |Flatten(st.history.request.sequences)| ==>
      Flatten(st.history.request.sequences)[i].unitIndex in st.accepting
  }

  /** There is room for whatever the request may still publish. */
  predicate Roomy(st: State) {
    |Pending(st)| + (if st.started then 0 else 1) < QUEUE_CAPACITY - 2
  }

  /** The running step's result, or its timeout, is pending. */
  ghost predicate Answered(st: State) {
    exists e :: e in Pending(st) && Effective(st, e)
  }

  ghost function Unanswered(st: State): nat {
    if st.started && st.sequence.running && !Answered(st) then 1 else 0
  }

  /** What happens next: a step that waits with an empty queue is answered, otherwise the control thread goes on. */
  function Answer(st: State): Action {
    match st.phase
    case Outside =>
      if st.started && st.sequence.running && st.queue == [] then UnitResult(0, st.sequence.unitRequestId, true)
      else Process(st.now)
    case Dispatching(budget) => if budget > 0 && st.queue != [] then Pop else Finish
    case Holding(_, _) => Deliver
    case Handled(_, _) => Release
  }

  lemma AnswerSmooth(st: State)
    requires Calm(st)
    ensures Enabled(st, Answer(st)) && Safe(st, Answer(st)) && Smooth(st, Answer(st)) && !Accepts(st, Answer(st))
  {
    EveryStepSafe(st, Answer(st));
    hide Inv, TimeoutQueued, Caused, CanTick, CanHandle, InTime;
  }

  /** The next state is nearer to completion. */
  ghost predicate Closer(st: State, next: State) {
    || next.output.status != StatusRunning
    || Distance(next) < Distance(st)
    || (Distance(next) == Distance(st)
        && (Unanswered(next) < Unanswered(st)
            || (Unanswered(next) == Unanswered(st)
                && (|Pending(next)| < |Pending(st)|
                    || (|Pending(next)| == |Pending(st)| && PhaseRank(next) < PhaseRank(st))))))
  }

  /** Steps that leave everything but the phase alone. */
  lemma PhaseCloser(st: State, next: State)
    requires Pending(next) == Pending(st) && next.output == st.output && next.started == st.started
    requires next.sequence == st.sequence && PhaseRank(next) < PhaseRank(st)
    ensures Closer(st, next)
  {
    hide Pending, Stage, PhaseRank;
    IdleDistance(st, next);
  }

  lemma ResultCloser(st: State, event: Event)
    requires st.phase.Outside? && st.queue == [] && RunningStarted(st) && st.sequence.running
    requires event.id == UnitCompleted && event.payload.unitRequestId == st.sequence.unitRequestId
    ensures Closer(st, Enqueued(st, event)) && |Pending(Enqueued(st, event))| == 1
  {
    ResultDistance(st, event);
    PendingOutside(st);
    PendingOutside(Enqueued(st, event));
    hide Pending, Stage, Distance;
    assert Enqueued(st, event).queue == [event];
    assert event in Enqueued(st, event).queue && Effective(Enqueued(st, event), event);
  }

  /** A delivery without effect leaves the step answered or not. */
  lemma AnsweredKept(st: State)
    requires st.phase.Holding? && !Effective(st, st.phase.event)
    ensures Answered(Opened(st)) == Answered(st)
  {
    PendingHeld(st);
    hide Pending, Stage;
    if Answered(st) {
      var e :| e in Pending(st) && Effective(st, e);
      assert e in Pending(Opened(st)) && Effective(Opened(st), e);
    }
    if Answered(Opened(st)) {
      var e :| e in Pending(Opened(st)) && Effective(Opened(st), e);
      assert e in Pending(st) && Effective(st, e);
    }
  }

  lemma IneffectiveCloser(st: State)
    requires st.phase.Holding? && !IsChain(st.phase.event) && !Effective(st, st.phase.event)
    ensures Closer(st, Opened(st))
  {
    hide Pending, Stage, Distance, PhaseRank, Answered, Effective;
    IneffectiveDistance(st);
    PendingHeld(st);
    AnsweredKept(st);
  }

  lemma DeliverCloser(st: State)
    requires Inv(st) && st.phase.Holding? && CanHandle(st, st.phase.event)
    ensures Closer(st, Next(st, Deliver))
  {
    hide Inv, Handle, Distance, Fresh, CanHandle, Effective, Pending, Unanswered, PhaseRank;
    StillHandles(st);
    if IsChain(st.phase.event) {
      ChainLowers(st);
    } else if Effective(st, st.phase.event) {
      EffectiveLowers(st);
    } else {
      IneffectiveStays(st);
      IneffectiveCloser(st);
    }
  }

  lemma ProcessCloser(st: State)
    requires Calm(st) && st.phase.Outside? && CanTick(st) && Answer(st) == Process(st.now)
    ensures Closer(st, Next(st, Process(st.now)))
  {
    if !st.started {
      StartLowers(st, st.now);
    } else {
      if !st.sequence.running {
        ChainQueued(st);
      }
      assert Tick(st, st.now) == st.(now := st.now);
      PendingOutside(st);
      PendingOutside(Next(st, Process(st.now)));
      hide Calm, Inv, Pending, Stage, Tick;
      PhaseCloser(st, Next(st, Process(st.now)));
    }
  }

  /** The control thread's steps between deliveries: what is pending stays pending. */
  lemma BetweenCloser(st: State)
    requires Enabled(st, Answer(st)) && (st.phase.Dispatching? || st.phase.Handled?)
    ensures Closer(st, Next(st, Answer(st))) && Pending(Next(st, Answer(st))) == Pending(st)
  {
    hide Pending, Closer;
    var next := Next(st, Answer(st));
    if Answer(st) == Pop {
      PopDistance(st);
    } else {
      PendingAside(st, next);
    }
    PhaseCloser(st, next);
  }

  lemma AnswerCloser(st: State)
    requires Calm(st) && Enabled(st, Answer(st)) && Safe(st, Answer(st))
    ensures Closer(st, Next(st, Answer(st)))
  {
    hide Calm, Inv, CanTick, CanHandle, Closer, Handle, Tick, Pending, InTime, Caused, TimeoutQueued, Roomy;
    CalmFacts(st);
    if st.phase.Dispatching? || st.phase.Handled? {
      BetweenCloser(st);
    } else if st.phase.Holding? {
      DeliverCloser(st);
    } else if Answer(st).UnitResult? {
      ResultCloser(st, Event(UnitCompleted, Payload(0, st.sequence.unitRequestId, 0, 0, 0, 0, NoError)));
    } else {
      ProcessCloser(st);
    }
  }

  lemma CalmFacts(st: State)
    requires Calm(st)
    ensures Inv(st) && TimeoutQueued(st) && Caused(st, NOTHING) && InTime(st) && st.output.status == StatusRunning
    ensures st.started && st.sequence.running ==> st.sequence.deadline > st.now
    ensures Roomy(st)
  {
    hide Inv, TimeoutQueued, Caused, InTime;
  }

  // ----- Calm is kept -----

  /** The step leaves the clock, the units and the room as they were, and new deadlines ahead. */
  predicate KeepsTime(st: State, next: State) {
    && next.now == st.now && next.accepting == st.accepting && Roomy(next)
    && (next.started && next.sequence.running ==> next.sequence.deadline > next.now)
  }

  lemma ProcessKeepsTime(st: State)
    requires Calm(st) && st.phase.Outside? && CanTick(st) && Answer(st) == Process(st.now)
    ensures KeepsTime(st, Next(st, Process(st.now)))
  {
    CalmFacts(st);
    PendingOutside(st);
    PendingOutside(Next(st, Process(st.now)));
    hide Calm, Inv, TimeoutQueued, Caused, InTime, StartSequence, Pending, CanTick;
    if !st.started {
      BeginSteady(st);
      hide Tick;
    }
  }

  lemma DeliverKeepsTime(st: State)
    requires Calm(st) && st.phase.Holding? && CanHandle(st, st.phase.event)
    ensures KeepsTime(st, Next(st, Deliver))
  {
    hide Calm, Inv, TimeoutQueued, Caused, InTime, Handle, CanHandle, Pending;
    CalmFacts(st);
    DeliverSteady(st);
    StillHandles(st);
    PendingHeld(st);
    PendingOutside(Next(st, Deliver));
  }

  lemma AnswerKeepsTime(st: State)
    requires Calm(st) && Enabled(st, Answer(st)) && Safe(st, Answer(st))
    ensures KeepsTime(st, Next(st, Answer(st)))
  {
    hide Calm, Inv, TimeoutQueued, Caused, InTime, Handle, CanHandle, Pending, CanTick, Tick, KeepsTime, Closer, Roomy;
    CalmFacts(st);
    if st.phase.Dispatching? || st.phase.Handled? {
      BetweenCloser(st);
      SameTime(st, Next(st, Answer(st)));
    } else if st.phase.Holding? {
      DeliverKeepsTime(st);
    } else if Answer(st).UnitResult? {
      ResultCloser(st, Event(UnitCompleted, Payload(0, st.sequence.unitRequestId, 0, 0, 0, 0, NoError)));
      SameTime(st, Next(st, Answer(st)));
    } else {
      ProcessKeepsTime(st);
    }
  }

  lemma SameTime(st: State, next: State)
    requires next.now == st.now && next.accepting == st.accepting && next.started == st.started && next.sequence == st.sequence
    requires st.started && st.sequence.running ==> st.sequence.deadline > st.now
    requires |Pending(next)| <= |Pending(st)| || (st.started && |Pending(next)| <= 1)
    requires Roomy(st)
    ensures KeepsTime(st, next)
  {
    hide Pending;
  }

  lemma CalmAgain(st: State, next: State)
    requires Calm(st) && SameRequest(st, next) && KeepsTime(st, next)
    requires Inv(next) && TimeoutQueued(next) && Caused(next, NOTHING) && next.output.status == StatusRunning
    ensures Calm(next)
  {
    hide Inv, TimeoutQueued, Caused, Pending, Flatten;
  }

  /** The step keeps everything calm, or completes the request. */
  lemma AnswerCalm(st: State)
    requires Calm(st)
    ensures Enabled(st, Answer(st)) && Safe(st, Answer(st))
    ensures var next := Next(st, Answer(st));
            && SameRequest(st, next) && Closer(st, next) && Inv(next)
            && (if next.output.status == StatusRunning then Calm(next) else next.output.status == StatusCompleted)
  {
    CalmFacts(st);
    hide Calm, Inv, TimeoutQueued, Caused, InTime, Next, Enabled, Safe, Closer, KeepsTime, Noted, Smooth, Accepts, Happened;
    var action := Answer(st);
    AnswerSmooth(st);
    AnswerCloser(st);
    AnswerKeepsTime(st);
    NextKeeps(st, action);
    TimeoutKept(st, action);
    CausesKept(st, NOTHING, action);
    NothingNoted(st, action);
    StepSameRequest(st, action);
    var next := Next(st, action);
    NoCauseNoError(next);
    if next.output.status == StatusRunning {
      CalmAgain(st, next);
    }
  }

  lemma NoCauseNoError(st: State)
    requires Caused(st, NOTHING)
    ensures st.output.status != StatusError
  {
    hide Pending;
  }

  // ----- Completion -----

  lemma {:induction false} Completes(st: State) returns (actions: seq<Action>, end: State)
    requires Calm(st)
    ensures Leads(st, actions, end) && Inv(end) && SameRequest(st, end) && end.output.status == StatusCompleted
    ensures forall a :: a in actions ==> ByControl(a) || (a.UnitResult? && a.succeeded)
    decreases Distance(st), Unanswered(st), |Pending(st)|, PhaseRank(st)
  {
    hide Calm, Inv, Next, Enabled, Safe, Distance, Unanswered, Pending, PhaseRank;
    var action := Answer(st);
    AnswerCalm(st);
    var next := Next(st, action);
    if next.output.status == StatusRunning {
      var rest, last := Completes(next);
      actions, end := [action] + rest, last;
      assert actions[1..] == rest;
    } else {
      actions, end := [action], next;
      assert actions[1..] == [];
    }
  }

  /** A request that was just accepted, with room in the queue and willing units, is calm. */
  lemma AcceptedIsCalm(st: State, action: Action)
    requires Inv(st) && TimeoutQueued(st) && Enabled(st, action) && Accepts(st, action)
    requires st.queue == []
    requires InTime(Next(st, action)) && Willing(Next(st, action))
    ensures Calm(Next(st, action))
  {
    hide Chosen, Flatten, InTime, Willing;
    var next := Next(st, action);
    NextKeeps(st, action);
    AcceptedCaused(st, next, action);
    hide Inv, Caused, NextSequence;
    assert Pending(next) == [];
  }

  /**
   From every reachable state in which a request is accepted with an empty queue, if its units
   accept inputs and its timeouts fit the clock, there is a run of answers and control steps in
   which it ends COMPLETED with every step issued.
   */
  lemma AcceptedRequestCanComplete(states: seq<State>, actions: seq<Action>, unitCount: nat, k: nat, input: Action)
    returns (more: seq<Action>, end: State)
    requires IsRun(states, actions, unitCount) && unitCount >= 10 && k < |states|
    requires Enabled(states[k], input) && Accepts(states[k], input) && states[k].queue == []
    requires InTime(Next(states[k], input)) && Willing(Next(states[k], input))
    ensures Leads(Next(states[k], input), more, end)
    ensures forall a :: a in more ==> ByControl(a) || (a.UnitResult? && a.succeeded)
    ensures end.output.status == StatusCompleted && SameRequest(Next(states[k], input), end)
    ensures end.history.issued == Flatten(end.history.request.sequences)
  {
    RunKeepsTimeout(states, actions, unitCount, k);
    hide Inv, TimeoutQueued, Calm, Enabled, Next, Accepts, InTime, Willing, Flatten, IsRun, Leads;
    AcceptedIsCalm(states[k], input);
    more, end := Completes(Next(states[k], input));
    ProgressIsExact(end);
  }
}
