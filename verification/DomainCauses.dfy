/**
 Why a request ends in ERROR: every error that is reported has happened. So a request whose
 units accept and answer in time, with room in the queue, ends COMPLETED.
 */
module DomainCauses {
  import opened Wrappers
  import opened WorkflowModel
  import opened DomainModel
  import opened DomainInvariant
  import opened DomainTermination
  import opened DomainProgress

  // ----- What can go wrong -----

  /** The step runs handlers or starts a request. */
  predicate Works(action: Action) {
    action.Process? || action == Deliver
  }

  /** While a request runs, the unit of the step to be issued next refuses inputs. */
  predicate RefusedAt(st: State, action: Action) {
    var steps := Flatten(st.history.request.sequences);
    Works(action) && st.output.status == StatusRunning && |st.history.issued| < |steps| && steps[|st.history.issued|].unitIndex !in st.accepting
  }

  /** While a request runs, the event queue has no room for what the step might publish. */
  predicate FullAt(st: State, action: Action) {
    Works(action) && st.output.status == StatusRunning
    && |st.queue| + (if st.phase.Holding? || st.phase.Handled? then 1 else 0) == 32
  }

  /** The running step's deadline is found to have passed. */
  predicate TimeoutAt(st: State, action: Action) {
    action.Process? && RunningStarted(st) && st.sequence.running && !st.sequence.timeoutPublished
    && action.now >= st.sequence.deadline
  }

  /**
   What has gone wrong: refusals and a full queue since the request was accepted, timeouts and
   the request ids of failed unit results at any time, because such events may still be queued.
   */
  datatype Seen = Seen(refused: bool, full: bool, timedOut: bool, failed: set<nat>)

  const NOTHING := Seen(false, false, false, {})

  predicate Accepts(st: State, action: Action) {
    action.Input? && InputResultOf(st, action.feature, action.condition) == Accepted
  }

  function Noted(seen: Seen, st: State, action: Action): Seen {
    if Accepts(st, action) then seen.(refused := false, full := false)
    else if action.UnitResult? && !action.succeeded then seen.(failed := seen.failed + {action.requestId})
    else Seen(seen.refused || RefusedAt(st, action), seen.full || FullAt(st, action),
              seen.timedOut || TimeoutAt(st, action), seen.failed)
  }

  /** The error has happened; a failed result had the request id of the step it ended. */
  predicate Happened(st: State, seen: Seen, error: DomainError) {
    match error
    case NoError => false
    case UnitRejected => seen.refused
    case UnitFailed => st.sequence.unitRequestId in seen.failed
    case TimedOut => seen.timedOut
    case Internal => seen.full
  }

  predicate IsErrorEvent(event: Event) {
    event.id == SequenceError || event.id == ScenarioError || event.id == FeatureError
  }

  predicate EventCaused(st: State, seen: Seen, event: Event) {
    && (event.id == StepTimeout ==> seen.timedOut)
    && (event.id == UnitError ==> event.payload.unitRequestId in seen.failed)
    && (IsErrorEvent(event) ==> Happened(st, seen, event.payload.error))
  }

  ghost predicate Caused(st: State, seen: Seen) {
    && (forall e :: e in Pending(st) ==> EventCaused(st, seen, e))
    && (st.output.status == StatusError ==> Happened(st, seen, st.output.error))
  }

  predicate Covers(seen: Seen, more: Seen) {
    (seen.refused ==> more.refused) && (seen.full ==> more.full) && (seen.timedOut ==> more.timedOut) && seen.failed <= more.failed
  }

  lemma CausedMore(st: State, seen: Seen, more: Seen)
    requires Caused(st, seen) && Covers(seen, more)
    ensures Caused(st, more)
  {
    hide Pending;
    forall e | e in Pending(st)
      ensures EventCaused(st, more, e)
    {
      assert EventCaused(st, seen, e);
    }
  }

  /** The causes do not depend on the rest of the state. */
  lemma CausedAside(st: State, next: State, seen: Seen)
    requires Caused(st, seen) && (forall e :: e in Pending(next) ==> e in Pending(st))
    requires next.sequence.unitRequestId == st.sequence.unitRequestId
    requires next.output.status == StatusError ==> st.output.status == StatusError && next.output.error == st.output.error
    ensures Caused(next, seen)
  {
    hide Pending;
    forall e | e in Pending(next)
      ensures EventCaused(next, seen, e)
    {
      assert EventCaused(st, seen, e);
    }
  }

  /** The refusal of the next step, if its unit refuses, has been seen. */
  predicate RefusalSeen(st: State, seen: Seen) {
    var steps := Flatten(st.history.request.sequences);
    (st.output.status == StatusRunning && |st.history.issued| < |steps|
     && steps[|st.history.issued|].unitIndex !in st.accepting) ==> seen.refused
  }

  /** A full queue, if the request runs, has been seen. */
  predicate RoomSeen(st: State, seen: Seen) {
    st.output.status == StatusRunning && Occupied(st) >= QUEUE_CAPACITY ==> seen.full
  }

  // ----- Publishing -----

  lemma PublishCaused(st: State, seen: Seen, event: Event)
    requires Caused(st, seen) && !st.phase.Holding? && st.output.status == StatusRunning
    requires EventCaused(st, seen, event) && RoomSeen(st, seen)
    ensures Caused(Publish(st, event), seen)
  {
    PendingOutside(st);
    PendingOutside(Publish(st, event));
    hide Pending;
    forall e | e in Publish(st, event).queue
      ensures EventCaused(Publish(st, event), seen, e)
    {
      if e in st.queue {
        assert EventCaused(st, seen, e);
      }
    }
  }

  lemma SequenceErrorCaused(st: State, seen: Seen, error: DomainError)
    requires Caused(st, seen) && !st.phase.Holding? && st.output.status == StatusRunning
    requires Happened(st, seen, error) && RoomSeen(st, seen)
    ensures Caused(PublishSequenceError(st, error), seen)
  {
    var machine := if st.sequence.machine == Running then Error else st.sequence.machine;
    var failed := st.(sequence := st.sequence.(machine := machine, running := false));
    PendingOutside(st);
    PendingOutside(failed);
    hide Pending, Publish, Caused, Happened;
    HappenedAside(st, failed, seen, error);
    CausedAside(st, failed, seen);
    PublishCaused(failed, seen, Event(SequenceError, CurrentPayload(st, error)));
  }

  lemma HappenedAside(st: State, next: State, seen: Seen, error: DomainError)
    requires Happened(st, seen, error) && next.sequence.unitRequestId == st.sequence.unitRequestId
    ensures Happened(next, seen, error)
  {
  }

  // ----- Starting steps and sequences -----

  /** The step under `stepIndex` is the next of the flattened scenario. */
  lemma NextToIssue(st: State)
    requires AtStart(st)
    ensures var step := st.sequence.steps.value[st.sequence.stepIndex]; var steps := Flatten(st.history.request.sequences);
            step.unitIndex < st.unitCount && |st.history.issued| < |steps| && steps[|st.history.issued|] == step
  {
    StepIssued(st);
    hide AtStart, Flatten;
    var step := st.sequence.steps.value[st.sequence.stepIndex];
    assert (st.history.issued + [step])[|st.history.issued|] == step;
  }

  lemma StartStepCaused(st: State, seen: Seen, now: nat)
    requires AtStart(st) && Caused(st, seen) && RefusalSeen(st, seen)
    requires RoomSeen(st, seen)
    ensures Caused(StartStep(st, now), seen)
  {
    NextToIssue(st);
    NoErrorQueued(st);
    hide Flatten, PublishSequenceError, AtStart, RoomSeen;
    var step := st.sequence.steps.value[st.sequence.stepIndex];
    if step.unitIndex !in st.accepting {
      SequenceErrorCaused(st, seen, UnitRejected);
    } else {
      IssuedCaused(st, StartStep(st, now), seen);
    }
  }

  lemma NoErrorQueued(st: State)
    requires AtStart(st)
    ensures !st.phase.Holding? && st.output.status == StatusRunning
    ensures forall e :: e in st.queue ==> !IsChain(e)
    ensures st.sequence.steps.Some? && st.sequence.stepIndex < |st.sequence.steps.value|
  {
    NoChain(st.queue);
    hide Base, ChainCount;
  }

  /** Without error events in the queue the request id of the running step may change. */
  lemma IssuedCaused(st: State, next: State, seen: Seen)
    requires Caused(st, seen) && !st.phase.Holding? && !next.phase.Holding? && next.queue == st.queue
    requires (forall e :: e in st.queue ==> !IsChain(e)) && next.output.status == StatusRunning
    ensures Caused(next, seen)
  {
    PendingOutside(st);
    PendingOutside(next);
    hide Pending;
    forall e | e in next.queue
      ensures EventCaused(next, seen, e)
    {
      assert EventCaused(st, seen, e);
    }
  }

  lemma StartSequenceCaused(st: State, seen: Seen, now: nat)
    requires AtSequence(st) && Caused(st, seen) && RefusalSeen(st, seen)
    requires RoomSeen(st, seen)
    ensures HasSequence(st.scenario, st.scenario.index) && st.scenario.index < |st.scenario.definition.value.sequences|
    ensures Caused(StartSequence(st, now), seen)
  {
    SequenceAtStart(st);
    StartSequenceKeeps(st, now);
    hide AtSequence, AtStart, Caused, StartStep, RefusalSeen;
    var next := SequenceBegun(st);
    CausedBegun(st, next, seen);
    StartStepCaused(next, seen, now);
  }

  /** The state in which a sequence issues its first step. */
  function SequenceBegun(st: State): State
    requires st.scenario.definition.Some? && st.scenario.index < |st.scenario.definition.value.sequences|
  {
    var steps := st.scenario.definition.value.sequences[st.scenario.index].steps;
    st.(sequence := st.sequence.(machine := Running, steps := Some(steps), stepIndex := 0, running := false),
        output := st.output.(sequenceIndex := st.scenario.index))
  }

  lemma SequenceAtStart(st: State)
    requires AtSequence(st)
    ensures st.scenario.definition.Some? && st.scenario.index < |st.scenario.definition.value.sequences|
    ensures AtStart(SequenceBegun(st))
  {
    assert WfSequence(st.history.request.sequences[st.scenario.index], st.unitCount);
    hide WfScenario, WfCatalog, StepCount, Flatten;
  }

  lemma CausedBegun(st: State, next: State, seen: Seen)
    requires Caused(st, seen) && RefusalSeen(st, seen) && next.queue == st.queue && next.phase == st.phase
    requires next.sequence.unitRequestId == st.sequence.unitRequestId && next.output.status == st.output.status
    requires next.output.error == st.output.error && next.history == st.history && next.accepting == st.accepting
    ensures Caused(next, seen) && RefusalSeen(next, seen) && (RoomSeen(st, seen) ==> RoomSeen(next, seen))
  {
    PendingOf(st, next);
    hide Pending;
    CausedAside(st, next, seen);
  }

  lemma PendingOf(st: State, next: State)
    requires next.queue == st.queue && next.phase == st.phase
    ensures Pending(next) == Pending(st)
  {
  }

  // ----- Delivering -----

  lemma OpenedCaused(st: State, seen: Seen)
    requires Caused(st, seen) && st.phase.Holding?
    ensures Caused(Opened(st), seen) && EventCaused(Opened(st), seen, st.phase.event)
    ensures RoomSeen(st, seen) ==> RoomSeen(Opened(st), seen)
  {
    PendingHeld(st);
    hide Pending;
    assert st.phase.event in Pending(st);
    CausedAside(st, Opened(st), seen);
  }

  lemma OpenedPlainInv(st: State)
    requires Inv(st) && st.phase.Holding? && !IsChain(st.phase.event)
    ensures Inv(Opened(st)) && !InCallback(Opened(st))
  {
    var event, next := st.phase.event, Opened(st);
    ChainCountPrepend(event, st.queue);
    assert Pending(st) == [event] + st.queue && Pending(next) == st.queue;
    SamePendingKeeps(st, next);
  }

  /** The runner after its step was completed, before it goes on. */
  function StepDone(st: State): State {
    st.(sequence := st.sequence.(running := false, stepIndex := st.sequence.stepIndex + 1),
        output := st.output.(completed := st.output.completed + 1))
  }

  lemma StepDoneAtStart(st: State)
    requires Inv(st) && !st.phase.Holding? && !InCallback(st) && RunningStarted(st) && st.sequence.running
    ensures st.sequence.steps.Some? && st.sequence.machine == Running
    ensures StepDone(st).sequence.stepIndex < |st.sequence.steps.value| ==> AtStart(StepDone(st))
  {
    hide WfScenario, WfCatalog, StepCount, Flatten;
    PendingOutside(st);
  }

  lemma StepDoneCaused(st: State, seen: Seen)
    requires Caused(st, seen) && RefusalSeen(st, seen) && st.output.status == StatusRunning
    ensures Caused(StepDone(st), seen) && RefusalSeen(StepDone(st), seen)
    ensures RoomSeen(st, seen) ==> RoomSeen(StepDone(st), seen)
  {
    PendingOf(st, StepDone(st));
    hide Pending, Flatten;
    CausedAside(st, StepDone(st), seen);
  }

  lemma UnitCompletedCaused(st: State, seen: Seen, event: Event)
    requires Inv(st) && !st.phase.Holding? && !InCallback(st) && RunningStarted(st) && Effective(st, event)
    requires event.id == UnitCompleted && Caused(st, seen) && RefusalSeen(st, seen)
    requires RoomSeen(st, seen)
    ensures st.sequence.steps.Some? && Caused(OnUnitCompleted(st, event), seen)
  {
    StepDoneAtStart(st);
    StepDoneCaused(st, seen);
    hide Inv, AtStart, Caused, RefusalSeen, StartStep, Publish, RoomSeen;
    var done := StepDone(st);
    if done.sequence.stepIndex < |st.sequence.steps.value| {
      StartStepCaused(done, seen, st.now);
    } else {
      var completed := done.(sequence := done.sequence.(machine := Completed));
      CausedRunners(done, completed, seen);
      PublishCaused(completed, seen, Event(SequenceCompleted, CurrentPayload(done, NoError)));
    }
  }

  /** Machines and indexes do not matter to the causes. */
  lemma CausedRunners(st: State, next: State, seen: Seen)
    requires Caused(st, seen) && next.queue == st.queue && next.phase == st.phase && next.output == st.output
    requires next.sequence.unitRequestId == st.sequence.unitRequestId
    ensures Caused(next, seen) && (RoomSeen(st, seen) ==> RoomSeen(next, seen))
  {
    PendingOf(st, next);
    hide Pending;
    CausedAside(st, next, seen);
  }

  lemma FailureCaused(st: State, seen: Seen, event: Event)
    requires !st.phase.Holding? && Effective(st, event) && (event.id == UnitError || event.id == StepTimeout)
    requires Caused(st, seen) && EventCaused(st, seen, event) && RoomSeen(st, seen)
    ensures Caused(OnFailure(st, event), seen)
  {
    hide Caused, PublishSequenceError, RoomSeen;
    SequenceErrorCaused(st, seen, if event.id == StepTimeout then TimedOut else UnitFailed);
  }

  lemma PlainCaused(st: State, seen: Seen)
    requires Inv(st) && st.phase.Holding? && !IsChain(st.phase.event) && CanHandle(st, st.phase.event)
    requires Caused(st, seen) && RefusalSeen(st, seen) && RoomSeen(st, seen)
    ensures CanHandle(Opened(st), st.phase.event) && Caused(Handle(Opened(st), st.phase.event), seen)
  {
    hide Inv, Caused, OnUnitCompleted, OnFailure, CanHandle, RefusalSeen, RoomSeen, EventCaused;
    var event, next := st.phase.event, Opened(st);
    OpenedCaused(st, seen);
    StillHandles(st);
    if Effective(st, event) {
      StepFacts(st);
      OpenedPlainInv(st);
      RefusalAside(st, next, seen);
      if event.id == UnitCompleted {
        UnitCompletedCaused(next, seen, event);
      } else {
        FailureCaused(next, seen, event);
      }
    } else {
      IneffectiveStays(st);
    }
  }

  lemma RefusalAside(st: State, next: State, seen: Seen)
    requires RefusalSeen(st, seen) && next.history == st.history && next.accepting == st.accepting
    requires next.output.status == st.output.status
    ensures RefusalSeen(next, seen)
  {
  }

  // ----- Delivering chain events -----

  /** The state in which the scenario runner starts its next sequence. */
  function NextSequence(st: State): State {
    st.(scenario := st.scenario.(index := st.scenario.index + 1), sequence := st.sequence.(stepIndex := 0))
  }

  lemma NextAtSequence(st: State, event: Event)
    requires Taken(st, event) && event.id == SequenceCompleted && !InCallback(st)
    requires st.scenario.index + 1 < |st.history.request.sequences|
    ensures AtSequence(NextSequence(st))
    ensures st.scenario.definition == Some(st.history.request)
  {
    StepCountPrefix(st.history.request.sequences, st.scenario.index);
    hide WfScenario, WfCatalog, StepCount, Flatten;
  }

  lemma NextSequenceCaused(st: State, seen: Seen, event: Event)
    requires Taken(st, event) && event.id == SequenceCompleted && !InCallback(st)
    requires st.scenario.index + 1 < |st.history.request.sequences|
    requires Caused(st, seen) && RefusalSeen(st, seen) && RoomSeen(st, seen)
    ensures HasSequence(st.scenario, st.scenario.index + 1) && Caused(OnSequenceCompleted(st), seen)
  {
    NextAtSequence(st, event);
    OnSequenceCompletedKeeps(st, event);
    hide Taken, AtSequence, Inv, Caused, RefusalSeen, StartSequence, RoomSeen;
    var zero, next := NextSequence(st), st.(scenario := st.scenario.(index := st.scenario.index + 1));
    CausedRunners(st, zero, seen);
    RefusalAside(st, zero, seen);
    StartSequenceCaused(zero, seen, st.now);
    StartSequenceIgnoresRunner(next, zero, st.now);
  }

  lemma LastSequenceCaused(st: State, seen: Seen, event: Event)
    requires Taken(st, event) && event.id == SequenceCompleted && !InCallback(st)
    requires st.scenario.index + 1 >= |st.history.request.sequences|
    requires Caused(st, seen) && RoomSeen(st, seen)
    ensures HasSequence(st.scenario, st.scenario.index + 1) && Caused(OnSequenceCompleted(st), seen)
  {
    ScenarioDonePublished(st, event);
    TakenFacts(st, event);
    hide Taken, Caused, RoomSeen, OnSequenceCompleted, Publish;
    CausedRunners(st, ScenarioDone(st), seen);
    PublishCaused(ScenarioDone(st), seen, Event(ScenarioCompleted, CurrentPayload(st, NoError)));
  }

  lemma TakenFacts(st: State, event: Event)
    requires Taken(st, event)
    ensures !st.phase.Holding? && st.output.status == StatusRunning
    ensures event.id == ScenarioCompleted ==> st.feature == Running
  {
    hide Base, ChainCount, Flatten;
  }

  lemma ErrorEventCaused(st: State, next: State, seen: Seen, event: Event, id: EventId)
    requires Caused(st, seen) && !st.phase.Holding? && st.output.status == StatusRunning
    requires IsErrorEvent(event) && EventCaused(st, seen, event) && (id == ScenarioError || id == FeatureError)
    requires next.queue == st.queue && next.phase == st.phase && next.output == st.output && next.sequence == st.sequence
    requires RoomSeen(st, seen)
    ensures Caused(Publish(next, Event(id, event.payload)), seen)
  {
    hide Caused, Publish, RoomSeen, Happened;
    CausedRunners(st, next, seen);
    HappenedAside(st, next, seen, event.payload.error);
    PublishCaused(next, seen, Event(id, event.payload));
  }

  lemma FeatureCaused(st: State, seen: Seen, event: Event)
    requires Caused(st, seen) && !st.phase.Holding? && EventCaused(st, seen, event)
    requires event.id == FeatureCompleted || event.id == FeatureError
    ensures Caused(OnFeatureEvent(st, event), seen)
  {
    var next := OnFeatureEvent(st, event);
    PendingOutside(st);
    PendingOutside(next);
    hide Pending;
    forall e | e in next.queue
      ensures EventCaused(next, seen, e)
    {
      assert EventCaused(st, seen, e);
    }
  }

  lemma ChainCaused(st: State, seen: Seen)
    requires Inv(st) && st.phase.Holding? && IsChain(st.phase.event) && CanHandle(st, st.phase.event)
    requires Caused(st, seen) && RefusalSeen(st, seen) && RoomSeen(st, seen)
    ensures CanHandle(Opened(st), st.phase.event) && Caused(Handle(Opened(st), st.phase.event), seen)
  {
    hide Inv, Taken, Caused, RefusalSeen, RoomSeen, EventCaused, OnSequenceCompleted, OnFeatureEvent, CanHandle, Publish;
    var event, next := st.phase.event, Opened(st);
    HeldChain(st);
    OpenedCaused(st, seen);
    StillHandles(st);
    TakenFacts(next, event);
    RefusalAside(st, next, seen);
    match event.id {
      case SequenceCompleted =>
        if next.scenario.index + 1 < |next.history.request.sequences| {
          NextSequenceCaused(next, seen, event);
        } else {
          LastSequenceCaused(next, seen, event);
        }
      case SequenceError =>
        var machine := if next.scenario.machine == Running then Error else next.scenario.machine;
        ErrorEventCaused(next, next.(scenario := next.scenario.(machine := machine)), seen, event, ScenarioError);
      case ScenarioCompleted =>
        var done := next.(feature := Completed);
        CausedRunners(next, done, seen);
        CompletionCaused(done, seen, event.payload);
        PublishCaused(done, seen, Event(FeatureCompleted, event.payload));
      case ScenarioError =>
        var machine := if next.feature == Running then Error else next.feature;
        ErrorEventCaused(next, next.(feature := machine), seen, event, FeatureError);
      case FeatureCompleted => FeatureCaused(next, seen, event);
      case FeatureError => FeatureCaused(next, seen, event);
    }
  }

  lemma CompletionCaused(st: State, seen: Seen, payload: Payload)
    ensures EventCaused(st, seen, Event(FeatureCompleted, payload))
  {
  }

  lemma DeliverCaused(st: State, seen: Seen)
    requires Inv(st) && st.phase.Holding? && CanHandle(st, st.phase.event)
    requires Caused(st, seen) && RefusalSeen(st, seen) && RoomSeen(st, seen)
    ensures Caused(Next(st, Deliver), seen)
  {
    hide Inv, Caused, RefusalSeen, RoomSeen, CanHandle, Handle;
    if IsChain(st.phase.event) {
      ChainCaused(st, seen);
    } else {
      PlainCaused(st, seen);
    }
  }

  // ----- Calling process -----

  /** The state in which a new request starts its first sequence. */
  function Begun(st: State, now: nat): State {
    st.(now := now, started := true, sequence := st.sequence.(stepIndex := 0, running := false))
  }

  lemma BegunAtSequence(st: State, now: nat)
    requires Inv(st) && st.phase.Outside? && st.output.status == StatusRunning && !st.started
    ensures AtSequence(Begun(st, now))
  {
    assert st.history.request.sequences[..0] == [];
    assert Pending(st) == st.queue;
    assert Accounts(Begun(st, now));
    hide WfScenario, WfCatalog, StepCount, Flatten, Accounts;
  }

  lemma BeginCaused(st: State, seen: Seen, now: nat)
    requires Inv(st) && st.phase.Outside? && CanTick(st) && st.output.status == StatusRunning && !st.started
    requires Caused(st, seen) && RefusalSeen(st, seen) && RoomSeen(st, seen)
    ensures Caused(Tick(st, now), seen)
  {
    BegunAtSequence(st, now);
    hide Inv, AtSequence, Caused, RefusalSeen, StartSequence, RoomSeen;
    var zero, next := Begun(st, now), st.(now := now, started := true);
    CausedRunners(st, zero, seen);
    RefusalAside(st, zero, seen);
    StartSequenceCaused(zero, seen, now);
    StartSequenceForgets(next, zero, now);
  }

  lemma ArmCaused(st: State, seen: Seen, now: nat)
    requires st.phase.Outside? && CanTick(st) && RunningStarted(st) && st.sequence.running
    requires !st.sequence.timeoutPublished && now >= st.sequence.deadline && seen.timedOut
    requires Caused(st, seen) && RoomSeen(st, seen)
    ensures Caused(Tick(st, now), seen)
  {
    hide Caused, Publish, RoomSeen;
    var armed := st.(now := now, sequence := st.sequence.(timeoutPublished := true));
    CausedRunners(st, armed, seen);
    PublishCaused(armed, seen, Event(StepTimeout, CurrentPayload(st, TimedOut)));
  }

  lemma TickCaused(st: State, seen: Seen, now: nat)
    requires Inv(st) && st.phase.Outside? && CanTick(st) && (TimeoutAt(st, Process(now)) ==> seen.timedOut)
    requires Caused(st, seen) && RefusalSeen(st, seen) && RoomSeen(st, seen)
    ensures Caused(Tick(st, now), seen)
  {
    hide Inv, Caused, RefusalSeen, RoomSeen, CanTick, StartSequence, Publish;
    if st.output.status == StatusRunning && !st.started {
      BeginCaused(st, seen, now);
    } else if TimeoutAt(st, Process(now)) {
      ArmCaused(st, seen, now);
    } else {
      CausedRunners(st, Tick(st, now), seen);
    }
  }

  lemma EnterCaused(st: State, seen: Seen, phase: Phase)
    requires Caused(st, seen) && !st.phase.Holding? && !phase.Holding?
    ensures Caused(st.(phase := phase), seen)
  {
    PendingOutside(st);
    PendingOutside(st.(phase := phase));
    hide Pending;
    CausedAside(st, st.(phase := phase), seen);
  }

  lemma TickPhase(st: State, now: nat)
    requires Inv(st) && st.phase.Outside? && CanTick(st)
    ensures Tick(st, now).phase == st.phase
  {
    hide Inv, Tick, CanTick;
    TickKeeps(st, now);
  }

  // ----- Every step -----

  lemma NotedCovers(st: State, seen: Seen, action: Action)
    ensures !Accepts(st, action) ==> Covers(seen, Noted(seen, st, action))
    ensures Works(action) ==>
              && RefusalSeen(st, Noted(seen, st, action))
              && (Occupied(st) <= QUEUE_CAPACITY ==> RoomSeen(st, Noted(seen, st, action)))
              && (TimeoutAt(st, action) ==> Noted(seen, st, action).timedOut)
  {
    hide Flatten, InputResultOf;
  }

  lemma InputCaused(st: State, seen: Seen, action: Action)
    requires Inv(st) && Caused(st, seen) && ControlRuns(st) && Accepts(st, action)
    ensures Caused(Next(st, action), Noted(seen, st, action))
  {
    var next := WriteInput(st, action.feature, action.condition, action.requestId);
    NoChain(Pending(st));
    PendingOf(st, next);
    hide Inv, Pending, ChainCount, Chosen;
    forall e | e in Pending(next)
      ensures EventCaused(next, Noted(seen, st, action), e)
    {
      assert EventCaused(st, seen, e) && !IsChain(e);
    }
  }

  lemma EnqueuedCaused(st: State, seen: Seen, event: Event)
    requires Caused(st, seen) && EventCaused(st, seen, event)
    ensures Caused(Enqueued(st, event), seen)
  {
    forall e | e in Pending(Enqueued(st, event))
      ensures EventCaused(Enqueued(st, event), seen, e)
    {
      if e in Pending(st) {
        assert EventCaused(st, seen, e);
      }
    }
  }

  lemma ResultCaused(st: State, seen: Seen, action: Action)
    requires Caused(st, seen) && action.UnitResult?
    ensures Caused(Next(st, action), Noted(seen, st, action))
  {
    hide InputResultOf, Caused, Covers, Happened, IsChain;
    var more := Noted(seen, st, action);
    NotedCovers(st, seen, action);
    CausedMore(st, seen, more);
    EnqueuedCaused(st, more, Event(if action.succeeded then UnitCompleted else UnitError,
                                   Payload(0, action.requestId, 0, 0, 0, action.unitNumber,
                                           if action.succeeded then NoError else UnitFailed)));
  }

  lemma BoundedOccupied(st: State)
    requires Inv(st)
    ensures Occupied(st) <= QUEUE_CAPACITY
  {
  }

  /** Every step keeps the causes true of what is queued and reported. */
  lemma CausesKept(st: State, seen: Seen, action: Action)
    requires Inv(st) && Enabled(st, action) && Safe(st, action) && Caused(st, seen)
    ensures Caused(Next(st, action), Noted(seen, st, action))
  {
    hide Inv, Caused, Noted, Covers, RefusalSeen, RoomSeen, Tick, Handle, CanTick, CanHandle, TimeoutAt, Pending, Chosen;
    NotedCovers(st, seen, action);
    BoundedOccupied(st);
    var more := Noted(seen, st, action);
    if Accepts(st, action) {
      InputCaused(st, seen, action);
    } else if action.UnitResult? {
      ResultCaused(st, seen, action);
    } else {
      CausedMore(st, seen, more);
      match action
      case Process(now) =>
        TickCaused(st, more, now);
        TickPhase(st, now);
        EnterCaused(Tick(st, now), more, Dispatching(DISPATCH_BUDGET));
      case Deliver => DeliverCaused(st, more);
      case Pop =>
        PopDistance(st);
        CausedAside(st, Next(st, action), more);
      case Release => EnterCaused(st, more, Dispatching(st.phase.budget));
      case Finish => EnterCaused(st, more, Outside);
      case Input(_, _, _) =>
      case Load(_) => CausedRunners(st, Next(st, action), more);
      case Listen => CausedRunners(st, Next(st, action), more);
      case UnitsChange(_) => CausedRunners(st, Next(st, action), more);
    }
  }

  // ----- Every run -----

  /** What has gone wrong between states `i` and `k`, starting from `seen`. */
  function SeenAt(states: seq<State>, actions: seq<Action>, i: nat, k: nat, seen: Seen): Seen
    requires k <= |actions| && k <= |states|
  {
    if k <= i then seen else Noted(SeenAt(states, actions, i, k - 1, seen), states[k - 1], actions[k - 1])
  }

  lemma {:induction false} RunCaused(states: seq<State>, actions: seq<Action>, unitCount: nat, i: nat, k: nat, seen: Seen)
    requires IsRun(states, actions, unitCount) && unitCount >= 10 && i <= k < |states| && Caused(states[i], seen)
    ensures Caused(states[k], SeenAt(states, actions, i, k, seen))
    decreases k - i
  {
    hide Inv, Caused, Safe, Enabled, Next, Noted;
    if i < k {
      RunCaused(states, actions, unitCount, i, k - 1, seen);
      RunKeepsInv(states, actions, unitCount, k - 1);
      CausesKept(states[k - 1], SeenAt(states, actions, i, k - 1, seen), actions[k - 1]);
    }
  }

  lemma InitialCaused(unitCount: nat)
    ensures Caused(Initial(unitCount), NOTHING)
  {
  }

  /** No request was accepted between `j` and `k`. */
  ghost predicate SameRequestSince(states: seq<State>, actions: seq<Action>, j: nat, k: nat)
    requires k <= |actions| && k <= |states|
  {
    forall l :: j < l < k ==> !Accepts(states[l], actions[l])
  }

  ghost predicate RefusedSince(states: seq<State>, actions: seq<Action>, k: nat)
    requires k <= |actions| && k <= |states|
  {
    exists j :: 0 <= j < k && RefusedAt(states[j], actions[j]) && SameRequestSince(states, actions, j, k)
  }

  ghost predicate FullSince(states: seq<State>, actions: seq<Action>, k: nat)
    requires k <= |actions| && k <= |states|
  {
    exists j :: 0 <= j < k && FullAt(states[j], actions[j]) && SameRequestSince(states, actions, j, k)
  }

  ghost predicate TimeoutBefore(states: seq<State>, actions: seq<Action>, k: nat)
    requires k <= |actions| && k <= |states|
  {
    exists j :: 0 <= j < k && TimeoutAt(states[j], actions[j])
  }

  ghost predicate FailedBefore(actions: seq<Action>, k: nat, requestId: nat)
    requires k <= |actions|
  {
    exists j :: 0 <= j < k && actions[j].UnitResult? && !actions[j].succeeded && actions[j].requestId == requestId
  }

  lemma StillSame(states: seq<State>, actions: seq<Action>, j: nat, k: nat)
    requires k < |actions| && k < |states| && SameRequestSince(states, actions, j, k) && !Accepts(states[k], actions[k])
    ensures SameRequestSince(states, actions, j, k + 1)
  {
    hide Accepts;
  }

  lemma {:induction false} SeenHappened(states: seq<State>, actions: seq<Action>, k: nat, id: nat)
    requires k <= |actions| && k <= |states|
    ensures var seen := SeenAt(states, actions, 0, k, NOTHING);
            && (seen.refused ==> RefusedSince(states, actions, k))
            && (seen.full ==> FullSince(states, actions, k))
            && (seen.timedOut ==> TimeoutBefore(states, actions, k))
            && (id in seen.failed ==> FailedBefore(actions, k, id))
  {
    hide Accepts, RefusedAt, FullAt, TimeoutAt, SameRequestSince;
    if k > 0 {
      SeenHappened(states, actions, k - 1, id);
      var st, action, before := states[k - 1], actions[k - 1], SeenAt(states, actions, 0, k - 1, NOTHING);
      if !Accepts(st, action) {
        if before.refused {
          var j :| 0 <= j < k - 1 && RefusedAt(states[j], actions[j]) && SameRequestSince(states, actions, j, k - 1);
          StillSame(states, actions, j, k - 1);
        }
        if before.full {
          var j :| 0 <= j < k - 1 && FullAt(states[j], actions[j]) && SameRequestSince(states, actions, j, k - 1);
          StillSame(states, actions, j, k - 1);
        }
        LastSame(states, actions, k);
      }
    }
  }

  lemma LastSame(states: seq<State>, actions: seq<Action>, k: nat)
    requires 0 < k <= |actions| && k <= |states|
    ensures SameRequestSince(states, actions, k - 1, k)
  {
  }

  /**
   In every run a request that ends in ERROR names what happened: UnitRejected, that since it
   was accepted the unit of its next step refused; Internal, that since then the queue was full
   when something had to be published; TimedOut, that a deadline was found to have passed;
   UnitFailed, that a unit reported a failure with the request id of the step that ended.
   */
  lemma ErrorHasCause(states: seq<State>, actions: seq<Action>, unitCount: nat, k: nat)
    requires IsRun(states, actions, unitCount) && unitCount >= 10 && k < |states|
    requires states[k].output.status == StatusError
    ensures match states[k].output.error
            case NoError => false
            case UnitRejected => RefusedSince(states, actions, k)
            case Internal => FullSince(states, actions, k)
            case TimedOut => TimeoutBefore(states, actions, k)
            case UnitFailed => FailedBefore(actions, k, states[k].sequence.unitRequestId)
  {
    hide RefusedSince, FullSince, TimeoutBefore, FailedBefore, SeenAt, Pending;
    InitialCaused(unitCount);
    RunCaused(states, actions, unitCount, 0, k, NOTHING);
    SeenAtStart(states, actions);
    SeenHappened(states, actions, k, states[k].sequence.unitRequestId);
  }

  lemma SeenAtStart(states: seq<State>, actions: seq<Action>)
    ensures SeenAt(states, actions, 0, 0, NOTHING) == NOTHING
  {
  }

  // ----- Answered requests complete -----

  /** Nothing goes wrong at this step. */
  predicate Smooth(st: State, action: Action) {
    && !RefusedAt(st, action) && !FullAt(st, action) && !TimeoutAt(st, action)
    && (action.UnitResult? ==> action.succeeded)
  }

  /** As long as the request accepted by step `i` runs, nothing goes wrong. */
  ghost predicate Undisturbed(states: seq<State>, actions: seq<Action>, i: nat, n: nat)
    requires n <= |actions| && n < |states|
  {
    forall j :: i < j < n && RunsThrough(states, i + 1, j) ==> Smooth(states[j], actions[j])
  }

  lemma {:induction false} FirstEnd(states: seq<State>, i: nat, n: nat) returns (m: nat)
    requires i <= n < |states| && states[i].output.status == StatusRunning
    requires exists k :: i < k <= n && states[k].output.status != StatusRunning
    ensures i < m <= n && states[m].output.status != StatusRunning && RunsThrough(states, i, m - 1)
    decreases n - i
  {
    if states[i + 1].output.status != StatusRunning {
      return i + 1;
    }
    m := FirstEnd(states, i + 1, n);
  }

  /** A running request is the same one after any step, running or ended. */
  lemma StepSameRequest(st: State, action: Action)
    requires Enabled(st, action) && Safe(st, action) && st.output.status == StatusRunning
    ensures SameRequest(st, Next(st, action)) && !Accepts(st, action)
  {
    hide Handle, Tick, CanHandle, CanTick, Chosen;
    if ByControl(action) {
      ControlKeepsRequest(st, action);
    }
  }

  lemma {:induction false} RunSameRequest(states: seq<State>, actions: seq<Action>, unitCount: nat, i: nat, m: nat)
    requires IsRun(states, actions, unitCount) && unitCount >= 10 && i < m < |states| && RunsThrough(states, i, m - 1)
    ensures SameRequest(states[i], states[m])
    decreases m
  {
    hide Inv, Safe, Enabled, Next;
    RunKeepsInv(states, actions, unitCount, m - 1);
    StepSameRequest(states[m - 1], actions[m - 1]);
    if i < m - 1 {
      RunSameRequest(states, actions, unitCount, i, m - 1);
    }
  }

  lemma NothingNoted(st: State, action: Action)
    requires Smooth(st, action)
    ensures Noted(NOTHING, st, action) == NOTHING
  {
    hide RefusedAt, FullAt, TimeoutAt;
  }

  lemma {:induction false} NothingSeen(states: seq<State>, actions: seq<Action>, i: nat, m: nat, n: nat)
    requires m <= n <= |actions| && n < |states| && i < m && RunsThrough(states, i + 1, m - 1)
    requires Undisturbed(states, actions, i, n)
    ensures SeenAt(states, actions, i + 1, m, NOTHING) == NOTHING
    decreases m
  {
    hide Smooth, Noted;
    if i + 1 < m {
      NothingSeen(states, actions, i, m - 1, n);
      NothingNoted(states[m - 1], actions[m - 1]);
    }
  }

  lemma AcceptedCaused(st: State, next: State, action: Action)
    requires Inv(st) && Enabled(st, action) && Accepts(st, action) && next == Next(st, action)
    requires forall e :: e in st.queue ==> e.id != StepTimeout && e.id != UnitError
    ensures next.output.status == StatusRunning && next.output.requestId == action.requestId
    ensures Chosen(st, action.feature, action.condition) == Some(next.history.request) && Caused(next, NOTHING)
  {
    NoChain(Pending(st));
    PendingOf(st, next);
    hide Inv, ChainCount, Chosen;
  }

  /**
   In every run in which, while an accepted request runs, the units of its steps accept, no
   deadline passes, no unit reports a failure and the queue is not full, and in which enough
   process calls find something to do, such as the step's queued result, the request ends
   COMPLETED with every step of its scenario issued.
   */
  lemma AnsweredRequestCompletes(states: seq<State>, actions: seq<Action>, unitCount: nat, i: nat, n: nat) returns (m: nat)
    requires IsRun(states, actions, unitCount) && unitCount >= 10 && i + 1 < n < |states|
    requires Accepts(states[i], actions[i])
    requires forall e :: e in states[i].queue ==> e.id != StepTimeout && e.id != UnitError
    requires Undisturbed(states, actions, i, n)
    requires DrivingCalls(states, actions, i + 1, n) > 10 * states[i + 1].output.total + 6
    ensures i < m <= n && states[m].output.status == StatusCompleted && RunsThrough(states, i + 1, m - 1)
    ensures states[m].output.requestId == actions[i].requestId
    ensures var request := Chosen(states[i], actions[i].feature, actions[i].condition);
            request.Some? && states[m].history.request == request.value
            && states[m].history.issued == Flatten(request.value.sequences)
  {
    hide Inv, Safe, Enabled, Next, Drives, Undisturbed, RunsThrough, SeenAt, Flatten, Chosen, Accepts, Pending;
    RunKeepsInv(states, actions, unitCount, i);
    AcceptedCaused(states[i], states[i + 1], actions[i]);
    EveryScheduleEnds(states, actions, unitCount, i + 1, n);
    m := FirstEnd(states, i + 1, n);
    RunCaused(states, actions, unitCount, i + 1, m, NOTHING);
    NothingSeen(states, actions, i, m, n);
    RunSameRequest(states, actions, unitCount, i + 1, m);
    RunKeepsInv(states, actions, unitCount, m);
    ProgressIsExact(states[m]);
  }
}
