/**
 Every request ends: from every reachable state in which a request runs, the control thread
 alone, calling `process` until the steps' deadlines have passed, reaches COMPLETED or ERROR,
 even if no unit ever answers.
 */
module DomainTermination {
  import opened Wrappers
  import opened WorkflowModel
  import opened DomainModel
  import opened DomainInvariant

  // ----- How far a request is from its end -----

  /** The links that are left of the chain that a pending event belongs to. */
  function StageOf(event: Event): nat {
    match event.id
    case SequenceCompleted => 5
    case SequenceError => 3
    case ScenarioCompleted => 2
    case ScenarioError => 2
    case FeatureCompleted => 1
    case FeatureError => 1
    case _ => 0
  }

  function Stage(q: seq<Event>): nat {
    if q == [] then 0 else StageOf(q[0]) + Stage(q[1..])
  }

  function Remaining(st: State): nat {
    if st.output.completed <= st.output.total then st.output.total - st.output.completed else 0
  }

  function MoverStage(st: State): nat {
    if !st.started then 6 else if st.sequence.running then 4 else 0
  }

  function Distance(st: State): nat {
    if st.output.status != StatusRunning then 0 else 10 * Remaining(st) + MoverStage(st) + Stage(Pending(st))
  }

  /** Whether the running step's timeout is still to be published. */
  function Armed(st: State): nat {
    if st.started && st.sequence.running && !st.sequence.timeoutPublished then 1 else 0
  }

  function PhaseRank(st: State): nat {
    match st.phase
    case Handled(_, _) => 6
    case Dispatching(budget) => if budget == 0 || st.queue == [] then 5 else 3
    case Outside => 4
    case Holding(_, _) => 2
  }

  lemma {:induction false} StageAppend(q: seq<Event>, event: Event)
    ensures Stage(q + [event]) == Stage(q) + StageOf(event)
  {
    if q != [] {
      assert (q + [event])[1..] == q[1..] + [event];
      StageAppend(q[1..], event);
    } else {
      assert q + [event] == [event];
    }
  }

  lemma {:induction false} NoStage(q: seq<Event>)
    requires forall e :: e in q ==> !IsChain(e)
    ensures Stage(q) == 0
  {
    if q != [] {
      assert q[0] in q;
      NoStage(q[1..]);
    }
  }

  lemma QuietStage(q: seq<Event>)
    requires ChainCount(q) == 0
    ensures Stage(q) == 0
  {
    NoChain(q);
    NoStage(q);
  }

  // ----- The published timeout -----

  /** A timeout that was published for the running step is still to be delivered. */
  ghost predicate TimeoutQueued(st: State) {
    st.output.status == StatusRunning && st.started && st.sequence.running && st.sequence.timeoutPublished ==>
      exists e :: e in Pending(st) && e.id == StepTimeout
  }

  /** Nothing runs, or what runs has just been started. */
  predicate Fresh(st: State) {
    st.output.status == StatusRunning && st.sequence.running ==> !st.sequence.timeoutPublished
  }

  // ----- What the runners' functions do to the distance -----

  predicate Between(st: State) {
    !st.phase.Holding? && st.started && Stage(st.queue) == 0
  }

  lemma PublishDistance(st: State, event: Event)
    requires Between(st) && !st.sequence.running
    ensures Distance(Publish(st, event)) <= 10 * Remaining(st) + StageOf(event)
    ensures Fresh(Publish(st, event))
  {
    hide Stage, StageOf, Pending;
    StageAppend(st.queue, event);
    PendingOutside(st);
    PendingOutside(Publish(st, event));
  }

  lemma PendingOutside(st: State)
    requires !st.phase.Holding?
    ensures Pending(st) == st.queue
  {
  }

  lemma ErrorDistance(st: State, error: DomainError)
    requires Between(st)
    ensures Distance(PublishSequenceError(st, error)) <= 10 * Remaining(st) + 3
    ensures Fresh(PublishSequenceError(st, error))
  {
    hide Publish, Distance;
    var machine := if st.sequence.machine == Running then Error else st.sequence.machine;
    PublishDistance(st.(sequence := st.sequence.(machine := machine, running := false)),
                    Event(SequenceError, CurrentPayload(st, error)));
  }

  lemma StartStepDistance(st: State, now: nat)
    requires Between(st) && st.sequence.steps.Some? && st.sequence.stepIndex < |st.sequence.steps.value|
    ensures Distance(StartStep(st, now)) <= 10 * Remaining(st) + 4
    ensures Fresh(StartStep(st, now))
  {
    hide PublishSequenceError;
    var step := st.sequence.steps.value[st.sequence.stepIndex];
    if step.unitIndex >= st.unitCount {
      ErrorDistance(st, Internal);
    } else if step.unitIndex !in st.accepting {
      ErrorDistance(st, UnitRejected);
    } else {
      assert Pending(StartStep(st, now)) == st.queue;
    }
  }

  lemma StartSequenceDistance(st: State, now: nat)
    requires st.scenario.definition.Some? && st.scenario.index < |st.scenario.definition.value.sequences|
    requires st.scenario.definition.value.sequences[st.scenario.index].steps != []
    requires Between(st)
    ensures Distance(StartSequence(st, now)) <= 10 * Remaining(st) + 4
    ensures Fresh(StartSequence(st, now))
  {
    hide StartStep, Distance, Fresh;
    var steps := st.scenario.definition.value.sequences[st.scenario.index].steps;
    StartStepDistance(st.(sequence := st.sequence.(machine := Running, steps := Some(steps), stepIndex := 0, running := false),
                          output := st.output.(sequenceIndex := st.scenario.index)), now);
  }

  // ----- Delivering -----

  /** The state a handler starts from. */
  function Opened(st: State): State
    requires st.phase.Holding?
  {
    st.(phase := DeliveredPhase(st.phase, st.listening))
  }

  lemma PendingHeld(st: State)
    requires st.phase.Holding?
    ensures Pending(st) == [st.phase.event] + st.queue && Pending(Opened(st)) == st.queue
    ensures Stage(Pending(st)) == StageOf(st.phase.event) + Stage(st.queue)
  {
    assert ([st.phase.event] + st.queue)[1..] == st.queue;
  }

  lemma SequenceCompletedDistance(st: State)
    requires Between(st) && !st.sequence.running && HasSequence(st.scenario, st.scenario.index + 1)
    ensures Distance(OnSequenceCompleted(st)) <= 10 * Remaining(st) + 4 && Fresh(OnSequenceCompleted(st))
  {
    hide Stage, Publish, StartSequence, Distance, Fresh;
    var moved := st.(scenario := st.scenario.(index := st.scenario.index + 1));
    if moved.scenario.index < |moved.scenario.definition.value.sequences| {
      StartSequenceDistance(moved, st.now);
    } else if st.scenario.machine == Running {
      PublishDistance(moved.(scenario := moved.scenario.(machine := Completed)),
                      Event(ScenarioCompleted, CurrentPayload(moved, NoError)));
    } else {
      PublishDistance(moved, Event(ScenarioError, CurrentPayload(moved, Internal)));
    }
  }

  lemma SequenceErrorDistance(st: State, event: Event)
    requires Between(st) && !st.sequence.running
    ensures Distance(OnSequenceError(st, event)) <= 10 * Remaining(st) + 2 && Fresh(OnSequenceError(st, event))
  {
    hide Stage, Publish, Distance, Fresh;
    var machine := if st.scenario.machine == Running then Error else st.scenario.machine;
    PublishDistance(st.(scenario := st.scenario.(machine := machine)), Event(ScenarioError, event.payload));
  }

  lemma ScenarioCompletedDistance(st: State, event: Event)
    requires Between(st) && !st.sequence.running
    ensures Distance(OnScenarioCompleted(st, event)) <= 10 * Remaining(st) + 1 && Fresh(OnScenarioCompleted(st, event))
  {
    hide Stage, Publish, Distance, Fresh;
    if st.feature == Running {
      PublishDistance(st.(feature := Completed), Event(FeatureCompleted, event.payload));
    } else {
      PublishDistance(st, Event(FeatureError, event.payload.(error := Internal)));
    }
  }

  lemma ScenarioErrorDistance(st: State, event: Event)
    requires Between(st) && !st.sequence.running
    ensures Distance(OnScenarioError(st, event)) <= 10 * Remaining(st) + 1 && Fresh(OnScenarioError(st, event))
  {
    hide Stage, Publish, Distance, Fresh;
    var machine := if st.feature == Running then Error else st.feature;
    PublishDistance(st.(feature := machine), Event(FeatureError, event.payload));
  }

  lemma ChainDistance(st: State, event: Event)
    requires Between(st) && !st.sequence.running && IsChain(event) && CanHandle(st, event)
    ensures Distance(Handle(st, event)) < 10 * Remaining(st) + StageOf(event)
    ensures Fresh(Handle(st, event))
  {
    hide Between, Remaining, OnSequenceCompleted, OnSequenceError, OnScenarioCompleted, OnScenarioError;
    match event.id {
      case SequenceCompleted => SequenceCompletedDistance(st);
      case SequenceError => SequenceErrorDistance(st, event);
      case ScenarioCompleted => ScenarioCompletedDistance(st, event);
      case ScenarioError => ScenarioErrorDistance(st, event);
      case FeatureCompleted =>
      case FeatureError =>
    }
  }

  /** A chain event moves on to a link nearer to the end. */
  lemma ChainLowers(st: State)
    requires Inv(st) && st.phase.Holding? && IsChain(st.phase.event) && CanHandle(st, st.phase.event)
    ensures st.output.status == StatusRunning && CanHandle(Opened(st), st.phase.event)
    ensures Distance(Handle(Opened(st), st.phase.event)) < Distance(st)
    ensures Fresh(Handle(Opened(st), st.phase.event))
  {
    hide Inv, Taken, Stage, Handle, Pending, CanHandle;
    HeldChain(st);
    var event := st.phase.event;
    PendingHeld(st);
    ChainFacts(Opened(st), event);
    StillHandles(st);
    ChainDistance(Opened(st), event);
  }

  lemma StillHandles(st: State)
    requires st.phase.Holding? && CanHandle(st, st.phase.event)
    ensures CanHandle(Opened(st), st.phase.event)
  {
  }

  lemma ChainFacts(st: State, event: Event)
    requires Taken(st, event)
    ensures RunningStarted(st) && !st.sequence.running && Between(st)
  {
    QuietStage(st.queue);
    hide Base, Carried, ChainCount, Stage;
  }

  /** Whether a plain event has an effect on the running step. */
  predicate Effective(st: State, event: Event) {
    st.output.status == StatusRunning && st.sequence.running
    && (event.id == StepTimeout || event.payload.unitRequestId == st.sequence.unitRequestId)
  }

  lemma StepFacts(st: State)
    requires Inv(st) && st.phase.Holding? && !IsChain(st.phase.event)
    requires st.output.status == StatusRunning && st.sequence.running
    ensures st.started && Between(Opened(st)) && st.sequence.steps.Some? && 0 < Remaining(st)
    ensures st.sequence.machine == Running
  {
    var event := st.phase.event;
    ChainCountPrepend(event, st.queue);
    QuietStage(st.queue);
    hide ChainCount, Stage, WfScenario, WfCatalog, StepCount;
    assert |Flatten(st.history.request.sequences)| == StepCount(st.history.request.sequences) by {
      hide Flatten;
    }
    TotalIsCount(st.history.request, st.unitCount);
  }

  lemma TotalIsCount(scenario: Scenario, unitCount: nat)
    requires WfScenario(scenario, unitCount)
    ensures scenario.totalSteps == StepCount(scenario.sequences)
  {
  }

  lemma UnitCompletedDistance(st: State, event: Event)
    requires Between(st) && st.output.status == StatusRunning && st.sequence.running && st.sequence.steps.Some?
    requires event.payload.unitRequestId == st.sequence.unitRequestId && 0 < Remaining(st) && st.sequence.machine == Running
    ensures Distance(OnUnitCompleted(st, event)) <= 10 * (Remaining(st) - 1) + 5 && Fresh(OnUnitCompleted(st, event))
  {
    hide Stage, Publish, StartStep, Distance, Fresh;
    var moved := st.(sequence := st.sequence.(running := false, stepIndex := st.sequence.stepIndex + 1),
                     output := st.output.(completed := st.output.completed + 1));
    if moved.sequence.stepIndex < |st.sequence.steps.value| {
      StartStepDistance(moved, st.now);
    } else {
      PublishDistance(moved.(sequence := moved.sequence.(machine := Completed)),
                      Event(SequenceCompleted, CurrentPayload(moved, NoError)));
    }
  }

  lemma EffectiveDistance(st: State, event: Event)
    requires Between(st) && Effective(st, event) && st.sequence.steps.Some? && 0 < Remaining(st)
    requires st.sequence.machine == Running && !IsChain(event) && CanHandle(st, event)
    ensures Distance(Handle(st, event)) < 10 * Remaining(st) + 4 && Fresh(Handle(st, event))
  {
    hide Between, Remaining, OnUnitCompleted, PublishSequenceError, Distance, Fresh;
    if event.id == UnitCompleted {
      UnitCompletedDistance(st, event);
    } else {
      ErrorDistance(st, if event.id == StepTimeout then TimedOut else UnitFailed);
    }
  }

  lemma EffectiveLowers(st: State)
    requires Inv(st) && st.phase.Holding? && !IsChain(st.phase.event) && CanHandle(st, st.phase.event)
    requires Effective(st, st.phase.event)
    ensures CanHandle(Opened(st), st.phase.event)
    ensures Distance(Handle(Opened(st), st.phase.event)) < Distance(st)
    ensures Fresh(Handle(Opened(st), st.phase.event))
  {
    hide Inv, Stage, Handle, Pending, CanHandle;
    StepFacts(st);
    StillHandles(st);
    EffectiveDistance(Opened(st), st.phase.event);
  }

  lemma IneffectiveStays(st: State)
    requires st.phase.Holding? && !IsChain(st.phase.event) && CanHandle(st, st.phase.event)
    requires !Effective(st, st.phase.event)
    ensures CanHandle(Opened(st), st.phase.event) && Handle(Opened(st), st.phase.event) == Opened(st)
  {
    hide StartStep, PublishSequenceError, Publish;
  }

  // ----- Measure -----

  /** The next state is nearer to the end of the request, or the request has ended. */
  predicate Nearer(st: State, next: State) {
    || next.output.status != StatusRunning
    || Distance(next) < Distance(st)
    || (Distance(next) == Distance(st)
        && (Armed(next) < Armed(st)
            || (Armed(next) == Armed(st)
                && (|Pending(next)| < |Pending(st)|
                    || (|Pending(next)| == |Pending(st)| && PhaseRank(next) < PhaseRank(st))))))
  }

  lemma IneffectiveNears(st: State)
    requires st.phase.Holding? && TimeoutQueued(st) && !Effective(st, st.phase.event)
    requires !IsChain(st.phase.event)
    ensures TimeoutQueued(Opened(st)) && (st.output.status == StatusRunning ==> Nearer(st, Opened(st)))
  {
    PendingHeld(st);
    hide Stage, Pending;
  }

  lemma FreshIsQueued(st: State)
    requires Fresh(st)
    ensures TimeoutQueued(st)
  {
    hide Pending;
  }

  lemma DeliverNears(st: State)
    requires Inv(st) && TimeoutQueued(st) && st.phase.Holding? && CanHandle(st, st.phase.event)
    ensures var next := Next(st, Deliver);
            TimeoutQueued(next) && (st.output.status == StatusRunning ==> Nearer(st, next))
  {
    hide Inv, Handle, Distance, TimeoutQueued, Fresh, CanHandle, Effective, Armed, PhaseRank, Pending;
    var next := Next(st, Deliver);
    StillHandles(st);
    assert next == Handle(Opened(st), st.phase.event);
    if IsChain(st.phase.event) {
      ChainLowers(st);
      FreshIsQueued(next);
    } else if Effective(st, st.phase.event) {
      EffectiveLowers(st);
      FreshIsQueued(next);
    } else {
      IneffectiveStays(st);
      IneffectiveNears(st);
    }
  }

  // ----- The control thread's own steps -----

  /** What the control thread does next: it finishes its call, or calls again once the deadline has passed. */
  function Choice(st: State): Action {
    match st.phase
    case Outside => Process(if st.now < st.sequence.deadline then st.sequence.deadline else st.now)
    case Dispatching(budget) => if budget > 0 && st.queue != [] then Pop else Finish
    case Holding(_, _) => Deliver
    case Handled(_, _) => Release
  }

  /** A call of process starts the request, publishes the timeout, or finds something to deliver. */
  lemma ProcessNears(st: State, now: nat)
    requires Inv(st) && TimeoutQueued(st) && st.phase.Outside? && CanTick(st)
    ensures TimeoutQueued(Next(st, Process(now)))
    ensures st.output.status == StatusRunning && now >= st.sequence.deadline ==> Nearer(st, Next(st, Process(now)))
  {
    if st.output.status == StatusRunning && !st.started {
      StartNears(st, now);
    } else if st.output.status == StatusRunning && st.sequence.running && !st.sequence.timeoutPublished
              && now >= st.sequence.deadline {
      ArmNears(st, now);
    } else {
      IdleNears(st, now);
    }
  }

  /** Starting a request brings it nearer to its end. */
  lemma StartLowers(st: State, now: nat)
    requires Inv(st) && st.phase.Outside? && CanTick(st) && st.output.status == StatusRunning && !st.started
    ensures Distance(Next(st, Process(now))) < Distance(st) && TimeoutQueued(Next(st, Process(now)))
  {
    ExactlyOneMover(st);
    assert Pending(st) == st.queue;
    NoStage(st.queue);
    hide Inv, Stage, StartSequence, ChainCount;
    var next := st.(now := now, started := true);
    StartSequenceDistance(next, now);
    var ticked := StartSequence(next, now);
    StartSequencePhase(next, now);
    PhaseAside(ticked);
  }

  lemma StartNears(st: State, now: nat)
    requires Inv(st) && st.phase.Outside? && CanTick(st) && st.output.status == StatusRunning && !st.started
    ensures TimeoutQueued(Next(st, Process(now))) && Nearer(st, Next(st, Process(now)))
  {
    hide Inv, Distance, TimeoutQueued, Next;
    StartLowers(st, now);
  }

  lemma StartSequencePhase(st: State, now: nat)
    requires st.scenario.definition.Some? && st.scenario.index < |st.scenario.definition.value.sequences|
    requires st.scenario.definition.value.sequences[st.scenario.index].steps != []
    ensures StartSequence(st, now).phase == st.phase
  {
  }

  /** Entering the dispatch does not change what is pending. */
  lemma PhaseAside(st: State)
    requires st.phase.Outside?
    ensures var next := st.(phase := Dispatching(DISPATCH_BUDGET));
            Pending(next) == Pending(st) && Distance(next) == Distance(st) && Armed(next) == Armed(st)
            && (Fresh(st) ==> TimeoutQueued(next)) && (TimeoutQueued(st) ==> TimeoutQueued(next))
  {
  }

  lemma ArmNears(st: State, now: nat)
    requires Inv(st) && st.phase.Outside? && CanTick(st) && RunningStarted(st)
    requires st.sequence.running && !st.sequence.timeoutPublished && now >= st.sequence.deadline
    ensures TimeoutQueued(Next(st, Process(now))) && Nearer(st, Next(st, Process(now)))
  {
    hide Inv, Stage;
    var event := Event(StepTimeout, CurrentPayload(st, TimedOut));
    StageAppend(st.queue, event);
    var next := Next(st, Process(now));
    if next.output.status == StatusRunning {
      assert next.queue == st.queue + [event] && Pending(next) == next.queue && Pending(st) == st.queue;
      assert event in Pending(next);
    }
  }

  /** A started running request whose step, if any, has timed out has something to deliver. */
  lemma SomethingQueued(st: State)
    requires Inv(st) && TimeoutQueued(st) && st.phase.Outside? && RunningStarted(st)
    requires !st.sequence.running || st.sequence.timeoutPublished
    ensures st.queue != []
  {
    hide Inv;
    PendingOutside(st);
    ExactlyOneMover(st);
  }

  lemma IdleNears(st: State, now: nat)
    requires Inv(st) && TimeoutQueued(st) && st.phase.Outside? && CanTick(st)
    requires Tick(st, now) == st.(now := now)
    ensures TimeoutQueued(Next(st, Process(now)))
    ensures RunningStarted(st) && (!st.sequence.running || st.sequence.timeoutPublished) ==>
              Nearer(st, Next(st, Process(now)))
  {
    hide Inv, Stage, Tick, CanTick, Pending;
    PendingOutside(st);
    PendingOutside(Next(st, Process(now)));
    if RunningStarted(st) && (!st.sequence.running || st.sequence.timeoutPublished) {
      SomethingQueued(st);
    }
  }

  lemma PopNears(st: State)
    requires st.phase.Dispatching? && st.phase.budget > 0 && st.queue != [] && TimeoutQueued(st)
    ensures TimeoutQueued(Next(st, Pop)) && Nearer(st, Next(st, Pop))
  {
    hide Stage;
    assert Pending(Next(st, Pop)) == st.queue == Pending(st);
  }

  lemma ReleaseNears(st: State)
    requires st.phase.Handled? && TimeoutQueued(st)
    ensures TimeoutQueued(Next(st, Release)) && Nearer(st, Next(st, Release))
  {
    hide Stage;
    assert Pending(Next(st, Release)) == st.queue == Pending(st);
  }

  lemma FinishNears(st: State)
    requires Enabled(st, Finish) && TimeoutQueued(st)
    ensures TimeoutQueued(Next(st, Finish)) && Nearer(st, Next(st, Finish))
  {
    hide Stage;
    assert Pending(Next(st, Finish)) == st.queue == Pending(st);
  }

  lemma ChoiceNears(st: State)
    requires Inv(st) && TimeoutQueued(st) && st.output.status == StatusRunning
    ensures Enabled(st, Choice(st)) && Safe(st, Choice(st))
    ensures Inv(Next(st, Choice(st))) && TimeoutQueued(Next(st, Choice(st))) && Nearer(st, Next(st, Choice(st)))
  {
    hide Inv, TimeoutQueued, Nearer, Next, CanTick, CanHandle;
    var action := Choice(st);
    EveryStepSafe(st, action);
    NextKeeps(st, action);
    match st.phase
    case Outside => ProcessNears(st, action.now);
    case Dispatching(_) =>
      if action == Pop {
        PopNears(st);
      } else {
        FinishNears(st);
      }
    case Holding(_, _) => DeliverNears(st);
    case Handled(_, _) => ReleaseNears(st);
  }

  // ----- Reachable states -----

  lemma PendingMore(st: State, event: Event)
    requires TimeoutQueued(st)
    ensures TimeoutQueued(Enqueued(st, event))
  {
    forall e | e in Pending(st)
      ensures e in Pending(Enqueued(st, event))
    {
    }
  }

  /** Every step of the system, the environment's included, leaves a published timeout queued. */
  lemma TimeoutKept(st: State, action: Action)
    requires Inv(st) && TimeoutQueued(st) && Enabled(st, action) && Safe(st, action)
    ensures TimeoutQueued(Next(st, action))
  {
    hide Inv, Tick, Handle, CanTick, CanHandle, Chosen, InputResultOf;
    match action
    case Input(_, _, _) =>
    case Load(_) =>
    case Listen =>
    case Process(now) => ProcessNears(st, now);
    case Pop => PopNears(st);
    case Deliver => DeliverNears(st);
    case Release => ReleaseNears(st);
    case Finish => FinishNears(st);
    case UnitsChange(_) =>
    case UnitResult(unitNumber, requestId, succeeded) =>
      PendingMore(st, Event(if succeeded then UnitCompleted else UnitError,
                            Payload(0, requestId, 0, 0, 0, unitNumber, if succeeded then NoError else UnitFailed)));
  }

  lemma {:induction false} RunKeepsTimeout(states: seq<State>, actions: seq<Action>, unitCount: nat, k: nat)
    requires IsRun(states, actions, unitCount) && unitCount >= 10 && k < |states|
    ensures Inv(states[k]) && TimeoutQueued(states[k])
  {
    hide Inv, TimeoutQueued, Safe, Enabled, Next;
    RunKeepsInv(states, actions, unitCount, k);
    if k == 0 {
      InitialTimeout(unitCount);
    } else {
      RunKeepsTimeout(states, actions, unitCount, k - 1);
      RunKeepsInv(states, actions, unitCount, k - 1);
      TimeoutKept(states[k - 1], actions[k - 1]);
    }
  }

  lemma InitialTimeout(unitCount: nat)
    ensures TimeoutQueued(Initial(unitCount))
  {
  }

  // ----- The end of every request -----

  /** A step the control thread takes by itself, without a new request. */
  predicate ByControl(action: Action) {
    action.Process? || action == Pop || action == Deliver || action == Release || action == Finish
  }

  /** The clock never goes back: each call of process passes a time at or after the last one. */
  ghost predicate ClockAdvances(st: State, actions: seq<Action>)
    decreases |actions|
  {
    actions != [] && Enabled(st, actions[0]) && Safe(st, actions[0]) ==>
      (actions[0].Process? ==> actions[0].now >= st.now) && ClockAdvances(Next(st, actions[0]), actions[1..])
  }

  /** The state is still about the same request, running or ended. */
  predicate SameRequest(st: State, next: State) {
    && next.history.request == st.history.request && next.output.requestId == st.output.requestId
    && next.output.status != StatusIdle
  }

  lemma SameErrorRequest(st: State, error: DomainError)
    requires st.output.status != StatusIdle
    ensures SameRequest(st, PublishSequenceError(st, error))
  {
  }

  lemma SameStepRequest(st: State, now: nat)
    requires st.sequence.steps.Some? && st.sequence.stepIndex < |st.sequence.steps.value|
    requires st.output.status != StatusIdle
    ensures SameRequest(st, StartStep(st, now))
  {
    hide PublishSequenceError;
    SameErrorRequest(st, Internal);
    SameErrorRequest(st, UnitRejected);
  }

  lemma SameSequenceRequest(st: State, now: nat)
    requires st.scenario.definition.Some? && st.scenario.index < |st.scenario.definition.value.sequences|
    requires st.scenario.definition.value.sequences[st.scenario.index].steps != []
    requires st.output.status != StatusIdle
    ensures SameRequest(st, StartSequence(st, now))
  {
    hide StartStep;
    var steps := st.scenario.definition.value.sequences[st.scenario.index].steps;
    SameStepRequest(st.(sequence := st.sequence.(machine := Running, steps := Some(steps), stepIndex := 0, running := false),
                        output := st.output.(sequenceIndex := st.scenario.index)), now);
  }

  lemma SameUnitRequest(st: State, event: Event)
    requires st.output.status == StatusRunning && st.sequence.running ==> st.sequence.steps.Some?
    requires st.output.status != StatusIdle
    ensures SameRequest(st, OnUnitCompleted(st, event))
  {
    hide StartStep, PublishSequenceError;
    if st.output.status == StatusRunning && st.sequence.running
       && event.payload.unitRequestId == st.sequence.unitRequestId {
      var moved := st.(sequence := st.sequence.(running := false, stepIndex := st.sequence.stepIndex + 1),
                       output := st.output.(completed := st.output.completed + 1));
      if moved.sequence.stepIndex < |st.sequence.steps.value| {
        SameStepRequest(moved, st.now);
      } else {
        SameErrorRequest(moved, Internal);
      }
    }
  }

  lemma SameScenarioRequest(st: State)
    requires HasSequence(st.scenario, st.scenario.index + 1) && st.output.status != StatusIdle
    ensures SameRequest(st, OnSequenceCompleted(st))
  {
    hide StartSequence;
    var moved := st.(scenario := st.scenario.(index := st.scenario.index + 1));
    if moved.scenario.index < |moved.scenario.definition.value.sequences| {
      SameSequenceRequest(moved, st.now);
    }
  }

  lemma SameHandled(st: State, event: Event)
    requires CanHandle(st, event) && st.output.status != StatusIdle
    ensures SameRequest(st, Handle(st, event))
  {
    hide OnUnitCompleted, OnSequenceCompleted, PublishSequenceError;
    match event.id {
      case UnitCompleted => SameUnitRequest(st, event);
      case SequenceCompleted => SameScenarioRequest(st);
      case UnitError => SameErrorRequest(st, UnitFailed);
      case StepTimeout => SameErrorRequest(st, TimedOut);
      case _ =>
    }
  }

  lemma SameTicked(st: State, now: nat)
    requires CanTick(st) && st.output.status != StatusIdle
    ensures SameRequest(st, Tick(st, now))
  {
    hide StartSequence;
    if st.output.status == StatusRunning && !st.started {
      SameSequenceRequest(st.(now := now, started := true), now);
    }
  }

  /** Steps of the control thread stay with the request. */
  lemma ControlKeepsRequest(st: State, action: Action)
    requires Enabled(st, action) && Safe(st, action) && st.output.status != StatusIdle && ByControl(action)
    ensures SameRequest(st, Next(st, action))
  {
    hide Handle, Tick, CanHandle, CanTick;
    if action.Process? {
      SameTicked(st, action.now);
    } else if action == Deliver {
      StillHandles(st);
      SameHandled(Opened(st), st.phase.event);
    }
  }

  lemma {:induction false} Ends(st: State) returns (actions: seq<Action>, end: State)
    requires Inv(st) && TimeoutQueued(st) && st.output.status == StatusRunning
    ensures Leads(st, actions, end) && ClockAdvances(st, actions) && forall a :: a in actions ==> ByControl(a)
    ensures Inv(end) && SameRequest(st, end) && end.output.status != StatusRunning
    decreases Distance(st), Armed(st), |Pending(st)|, PhaseRank(st)
  {
    hide Inv, TimeoutQueued, Enabled, Safe, Next, Distance, Armed, Pending, PhaseRank;
    var action := Choice(st);
    ChoiceNears(st);
    ControlKeepsRequest(st, action);
    var next := Next(st, action);
    if next.output.status == StatusRunning {
      var rest, last := Ends(next);
      actions, end := [action] + rest, last;
      assert actions[1..] == rest;
    } else {
      actions, end := [action], next;
      assert actions[1..] == [];
    }
  }

  /**
   From every reachable state with a running request, steps of the control thread alone, with
   a clock that only moves forward, end the request: COMPLETED with everything issued, or
   ERROR, whose cause `DomainCauses` names.
   */
  lemma EveryRequestEnds(states: seq<State>, actions: seq<Action>, unitCount: nat, k: nat)
    returns (more: seq<Action>, end: State)
    requires IsRun(states, actions, unitCount) && unitCount >= 10 && k < |states|
    requires states[k].output.status == StatusRunning
    ensures Leads(states[k], more, end) && ClockAdvances(states[k], more) && forall a :: a in more ==> ByControl(a)
    ensures SameRequest(states[k], end)
    ensures || (end.output.status == StatusCompleted && end.history.issued == Flatten(end.history.request.sequences))
            || (end.output.status == StatusError && end.output.error != NoError)
  {
    hide Inv, Leads, ClockAdvances, TimeoutQueued, Flatten;
    RunKeepsTimeout(states, actions, unitCount, k);
    more, end := Ends(states[k]);
    ProgressIsExact(end);
  }
}
