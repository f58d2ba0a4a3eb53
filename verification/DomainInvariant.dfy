/**
 What every run of the workflow runner keeps.

 `Inv` is proved of the initial state and of every enabled step, so it holds in every
 reachable state; the lemmas at the end read the promises off it.
 */
module DomainInvariant {
  import opened Wrappers
  import opened WorkflowModel
  import opened DomainModel

  // ----- Counting chain events -----

  function Pending(st: State): seq<Event> {
    (if st.phase.Holding? then [st.phase.event] else []) + st.queue
  }

  function ChainCount(q: seq<Event>): nat {
    if q == [] then 0 else ChainCount(q[..|q| - 1]) + (if IsChain(q[|q| - 1]) then 1 else 0)
  }

  lemma ChainCountAppend(q: seq<Event>, e: Event)
    ensures ChainCount(q + [e]) == ChainCount(q) + (if IsChain(e) then 1 else 0)
  {
    assert (q + [e])[..|q|] == q;
  }

  lemma {:induction false} ChainCountPrepend(e: Event, q: seq<Event>)
    ensures ChainCount([e] + q) == (if IsChain(e) then 1 else 0) + ChainCount(q)
    decreases |q|
  {
    if q == [] {
      assert ([e] + q)[..0] == [];
    } else {
      ChainCountPrepend(e, q[..|q| - 1]);
      assert ([e] + q)[..|q|] == [e] + q[..|q| - 1];
    }
  }

  lemma {:induction false} NoChain(q: seq<Event>)
    requires ChainCount(q) == 0
    ensures forall e :: e in q ==> !IsChain(e)
    decreases |q|
  {
    if q != [] {
      NoChain(q[..|q| - 1]);
      assert q == q[..|q| - 1] + [q[|q| - 1]];
    }
  }

  // ----- The invariant -----

  predicate RunningStarted(st: State) {
    st.output.status == StatusRunning && st.started
  }

  /** A started running request has exactly one mover; otherwise no chain event is pending. */
  predicate OneMover(st: State) {
    ChainCount(Pending(st)) == if RunningStarted(st) && !st.sequence.running then 1 else 0
  }

  predicate Bounded(st: State) {
    Occupied(st) <= QUEUE_CAPACITY && st.unitCount >= 10
  }

  ghost predicate CatalogOk(st: State) {
    st.catalog.Some? ==> WfCatalog(st.catalog.value, st.unitCount)
  }

  /** A callback follows a terminal event, when no step runs any more. */
  predicate CallbackQuiet(st: State) {
    InCallback(st) ==> !st.sequence.running
  }

  /** The step the runner stands on, counted over the whole scenario. */
  function Position(st: State): nat
    requires st.scenario.index <= |st.history.request.sequences|
  {
    StepCount(st.history.request.sequences[..st.scenario.index])
    + if st.scenario.index < |st.history.request.sequences| then st.sequence.stepIndex else 0
  }

  /** The bookkeeping of the current or last request. */
  predicate Accounts(st: State) {
    var request := st.history.request;
    && WfScenario(request, st.unitCount)
    && st.output.total == request.totalSteps && st.output.scenarioId == request.id
    && st.scenario.index <= |request.sequences|
    && st.history.issued <= Flatten(request.sequences)
    && st.output.completed <= |st.history.issued| <= st.output.completed + 1
    && (st.started ==> st.output.completed == Position(st))
    && (!st.started ==> st.history.issued == [] && st.output.completed == 0 && st.scenario.index == 0)
  }

  predicate Live(st: State) {
    st.output.status == StatusRunning ==>
      && st.scenario.definition == Some(st.history.request)
      && st.history.fires == 0
      && st.output.error == NoError
      && (!st.started ==> st.feature == Running && st.scenario.machine == Running)
      && (!st.started && !st.phase.Outside? ==> !st.sequence.running)
  }

  predicate AllIssued(st: State) {
    st.history.issued == Flatten(st.history.request.sequences) && st.output.completed == st.output.total
  }

  predicate Ended(st: State) {
    && st.history.fires <= 1
    && (st.output.status == StatusError ==> st.output.error != NoError)
    && (st.output.status == StatusCompleted ==>
          && st.output.error == NoError && AllIssued(st)
          && st.feature == Completed && st.scenario.machine == Completed && st.sequence.machine == Completed)
  }

  predicate CurrentSteps(st: State) {
    && st.scenario.index < |st.history.request.sequences|
    && st.sequence.steps == Some(st.history.request.sequences[st.scenario.index].steps)
    && st.output.sequenceIndex == st.scenario.index
  }

  /** The runner waits for a unit on the step it issued last. */
  predicate AtStep(st: State) {
    && CurrentSteps(st)
    && st.sequence.stepIndex < |st.sequence.steps.value|
    && st.output.stepIndex == st.sequence.stepIndex
    && |st.history.issued| == st.output.completed + 1
    && st.sequence.unitRequestId == (st.output.requestId + |st.history.issued|) % 0x1_0000_0000
    && st.sequence.machine == Running && st.scenario.machine == Running && st.feature == Running
  }

  predicate StepInv(st: State) {
    RunningStarted(st) && st.sequence.running ==> AtStep(st)
  }

  /** What a pending chain event says about the runners. */
  predicate Reports(st: State, event: Event) {
    match event.id
    case SequenceCompleted =>
      st.sequence.machine == Completed && st.scenario.machine == Running && st.feature == Running
      && CurrentSteps(st) && st.sequence.stepIndex == |st.sequence.steps.value|
      && |st.history.issued| == st.output.completed
    case SequenceError =>
      st.sequence.machine == Error && st.scenario.machine == Running && st.feature == Running
      && event.payload.error != NoError
    case ScenarioCompleted =>
      st.sequence.machine == Completed && st.scenario.machine == Completed && st.feature == Running
      && AllIssued(st) && event.payload.error == NoError
    case ScenarioError =>
      st.scenario.machine == Error && st.feature == Running && event.payload.error != NoError
    case FeatureCompleted =>
      st.sequence.machine == Completed && st.scenario.machine == Completed && st.feature == Completed
      && AllIssued(st) && event.payload.error == NoError
    case FeatureError => st.feature == Error && event.payload.error != NoError
    case _ => true
  }

  /** It tells which request, scenario, sequence and step it is about. */
  predicate Names(st: State, payload: Payload) {
    && payload.featureRequestId == st.output.requestId && payload.unitRequestId == st.sequence.unitRequestId
    && payload.scenarioId == st.history.request.id && payload.sequenceIndex == st.output.sequenceIndex
    && payload.stepIndex == st.output.stepIndex
  }

  /** What a pending event tells is so. */
  predicate Carried(st: State, event: Event) {
    Reports(st, event) && (IsChain(event) ==> Names(st, event.payload))
  }

  ghost predicate AllCarried(st: State) {
    forall e :: e in Pending(st) && IsChain(e) ==> Carried(st, e)
  }

  /** Everything but the mover. */
  ghost predicate Base(st: State) {
    && Bounded(st) && CatalogOk(st) && CallbackQuiet(st) && Live(st) && Ended(st)
    && (st.output.status != StatusIdle ==> Accounts(st))
  }

  ghost predicate Inv(st: State) {
    Base(st) && OneMover(st) && StepInv(st) && AllCarried(st)
  }

  /** A running request whose mover has just been taken off. */
  ghost predicate Quiet(st: State) {
    Base(st) && RunningStarted(st) && !st.sequence.running && !st.phase.Holding?
    && ChainCount(st.queue) == 0
  }

  // ----- Publishing -----

  /** The accounts do not mention the queue, the outcome or the environment. */
  lemma AccountsFrame(st: State, next: State)
    requires Accounts(st)
    requires next.history == st.history && next.unitCount == st.unitCount && next.started == st.started
    requires next.scenario.index == st.scenario.index && next.sequence.stepIndex == st.sequence.stepIndex
    requires next.output.total == st.output.total && next.output.completed == st.output.completed
    requires next.output.scenarioId == st.output.scenarioId
    ensures Accounts(next)
  {
    hide WfScenario, StepCount, Flatten;
  }

  lemma PublishBase(st: State, event: Event)
    requires Base(st) && RunningStarted(st)
    ensures Base(Publish(st, event))
  {
    hide WfCatalog, Accounts;
    AccountsFrame(st, Publish(st, event));
  }

  /** Only the runners' positions and outcomes matter to a carried event. */
  lemma CarriedFrame(st: State, next: State, event: Event)
    requires Carried(st, event) && next.output == st.output && next.feature == st.feature
    requires next.scenario == st.scenario && next.sequence == st.sequence && next.history == st.history
    ensures Carried(next, event)
  {
    hide Flatten;
  }

  lemma PublishMover(st: State, event: Event)
    requires Quiet(st) && IsChain(event) && Carried(st, event)
    ensures var next := Publish(st, event); OneMover(next) && StepInv(next) && AllCarried(next)
  {
    hide Base, Carried, CurrentPayload;
    var next := Publish(st, event);
    NoChain(st.queue);
    if Occupied(st) < QUEUE_CAPACITY {
      ChainCountAppend(st.queue, event);
      assert Pending(next) == st.queue + [event];
      CarriedFrame(st, next, event);
    } else {
      assert Pending(next) == st.queue;
    }
  }

  lemma PublishKeeps(st: State, event: Event)
    requires Quiet(st) && IsChain(event) && Carried(st, event)
    ensures Inv(Publish(st, event))
  {
    hide Base, Carried, Publish, OneMover, StepInv, AllCarried;
    PublishBase(st, event);
    PublishMover(st, event);
  }

  // ----- The sequence runner -----

  /** Ready to issue the step under `stepIndex`. */
  ghost predicate AtStart(st: State) {
    && Quiet(st) && !InCallback(st) && CurrentSteps(st)
    && st.sequence.stepIndex < |st.sequence.steps.value|
    && |st.history.issued| == st.output.completed
    && st.sequence.machine == Running && st.scenario.machine == Running && st.feature == Running
  }

  lemma PublishSequenceErrorKeeps(st: State, error: DomainError)
    requires Base(st) && RunningStarted(st) && !st.phase.Holding? && ChainCount(st.queue) == 0
    requires st.sequence.machine == Running && st.scenario.machine == Running && st.feature == Running
    requires error != NoError
    ensures Inv(PublishSequenceError(st, error))
  {
    hide WfScenario, WfCatalog, StepCount, Flatten, Publish;
    var failed := st.(sequence := st.sequence.(machine := Error, running := false));
    assert Quiet(failed);
    PublishKeeps(failed, Event(SequenceError, CurrentPayload(st, error)));
  }

  /** The next step of the flattened scenario is the one the runner points at. */
  lemma NextStep(sequences: seq<Sequence>, index: nat, stepIndex: nat)
    requires index < |sequences| && stepIndex < |sequences[index].steps|
    ensures StepCount(sequences[..index]) + stepIndex < |Flatten(sequences)|
    ensures Flatten(sequences)[StepCount(sequences[..index]) + stepIndex] == sequences[index].steps[stepIndex]
  {
    StepCountPrefix(sequences, index);
    StepCountMonotone(sequences, index + 1);
  }

  lemma StepIssued(st: State)
    requires AtStart(st)
    ensures st.sequence.steps.value[st.sequence.stepIndex].unitIndex < st.unitCount
    ensures st.history.issued + [st.sequence.steps.value[st.sequence.stepIndex]] <= Flatten(st.history.request.sequences)
  {
    var request := st.history.request;
    NextStep(request.sequences, st.scenario.index, st.sequence.stepIndex);
    assert WfSequence(request.sequences[st.scenario.index], st.unitCount);
    hide StepCount, Flatten;
  }

  /** The request id of the step issued next counts on from that of the request. */
  lemma StepIdCounts(output: Output)
    ensures StepRequestId(output) == (output.requestId + (output.completed + 1)) % 0x1_0000_0000
  {
  }

  lemma StartStepKeeps(st: State, now: nat)
    requires AtStart(st)
    ensures Inv(StartStep(st, now))
  {
    StepIssued(st);
    StepIdCounts(st.output);
    hide WfScenario, WfCatalog, StepCount, Flatten, PublishSequenceError, StepRequestId;
    if st.sequence.steps.value[st.sequence.stepIndex].unitIndex !in st.accepting {
      PublishSequenceErrorKeeps(st, UnitRejected);
    } else {
      NoChain(st.queue);
      assert Pending(StartStep(st, now)) == st.queue;
    }
  }

  /** Ready to start the sequence under `index`. */
  ghost predicate AtSequence(st: State) {
    && Base(st) && RunningStarted(st) && !st.phase.Holding? && !InCallback(st) && ChainCount(st.queue) == 0
    && st.scenario.index < |st.history.request.sequences|
    && |st.history.issued| == st.output.completed == StepCount(st.history.request.sequences[..st.scenario.index])
    && st.scenario.machine == Running && st.feature == Running
  }

  lemma StartSequenceKeeps(st: State, now: nat)
    requires AtSequence(st)
    ensures HasSequence(st.scenario, st.scenario.index) && Inv(StartSequence(st, now))
  {
    var sequence := st.history.request.sequences[st.scenario.index];
    assert WfSequence(sequence, st.unitCount);
    hide WfScenario, WfCatalog, StepCount, Flatten, StartStep;
    var next := st.(sequence := st.sequence.(machine := Running, steps := Some(sequence.steps), stepIndex := 0, running := false),
                    output := st.output.(sequenceIndex := st.scenario.index));
    assert AtStart(next);
    StartStepKeeps(next, now);
  }

  lemma OnUnitCompletedKeeps(st: State, event: Event)
    requires Inv(st) && !st.phase.Holding? && !InCallback(st)
    ensures st.output.status == StatusRunning && st.sequence.running && st.started ==> st.sequence.steps.Some?
    requires st.started || !st.sequence.running || st.output.status != StatusRunning
    ensures Inv(OnUnitCompleted(st, event))
  {
    hide WfScenario, WfCatalog, StepCount, Flatten, StartStep, Publish;
    assert Pending(st) == st.queue;
    if st.output.status == StatusRunning && st.sequence.running
       && event.payload.unitRequestId == st.sequence.unitRequestId {
      var next := st.(sequence := st.sequence.(running := false, stepIndex := st.sequence.stepIndex + 1),
                      output := st.output.(completed := st.output.completed + 1));
      if next.sequence.stepIndex < |st.sequence.steps.value| {
        assert AtStart(next);
        StartStepKeeps(next, st.now);
      } else {
        var done := next.(sequence := next.sequence.(machine := Completed));
        assert Quiet(done);
        PublishKeeps(done, Event(SequenceCompleted, CurrentPayload(next, NoError)));
      }
    }
  }

  lemma OnFailureKeeps(st: State, event: Event)
    requires Inv(st) && !st.phase.Holding?
    requires st.started || !st.sequence.running || st.output.status != StatusRunning
    ensures Inv(OnFailure(st, event))
  {
    hide WfScenario, WfCatalog, StepCount, Flatten, PublishSequenceError;
    assert Pending(st) == st.queue;
    if st.output.status == StatusRunning && st.sequence.running {
      PublishSequenceErrorKeeps(st, if event.id == StepTimeout then TimedOut else UnitFailed);
    }
  }

  // ----- The scenario and feature runners -----

  /** Facts about the unique pending chain event once it has been taken out of the queue. */
  ghost predicate Taken(st: State, event: Event) {
    Quiet(st) && IsChain(event) && Carried(st, event)
  }

  lemma OnSequenceCompletedKeeps(st: State, event: Event)
    requires Taken(st, event) && event.id == SequenceCompleted && !InCallback(st)
    ensures HasSequence(st.scenario, st.scenario.index + 1) && Inv(OnSequenceCompleted(st))
  {
    StepCountPrefix(st.history.request.sequences, st.scenario.index);
    if st.scenario.index + 1 < |st.history.request.sequences| {
      NextSequenceKeeps(st, event);
    } else {
      LastSequenceKeeps(st, event);
    }
  }

  lemma NextSequenceKeeps(st: State, event: Event)
    requires Taken(st, event) && event.id == SequenceCompleted && !InCallback(st)
    requires st.scenario.index + 1 < |st.history.request.sequences|
    ensures HasSequence(st.scenario, st.scenario.index + 1) && Inv(OnSequenceCompleted(st))
  {
    StepCountPrefix(st.history.request.sequences, st.scenario.index);
    hide WfScenario, WfCatalog, StepCount, Flatten, StartSequence;
    var next := st.(scenario := st.scenario.(index := st.scenario.index + 1));
    var zero := next.(sequence := next.sequence.(stepIndex := 0));
    assert AtSequence(zero);
    StartSequenceKeeps(zero, st.now);
    StartSequenceIgnoresRunner(next, zero, st.now);
  }

  lemma AllStepsIssued(st: State, event: Event)
    requires Taken(st, event) && event.id == SequenceCompleted && !InCallback(st)
    requires st.scenario.index + 1 >= |st.history.request.sequences|
    ensures st.scenario.index + 1 == |st.history.request.sequences|
    ensures AllIssued(st) && st.output.completed == StepCount(st.history.request.sequences)
  {
    var sequences := st.history.request.sequences;
    StepCountPrefix(sequences, st.scenario.index);
    assert sequences[..st.scenario.index + 1] == sequences;
    hide StepCount, Flatten;
    assert |Flatten(sequences)| == StepCount(sequences) == |st.history.issued|;
  }

  /** The state in which the scenario runner reports its completion. */
  function ScenarioDone(st: State): State {
    st.(scenario := st.scenario.(index := st.scenario.index + 1, machine := Completed))
  }

  lemma ScenarioDoneAccounts(st: State, event: Event)
    requires Taken(st, event) && event.id == SequenceCompleted && !InCallback(st)
    requires st.scenario.index + 1 >= |st.history.request.sequences|
    ensures Accounts(ScenarioDone(st)) && AllIssued(ScenarioDone(st))
  {
    AllStepsIssued(st, event);
    hide WfScenario, StepCount, Flatten;
    assert st.history.request.sequences[..st.scenario.index + 1] == st.history.request.sequences;
  }

  lemma LastSequenceKeeps(st: State, event: Event)
    requires Taken(st, event) && event.id == SequenceCompleted && !InCallback(st)
    requires st.scenario.index + 1 >= |st.history.request.sequences|
    ensures HasSequence(st.scenario, st.scenario.index + 1) && Inv(OnSequenceCompleted(st))
  {
    ScenarioDoneAccounts(st, event);
    ScenarioDonePublished(st, event);
    hide WfCatalog, Accounts, AllIssued, Publish, OnSequenceCompleted;
    PublishKeeps(ScenarioDone(st), Event(ScenarioCompleted, CurrentPayload(st, NoError)));
  }

  lemma ScenarioDonePublished(st: State, event: Event)
    requires Taken(st, event) && event.id == SequenceCompleted && !InCallback(st)
    requires st.scenario.index + 1 >= |st.history.request.sequences|
    ensures HasSequence(st.scenario, st.scenario.index + 1)
    ensures OnSequenceCompleted(st) == Publish(ScenarioDone(st), Event(ScenarioCompleted, CurrentPayload(st, NoError)))
  {
    hide WfCatalog, Accounts, Publish, Ended, Bounded;
  }

  /** Starting a sequence overwrites the step index it finds. */
  lemma StartSequenceIgnoresRunner(st: State, zero: State, now: nat)
    requires HasSequence(st.scenario, st.scenario.index) && st.scenario.index < |st.scenario.definition.value.sequences|
    requires zero == st.(sequence := st.sequence.(stepIndex := 0))
    ensures StartSequence(st, now) == StartSequence(zero, now)
  {
    hide StartStep;
  }

  lemma OnSequenceErrorKeeps(st: State, event: Event)
    requires Taken(st, event) && event.id == SequenceError
    ensures Inv(OnSequenceError(st, event))
  {
    hide WfScenario, WfCatalog, StepCount, Flatten, Publish;
    var failed := st.(scenario := st.scenario.(machine := Error));
    assert Quiet(failed);
    PublishKeeps(failed, Event(ScenarioError, event.payload));
  }

  lemma OnScenarioCompletedKeeps(st: State, event: Event)
    requires Taken(st, event) && event.id == ScenarioCompleted
    ensures Inv(OnScenarioCompleted(st, event))
  {
    hide WfScenario, WfCatalog, StepCount, Flatten, Publish;
    var done := st.(feature := Completed);
    assert Quiet(done);
    PublishKeeps(done, Event(FeatureCompleted, event.payload));
  }

  lemma OnScenarioErrorKeeps(st: State, event: Event)
    requires Taken(st, event) && event.id == ScenarioError
    ensures Inv(OnScenarioError(st, event))
  {
    hide WfScenario, WfCatalog, StepCount, Flatten, Publish;
    var failed := st.(feature := Error);
    assert Quiet(failed);
    PublishKeeps(failed, Event(FeatureError, event.payload));
  }

  lemma OnFeatureEventKeeps(st: State, event: Event)
    requires Taken(st, event) && (event.id == FeatureCompleted || event.id == FeatureError)
    ensures Inv(OnFeatureEvent(st, event))
  {
    hide WfScenario, WfCatalog, StepCount, Flatten;
    NoChain(st.queue);
    assert Pending(OnFeatureEvent(st, event)) == st.queue;
  }

  // ----- Whole steps -----

  lemma DeliverSafe(st: State)
    requires Inv(st) && st.phase.Holding?
    ensures CanHandle(st, st.phase.event)
  {
    hide WfCatalog, StepCount, Flatten;
    var event := st.phase.event;
    assert event in Pending(st);
    if event.id == SequenceCompleted {
      assert Carried(st, event);
      ChainCountPrepend(event, st.queue);
      assert WfScenario(st.history.request, st.unitCount);
    }
  }

  /** A chain event in delivery is the mover of a started running request. */
  lemma HeldChain(st: State)
    requires Inv(st) && st.phase.Holding? && IsChain(st.phase.event)
    ensures Taken(st.(phase := DeliveredPhase(st.phase, st.listening)), st.phase.event)
  {
    var event, next := st.phase.event, st.(phase := DeliveredPhase(st.phase, st.listening));
    assert event in Pending(st);
    ChainCountPrepend(event, st.queue);
    CarriedFrame(st, next, event);
    hide Accounts, WfCatalog, Carried, ChainCount;
    AccountsFrameIf(st, next);
  }

  lemma AccountsFrameIf(st: State, next: State)
    requires st.output.status != StatusIdle ==> Accounts(st)
    requires next.history == st.history && next.unitCount == st.unitCount && next.started == st.started
    requires next.scenario.index == st.scenario.index && next.sequence.stepIndex == st.sequence.stepIndex
    requires next.output == st.output
    ensures next.output.status != StatusIdle ==> Accounts(next)
  {
    hide Accounts;
    if st.output.status != StatusIdle {
      AccountsFrame(st, next);
    }
  }

  /** Without its mover in hand, the phase and the non-chain part of the queue do not matter. */
  lemma SamePendingKeeps(st: State, next: State)
    requires Inv(st) && Bounded(next) && (st.phase.Outside? ==> next.phase.Outside?)
    requires InCallback(next) ==> next.phase == st.phase && next.sequence == st.sequence
    requires ChainCount(Pending(next)) == ChainCount(Pending(st))
    requires forall e :: e in Pending(next) && IsChain(e) ==> e in Pending(st)
    requires next.output == st.output && next.feature == st.feature && next.scenario == st.scenario
    requires next.started == st.started && next.history == st.history && next.catalog == st.catalog
    requires next.unitCount == st.unitCount
    requires next.sequence == st.sequence
             || (RunningStarted(st) && next.sequence == st.sequence.(timeoutPublished := true))
    ensures Inv(next)
  {
    hide Accounts, WfCatalog, Pending, ChainCount;
    AccountsFrameIf(st, next);
    forall e | e in Pending(next) && IsChain(e)
      ensures Carried(next, e)
    {
      assert Carried(st, e);
      hide Flatten;
    }
  }

  lemma DeliverKeeps(st: State)
    requires Inv(st) && st.phase.Holding? && CanHandle(st, st.phase.event)
    ensures Inv(Handle(st.(phase := DeliveredPhase(st.phase, st.listening)), st.phase.event))
  {
    var event, next := st.phase.event, st.(phase := DeliveredPhase(st.phase, st.listening));
    if IsChain(event) {
      HeldChain(st);
      hide Inv, Taken;
      match event.id {
        case SequenceCompleted => OnSequenceCompletedKeeps(next, event);
        case SequenceError => OnSequenceErrorKeeps(next, event);
        case ScenarioCompleted => OnScenarioCompletedKeeps(next, event);
        case ScenarioError => OnScenarioErrorKeeps(next, event);
        case FeatureCompleted => OnFeatureEventKeeps(next, event);
        case FeatureError => OnFeatureEventKeeps(next, event);
      }
    } else {
      PlainDeliverKeeps(st);
    }
  }

  lemma PlainDeliverKeeps(st: State)
    requires Inv(st) && st.phase.Holding? && !IsChain(st.phase.event) && CanHandle(st, st.phase.event)
    ensures Inv(Handle(st.(phase := DeliveredPhase(st.phase, st.listening)), st.phase.event))
  {
    var event, next := st.phase.event, st.(phase := DeliveredPhase(st.phase, st.listening));
    ChainCountPrepend(event, st.queue);
    assert Pending(st) == [event] + st.queue && Pending(next) == st.queue;
    SamePendingKeeps(st, next);
    assert next.started || !next.sequence.running || next.output.status != StatusRunning;
    hide Inv;
    match event.id {
      case UnitCompleted => OnUnitCompletedKeeps(next, event);
      case UnitError => OnFailureKeeps(next, event);
      case StepTimeout => OnFailureKeeps(next, event);
    }
  }

  lemma TickSafe(st: State)
    requires Inv(st)
    ensures CanTick(st)
  {
    hide WfCatalog, StepCount, Flatten;
    if st.output.status == StatusRunning && !st.started {
      assert WfSequence(st.history.request.sequences[0], st.unitCount);
    }
  }

  lemma StartKeeps(st: State, now: nat)
    requires Inv(st) && st.phase.Outside? && st.output.status == StatusRunning && !st.started && CanTick(st)
    ensures Inv(StartSequence(st.(now := now, started := true), now))
  {
    var next := st.(now := now, started := true);
    var zero := next.(sequence := next.sequence.(stepIndex := 0, running := false));
    assert st.history.request.sequences[..0] == [];
    assert Pending(st) == st.queue;
    assert Accounts(zero);
    hide WfScenario, WfCatalog, StepCount, Flatten, Accounts, StartSequence;
    assert AtSequence(zero);
    StartSequenceKeeps(zero, now);
    StartSequenceForgets(next, zero, now);
  }

  /** Starting a sequence overwrites the step index and the running flag it finds. */
  lemma StartSequenceForgets(st: State, zero: State, now: nat)
    requires HasSequence(st.scenario, st.scenario.index) && st.scenario.index < |st.scenario.definition.value.sequences|
    requires zero == st.(sequence := st.sequence.(stepIndex := 0, running := false))
    ensures StartSequence(st, now) == StartSequence(zero, now)
  {
    hide StartStep;
  }

  /** A refused publication ends a request whose step was running. */
  lemma RefusedKeeps(st: State)
    requires Inv(st) && RunningStarted(st) && st.sequence.running
    ensures Inv(st.(output := st.output.(status := StatusError, error := Internal)))
  {
    var next := st.(output := st.output.(status := StatusError, error := Internal));
    assert Pending(next) == Pending(st);
    NoChain(Pending(st));
    hide WfCatalog, Accounts, Carried;
    AccountsFrame(st, next);
  }

  lemma TimeoutKeeps(st: State, now: nat)
    requires Inv(st) && st.phase.Outside? && RunningStarted(st) && st.sequence.running
    ensures Inv(Publish(st.(now := now, sequence := st.sequence.(timeoutPublished := true)),
                        Event(StepTimeout, CurrentPayload(st, TimedOut))))
  {
    var event := Event(StepTimeout, CurrentPayload(st, TimedOut));
    var armed := st.(now := now, sequence := st.sequence.(timeoutPublished := true));
    assert Pending(armed) == st.queue == Pending(st);
    SamePendingKeeps(st, armed);
    hide Inv;
    if Occupied(armed) < QUEUE_CAPACITY {
      UnitResultKeeps(armed, event);
    } else {
      RefusedKeeps(armed);
    }
  }

  lemma TickKeeps(st: State, now: nat)
    requires Inv(st) && st.phase.Outside? && CanTick(st)
    ensures Inv(Tick(st, now))
    ensures Tick(st, now).phase == st.phase
    ensures Tick(st, now).output.status == StatusRunning ==> Tick(st, now).started
  {
    if st.output.status == StatusRunning && !st.started {
      StartKeeps(st, now);
      hide Inv;
    } else if st.output.status == StatusRunning && st.sequence.running && !st.sequence.timeoutPublished
              && now >= st.sequence.deadline {
      TimeoutKeeps(st, now);
      hide Inv;
    } else {
      assert Pending(st.(now := now)) == Pending(st);
      SamePendingKeeps(st, st.(now := now));
      hide Inv;
    }
  }

  lemma BuiltInWf(condition: nat)
    requires BuiltIn(condition).Some?
    ensures WfScenario(BuiltIn(condition).value, 10)
  {
    var sequences := BuiltIn(condition).value.sequences;
    TwoSequences(sequences[0], sequences[1]);
    hide StepCount, Flatten;
    assert sequences == [sequences[0], sequences[1]];
    assert forall i :: 0 <= i < 2 ==> |sequences[i].steps| == 5 && WfSequence(sequences[i], 10);
  }

  lemma TwoSequences(first: Sequence, second: Sequence)
    ensures StepCount([first, second]) == |first.steps| + |second.steps|
    ensures Flatten([first, second]) == first.steps + second.steps
  {
    var both := [first, second];
    assert both[..1] == [first] && both[..1][..0] == [];
    assert StepCount(both[..1]) == |first.steps| && Flatten(both[..1]) == first.steps;
  }

  lemma WfMonotone(scenario: Scenario, few: nat, many: nat)
    requires WfScenario(scenario, few) && few <= many
    ensures WfScenario(scenario, many)
  {
    forall i | 0 <= i < |scenario.sequences|
      ensures WfSequence(scenario.sequences[i], many)
    {
      assert WfSequence(scenario.sequences[i], few);
    }
  }

  lemma ChosenWf(st: State, feature: nat, condition: nat)
    requires CatalogOk(st) && st.unitCount >= 10 && Chosen(st, feature, condition).Some?
    ensures WfScenario(Chosen(st, feature, condition).value, st.unitCount)
  {
    if st.catalog.None? {
      BuiltInWf(condition);
      WfMonotone(BuiltIn(condition).value, 10, st.unitCount);
    } else {
      var i := LookupIsFirst(st.catalog.value, feature, condition);
      assert WfEntry(st.catalog.value[i], st.unitCount);
    }
  }

  lemma InputKeeps(st: State, feature: nat, condition: nat, requestId: nat)
    requires Inv(st) && ControlRuns(st)
    ensures Inv(WriteInput(st, feature, condition, requestId))
  {
    hide Chosen, WfScenario, WfCatalog, Carried, StepCount, Flatten, ChainCount;
    if InputResultOf(st, feature, condition) == Accepted {
      ChosenWf(st, feature, condition);
      var next := WriteInput(st, feature, condition, requestId);
      assert Pending(next) == Pending(st) == st.queue;
      NoChain(st.queue);
      assert next.history.issued == [];
    }
  }

  lemma LoadKeeps(st: State, catalog: seq<Entry>)
    requires Inv(st) && WfCatalog(catalog, st.unitCount)
    ensures Inv(LoadWorkflows(st, catalog))
  {
    if st.output.status != StatusRunning {
      var next := LoadWorkflows(st, catalog);
      assert Pending(next) == Pending(st);
      NoChain(Pending(st));
      hide WfCatalog, Accounts, Carried;
      AccountsFrameIf(st, next);
    }
  }

  lemma UnitResultKeeps(st: State, event: Event)
    requires Inv(st) && !IsChain(event)
    ensures Inv(Enqueued(st, event))
  {
    var next := Enqueued(st, event);
    assert Bounded(st);
    hide Inv;
    if Occupied(st) < QUEUE_CAPACITY {
      ChainCountAppend(Pending(st), event);
      hide ChainCount;
      assert Pending(next) == Pending(st) + [event];
      SamePendingKeeps(st, next);
    }
  }

  lemma PopKeeps(st: State)
    requires Inv(st) && st.phase.Dispatching? && st.phase.budget > 0 && st.queue != []
    ensures Inv(st.(queue := st.queue[1..], phase := Holding(st.queue[0], st.phase.budget - 1)))
  {
    var next := st.(queue := st.queue[1..], phase := Holding(st.queue[0], st.phase.budget - 1));
    assert Pending(next) == Pending(st) == st.queue;
    SamePendingKeeps(st, next);
  }

  /** Leaving `Outside` needs a request that has been started. */
  lemma PhaseKeeps(st: State, phase: Phase)
    requires Inv(st) && !st.phase.Holding? && !phase.Holding? && !phase.Handled?
    requires st.phase.Outside? && st.output.status == StatusRunning ==> st.started
    ensures Inv(st.(phase := phase))
  {
    var next := st.(phase := phase);
    assert Pending(next) == Pending(st);
    hide WfCatalog, Accounts, Carried, CurrentSteps;
    AccountsFrameIf(st, next);
    forall e | e in Pending(next) && IsChain(e)
      ensures Carried(next, e)
    {
      CarriedFrame(st, next, e);
    }
  }

  lemma ListenKeeps(st: State)
    requires Inv(st)
    ensures Inv(st.(listening := true))
  {
    assert Pending(st.(listening := true)) == Pending(st);
    SamePendingKeeps(st, st.(listening := true));
  }

  lemma UnitsChangeKeeps(st: State, accepting: set<nat>)
    requires Inv(st)
    ensures Inv(st.(accepting := accepting))
  {
    assert Pending(st.(accepting := accepting)) == Pending(st);
    SamePendingKeeps(st, st.(accepting := accepting));
  }

  /** No enabled step leaves the definition tables. */
  lemma EveryStepSafe(st: State, action: Action)
    requires Inv(st) && Enabled(st, action)
    ensures Safe(st, action)
  {
    hide Inv, CanTick, CanHandle;
    if action.Process? {
      TickSafe(st);
    } else if action.Deliver? {
      DeliverSafe(st);
    }
  }

  lemma NextKeeps(st: State, action: Action)
    requires Inv(st) && Enabled(st, action) && Safe(st, action)
    ensures Inv(Next(st, action))
  {
    hide Inv, Handle, Tick, WriteInput, LoadWorkflows, Enqueued, CanTick, CanHandle;
    match action
    case Input(feature, condition, requestId) => InputKeeps(st, feature, condition, requestId);
    case Load(catalog) => LoadKeeps(st, catalog);
    case Listen => ListenKeeps(st);
    case Process(now) =>
      TickKeeps(st, now);
      PhaseKeeps(Tick(st, now), Dispatching(DISPATCH_BUDGET));
    case Pop => PopKeeps(st);
    case Deliver => DeliverKeeps(st);
    case Release => PhaseKeeps(st, Dispatching(st.phase.budget));
    case Finish => PhaseKeeps(st, Outside);
    case UnitsChange(accepting) => UnitsChangeKeeps(st, accepting);
    case UnitResult(unitNumber, requestId, succeeded) =>
      UnitResultKeeps(st, Event(if succeeded then UnitCompleted else UnitError,
                                Payload(0, requestId, 0, 0, 0, unitNumber, if succeeded then NoError else UnitFailed)));
  }

  // ----- Runs -----

  /** `states` is a run of the service from its creation. */
  ghost predicate IsRun(states: seq<State>, actions: seq<Action>, unitCount: nat) {
    && |states| == |actions| + 1 && states[0] == Initial(unitCount)
    && forall i :: 0 <= i < |actions| ==>
         Enabled(states[i], actions[i]) && (Safe(states[i], actions[i]) ==> states[i + 1] == Next(states[i], actions[i]))
  }

  lemma InitialInv(unitCount: nat)
    requires unitCount >= 10
    ensures Inv(Initial(unitCount))
  {
    assert Pending(Initial(unitCount)) == [];
  }

  /** Every state of every run satisfies the invariant, and every step of it is safe. */
  lemma {:induction false} RunKeepsInv(states: seq<State>, actions: seq<Action>, unitCount: nat, k: nat)
    requires IsRun(states, actions, unitCount) && unitCount >= 10 && k < |states|
    ensures Inv(states[k])
    ensures k < |actions| ==> Safe(states[k], actions[k]) && states[k + 1] == Next(states[k], actions[k])
  {
    hide Inv, Safe, Enabled, Next;
    if k == 0 {
      InitialInv(unitCount);
    } else {
      RunKeepsInv(states, actions, unitCount, k - 1);
      NextKeeps(states[k - 1], actions[k - 1]);
    }
    if k < |actions| {
      EveryStepSafe(states[k], actions[k]);
    }
  }

  /** The state after a list of steps, as long as each is enabled and safe. */
  ghost predicate Leads(st: State, actions: seq<Action>, end: State)
    decreases |actions|
  {
    if actions == [] then st == end
    else Enabled(st, actions[0]) && Safe(st, actions[0]) && Leads(Next(st, actions[0]), actions[1..], end)
  }

  lemma {:induction false} LeadsThen(st: State, actions: seq<Action>, mid: State, action: Action)
    requires Leads(st, actions, mid) && Enabled(mid, action) && Safe(mid, action)
    ensures Leads(st, actions + [action], Next(mid, action))
    decreases |actions|
  {
    hide Enabled, Safe, Next;
    if actions == [] {
      assert (actions + [action])[1..] == [];
      assert Leads(Next(mid, action), [], Next(mid, action));
    } else {
      LeadsThen(Next(st, actions[0]), actions[1..], mid, action);
      assert (actions + [action])[1..] == actions[1..] + [action];
    }
  }

  lemma LeadsNothing(st: State)
    ensures Leads(st, [], st)
  {
  }

  // ----- What the invariant promises -----

  /** One mover, never two; none at all unless a request runs. A queued mover names that request and its place. */
  lemma ExactlyOneMover(st: State)
    requires Inv(st)
    ensures RunningStarted(st) ==> ChainCount(Pending(st)) + (if st.sequence.running then 1 else 0) == 1
    ensures st.output.status != StatusRunning ==> forall e :: e in Pending(st) ==> !IsChain(e)
    ensures st.output.status == StatusRunning && !st.started ==> forall e :: e in Pending(st) ==> !IsChain(e)
    ensures forall e :: e in Pending(st) && IsChain(e) ==> Names(st, e.payload)
  {
    if !RunningStarted(st) {
      NoChain(Pending(st));
    }
  }

  /** Progress counts what was issued, and completion means everything was issued. */
  lemma ProgressIsExact(st: State)
    requires Inv(st) && st.output.status != StatusIdle
    ensures st.history.issued <= Flatten(st.history.request.sequences)
    ensures st.started ==> st.output.completed == Position(st)
    ensures st.output.completed <= |st.history.issued| <= st.output.completed + 1
    ensures st.output.completed <= st.output.total == |Flatten(st.history.request.sequences)|
    ensures st.history.fires <= 1 && (st.output.status == StatusRunning ==> st.history.fires == 0)
    ensures st.output.status == StatusCompleted ==>
              && st.history.issued == Flatten(st.history.request.sequences)
              && st.output.completed == st.output.total
              && st.feature == Completed && st.scenario.machine == Completed && st.sequence.machine == Completed
    ensures st.output.status == StatusError <==> st.output.error != NoError
  {
  }
}
