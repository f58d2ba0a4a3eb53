/**
 The workflow runner (`domain_service.c`) as a transition system.

 `State` is the service record together with its event queue. A unit is part of the
 environment: at any moment it may start or stop accepting inputs and may publish a
 result with any request id. The fields of `History` exist for the proofs only.
 */
module DomainModel {
  import opened Wrappers
  import opened WorkflowModel

  // The states and signals shared by the three runners.

  datatype Machine = Idle | Running | Completed | Error

  datatype Signal = Start | Complete | Fail

  function Signalled(machine: Machine, signal: Signal): Option<Machine> {
    match (machine, signal)
    case (Idle, Start) => Some(Running)
    case (Running, Complete) => Some(Completed)
    case (Running, Fail) => Some(Error)
    case _ => None
  }

  // Events.

  datatype EventId =
    | UnitCompleted | UnitError | StepTimeout
    | SequenceCompleted | SequenceError
    | ScenarioCompleted | ScenarioError
    | FeatureCompleted | FeatureError

  datatype DomainError = NoError | UnitRejected | UnitFailed | TimedOut | Internal

  datatype Payload = Payload(featureRequestId: nat, unitRequestId: nat, scenarioId: nat, sequenceIndex: nat,
                             stepIndex: nat, unitNumber: nat, error: DomainError)

  datatype Event = Event(id: EventId, payload: Payload)

  /** Events that carry a request from runner to runner. */
  predicate IsChain(event: Event) {
    event.id != UnitCompleted && event.id != UnitError && event.id != StepTimeout
  }

  // The service record.

  datatype Status = StatusIdle | StatusRunning | StatusCompleted | StatusError

  datatype Output = Output(status: Status, feature: nat, requestId: nat, scenarioId: nat, sequenceIndex: nat,
                           stepIndex: nat, completed: nat, total: nat, error: DomainError)

  datatype SequenceRunner = SequenceRunner(machine: Machine, steps: Option<seq<Step>>, stepIndex: nat,
                                           unitRequestId: nat, deadline: nat, running: bool, timeoutPublished: bool)

  datatype ScenarioRunner = ScenarioRunner(machine: Machine, definition: Option<Scenario>, index: nat)

  /** Where the control thread is: outside `process`, between two deliveries, or inside one. */
  datatype Phase =
    | Outside
    | Dispatching(budget: nat)
    | Holding(event: Event, budget: nat)
    | Handled(inCallback: bool, budget: nat)

  /** The scenario of the current request, the unit inputs it had accepted, and its callbacks. */
  datatype History = History(request: Scenario, issued: seq<Step>, fires: nat)

  datatype State = State(output: Output, feature: Machine, scenario: ScenarioRunner, sequence: SequenceRunner,
                         started: bool, now: nat, queue: seq<Event>, phase: Phase, accepting: set<nat>,
                         unitCount: nat, catalog: Option<seq<Entry>>, listening: bool, history: History)

  const QUEUE_CAPACITY: nat := 32
  const DISPATCH_BUDGET: nat := 32
  const FEATURE_A: nat := 1

  // ----- Publishing -----

  /** Queued events plus the one in delivery, whose payload slot is still taken. */
  function Occupied(st: State): nat {
    |st.queue| + (if st.phase.Holding? || st.phase.Handled? then 1 else 0)
  }

  function Enqueued(st: State, event: Event): State {
    if Occupied(st) < QUEUE_CAPACITY then st.(queue := st.queue + [event]) else st
  }

  /** `domain_publish`: a refused event ends the request without a callback. */
  function Publish(st: State, event: Event): State {
    if Occupied(st) < QUEUE_CAPACITY then st.(queue := st.queue + [event])
    else st.(output := st.output.(status := StatusError, error := Internal))
  }

  function CurrentPayload(st: State, error: DomainError): Payload {
    Payload(st.output.requestId, st.sequence.unitRequestId, st.output.scenarioId,
            st.output.sequenceIndex, st.output.stepIndex, 0, error)
  }

  // ----- Sequence runner -----

  function PublishSequenceError(st: State, error: DomainError): State {
    var machine := if st.sequence.machine == Running then Error else st.sequence.machine;
    Publish(st.(sequence := st.sequence.(machine := machine, running := false)),
            Event(SequenceError, CurrentPayload(st, error)))
  }

  function StepRequestId(output: Output): nat {
    (output.requestId + output.completed % (UINT32_MAX + 1) + 1) % (UINT32_MAX + 1)
  }

  function StartStep(st: State, now: nat): State
    requires st.sequence.steps.Some? && st.sequence.stepIndex < |st.sequence.steps.value|
  {
    var step := st.sequence.steps.value[st.sequence.stepIndex];
    if step.unitIndex >= st.unitCount then PublishSequenceError(st, Internal)
    else if step.unitIndex !in st.accepting then PublishSequenceError(st, UnitRejected)
    else
      st.(sequence := st.sequence.(unitRequestId := StepRequestId(st.output),
                                   deadline := (now + step.timeout) % (UINT64_MAX + 1),
                                   running := true, timeoutPublished := false),
          output := st.output.(stepIndex := st.sequence.stepIndex),
          history := st.history.(issued := st.history.issued + [step]))
  }

  function StartSequence(st: State, now: nat): State
    requires st.scenario.definition.Some? && st.scenario.index < |st.scenario.definition.value.sequences|
    requires st.scenario.definition.value.sequences[st.scenario.index].steps != []
  {
    var steps := st.scenario.definition.value.sequences[st.scenario.index].steps;
    StartStep(st.(sequence := st.sequence.(machine := Running, steps := Some(steps), stepIndex := 0, running := false),
                  output := st.output.(sequenceIndex := st.scenario.index)), now)
  }

  function OnUnitCompleted(st: State, event: Event): State
    requires st.output.status == StatusRunning && st.sequence.running ==> st.sequence.steps.Some?
  {
    if st.output.status != StatusRunning || !st.sequence.running
       || event.payload.unitRequestId != st.sequence.unitRequestId
    then st
    else
      var next := st.(sequence := st.sequence.(running := false, stepIndex := st.sequence.stepIndex + 1),
                      output := st.output.(completed := st.output.completed + 1));
      if next.sequence.stepIndex < |st.sequence.steps.value| then StartStep(next, st.now)
      else
        var machine := Signalled(next.sequence.machine, Complete);
        if machine.None? then PublishSequenceError(next, Internal)
        else Publish(next.(sequence := next.sequence.(machine := machine.value)),
                     Event(SequenceCompleted, CurrentPayload(next, NoError)))
  }

  function OnFailure(st: State, event: Event): State {
    if st.output.status == StatusRunning && st.sequence.running
       && (event.id == StepTimeout || event.payload.unitRequestId == st.sequence.unitRequestId)
    then PublishSequenceError(st, if event.id == StepTimeout then TimedOut else UnitFailed)
    else st
  }

  // ----- Scenario runner -----

  /** Whether the runner may follow its definition pointer at `index`. */
  predicate HasSequence(scenario: ScenarioRunner, index: nat) {
    scenario.definition.Some?
    && (index < |scenario.definition.value.sequences| ==> scenario.definition.value.sequences[index].steps != [])
  }

  function OnSequenceCompleted(st: State): State
    requires HasSequence(st.scenario, st.scenario.index + 1)
  {
    var next := st.(scenario := st.scenario.(index := st.scenario.index + 1));
    if next.scenario.index < |next.scenario.definition.value.sequences| then StartSequence(next, st.now)
    else
      var machine := Signalled(next.scenario.machine, Complete);
      if machine.None? then Publish(next, Event(ScenarioError, CurrentPayload(next, Internal)))
      else Publish(next.(scenario := next.scenario.(machine := machine.value)),
                   Event(ScenarioCompleted, CurrentPayload(next, NoError)))
  }

  function OnSequenceError(st: State, event: Event): State {
    var machine := if st.scenario.machine == Running then Error else st.scenario.machine;
    Publish(st.(scenario := st.scenario.(machine := machine)), Event(ScenarioError, event.payload))
  }

  // ----- Feature runner and control -----

  function OnScenarioCompleted(st: State, event: Event): State {
    var machine := Signalled(st.feature, Complete);
    if machine.None? then Publish(st, Event(FeatureError, event.payload.(error := Internal)))
    else Publish(st.(feature := machine.value), Event(FeatureCompleted, event.payload))
  }

  function OnScenarioError(st: State, event: Event): State {
    var machine := if st.feature == Running then Error else st.feature;
    Publish(st.(feature := machine), Event(FeatureError, event.payload))
  }

  function OnFeatureEvent(st: State, event: Event): State {
    var status := if event.id == FeatureCompleted then StatusCompleted else StatusError;
    st.(output := st.output.(status := status, error := event.payload.error),
        history := st.history.(fires := st.history.fires + if st.listening then 1 else 0))
  }

  /** What the runner needs before it may handle an event without leaving its tables. */
  predicate CanHandle(st: State, event: Event) {
    && (st.output.status == StatusRunning && st.sequence.running ==> st.sequence.steps.Some?)
    && (event.id == SequenceCompleted ==> HasSequence(st.scenario, st.scenario.index + 1))
  }

  function Handle(st: State, event: Event): State
    requires CanHandle(st, event)
  {
    match event.id
    case UnitCompleted => OnUnitCompleted(st, event)
    case UnitError => OnFailure(st, event)
    case StepTimeout => OnFailure(st, event)
    case SequenceCompleted => OnSequenceCompleted(st)
    case SequenceError => OnSequenceError(st, event)
    case ScenarioCompleted => OnScenarioCompleted(st, event)
    case ScenarioError => OnScenarioError(st, event)
    case FeatureCompleted => OnFeatureEvent(st, event)
    case FeatureError => OnFeatureEvent(st, event)
  }

  // ----- Requests from control -----

  function Steps(first: nat, second: nat, third: nat, fourth: nat, fifth: nat): seq<Step> {
    [Step(first, 2000), Step(second, 2000), Step(third, 2000), Step(fourth, 2000), Step(fifth, 2000)]
  }

  /** `domain_workflow_feature_a`: the two built-in scenarios. */
  function BuiltIn(condition: nat): Option<Scenario> {
    if condition == 1 then
      Some(Scenario(1, "feature-a-standard",
                    [Sequence("standard-first", Steps(0, 1, 2, 3, 4)), Sequence("standard-second", Steps(5, 6, 7, 8, 9))], 10))
    else if condition == 2 then
      Some(Scenario(2, "feature-a-reverse",
                    [Sequence("reverse-first", Steps(9, 8, 7, 6, 5)), Sequence("reverse-second", Steps(4, 3, 2, 1, 0))], 10))
    else None
  }

  function Chosen(st: State, feature: nat, condition: nat): Option<Scenario> {
    if st.catalog.None? then BuiltIn(condition) else Lookup(st.catalog.value, feature, condition)
  }

  datatype InputResult = Accepted | Busy | InvalidArgument | Unsupported

  function InputResultOf(st: State, feature: nat, condition: nat): InputResult {
    if feature == 0 then InvalidArgument
    else if st.output.status == StatusRunning then Busy
    else if feature != FEATURE_A || Chosen(st, feature, condition).None? then Unsupported
    else Accepted
  }

  function WriteInput(st: State, feature: nat, condition: nat, requestId: nat): State {
    if InputResultOf(st, feature, condition) != Accepted then st
    else
      var scenario := Chosen(st, feature, condition).value;
      st.(output := Output(StatusRunning, feature, requestId, scenario.id, 0, 0, 0, scenario.totalSteps, NoError),
          feature := Running,
          scenario := ScenarioRunner(Running, Some(scenario), 0),
          sequence := st.sequence.(steps := None),
          started := false, now := 0,
          history := History(scenario, [], 0))
  }

  /** Swapping in a catalog that was loaded successfully; refused while a request runs. */
  function LoadWorkflows(st: State, catalog: seq<Entry>): State {
    if st.output.status == StatusRunning then st
    else st.(scenario := st.scenario.(definition := None), sequence := st.sequence.(steps := None),
             catalog := Some(catalog))
  }

  predicate CanTick(st: State) {
    st.output.status == StatusRunning && !st.started ==>
      st.scenario.index == 0 && HasSequence(st.scenario, 0) && st.scenario.definition.value.sequences != []
  }

  /** `domain_service_process` before it dispatches. */
  function Tick(st: State, now: nat): State
    requires CanTick(st)
  {
    var next := st.(now := now);
    if st.output.status != StatusRunning then next
    else if !st.started then StartSequence(next.(started := true), now)
    else if st.sequence.running && !st.sequence.timeoutPublished && now >= st.sequence.deadline then
      Publish(next.(sequence := st.sequence.(timeoutPublished := true)),
              Event(StepTimeout, CurrentPayload(st, TimedOut)))
    else next
  }

  // ----- Steps of the whole system -----

  datatype Action =
    | Input(feature: nat, condition: nat, requestId: nat)
    | Load(catalog: seq<Entry>)
    | Listen
    | Process(now: nat)
    | Pop
    | Deliver
    | Release
    | Finish
    | UnitsChange(accepting: set<nat>)
    | UnitResult(unitNumber: nat, requestId: nat, succeeded: bool)

  predicate InCallback(st: State) {
    st.phase.Handled? && st.phase.inCallback
  }

  /** Control code runs outside `process` and in its own callback. */
  predicate ControlRuns(st: State) {
    st.phase.Outside? || InCallback(st)
  }

  ghost predicate Enabled(st: State, action: Action) {
    match action
    case Input(_, _, _) => ControlRuns(st)
    case Load(catalog) => ControlRuns(st) && WfCatalog(catalog, st.unitCount)
    case Listen => ControlRuns(st)
    case Process(_) => st.phase.Outside?
    case Pop => st.phase.Dispatching? && st.phase.budget > 0 && st.queue != []
    case Deliver => st.phase.Holding?
    case Release => st.phase.Handled?
    case Finish => st.phase.Dispatching? && (st.phase.budget == 0 || st.queue == [])
    case UnitsChange(_) => true
    case UnitResult(_, _, _) => true
  }

  predicate Safe(st: State, action: Action) {
    match action
    case Process(_) => CanTick(st)
    case Deliver => st.phase.Holding? ==> CanHandle(st, st.phase.event)
    case _ => true
  }

  function DeliveredPhase(phase: Phase, listening: bool): Phase
    requires phase.Holding?
  {
    Handled(listening && (phase.event.id == FeatureCompleted || phase.event.id == FeatureError), phase.budget)
  }

  ghost function Next(st: State, action: Action): State
    requires Enabled(st, action) && Safe(st, action)
  {
    match action
    case Input(feature, condition, requestId) => WriteInput(st, feature, condition, requestId)
    case Load(catalog) => LoadWorkflows(st, catalog)
    case Listen => st.(listening := true)
    case Process(now) => Tick(st, now).(phase := Dispatching(DISPATCH_BUDGET))
    case Pop => st.(queue := st.queue[1..], phase := Holding(st.queue[0], st.phase.budget - 1))
    case Deliver => Handle(st.(phase := DeliveredPhase(st.phase, st.listening)), st.phase.event)
    case Release => st.(phase := Dispatching(st.phase.budget))
    case Finish => st.(phase := Outside)
    case UnitsChange(accepting) => st.(accepting := accepting)
    case UnitResult(unitNumber, requestId, succeeded) =>
      Enqueued(st, Event(if succeeded then UnitCompleted else UnitError,
                         Payload(0, requestId, 0, 0, 0, unitNumber, if succeeded then NoError else UnitFailed)))
  }

  function Initial(unitCount: nat): State {
    State(Output(StatusIdle, 0, 0, 0, 0, 0, 0, 0, NoError), Idle, ScenarioRunner(Idle, None, 0),
          SequenceRunner(Idle, None, 0, 0, 0, false, false), false, 0, [], Outside, {}, unitCount, None, false,
          History(Scenario(0, "", [], 0), [], 0))
  }
}
