/**
 The service object: its methods update the record in place and are proved to take the
 steps of `DomainModel`, so everything proved about runs holds of them.
 */
module DomainService {
  import opened Wrappers
  import opened WorkflowModel
  import opened DomainModel
  import opened DomainInvariant

  /** A unit result that reaches the publisher from a unit's own thread. */
  datatype Result = Result(unitNumber: nat, requestId: nat, succeeded: bool)

  predicate IsInner(action: Action) {
    !action.Process? && action != Finish
  }

  function Deliveries(actions: seq<Action>): nat {
    if actions == [] then 0
    else Deliveries(actions[..|actions| - 1]) + if actions[|actions| - 1] == Deliver then 1 else 0
  }

  /** `longer` goes on from `trace` inside one process call, with `n` deliveries more. */
  predicate Extends(trace: seq<Action>, longer: seq<Action>, n: nat) {
    && trace <= longer && Deliveries(longer) == Deliveries(trace) + n
    && forall i :: |trace| <= i < |longer| ==> IsInner(longer[i])
  }

  lemma ExtendsOne(trace: seq<Action>, longer: seq<Action>, n: nat, action: Action)
    requires Extends(trace, longer, n) && IsInner(action)
    ensures Extends(trace, longer + [action], n + if action == Deliver then 1 else 0)
  {
    assert (longer + [action])[..|longer|] == longer;
  }

  lemma ExtendsMore(a: seq<Action>, b: seq<Action>, m: nat, c: seq<Action>, n: nat)
    requires Extends(a, b, m) && Extends(b, c, n)
    ensures Extends(a, c, m + n)
  {
    forall i | |a| <= i < |c|
      ensures IsInner(c[i])
    {
      assert i < |b| ==> c[i] == b[i];
    }
  }

  lemma ExtendsNothing(trace: seq<Action>)
    ensures Extends(trace, trace, 0)
  {
  }

  /** A process call: the clock step, what happens inside the call, and the end of the dispatch. */
  predicate IsProcessCall(trace: seq<Action>, at: nat) {
    && |trace| >= 2 && trace[0] == Action.Process(at) && trace[|trace| - 1] == Finish
    && forall i :: 0 < i < |trace| - 1 ==> IsInner(trace[i])
  }

  lemma ClosesCall(first: seq<Action>, trace: seq<Action>, n: nat, at: nat)
    requires first == [Action.Process(at)] && Extends(first, trace, n)
    ensures IsProcessCall(trace + [Finish], at) && Deliveries(trace + [Finish]) == n
  {
    assert first[..0] == [] && Deliveries(first) == 0;
    assert (trace + [Finish])[..|trace|] == trace;
    assert trace[0] == first[0];
  }

  lemma StartStepKeepsPhase(st: State, now: nat)
    requires st.sequence.steps.Some? && st.sequence.stepIndex < |st.sequence.steps.value|
    ensures StartStep(st, now).phase == st.phase
  {
  }

  lemma HandleKeepsPhase(st: State, event: Event)
    requires CanHandle(st, event)
    ensures Handle(st, event).phase == st.phase
  {
    hide StartStep;
    if event.id == UnitCompleted && st.output.status == StatusRunning && st.sequence.running
       && event.payload.unitRequestId == st.sequence.unitRequestId
       && st.sequence.stepIndex + 1 < |st.sequence.steps.value| {
      StartStepKeepsPhase(st.(sequence := st.sequence.(running := false, stepIndex := st.sequence.stepIndex + 1),
                              output := st.output.(completed := st.output.completed + 1)), st.now);
    } else if event.id == SequenceCompleted
              && st.scenario.index + 1 < |st.scenario.definition.value.sequences| {
      var next := st.(scenario := st.scenario.(index := st.scenario.index + 1));
      var steps := next.scenario.definition.value.sequences[next.scenario.index].steps;
      StartStepKeepsPhase(next.(sequence := next.sequence.(machine := Running, steps := Some(steps), stepIndex := 0, running := false),
                                output := next.output.(sequenceIndex := next.scenario.index)), st.now);
    }
  }

  lemma CanHandleIgnoresPhase(held: State, next: State, event: Event)
    requires CanHandle(held, event) && next == held.(phase := next.phase)
    ensures CanHandle(next, event)
  {
  }

  class Service {
    const unitCount: nat
    var output: Output
    var feature: Machine
    var scenario: ScenarioRunner
    var sequence: SequenceRunner
    var started: bool
    var now: nat
    var queue: seq<Event>
    var phase: Phase
    var accepting: set<nat>
    var catalog: Option<seq<Entry>>
    var listening: bool
    ghost var history: History

    ghost function View(): State
      reads this
    {
      State(output, feature, scenario, sequence, started, now, queue, phase, accepting, unitCount, catalog, listening, history)
    }

    constructor (unitCount: nat)
      requires unitCount >= 10
      ensures View() == Initial(unitCount) && Inv(View())
    {
      this.unitCount := unitCount;
      output := Output(StatusIdle, 0, 0, 0, 0, 0, 0, 0, NoError);
      feature, scenario := Idle, ScenarioRunner(Idle, None, 0);
      sequence := SequenceRunner(Idle, None, 0, 0, 0, false, false);
      started, now, queue, phase, accepting, catalog, listening := false, 0, [], Outside, {}, None, false;
      history := History(Scenario(0, "", [], 0), [], 0);
      new;
      InitialInv(unitCount);
    }

    method PublishEvent(event: Event)
      modifies this
      ensures View() == Publish(old(View()), event)
    {
      var taken := |queue| + if phase.Holding? || phase.Handled? then 1 else 0;
      if taken < QUEUE_CAPACITY {
        queue := queue + [event];
      } else {
        output := output.(status := StatusError, error := Internal);
      }
    }

    function Current(error: DomainError): Payload
      reads this
      ensures Current(error) == CurrentPayload(View(), error)
    {
      Payload(output.requestId, sequence.unitRequestId, output.scenarioId, output.sequenceIndex, output.stepIndex, 0, error)
    }

    method FailSequence(error: DomainError)
      modifies this
      ensures View() == PublishSequenceError(old(View()), error)
    {
      hide Publish;
      var payload := Current(error);
      if sequence.machine == Running {
        sequence := sequence.(machine := Error);
      }
      sequence := sequence.(running := false);
      PublishEvent(Event(SequenceError, payload));
    }

    method IssueStep(at: nat)
      requires sequence.steps.Some? && sequence.stepIndex < |sequence.steps.value|
      modifies this
      ensures View() == StartStep(old(View()), at)
    {
      hide PublishSequenceError;
      var step := sequence.steps.value[sequence.stepIndex];
      if step.unitIndex >= unitCount {
        FailSequence(Internal);
      } else if step.unitIndex !in accepting {
        FailSequence(UnitRejected);
      } else {
        sequence := sequence.(unitRequestId := StepRequestId(output), deadline := (at + step.timeout) % (UINT64_MAX + 1),
                              running := true, timeoutPublished := false);
        output := output.(stepIndex := sequence.stepIndex);
        history := history.(issued := history.issued + [step]);
      }
    }

    method BeginSequence(at: nat)
      requires scenario.definition.Some? && scenario.index < |scenario.definition.value.sequences|
      requires scenario.definition.value.sequences[scenario.index].steps != []
      modifies this
      ensures View() == StartSequence(old(View()), at)
    {
      hide StartStep;
      sequence := sequence.(machine := Idle);
      sequence := sequence.(steps := Some(scenario.definition.value.sequences[scenario.index].steps),
                            stepIndex := 0, running := false);
      output := output.(sequenceIndex := scenario.index);
      sequence := sequence.(machine := Signalled(sequence.machine, Start).value);
      IssueStep(at);
    }

    method HandleUnitCompleted(event: Event)
      requires output.status == StatusRunning && sequence.running ==> sequence.steps.Some?
      modifies this
      ensures View() == OnUnitCompleted(old(View()), event)
    {
      hide StartStep, Publish, PublishSequenceError;
      if output.status != StatusRunning || !sequence.running || event.payload.unitRequestId != sequence.unitRequestId {
        return;
      }
      sequence := sequence.(running := false);
      output := output.(completed := output.completed + 1);
      sequence := sequence.(stepIndex := sequence.stepIndex + 1);
      if sequence.stepIndex >= |sequence.steps.value| {
        var completed := Current(NoError);
        var machine := Signalled(sequence.machine, Complete);
        if machine.None? {
          FailSequence(Internal);
        } else {
          sequence := sequence.(machine := machine.value);
          PublishEvent(Event(SequenceCompleted, completed));
        }
      } else {
        IssueStep(now);
      }
    }

    method HandleFailure(event: Event)
      modifies this
      ensures View() == OnFailure(old(View()), event)
    {
      hide PublishSequenceError;
      if output.status == StatusRunning && sequence.running
         && (event.id == StepTimeout || event.payload.unitRequestId == sequence.unitRequestId) {
        FailSequence(if event.id == StepTimeout then TimedOut else UnitFailed);
      }
    }

    method HandleSequenceCompleted()
      requires HasSequence(scenario, scenario.index + 1)
      modifies this
      ensures View() == OnSequenceCompleted(old(View()))
    {
      hide StartSequence, Publish;
      scenario := scenario.(index := scenario.index + 1);
      if scenario.index >= |scenario.definition.value.sequences| {
        var payload := Current(NoError);
        var machine := Signalled(scenario.machine, Complete);
        if machine.None? {
          PublishEvent(Event(ScenarioError, payload.(error := Internal)));
        } else {
          scenario := scenario.(machine := machine.value);
          PublishEvent(Event(ScenarioCompleted, payload));
        }
      } else {
        BeginSequence(now);
      }
    }

    method HandleSequenceError(event: Event)
      modifies this
      ensures View() == OnSequenceError(old(View()), event)
    {
      hide Publish;
      if scenario.machine == Running {
        scenario := scenario.(machine := Error);
      }
      PublishEvent(Event(ScenarioError, event.payload));
    }

    method HandleScenarioEvent(event: Event)
      requires event.id == ScenarioCompleted || event.id == ScenarioError
      modifies this
      ensures View() == if event.id == ScenarioCompleted then OnScenarioCompleted(old(View()), event)
                        else OnScenarioError(old(View()), event)
    {
      hide Publish;
      if event.id == ScenarioCompleted {
        var machine := Signalled(feature, Complete);
        if machine.None? {
          PublishEvent(Event(FeatureError, event.payload.(error := Internal)));
        } else {
          feature := machine.value;
          PublishEvent(Event(FeatureCompleted, event.payload));
        }
      } else {
        if feature == Running {
          feature := Error;
        }
        PublishEvent(Event(FeatureError, event.payload));
      }
    }

    method HandleFeatureEvent(event: Event)
      modifies this
      ensures View() == OnFeatureEvent(old(View()), event)
    {
      output := output.(status := if event.id == FeatureCompleted then StatusCompleted else StatusError,
                        error := event.payload.error);
      if listening {
        history := history.(fires := history.fires + 1);
      }
    }

    /** One iteration of the dispatch loop: take an event and run its handler. */
    method DeliverOne(ghost start: State, ghost trace: seq<Action>) returns (ghost longer: seq<Action>)
      requires Inv(View()) && phase.Dispatching? && phase.budget > 0 && queue != []
      requires Leads(start, trace, View())
      modifies this
      ensures Inv(View()) && Leads(start, longer, View())
      ensures phase.Handled? && phase.budget == old(phase.budget) - 1
      ensures Extends(trace, longer, 1)
    {
      hide Inv, Handle, CanHandle;
      ghost var before := View();
      NextKeeps(before, Pop);
      LeadsThen(start, trace, before, Pop);
      var event := queue[0];
      queue, phase := queue[1..], Holding(event, phase.budget - 1);
      ghost var held := View();
      EveryStepSafe(held, Deliver);
      NextKeeps(held, Deliver);
      LeadsThen(start, trace + [Pop], held, Deliver);
      phase := DeliveredPhase(phase, listening);
      assert CanHandle(View(), event) by { CanHandleIgnoresPhase(held, View(), event); }
      HandleKeepsPhase(View(), event);
      RunHandler(event);
      longer := trace + [Pop] + [Deliver];
      ExtendsNothing(trace);
      ExtendsOne(trace, trace, 0, Pop);
      ExtendsOne(trace, trace + [Pop], 0, Deliver);
    }

    method RunHandler(event: Event)
      requires CanHandle(View(), event)
      modifies this
      ensures View() == Handle(old(View()), event)
    {
      hide OnUnitCompleted, OnFailure, OnSequenceCompleted, OnSequenceError, OnScenarioCompleted, OnScenarioError, OnFeatureEvent;
      match event.id {
        case UnitCompleted => HandleUnitCompleted(event);
        case UnitError => HandleFailure(event);
        case StepTimeout => HandleFailure(event);
        case SequenceCompleted => HandleSequenceCompleted();
        case SequenceError => HandleSequenceError(event);
        case ScenarioCompleted => HandleScenarioEvent(event);
        case ScenarioError => HandleScenarioEvent(event);
        case FeatureCompleted => HandleFeatureEvent(event);
        case FeatureError => HandleFeatureEvent(event);
      }
    }

    method ReadClock(at: nat)
      requires CanTick(View())
      modifies this
      ensures View() == Tick(old(View()), at)
    {
      hide StartSequence, Publish;
      now := at;
      if output.status == StatusRunning {
        if !started {
          started := true;
          BeginSequence(at);
        } else if sequence.running && !sequence.timeoutPublished && at >= sequence.deadline {
          var payload := Current(TimedOut);
          sequence := sequence.(timeoutPublished := true);
          PublishEvent(Event(StepTimeout, payload));
        }
      }
    }

    method Receive(result: Result, ghost start: State, ghost trace: seq<Action>) returns (ghost longer: seq<Action>)
      requires Inv(View()) && Leads(start, trace, View())
      modifies this
      ensures Inv(View()) && phase == old(phase) && Leads(start, longer, View())
      ensures Extends(trace, longer, 0)
    {
      hide Inv, Extends;
      ExtendsNothing(trace);
      ghost var action := UnitResult(result.unitNumber, result.requestId, result.succeeded);
      NextKeeps(View(), action);
      LeadsThen(start, trace, View(), action);
      var taken := |queue| + if phase.Holding? || phase.Handled? then 1 else 0;
      if taken < QUEUE_CAPACITY {
        queue := queue + [Event(if result.succeeded then UnitCompleted else UnitError,
                                Payload(0, result.requestId, 0, 0, 0, result.unitNumber,
                                        if result.succeeded then NoError else UnitFailed))];
      }
      ExtendsOne(trace, trace, 0, action);
      longer := trace + [action];
    }

    method ReceiveAll(results: seq<Result>, ghost start: State, ghost trace: seq<Action>) returns (ghost longer: seq<Action>)
      requires Inv(View()) && Leads(start, trace, View())
      modifies this
      ensures Inv(View()) && phase == old(phase) && Leads(start, longer, View())
      ensures Extends(trace, longer, 0)
    {
      hide Inv, Leads, Extends;
      longer := trace;
      ExtendsNothing(trace);
      var i := 0;
      while i < |results|
        invariant 0 <= i <= |results|
        invariant Inv(View()) && phase == old(phase) && Leads(start, longer, View()) && Extends(trace, longer, 0)
      {
        ghost var shorter := longer;
        longer := Receive(results[i], start, longer);
        ExtendsMore(trace, shorter, 0, longer, 0);
        i := i + 1;
      }
    }

    method SubmitInput(chosen: nat, condition: nat, requestId: nat) returns (result: InputResult)
      requires Inv(View()) && ControlRuns(View())
      modifies this
      ensures result == InputResultOf(old(View()), chosen, condition)
      ensures View() == WriteInput(old(View()), chosen, condition, requestId) && Inv(View()) && phase == old(phase)
    {
      hide Inv, BuiltIn, Lookup;
      InputKeeps(View(), chosen, condition, requestId);
      if chosen == 0 {
        return InvalidArgument;
      }
      if output.status == StatusRunning {
        return Busy;
      }
      if chosen != FEATURE_A {
        return Unsupported;
      }
      var found := if catalog.None? then BuiltIn(condition) else Lookup(catalog.value, chosen, condition);
      if found.None? {
        return Unsupported;
      }
      feature, scenario := Running, ScenarioRunner(Running, Some(found.value), 0);
      sequence := sequence.(steps := None);
      output := Output(StatusRunning, chosen, requestId, found.value.id, 0, 0, 0, found.value.totalSteps, NoError);
      now, started := 0, false;
      history := History(found.value, [], 0);
      return Accepted;
    }

    /** A catalog is swapped in only between requests. */
    method InstallCatalog(loaded: seq<Entry>) returns (busy: bool)
      requires Inv(View()) && ControlRuns(View()) && WfCatalog(loaded, unitCount)
      modifies this
      ensures busy == (old(View()).output.status == StatusRunning)
      ensures View() == LoadWorkflows(old(View()), loaded) && Inv(View())
    {
      hide Inv;
      LoadKeeps(View(), loaded);
      busy := output.status == StatusRunning;
      if !busy {
        scenario, sequence := scenario.(definition := None), sequence.(steps := None);
        catalog := Some(loaded);
      }
    }

    /** Runs the control callback's answer to a terminal event and gives the slot back. */
    method EndDelivery(reply: Option<(nat, nat, nat)>, ghost start: State, ghost trace: seq<Action>)
        returns (ghost longer: seq<Action>)
      requires Inv(View()) && phase.Handled? && Leads(start, trace, View())
      modifies this
      ensures Inv(View()) && phase == Dispatching(old(phase.budget)) && Leads(start, longer, View())
      ensures Extends(trace, longer, 0)
    {
      hide Inv, Leads, WriteInput, Extends;
      longer := trace;
      ExtendsNothing(trace);
      if phase.inCallback && reply.Some? {
        ghost var action := Input(reply.value.0, reply.value.1, reply.value.2);
        NextKeeps(View(), action);
        LeadsThen(start, longer, View(), action);
        ExtendsOne(trace, longer, 0, action);
        longer := longer + [action];
        var _ := SubmitInput(reply.value.0, reply.value.1, reply.value.2);
      }
      NextKeeps(View(), Release);
      LeadsThen(start, longer, View(), Release);
      ExtendsOne(trace, longer, 0, Release);
      longer := longer + [Release];
      phase := Dispatching(phase.budget);
    }

    /**
     One call of `domain_service_process`. Before its i-th delivery other threads publish
     the results `arrivals[i]`; a callback answers a terminal event with `reply`. The call
     takes the run `trace`.
     */
    method Process(at: nat, arrivals: seq<seq<Result>>, reply: Option<(nat, nat, nat)>) returns (ghost trace: seq<Action>)
      requires Inv(View()) && phase.Outside?
      modifies this
      ensures Inv(View()) && phase.Outside? && Leads(old(View()), trace, View())
      ensures IsProcessCall(trace, at)
      ensures Deliveries(trace) <= 32 && (Deliveries(trace) < 32 ==> queue == [])
    {
      hide Inv, Leads, Tick, Extends, IsProcessCall, Deliveries;
      ghost var start := View();
      trace := Begin(at);
      ghost var first := trace;
      ExtendsNothing(first);
      var round, open := 0, true;
      while phase.budget > 0 && open
        invariant phase.Dispatching? && Inv(View()) && Leads(start, trace, View())
        invariant phase.budget <= DISPATCH_BUDGET && Extends(first, trace, DISPATCH_BUDGET - phase.budget)
        invariant !open ==> queue == []
        decreases phase.budget, open
      {
        ghost var n := DISPATCH_BUDGET - phase.budget;
        ghost var shorter := trace;
        trace := ReceiveAll(if round < |arrivals| then arrivals[round] else [], start, trace);
        ExtendsMore(first, shorter, n, trace, 0);
        round := round + 1;
        if queue == [] {
          open := false;
        } else {
          shorter := trace;
          trace := DeliverOne(start, trace);
          ExtendsMore(first, shorter, n, trace, 1);
          shorter := trace;
          trace := EndDelivery(reply, start, trace);
          ExtendsMore(first, shorter, n + 1, trace, 0);
        }
      }
      NextKeeps(View(), Finish);
      LeadsThen(start, trace, View(), Finish);
      ClosesCall(first, trace, DISPATCH_BUDGET - phase.budget, at);
      trace := trace + [Finish];
      phase := Outside;
    }

    method Begin(at: nat) returns (ghost trace: seq<Action>)
      requires Inv(View()) && phase.Outside?
      modifies this
      ensures Inv(View()) && phase == Dispatching(DISPATCH_BUDGET) && Leads(old(View()), trace, View())
      ensures trace == [Action.Process(at)]
    {
      hide Inv, Leads, CanTick, Tick;
      ghost var start := View();
      EveryStepSafe(start, Action.Process(at));
      NextKeeps(start, Action.Process(at));
      LeadsNothing(start);
      LeadsThen(start, [], start, Action.Process(at));
      trace := [] + [Action.Process(at)];
      ReadClock(at);
      phase := Dispatching(DISPATCH_BUDGET);
    }
  }
}
