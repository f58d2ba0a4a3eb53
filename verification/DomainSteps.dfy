/**
 Which request id and which deadline a step carries, and which unit results it takes.
 */
module DomainSteps {
  import opened Wrappers
  import opened WorkflowModel
  import opened DomainModel
  import opened DomainInvariant
  import opened DomainTermination
  import opened DomainProgress
  import opened DomainCauses

  const REQUEST_IDS: nat := 0x1_0000_0000
  const TICKS: nat := 0x1_0000_0000_0000_0000

  /** A unit works on a step of the running request. */
  predicate Waits(st: State) {
    RunningStarted(st) && st.sequence.running
  }

  // ----- Issuing -----

  /** The running step has just been issued: it is the last of the issued ones, and its time begins. */
  predicate JustIssued(before: seq<Step>, next: State) {
    && |next.history.issued| == |before| + 1 && before <= next.history.issued
    && next.sequence.deadline == (next.now + next.history.issued[|before|].timeout) % TICKS
  }

  /** The same step as before is running. */
  predicate StillWaits(st: State, next: State) {
    && Waits(st) && next.history == st.history && next.output.requestId == st.output.requestId
    && next.sequence.unitRequestId == st.sequence.unitRequestId && next.sequence.deadline == st.sequence.deadline
  }

  /** Handlers neither turn the clock nor start a request. */
  predicate SameCall(st: State, next: State) {
    next.now == st.now && next.started == st.started && (next.output.status == StatusRunning ==> st.output.status == StatusRunning)
  }

  lemma StartStepWaits(st: State, now: nat)
    requires st.sequence.steps.Some? && st.sequence.stepIndex < |st.sequence.steps.value| && now == st.now
    ensures var next := StartStep(st, now);
            SameCall(st, next) && (next.sequence.running ==> JustIssued(st.history.issued, next))
  {
    var step := st.sequence.steps.value[st.sequence.stepIndex];
    hide StepRequestId;
    if step.unitIndex < st.unitCount && step.unitIndex in st.accepting {
      assert (st.history.issued + [step])[|st.history.issued|] == step;
    }
  }

  lemma StartSequenceWaits(st: State, now: nat)
    requires HasSequence(st.scenario, st.scenario.index) && st.scenario.index < |st.scenario.definition.value.sequences|
    requires now == st.now
    ensures var next := StartSequence(st, now);
            SameCall(st, next) && (next.sequence.running ==> JustIssued(st.history.issued, next))
  {
    hide StartStep, JustIssued;
    StartStepWaits(SequenceBegun(st), now);
  }

  lemma UnitCompletedWaits(st: State, event: Event)
    requires Effective(st, event) && st.sequence.steps.Some?
    ensures var next := OnUnitCompleted(st, event);
            SameCall(st, next) && (event.id == UnitCompleted && next.sequence.running ==> JustIssued(st.history.issued, next))
  {
    hide StartStep, JustIssued;
    var done := StepDone(st);
    if done.sequence.stepIndex < |st.sequence.steps.value| {
      StartStepWaits(done, st.now);
    }
  }

  lemma SequenceCompletedWaits(st: State)
    requires HasSequence(st.scenario, st.scenario.index + 1) && !st.sequence.running
    ensures var next := OnSequenceCompleted(st);
            SameCall(st, next) && (next.sequence.running ==> JustIssued(st.history.issued, next))
  {
    hide StartSequence, JustIssued;
    var next := st.(scenario := st.scenario.(index := st.scenario.index + 1));
    if next.scenario.index < |next.scenario.definition.value.sequences| {
      StartSequenceWaits(next, st.now);
    }
  }

  lemma ChainWaits(st: State, event: Event)
    requires IsChain(event) && CanHandle(st, event) && !st.sequence.running
    ensures var next := Handle(st, event);
            SameCall(st, next) && (next.sequence.running ==> JustIssued(st.history.issued, next))
  {
    hide OnSequenceCompleted, JustIssued;
    if event.id == SequenceCompleted {
      SequenceCompletedWaits(st);
    }
  }

  lemma DeliverWaits(st: State)
    requires Inv(st) && st.phase.Holding? && CanHandle(st, st.phase.event)
    ensures var next := Next(st, Deliver);
            SameCall(st, next) && (Waits(next) ==> StillWaits(st, next) || JustIssued(st.history.issued, next))
  {
    hide Inv, CanHandle, JustIssued, Handle;
    var event := st.phase.event;
    StillHandles(st);
    if IsChain(event) {
      HeldChain(st);
      ChainFacts(Opened(st), event);
      hide Taken;
      ChainWaits(Opened(st), event);
    } else if Effective(st, event) {
      StepFacts(st);
      EffectiveWaits(Opened(st), event);
    } else {
      IneffectiveStays(st);
    }
  }

  lemma EffectiveWaits(st: State, event: Event)
    requires Effective(st, event) && st.sequence.steps.Some? && !IsChain(event) && CanHandle(st, event)
    ensures var next := Handle(st, event);
            SameCall(st, next) && (next.sequence.running ==> JustIssued(st.history.issued, next))
  {
    hide OnUnitCompleted, JustIssued;
    if event.id == UnitCompleted {
      UnitCompletedWaits(st, event);
    }
  }

  lemma TickWaits(st: State, now: nat)
    requires Inv(st) && st.phase.Outside? && CanTick(st)
    ensures var next := Tick(st, now);
            next.now == now && (Waits(next) ==> StillWaits(st, next) || JustIssued(st.history.issued, next))
  {
    hide Inv, StartSequence, JustIssued;
    if st.output.status == StatusRunning && !st.started {
      StartSequenceWaits(st.(now := now, started := true), now);
    }
  }

  /** Every step leaves the running step as it is, or issues the next one. */
  lemma NextWaits(st: State, action: Action)
    requires Inv(st) && Enabled(st, action) && Safe(st, action) && Waits(Next(st, action))
    ensures StillWaits(st, Next(st, action)) || JustIssued(st.history.issued, Next(st, action))
  {
    hide Inv, Tick, Handle, CanTick, CanHandle, Chosen;
    match action
    case Process(now) => TickWaits(st, now);
    case Deliver => DeliverWaits(st);
    case _ =>
  }

  // ----- The clock of a call -----

  /** The last process call before `k` was made at `states[k].now` by step `p`. */
  ghost predicate CalledAt(states: seq<State>, actions: seq<Action>, p: nat, k: nat)
    requires k <= |actions| && k < |states|
  {
    p < k && actions[p] == Process(states[k].now) && forall q :: p < q < k ==> !actions[q].Process?
  }

  lemma NextNow(st: State, action: Action)
    requires Inv(st) && Enabled(st, action) && Safe(st, action)
    ensures action.Process? ==> Next(st, action).now == action.now
    ensures !action.Process? && RunningStarted(Next(st, action)) ==> Next(st, action).now == st.now && RunningStarted(st)
  {
    hide Inv, Tick, Handle, CanTick, CanHandle, Chosen, Waits, JustIssued;
    match action
    case Process(now) => TickWaits(st, now);
    case Deliver =>
      DeliverWaits(st);
    case _ =>
  }

  /** While a started request runs, the service's clock is that of the last process call. */
  lemma {:induction false} ClockOfCall(states: seq<State>, actions: seq<Action>, unitCount: nat, k: nat) returns (p: nat)
    requires IsRun(states, actions, unitCount) && unitCount >= 10 && k < |states| && RunningStarted(states[k])
    ensures CalledAt(states, actions, p, k)
  {
    hide Inv, Safe, Enabled, Next;
    if k > 0 {
      RunKeepsInv(states, actions, unitCount, k - 1);
      NextNow(states[k - 1], actions[k - 1]);
      p := k - 1;
      if !actions[k - 1].Process? {
        p := ClockOfCall(states, actions, unitCount, k - 1);
      }
    }
  }

  // ----- Every run -----

  /** The step running at `k` was issued by step `j` and has been running since. */
  ghost predicate RunningSince(states: seq<State>, j: nat, k: nat)
    requires k < |states|
  {
    && j < k && |states[k].history.issued| == |states[j].history.issued| + 1
    && states[j].history.issued <= states[k].history.issued
    && forall l :: j < l <= k ==> Waits(states[l]) && states[l].history == states[k].history
  }

  /**
   In every run the step that is running was issued by some step `j` of a process call `p`.
   It carries the request id of its request plus its place in the scenario, counted from one,
   in 32 bits, and its deadline is the clock of that call plus its timeout, in 64 bits.
   */
  lemma {:induction false} RunningStep(states: seq<State>, actions: seq<Action>, unitCount: nat, k: nat) returns (j: nat, p: nat)
    requires IsRun(states, actions, unitCount) && unitCount >= 10 && k < |states| && Waits(states[k])
    ensures RunningSince(states, j, k) && CalledAt(states, actions, p, j + 1)
    ensures var issued := states[k].history.issued;
            && states[k].sequence.unitRequestId == (states[k].output.requestId + |issued|) % REQUEST_IDS
            && states[k].sequence.deadline == (actions[p].now + issued[|issued| - 1].timeout) % TICKS
  {
    hide Inv, Safe, Enabled, Next;
    RunKeepsInv(states, actions, unitCount, k);
    StepIdOf(states[k]);
    assert k > 0;
    RunKeepsInv(states, actions, unitCount, k - 1);
    NextWaits(states[k - 1], actions[k - 1]);
    if JustIssued(states[k - 1].history.issued, states[k]) {
      j := k - 1;
      p := ClockOfCall(states, actions, unitCount, k);
    } else {
      j, p := RunningStep(states, actions, unitCount, k - 1);
    }
  }

  lemma StepIdOf(st: State)
    requires Inv(st) && Waits(st)
    ensures st.sequence.unitRequestId == (st.output.requestId + |st.history.issued|) % REQUEST_IDS
  {
  }

  // ----- Which results are taken -----

  predicate IsResult(event: Event) {
    event.id == UnitCompleted || event.id == UnitError
  }

  /**
   A unit's result is taken if and only if a step is running and the result carries the request
   id of the request plus that step's place. A completion then counts one step more, an error
   ends the sequence; any other result changes nothing.
   */
  lemma ResultTakenExactly(st: State)
    requires Inv(st) && st.phase.Holding? && IsResult(st.phase.event)
    ensures Safe(st, Deliver)
    ensures var next, event := Next(st, Deliver), st.phase.event;
            if Waits(st) && event.payload.unitRequestId == (st.output.requestId + |st.history.issued|) % REQUEST_IDS
            then if event.id == UnitCompleted then next.output.completed == st.output.completed + 1
                 else next.output.completed == st.output.completed && next.sequence.machine == Error && !next.sequence.running
            else next == Opened(st)
  {
    EveryStepSafe(st, Deliver);
    StillHandles(st);
    if Waits(st) {
      StepIdOf(st);
    }
    if Effective(st, st.phase.event) {
      StepFacts(st);
      hide Inv, CanHandle, Between, Remaining, Stage;
      TakenEffect(Opened(st), st.phase.event);
    } else {
      hide Inv, CanHandle, Handle;
      IneffectiveStays(st);
    }
  }

  lemma TakenEffect(st: State, event: Event)
    requires Effective(st, event) && IsResult(event) && CanHandle(st, event) && st.sequence.machine == Running
    ensures var next := Handle(st, event);
            if event.id == UnitCompleted then next.output.completed == st.output.completed + 1
            else next.output.completed == st.output.completed && next.sequence.machine == Error && !next.sequence.running
  {
    hide StepRequestId, CurrentPayload;
  }

  lemma PlacesDiffer(request: nat, place: nat, other: nat)
    requires place < other < place + REQUEST_IDS
    ensures (request + place) % REQUEST_IDS != (request + other) % REQUEST_IDS
  {
  }

  /**
   In every run inputs of one request whose places differ by less than 2^32 carry different
   request ids, and a result with the id of an earlier one changes nothing.
   */
  lemma EarlierResultIgnored(states: seq<State>, actions: seq<Action>, unitCount: nat, i: nat, k: nat)
    requires IsRun(states, actions, unitCount) && unitCount >= 10 && i < k < |states| && RunsThrough(states, i, k)
    requires Waits(states[i]) && |states[i].history.issued| < |states[k].history.issued| < |states[i].history.issued| + REQUEST_IDS
    ensures Waits(states[k]) ==> states[k].sequence.unitRequestId != states[i].sequence.unitRequestId
    ensures states[k].phase.Holding? && IsResult(states[k].phase.event)
            && states[k].phase.event.payload.unitRequestId == states[i].sequence.unitRequestId ==>
              Safe(states[k], Deliver) && Next(states[k], Deliver) == Opened(states[k])
  {
    hide Inv, Safe, Next, Opened;
    RunKeepsInv(states, actions, unitCount, i);
    RunKeepsInv(states, actions, unitCount, k);
    RunSameRequest(states, actions, unitCount, i, k);
    StepIdOf(states[i]);
    PlacesDiffer(states[i].output.requestId, |states[i].history.issued|, |states[k].history.issued|);
    if Waits(states[k]) {
      StepIdOf(states[k]);
    }
    if states[k].phase.Holding? && IsResult(states[k].phase.event) {
      ResultTakenExactly(states[k]);
    }
  }
}
