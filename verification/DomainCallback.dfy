/**
 How a request ends: by its final event, with one call of control's handler if there is one, or
 by a publication that the full queue refused, without a call.
 */
module DomainCallback {
  import opened Wrappers
  import opened WorkflowModel
  import opened DomainModel
  import opened DomainInvariant
  import opened DomainTermination
  import opened DomainCauses

  /** Until the final event only a full queue ends a request, and nothing calls control. */
  predicate GoesOn(st: State, next: State) {
    && next.history.fires == st.history.fires && next.phase == st.phase && next.listening == st.listening
    && (next.output.status == st.output.status
        || (Occupied(st) >= 32 && next.output.status == StatusError && next.output.error == Internal))
  }

  lemma ErrorGoesOn(st: State, error: DomainError)
    ensures GoesOn(st, PublishSequenceError(st, error))
  {
    hide CurrentPayload;
  }

  lemma StartStepGoesOn(st: State, now: nat)
    requires st.sequence.steps.Some? && st.sequence.stepIndex < |st.sequence.steps.value|
    ensures GoesOn(st, StartStep(st, now))
  {
    hide PublishSequenceError, StepRequestId;
    ErrorGoesOn(st, Internal);
    ErrorGoesOn(st, UnitRejected);
  }

  lemma StartSequenceGoesOn(st: State, now: nat)
    requires HasSequence(st.scenario, st.scenario.index) && st.scenario.index < |st.scenario.definition.value.sequences|
    ensures GoesOn(st, StartSequence(st, now))
  {
    hide StartStep;
    StartStepGoesOn(SequenceBegun(st), now);
  }

  lemma UnitCompletedGoesOn(st: State, event: Event)
    requires Effective(st, event) && st.sequence.steps.Some?
    ensures event.id == UnitCompleted ==> GoesOn(st, OnUnitCompleted(st, event))
  {
    hide StartStep, PublishSequenceError, CurrentPayload;
    var done := StepDone(st);
    ErrorGoesOn(done, Internal);
    if done.sequence.stepIndex < |st.sequence.steps.value| {
      StartStepGoesOn(done, st.now);
    }
  }

  lemma SequenceCompletedGoesOn(st: State)
    requires HasSequence(st.scenario, st.scenario.index + 1)
    ensures GoesOn(st, OnSequenceCompleted(st))
  {
    hide StartSequence, CurrentPayload;
    var next := st.(scenario := st.scenario.(index := st.scenario.index + 1));
    if next.scenario.index < |next.scenario.definition.value.sequences| {
      StartSequenceGoesOn(next, st.now);
    }
  }

  predicate IsFinal(event: Event) {
    event.id == FeatureCompleted || event.id == FeatureError
  }

  lemma HandleGoesOn(st: State, event: Event)
    requires CanHandle(st, event) && !IsFinal(event) && (!IsChain(event) ==> Effective(st, event))
    ensures GoesOn(st, Handle(st, event))
  {
    hide OnUnitCompleted, OnSequenceCompleted, PublishSequenceError, CurrentPayload;
    match event.id
    case UnitCompleted => UnitCompletedGoesOn(st, event);
    case SequenceCompleted => SequenceCompletedGoesOn(st);
    case UnitError => ErrorGoesOn(st, UnitFailed);
    case StepTimeout => ErrorGoesOn(st, TimedOut);
    case _ =>
  }

  lemma TickGoesOn(st: State, now: nat)
    requires CanTick(st)
    ensures GoesOn(st, Tick(st, now))
  {
    hide StartSequence, CurrentPayload;
    if st.output.status == StatusRunning && !st.started {
      StartSequenceGoesOn(st.(now := now, started := true), now);
    }
  }

  /** How a step ends the running request, if it does, and whether it calls control. */
  predicate EndsRightly(st: State, action: Action, next: State) {
    if action == Deliver && st.phase.Holding? && IsFinal(st.phase.event) then
      && next.output.status == (if st.phase.event.id == FeatureCompleted then StatusCompleted else StatusError)
      && next.output.error == st.phase.event.payload.error
      && next.history.fires == (if st.listening then 1 else 0) && (InCallback(next) <==> st.listening)
    else
      && next.history.fires == 0 && (InCallback(next) ==> InCallback(st))
      && (next.output.status == StatusRunning
          || (FullAt(st, action) && next.output.status == StatusError && next.output.error == Internal))
  }

  lemma DeliverEnds(st: State)
    requires Inv(st) && st.phase.Holding? && CanHandle(st, st.phase.event) && st.output.status == StatusRunning
    ensures EndsRightly(st, Deliver, Next(st, Deliver))
  {
    hide Inv, CanHandle, Handle, Effective;
    var event := st.phase.event;
    BoundedOccupied(st);
    StillHandles(st);
    assert st.history.fires == 0 by { NoCallYet(st); }
    if IsFinal(event) {
      FinalEffect(Opened(st), event);
    } else if IsChain(event) || Effective(st, event) {
      assert !IsChain(event) ==> Effective(Opened(st), event) by { SameEffect(st, event); }
      HandleGoesOn(Opened(st), event);
    } else {
      IneffectiveStays(st);
    }
  }

  lemma SameEffect(st: State, event: Event)
    requires st.phase.Holding?
    ensures Effective(Opened(st), event) <==> Effective(st, event)
  {
  }

  lemma FinalEffect(st: State, event: Event)
    requires CanHandle(st, event) && IsFinal(event)
    ensures var next := Handle(st, event);
            && next.output.status == (if event.id == FeatureCompleted then StatusCompleted else StatusError)
            && next.output.error == event.payload.error && next.phase == st.phase
            && next.history.fires == st.history.fires + if st.listening then 1 else 0
  {
  }

  lemma NoCallYet(st: State)
    requires Inv(st) && st.output.status == StatusRunning
    ensures st.history.fires == 0
  {
  }

  /**
   A running request ends with its final event, which then calls control exactly once if control
   listens, with the event's status and error; or with a publication refused by a full queue, as
   an internal error and without a call. No other step ends it or calls control.
   */
  lemma EndsExactly(st: State, action: Action)
    requires Inv(st) && Enabled(st, action) && Safe(st, action) && st.output.status == StatusRunning
    ensures EndsRightly(st, action, Next(st, action))
  {
    hide Inv, CanHandle, CanTick, Handle, Tick, Chosen;
    NoCallYet(st);
    BoundedOccupied(st);
    match action
    case Deliver => DeliverEnds(st);
    case Process(now) => TickGoesOn(st, now);
    case _ =>
  }

  lemma FinalListens(st: State, event: Event)
    requires CanHandle(st, event) && IsFinal(event)
    ensures Handle(st, event).listening == st.listening
  {
  }

  lemma ListeningNext(st: State, action: Action)
    requires Enabled(st, action) && Safe(st, action)
    ensures Next(st, action).listening == (st.listening || action.Listen?)
  {
    hide CanHandle, CanTick, Handle, Tick, Chosen, Effective;
    match action
    case Deliver =>
      var event := st.phase.event;
      StillHandles(st);
      if IsFinal(event) {
        FinalListens(Opened(st), event);
      } else if IsChain(event) || Effective(st, event) {
        assert !IsChain(event) ==> Effective(Opened(st), event) by { SameEffect(st, event); }
        HandleGoesOn(Opened(st), event);
      } else {
        IneffectiveStays(st);
      }
    case Process(now) => TickGoesOn(st, now);
    case _ =>
  }

  /** In every run control listens from the moment it set its handler. */
  lemma {:induction false} ListensSince(states: seq<State>, actions: seq<Action>, unitCount: nat, k: nat)
    requires IsRun(states, actions, unitCount) && unitCount >= 10 && k < |states|
    ensures states[k].listening <==> exists j :: 0 <= j < k && actions[j].Listen?
  {
    hide Inv, Safe, Enabled, Next;
    if k > 0 {
      ListensSince(states, actions, unitCount, k - 1);
      RunKeepsInv(states, actions, unitCount, k - 1);
      ListeningNext(states[k - 1], actions[k - 1]);
    }
  }
}
