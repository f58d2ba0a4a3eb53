/**
 What a request runs: the scenario of the entry that the last loaded catalog holds for it, or,
 before any catalog was loaded, one of the two built-in scenarios.
 */
module DomainRequests {
  import opened Wrappers
  import opened WorkflowModel
  import opened DomainModel
  import opened DomainInvariant
  import opened DomainProgress
  import opened DomainCauses

  // ----- One request -----

  /** The entries that may serve a condition of feature A. */
  predicate Serves(entry: Entry, condition: nat) {
    entry.feature == 1 && entry.condition == condition
  }

  /** The service as it runs `scenario` for a request just accepted. */
  predicate Runs(st: State, scenario: Scenario, requestId: nat) {
    && st.output == Output(StatusRunning, 1, requestId, scenario.id, 0, 0, 0, scenario.totalSteps, NoError)
    && st.feature == Running && st.scenario == ScenarioRunner(Running, Some(scenario), 0) && !st.started && st.now == 0
    && st.history == History(scenario, [], 0)
  }

  /**
   The answer to a request while `served` says which conditions of feature A can be served, and
   what an accepted one runs; any other answer changes nothing.
   */
  ghost predicate Replies(st: State, next: State, input: Action, result: InputResult, served: bool)
    requires input.Input?
  {
    && (result == InvalidArgument <==> input.feature == 0)
    && (result == Busy <==> input.feature != 0 && st.output.status == StatusRunning)
    && (result == Unsupported <==> input.feature != 0 && st.output.status != StatusRunning && (input.feature != 1 || !served))
    && (result == Accepted <==> st.output.status != StatusRunning && input.feature == 1 && served)
    && (result != Accepted ==> next == st)
  }

  /** With a catalog, the request is served if and only if an entry is for it, and runs that entry. */
  lemma CatalogAnswers(st: State, input: Action, catalog: seq<Entry>)
    requires Inv(st) && st.catalog == Some(catalog) && input.Input?
    ensures var next := WriteInput(st, input.feature, input.condition, input.requestId);
            var result := InputResultOf(st, input.feature, input.condition);
            && Replies(st, next, input, result, exists e :: e in catalog && Serves(e, input.condition))
            && (result == Accepted ==> forall e :: e in catalog && Serves(e, input.condition) ==>
                                         Runs(next, e.scenario, input.requestId))
  {
    var i := LookupIsFirst(catalog, input.feature, input.condition);
    assert WfCatalog(catalog, st.unitCount);
    hide Inv, Lookup, WfEntry;
    if input.feature == 1 {
      forall e | e in catalog && Serves(e, input.condition)
        ensures i < |catalog| && e == catalog[i]
      {
        var j :| 0 <= j < |catalog| && catalog[j] == e;
        assert Answers(catalog[j], 1, input.condition);
        CatalogFindUnique(catalog, st.unitCount, i, j);
      }
      if i < |catalog| {
        assert catalog[i] in catalog && Serves(catalog[i], input.condition);
      }
    }
  }

  /** The steps of units 0 to 9 in this order, or in the opposite one. */
  function TenSteps(condition: nat): (steps: seq<Step>)
    ensures |steps| == 10
    ensures forall i :: 0 <= i < 10 ==> steps[i] == Step(if condition == 1 then i else 9 - i, 2000)
  {
    seq(10, i requires 0 <= i < 10 => Step(if condition == 1 then i else 9 - i, 2000))
  }

  /** The built-in scenarios serve conditions 1 and 2, in two sequences of five steps each. */
  lemma BuiltInExactly(condition: nat)
    ensures BuiltIn(condition).Some? <==> condition == 1 || condition == 2
    ensures BuiltIn(condition).Some? ==>
              var scenario := BuiltIn(condition).value;
              && scenario.id == condition && scenario.totalSteps == 10 && Flatten(scenario.sequences) == TenSteps(condition)
              && |scenario.sequences| == 2 && |scenario.sequences[0].steps| == |scenario.sequences[1].steps| == 5
  {
    if BuiltIn(condition).Some? {
      var sequences := BuiltIn(condition).value.sequences;
      TwoSequences(sequences[0], sequences[1]);
      hide StepCount, Flatten;
      assert sequences == [sequences[0], sequences[1]];
      assert sequences[0].steps + sequences[1].steps == TenSteps(condition);
    }
  }

  /** Without a catalog every condition but 1 and 2 is refused. */
  lemma BuiltInAnswers(st: State, input: Action)
    requires st.catalog == None && input.Input?
    ensures var next := WriteInput(st, input.feature, input.condition, input.requestId);
            var result := InputResultOf(st, input.feature, input.condition);
            && Replies(st, next, input, result, input.condition == 1 || input.condition == 2)
            && (result == Accepted ==> BuiltIn(input.condition).Some? && Runs(next, BuiltIn(input.condition).value, input.requestId))
  {
    BuiltInExactly(input.condition);
    hide BuiltIn;
  }

  // ----- Which catalog is in force -----

  /** The step installs a catalog. */
  predicate Installs(st: State, action: Action) {
    action.Load? && st.output.status != StatusRunning
  }

  ghost predicate NoneInstalled(states: seq<State>, actions: seq<Action>, i: nat, k: nat)
    requires k <= |actions| && k <= |states|
  {
    forall l :: i <= l < k ==> !Installs(states[l], actions[l])
  }

  lemma CatalogStays(st: State, action: Action)
    requires Enabled(st, action) && Safe(st, action)
    ensures Next(st, action).catalog == if Installs(st, action) then Some(action.catalog) else st.catalog
  {
    hide StepRequestId, CurrentPayload, Chosen;
    hide Handle, Tick, CanHandle, CanTick;
    match action
    case Process(now) => TickCatalog(st, now);
    case Deliver => HandleCatalog(st.(phase := DeliveredPhase(st.phase, st.listening)), st.phase.event, st);
    case _ =>
  }

  lemma StartStepCatalog(st: State, now: nat)
    requires st.sequence.steps.Some? && st.sequence.stepIndex < |st.sequence.steps.value|
    ensures StartStep(st, now).catalog == st.catalog
  {
    hide StepRequestId, CurrentPayload;
  }

  lemma StartSequenceCatalog(st: State, now: nat)
    requires HasSequence(st.scenario, st.scenario.index) && st.scenario.index < |st.scenario.definition.value.sequences|
    ensures StartSequence(st, now).catalog == st.catalog
  {
    hide StartStep;
    StartStepCatalog(SequenceBegun(st), now);
  }

  lemma TickCatalog(st: State, now: nat)
    requires CanTick(st)
    ensures Tick(st, now).catalog == st.catalog
  {
    hide StartSequence;
    if st.output.status == StatusRunning && !st.started {
      StartSequenceCatalog(st.(now := now, started := true), now);
    }
  }

  lemma HandleCatalog(st: State, event: Event, held: State)
    requires CanHandle(held, event) && st == held.(phase := st.phase)
    ensures CanHandle(st, event) && Handle(st, event).catalog == st.catalog
  {
    hide StartStep, StartSequence, PublishSequenceError, CurrentPayload;
    if event.id == UnitCompleted && st.output.status == StatusRunning && st.sequence.running {
      if StepDone(st).sequence.stepIndex < |st.sequence.steps.value| {
        StartStepCatalog(StepDone(st), st.now);
      }
      ErrorCatalog(StepDone(st), Internal);
    } else if event.id == SequenceCompleted {
      var next := st.(scenario := st.scenario.(index := st.scenario.index + 1));
      if next.scenario.index < |next.scenario.definition.value.sequences| {
        StartSequenceCatalog(next, st.now);
      }
    }
    ErrorCatalog(st, if event.id == StepTimeout then TimedOut else UnitFailed);
  }

  lemma ErrorCatalog(st: State, error: DomainError)
    ensures PublishSequenceError(st, error).catalog == st.catalog
  {
  }

  lemma {:induction false} CatalogKept(states: seq<State>, actions: seq<Action>, unitCount: nat, i: nat, k: nat)
    requires IsRun(states, actions, unitCount) && unitCount >= 10 && i <= k < |states|
    requires NoneInstalled(states, actions, i, k)
    ensures states[k].catalog == states[i].catalog
    decreases k - i
  {
    hide Inv, Safe, Enabled, Next, Installs;
    if i < k {
      CatalogKept(states, actions, unitCount, i, k - 1);
      RunKeepsInv(states, actions, unitCount, k - 1);
      CatalogStays(states[k - 1], actions[k - 1]);
    }
  }

  /** The last catalog installed before `k` was installed by step `j`. */
  ghost predicate LastInstalled(states: seq<State>, actions: seq<Action>, j: nat, k: nat)
    requires k <= |actions| && k <= |states|
  {
    j < k && Installs(states[j], actions[j]) && NoneInstalled(states, actions, j + 1, k)
  }

  lemma InForce(states: seq<State>, actions: seq<Action>, unitCount: nat, j: nat, k: nat)
    requires IsRun(states, actions, unitCount) && unitCount >= 10 && k < |states| && LastInstalled(states, actions, j, k)
    ensures states[k].catalog == Some(actions[j].catalog)
  {
    hide Inv, Safe, Enabled, Next;
    RunKeepsInv(states, actions, unitCount, j);
    CatalogStays(states[j], actions[j]);
    CatalogKept(states, actions, unitCount, j + 1, k);
  }

  // ----- Every run -----

  /**
   In every run, from the loading of a catalog until the next one, a request is accepted if and
   only if no request runs, it is for feature A, and some entry is for its condition. It then
   runs the scenario of that entry, from its first step and under its own request id.
   */
  lemma LoadedEntriesAnswer(states: seq<State>, actions: seq<Action>, unitCount: nat, j: nat, k: nat)
    requires IsRun(states, actions, unitCount) && unitCount >= 10 && k < |actions| && actions[k].Input?
    requires LastInstalled(states, actions, j, k)
    ensures var catalog, input := actions[j].catalog, actions[k];
            var result := InputResultOf(states[k], input.feature, input.condition);
            && Replies(states[k], states[k + 1], input, result, exists e :: e in catalog && Serves(e, input.condition))
            && (result == Accepted ==> forall e :: e in catalog && Serves(e, input.condition) ==>
                                         Runs(states[k + 1], e.scenario, input.requestId))
  {
    hide Inv, InputResultOf, WriteInput, Replies;
    InForce(states, actions, unitCount, j, k);
    RunKeepsInv(states, actions, unitCount, k);
    CatalogAnswers(states[k], actions[k], actions[j].catalog);
  }

  /**
   In every run, before any catalog is loaded, conditions 1 and 2 of feature A are served, by
   the steps of units 0 to 9 in this order and in the opposite one.
   */
  lemma BuiltInsAnswer(states: seq<State>, actions: seq<Action>, unitCount: nat, k: nat)
    requires IsRun(states, actions, unitCount) && unitCount >= 10 && k < |actions| && actions[k].Input?
    requires NoneInstalled(states, actions, 0, k)
    ensures var input := actions[k];
            var result, request := InputResultOf(states[k], input.feature, input.condition), states[k + 1].history.request;
            && Replies(states[k], states[k + 1], input, result, input.condition == 1 || input.condition == 2)
            && (result == Accepted ==> Runs(states[k + 1], request, input.requestId)
                                       && request.id == input.condition && Flatten(request.sequences) == TenSteps(input.condition))
  {
    hide Inv, InputResultOf, WriteInput, Replies, BuiltIn, Flatten;
    CatalogKept(states, actions, unitCount, 0, k);
    RunKeepsInv(states, actions, unitCount, k);
    BuiltInAnswers(states[k], actions[k]);
    BuiltInExactly(actions[k].condition);
  }

  lemma AcceptsIsAccepted(st: State, action: Action)
    requires Accepts(st, action)
    ensures action.Input? && InputResultOf(st, action.feature, action.condition) == Accepted
  {
  }

  /**
   So a request that is answered in time ends COMPLETED with exactly the steps of the loaded
   entry issued, in their order.
   */
  lemma AnsweredEntryCompletes(states: seq<State>, actions: seq<Action>, unitCount: nat, j: nat, i: nat, n: nat) returns (m: nat)
    requires IsRun(states, actions, unitCount) && unitCount >= 10 && i + 1 < n < |states|
    requires LastInstalled(states, actions, j, i) && Accepts(states[i], actions[i])
    requires forall e :: e in states[i].queue ==> e.id != StepTimeout && e.id != UnitError
    requires Undisturbed(states, actions, i, n)
    requires DrivingCalls(states, actions, i + 1, n) > 10 * states[i + 1].output.total + 6
    ensures i < m <= n && states[m].output.status == StatusCompleted && states[m].output.requestId == actions[i].requestId
    ensures exists e :: e in actions[j].catalog && Serves(e, actions[i].condition)
                        && states[m].history.request == e.scenario && states[m].history.issued == Flatten(e.scenario.sequences)
  {
    hide Inv, Safe, Enabled, Next, Drives, DrivingCalls, Undisturbed, RunsThrough, Flatten, Chosen, Accepts, InputResultOf;
    AcceptsIsAccepted(states[i], actions[i]);
    LoadedEntriesAnswer(states, actions, unitCount, j, i);
    m := AnsweredRequestCompletes(states, actions, unitCount, i, n);
    RunKeepsInv(states, actions, unitCount, i);
    RunsChosen(states[i], states[i + 1], actions[i]);
  }

  lemma RunsChosen(st: State, next: State, action: Action)
    requires Accepts(st, action) && Enabled(st, action) && next == Next(st, action)
    ensures Chosen(st, action.feature, action.condition) == Some(next.history.request)
  {
    hide Chosen;
  }
}
