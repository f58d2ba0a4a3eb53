# Verification model of the event foundation and the workflow domain

This Dafny project models the parts of the repository whose behaviour spans many calls and
proves what they promise. Each operation is written twice: as a function on values, and as a
method with the source's loops and in-place updates that is proved to compute that function.
The laws are lemmas about the functions, mostly invariants over every run or equivalences
with an independent definition. `dafny verify dfyconfig.toml` checks everything.

* **JSON workflow loader.** `JsonGrammar` is RFC 8259 as concrete syntax trees, free of any
  algorithm. `JsonValidator` is the recursive-descent validator and `JsonAcceptance` proves
  which texts it accepts. `JsonTokens` is the flat tokenizer; `JsonWalk` proves its output to be
  the pre-order walk of the tree. `WorkflowLoader` is the index-based schema reader,
  `WorkflowTree` says what a tree means, and `TokenRows` and `WorkflowReading` prove that the
  reader computes that meaning. `WorkflowLookup` and `WorkflowNames` say when lookups go by
  names, and `WorkflowRender` characterises the catalogs that can be loaded. `WorkflowModel` holds scenarios.
* **Workflow runner.** `DomainModel` is the service as a transition system in which units
  answer, refuse or stay silent at any time and with any request id. `DomainInvariant` proves
  what every run keeps. `DomainTermination` and `DomainProgress` prove that a request ends, by
  itself and under every schedule, `DomainCauses` that a reported error has happened, and
  `DomainCompletion` that an answered request completes. `DomainRequests` says which scenario a
  request runs, `DomainSteps` which id and deadline a step carries and which results it takes,
  `DomainCallback` how a request ends. `DomainService` is the service object; each of its calls
  is proved to be a run of that system. `StateMachine`, `StateMachineService` and
  `RunnerMachine` are the table machine under the runners.
* **Arena and envelopes.** `Arena` is the allocator, `ArenaRefinement` its refinement to a map
  from handles to byte strings, and `ArenaInitialised` says when readable bytes were written.
  `EventBuffer` and `EventBufferConservation` are the owning envelopes and their queue, over that
  allocator; `EventBufferOutcomes` says when their calls succeed and `EventBufferJourney` follows
  one envelope from producer to consumer.
* **Events.** `Ring` and `EventQueue` are the ring queue, `Publisher*` the value-copying
  publisher, `TimerModel`, `TimerLaws`, `TimerPeriods` and `TimerService` the scheduler,
  `Dispatcher*` the subscriptions.
* **Thread pool.** `ThreadPoolModel` interleaves critical sections, wakeups and returning
  callbacks; `ThreadPoolSafety` proves order, exactly-once execution, absence of lost wakeups
  and termination of shutdown; `ThreadPoolService` is the code on its fields.
* **Time.** `Calendar` proves the closed-form date conversions against day-by-day counting,
  `Rfc3339*` the printer and parser, `UtcTime` and `UtcTimeLaws` the 64-bit arithmetic.
* `Wrappers`, `Bytes` and `Decimals` hold what several of these share.

Characters stand for the bytes of a file, integers are unbounded unless a type or a `%` gives
them a width, and nothing here was executed.

Findings, each with a theorem that gives an input and the exact condition:

* The validator looks an escape letter up with `strchr`, so backslash-NUL passes it
  (`JsonAcceptance.NulEscapeIsAccepted`); NUL is the whole difference from the RFC
  (`JsonAcceptance.AgreesWithRfcExactly`).
* `json_object_find` compares string values as if they were names
  (`WorkflowLookup.ValueMistakenForName`); `WorkflowLookup.LookupExactly` says when that is
  harmless for one lookup, `WorkflowNames.LoadReadsByName` for a whole file.
* The buffer header calls the length that of the initialised data, but `mb_write` beyond the
  current length exposes the bytes in between (`ArenaInitialised.UnwrittenByteIsRead`).
  `ArenaInitialised.StepInitialised` and `RunInitialised` say exactly which calls break that promise.
* The unit conversions refuse the lowest few values that they themselves accept as input
  (`UtcTimeLaws.SomeValuesAreRefused`), although the header promises an error only on overflow;
  `UtcTimeLaws.UnitsRoundTrip` says which.
* `civil_from_days` is the inverse of the day count exactly while both the year and the year
  begun in March fit `int` (`Calendar.CivilInvertsDays`, `Calendar.YearBeyondInt`). The function
  is private and its only caller stays within the years 1 to 9999, so the public interface does
  not reach the other years (`Rfc3339RoundTrip.FitsWhenPrinted`).
* Periodic timers keep to their schedule only if the caller's clock never goes back, as the
  header asks (`TimerPeriods.ClockMustNotGoBack`, `TimerPeriods.OkLeavesNextPoints`).
* The request ids of steps count on from the request's own id, so a late result is told apart
  within a request (`DomainSteps.EarlierResultIgnored`) but not always from one of another
  request; `DomainSteps.ResultTakenExactly` says which results are taken.

## Model

| member | source | states |
|---|---|---|
| JsonGrammar.StrictIsLaxWithoutNul | src/domain/domain_workflow_loader.c:183-191 | the RFC's grammar is the validator's grammar restricted to texts without NUL, for all texts |
| JsonGrammar.CharacterCodes | src/domain/domain_workflow_loader.c:121-192 | blanks, digits, hexadecimal digits, unescaped characters and escape letters by their codes, as RFC 8259 lists them |
| JsonValidator.SkipBlanks | src/domain/domain_workflow_loader.c:121-129 | the loop stops at the first non-blank |
| JsonValidator.ValidateString | src/domain/domain_workflow_loader.c:152-196 | accepts and advances exactly as the recursive reading of a string does |
| JsonValidator.ConsumeInteger | src/domain/domain_workflow_loader.c:206-231 | optional minus, then zero alone or digits not led by zero |
| JsonValidator.ConsumeFraction | src/domain/domain_workflow_loader.c:241-262 | nothing, or a point and at least one digit |
| JsonValidator.ConsumeExponent | src/domain/domain_workflow_loader.c:272-298 | nothing, or a marked exponent with at least one digit |
| JsonValidator.ValidateNumber | src/domain/domain_workflow_loader.c:308-316 | the integer, fraction and exponent in turn, and the position behind them |
| JsonValidator.ValidateComposite | src/domain/domain_workflow_loader.c:342-424 | the array and object loops: elements, commas, no trailing comma, closing bracket |
| JsonValidator.ValidateValue | src/domain/domain_workflow_loader.c:426-467 | dispatch on the first character, depth limit 64, termination of the mutual recursion |
| JsonValidator.ValidateDocument | src/domain/domain_workflow_loader.c:476-487 | the verdict is `Accepts` |
| JsonAcceptance.BuiltDocument | src/domain/domain_workflow_loader.c:476-487 | soundness: an accepted text is the text of a well-formed tree no deeper than 64 |
| JsonAcceptance.DocumentComplete | src/domain/domain_workflow_loader.c:476-487 | completeness: the text of every such tree is accepted |
| JsonAcceptance.AcceptsLaxGrammar | src/domain/domain_workflow_loader.c:152-487 | acceptance is membership in the lax grammar, both directions |
| JsonAcceptance.AgreesWithRfcExactly | src/domain/domain_workflow_loader.c:152-487 | RFC membership is acceptance without NUL; on texts without NUL the validator is right, and it is wrong exactly on the lax texts that hold a NUL |
| JsonAcceptance.NulEscapeIsAccepted | src/domain/domain_workflow_loader.c:183-191 | a concrete accepted text that is no JSON text |
| JsonTokens.Parser.AllocateToken | src/domain/domain_workflow_loader.c:67-90 | appends a token below the open container and counts it there, or reports a full array |
| JsonTokens.Parser.ParseString | src/domain/domain_workflow_loader.c:498-529 | one string token up to its closing quote |
| JsonTokens.Parser.ParsePrimitive | src/domain/domain_workflow_loader.c:540-567 | one primitive token up to the next delimiter |
| JsonTokens.Parser.CloseContainer | src/domain/domain_workflow_loader.c:577-590 | closes the open container of the same kind and reopens its parent |
| JsonTokens.Parser.TokenizeCharacter | src/domain/domain_workflow_loader.c:601-638 | the effect of one character on tokens and open container |
| JsonTokens.Parser.Run | src/domain/domain_workflow_loader.c:648-664 | the loop computes `Tokenize` and ends with all containers closed, or fails with it |
| JsonWalk.SizeBound | src/domain/domain_workflow_loader.c:1382-1382 | a tree of n tokens takes at least 2n - 1 characters |
| JsonWalk.TokensAreTheWalk | src/domain/domain_workflow_loader.c:498-664 | with half the length plus one tokens, tokenizing a tree's text gives exactly its pre-order walk: kinds, spans, parents, child counts |
| JsonWalk.AcceptedIsTokenized | src/domain/domain_workflow_loader.c:1382-1397 | every accepted text is tokenized within length/2 + 2 tokens, into the walk of its tree |
| WorkflowLoader.ObjectFind | src/domain/domain_workflow_loader.c:696-724 | the loop returns the token behind the only match, none for a duplicate |
| WorkflowLoader.ArrayAt | src/domain/domain_workflow_loader.c:735-759 | the loop returns the n-th token directly below the array |
| WorkflowLoader.ParseSteps | src/domain/domain_workflow_loader.c:1018-1038 | the step loop returns all steps or fails with the first bad one |
| WorkflowLoader.ParseSequence | src/domain/domain_workflow_loader.c:991-1045 | name and nonempty steps |
| WorkflowLoader.ParseSequences | src/domain/domain_workflow_loader.c:1059-1109 | all sequences and their step total, overflow of the total refused |
| WorkflowLoader.ParseScenario | src/domain/domain_workflow_loader.c:1122-1165 | id, name, sequences and total |
| WorkflowLoader.EntryIsDuplicate | src/domain/domain_workflow_loader.c:1177-1193 | a clash of feature and condition or of scenario id with an earlier entry |
| WorkflowLoader.ParseEntry | src/domain/domain_workflow_loader.c:1208-1250 | one entry that clashes with none before |
| WorkflowLoader.BuildCatalog | src/domain/domain_workflow_loader.c:1262-1318 | schema version 1 and all entries |
| WorkflowLoader.Load | src/domain/domain_workflow_loader.c:1364-1405 | a loaded catalog is nonempty, its keys and ids unique, its sequences and steps nonempty, unit indexes below the unit count, totals the sums of steps |
| WorkflowLoader.LoadText | src/domain/domain_workflow_loader.c:1364-1405 | validate, tokenize and build together compute `Load`; the tokenizer never fails after the validator |
| WorkflowReading.NthOfRow | src/domain/domain_workflow_loader.c:735-759 | counting tokens with a given parent finds exactly the elements in order |
| WorkflowReading.MemberFound | src/domain/domain_workflow_loader.c:696-724 | the token found is that of the member the tree's own lookup gives, or neither exists |
| WorkflowReading.ElementFound | src/domain/domain_workflow_loader.c:735-759 | an element below the child count is never missing, and it is the tree's element |
| WorkflowReading.NumberRead | src/domain/domain_workflow_loader.c:769-793 | the number read from a token is that of the tree's number, refused for sign, fraction, exponent or overflow |
| WorkflowReading.StringRead | src/domain/domain_workflow_loader.c:802-912 | likewise for nonempty strings without escapes |
| WorkflowReading.StepRead | src/domain/domain_workflow_loader.c:947-978 | the step parsed is the step the tree means |
| WorkflowReading.SequenceRead | src/domain/domain_workflow_loader.c:991-1045 | likewise for sequences |
| WorkflowReading.ScenarioRead | src/domain/domain_workflow_loader.c:1122-1165 | likewise for scenarios |
| WorkflowReading.EntryRead | src/domain/domain_workflow_loader.c:1208-1250 | likewise for entries, up to clashes with earlier ones |
| WorkflowReading.LoadReadsTheTree | src/domain/domain_workflow_loader.c:1364-1405 | for every accepted text the loader's result is the catalog its tree means, or a schema error when it means none |
| WorkflowReading.LoadResultsExactly | src/domain/domain_workflow_loader.c:1364-1405 | for every text: a parse error exactly when it is not of the validator's grammar, otherwise the catalog of its tree or a schema error |
| WorkflowLookup.LookupExactly | src/domain/domain_workflow_loader.c:696-724 | lookup is "the only member of that name" if and only if no value echoes the name or the lookup fails either way |
| WorkflowLookup.ValueMistakenForName | src/domain/domain_workflow_loader.c:710-723 | in an object whose name is "steps", the lookup of its only member "steps" fails, whatever that member is |
| WorkflowNames.SameLookup | src/domain/domain_workflow_loader.c:696-724 | in a tree without mistaken values every lookup of the loader is the lookup by name |
| WorkflowNames.LoadReadsByName | src/domain/domain_workflow_loader.c:1364-1405 | if no object of an accepted text holds a value that a lookup mistakes for a name, loading gives the catalog read by names |
| WorkflowRender.LoadOfRendered | src/domain/domain_workflow_loader.c:1364-1405 | loading the text written for a catalog returns that catalog |
| WorkflowRender.LoadableExactly | src/domain/domain_workflow_loader.c:947-1318 | a catalog is loaded from some text if and only if it meets the stated bounds, names and uniqueness |
| WorkflowModel.CatalogFind | src/domain/domain_workflow_loader.c:1407-1425 | the loop computes `Lookup` |
| WorkflowModel.LookupIsFirst | src/domain/domain_workflow_loader.c:1407-1425 | the lookup gives the scenario of the first entry with that feature and condition, and none exactly when there is none |
| WorkflowModel.CatalogFindUnique | src/domain/domain_workflow_loader.c:1407-1425 | in a loaded catalog at most one entry answers |
| DomainInvariant.InitialInv | src/domain/domain_service.c:677-715 | the created service satisfies the invariant |
| DomainInvariant.EveryStepSafe | src/domain/domain_service.c:293-475 | no reachable step follows a missing definition or an index out of bounds |
| DomainInvariant.StartStepKeeps | src/domain/domain_service.c:293-330 | issuing a step, or its refusal, keeps the invariant |
| DomainInvariant.StartSequenceKeeps | src/domain/domain_service.c:338-363 | so does starting a sequence |
| DomainInvariant.OnUnitCompletedKeeps | src/domain/domain_service.c:371-408 | so does a unit's completion, matching or stale |
| DomainInvariant.OnFailureKeeps | src/domain/domain_service.c:416-434 | so does a unit error or a timeout |
| DomainInvariant.OnSequenceCompletedKeeps | src/domain/domain_service.c:442-475 | so does the end of a sequence, last or not |
| DomainInvariant.OnSequenceErrorKeeps | src/domain/domain_service.c:483-498 | so does a sequence error |
| DomainInvariant.OnScenarioCompletedKeeps | src/domain/domain_service.c:506-533 | so does the end of the scenario |
| DomainInvariant.OnScenarioErrorKeeps | src/domain/domain_service.c:541-555 | so does a scenario error |
| DomainInvariant.OnFeatureEventKeeps | src/domain/domain_service.c:563-584 | so does the final event with its callback |
| DomainInvariant.InputKeeps | src/domain/domain_service.c:769-812 | so does a new request, in a callback too |
| DomainInvariant.LoadKeeps | src/domain/domain_service.c:726-754 | so does swapping the catalog |
| DomainInvariant.TickKeeps | src/domain/domain_service.c:814-838 | so does the first start and the arming of a timeout |
| DomainInvariant.NextKeeps | src/domain/domain_service.c:269-843 | every enabled step keeps the invariant |
| DomainInvariant.RunKeepsInv | src/domain/domain_service.c:269-843 | in every run, with unit results in any order, every state satisfies the invariant and every step is safe |
| DomainInvariant.ExactlyOneMover | src/domain/domain_service.c:269-584 | a started running request has exactly one running step or chain event; otherwise none is pending, so none reaches a new request; a pending one names its request, scenario, sequence and step |
| DomainInvariant.ProgressIsExact | src/domain/domain_service.c:293-584 | issued inputs are a prefix of the flattened scenario, the completed count is the position, completion means all issued and all machines COMPLETED, at most one callback, an error is reported exactly with status ERROR |
| DomainTermination.ChoiceNears | src/domain/domain_service.c:269-843 | while a request runs, the control thread's next step is possible and brings it nearer to its end in a well-founded measure |
| DomainTermination.RunKeepsTimeout | src/domain/domain_service.c:416-434 | in every reachable state a timeout published for the running step is still queued |
| DomainTermination.EveryRequestEnds | src/domain/domain_service.c:269-843 | from every reachable state with a running request, process calls with an advancing clock alone end that same request, COMPLETED with everything issued or ERROR, even if no unit answers |
| DomainProgress.NeverFarther | src/domain/domain_service.c:269-843 | no step of the control thread or of a unit moves a running request away from its end |
| DomainProgress.OwedStays | src/domain/domain_service.c:814-843 | a call that is to deliver an event that moves the request on cannot end before it has |
| DomainProgress.DrivenCallOwes | src/domain/domain_service.c:814-843 | a process call that finds the deadline passed, a queued result or no running step moves the request on or owes it a move |
| DomainProgress.EveryScheduleEnds | src/domain/domain_service.c:269-843 | in every run, whatever units do in between, a request of n steps has ended before its (10n + 7)-th such call |
| DomainCauses.CausesKept | src/domain/domain_service.c:243-584 | every step keeps true that each queued or reported error has happened |
| DomainCauses.ErrorHasCause | src/domain/domain_service.c:243-584 | in every run an ERROR names what happened: a unit of the request refused, a deadline was found passed, a unit reported a failure with the step's request id, or the queue was full |
| DomainCauses.AnsweredRequestCompletes | src/domain/domain_service.c:269-843 | in every run in which, while an accepted request runs, units accept, no deadline passes, no unit fails and the queue has room, and enough process calls find something to do, the request ends COMPLETED with every step of its scenario issued |
| DomainCompletion.AcceptedRequestCanComplete | src/domain/domain_service.c:269-843 | from every reachable state that accepts a request with an empty queue, willing units and deadlines that fit, there is a run of answers and control steps to COMPLETED |
| DomainSteps.RunningStep | src/domain/domain_service.c:293-330 | in every run the running step carries its request's id plus its place in the scenario, in 32 bits, and its deadline is the clock of the process call that issued it plus its timeout, in 64 bits |
| DomainSteps.ResultTakenExactly | src/domain/domain_service.c:371-434 | a unit's completion or failure is taken if and only if a step runs and the result carries that step's request id; a completion counts one more step, a failure ends the sequence, anything else changes nothing |
| DomainSteps.EarlierResultIgnored | src/domain/domain_service.c:293-434 | in every run inputs of one request less than 2^32 places apart carry different ids, and a late or repeated result of an earlier one changes nothing |
| DomainRequests.CatalogAnswers | src/domain/domain_service.c:769-812 | with a catalog a request is accepted if and only if none runs, it is for feature A and some entry is for its condition; it runs that entry's scenario |
| DomainRequests.BuiltInExactly | src/domain/domain_workflow.c:11-108 | conditions 1 and 2 are built in: units 0 to 9 in this order and in reverse, in two sequences of five steps |
| DomainRequests.LoadedEntriesAnswer | src/domain/domain_service.c:726-812 | in every run, from a successful load until the next one, requests are accepted for exactly the loaded entries and run their scenarios under their own request ids |
| DomainRequests.BuiltInsAnswer | src/domain/domain_service.c:769-812 | in every run, before any load, conditions 1 and 2 of feature A are served, by the ten units in order and in reverse, and no others |
| DomainRequests.AnsweredEntryCompletes | src/domain/domain_service.c:269-843 | a request answered in time ends COMPLETED with exactly the steps of the loaded entry issued |
| DomainCallback.EndsExactly | src/domain/domain_service.c:243-584 | a running request ends with its final event, which calls control once if control listens, or with a publication refused by a full queue, without a call; no other step ends it or calls control |
| DomainCallback.ListensSince | src/domain/domain_service.c:756-767 | in every run control listens from the moment it set its handler |
| DomainService.Service.IssueStep | src/domain/domain_service.c:293-330 | the method computes `StartStep` |
| DomainService.Service.BeginSequence | src/domain/domain_service.c:338-363 | the method computes `StartSequence` |
| DomainService.Service.HandleUnitCompleted | src/domain/domain_service.c:371-408 | the method computes the handler's function |
| DomainService.Service.HandleFailure | src/domain/domain_service.c:416-434 | likewise |
| DomainService.Service.HandleSequenceCompleted | src/domain/domain_service.c:442-475 | likewise |
| DomainService.Service.HandleScenarioEvent | src/domain/domain_service.c:506-555 | likewise |
| DomainService.Service.HandleFeatureEvent | src/domain/domain_service.c:563-584 | likewise |
| DomainService.Service.SubmitInput | src/domain/domain_service.c:769-812 | result and new state of a request |
| DomainService.Service.InstallCatalog | src/domain/domain_service.c:726-754 | refused while running, otherwise swaps the catalog and drops old definitions |
| DomainService.Service.Process | src/domain/domain_service.c:814-843 | one process call, with results arriving between deliveries and a callback that may submit again, is a run of the transition system: the clock step, then at most 32 deliveries, fewer only when the queue is empty at the end |
| StateMachine.StaysInTable | foundation/event/src/utility_event_state_machine.c:216-246 | in every run the current state is in the table and the missing-state branches are dead |
| StateMachine.TakesFirstMatch | foundation/event/src/utility_event_state_machine.c:121-144 | busy exactly during a dispatch, not found exactly when no transition fires, otherwise the first that does is taken; exit and action hooks see the old state, entry hooks the new one |
| StateMachine.HooksExactly | foundation/event/src/utility_event_state_machine.c:216-270 | an external transition calls the exit hook of the state it leaves and the entry hook of the one it enters, any transition its action, each if it exists, once and in this order, and nothing else |
| StateMachine.RefusedCallsNothing | foundation/event/src/utility_event_state_machine.c:216-246 | a refused event changes nothing and calls no hook |
| StateMachineService.CheckStates | foundation/event/src/utility_event_state_machine.c:58-77 | the nested loops decide that ids are distinct and none is reserved |
| StateMachineService.CheckTransitions | foundation/event/src/utility_event_state_machine.c:88-112 | the loop decides that transitions refer to known states |
| StateMachineService.EventStateMachine.Init | foundation/event/src/utility_event_state_machine.c:170-200 | accepts exactly the valid tables with a known initial state |
| StateMachineService.EventStateMachine.Search | foundation/event/src/utility_event_state_machine.c:121-144 | the loop returns the first matching transition |
| StateMachineService.EventStateMachine.Dispatch | foundation/event/src/utility_event_state_machine.c:216-270 | new state, result and the hooks in order |
| RunnerMachine.SignalledIsDispatch | src/domain/domain_service.c:112-197 | a signal to a runner is a dispatch on the shared table, for all states and signals |
| RunnerMachine.RunnersStayInTable | src/domain/domain_service.c:112-197 | in every run of a runner's machine the state is one of the four and no dispatch meets a missing state |
| Arena.Decode | memory-buffer/src/buffer.rs:112-123 | a decoded index and generation are in range |
| Arena.FirstFit | memory-buffer/src/buffer.rs:146-174 | the least offset from a start that fits, none exactly when nothing fits |
| Arena.Context.FindRegion | memory-buffer/src/buffer.rs:146-174 | the moving-candidate loop terminates and returns that first fit |
| Arena.Context.AllocateBuffer | memory-buffer/src/buffer.rs:278-307 | slot, region and handle of an allocation, or the error |
| Arena.Context.FreeBuffer | memory-buffer/src/buffer.rs:319-336 | release, generation advance, refusal of stale and mapped handles |
| Arena.Context.WriteBuffer | memory-buffer/src/buffer.rs:352-384 | bytes changed, length raised, bounds refused |
| Arena.Context.ReadBuffer | memory-buffer/src/buffer.rs:400-431 | the bytes of the range within the length |
| Arena.Context.ChangeLength | memory-buffer/src/buffer.rs:446-467 | length within the capacity |
| Arena.Context.BufferInfo | memory-buffer/src/buffer.rs:481-506 | length, capacity and loan of a live buffer, refused for a stale handle |
| Arena.Context.MapBuffer | memory-buffer/src/buffer.rs:521-549 | an exclusive loan |
| Arena.Context.UnmapBuffer | memory-buffer/src/buffer.rs:562-576 | the end of a loan |
| Arena.Context.ResetBuffers | memory-buffer/src/buffer.rs:249-264 | all slots released and advanced, refused during a loan |
| ArenaRefinement.DecodeEncode | memory-buffer/src/buffer.rs:112-127 | decoding an encoded handle |
| ArenaRefinement.EncodeDecode | memory-buffer/src/buffer.rs:112-127 | encoding a decoded handle |
| ArenaRefinement.AcceptedHandles | memory-buffer/src/buffer.rs:129-136 | the handles accepted are exactly those of active slots |
| ArenaRefinement.LiveHandlesDistinct | memory-buffer/src/buffer.rs:125-144 | handles of different active slots differ |
| ArenaRefinement.AllocFailsExactly | memory-buffer/src/buffer.rs:278-307 | out of memory exactly when slots or fitting intervals run out |
| ArenaRefinement.AllocatesFirstFit | memory-buffer/src/buffer.rs:278-307 | an allocation takes the first of the 64 slots that is free and the lowest offset that fits; the handle names both slot and generation; nothing else changes |
| ArenaRefinement.StepRefines | memory-buffer/src/buffer.rs:249-576 | every call keeps regions disjoint and inside the arena and does to the map from handles to byte strings what the simple model does |
| ArenaRefinement.RunRefines | memory-buffer/src/buffer.rs:249-576 | the same over any run |
| ArenaRefinement.LoanPinsRegion | memory-buffer/src/buffer.rs:521-576 | over any run without its unmap, a mapped buffer keeps its slot unchanged |
| ArenaRefinement.AdvancedIsCyclic | memory-buffer/src/buffer.rs:138-144 | generations return to their start exactly after 2^24 - 1 advances |
| ArenaRefinement.GenerationAfter | memory-buffer/src/buffer.rs:249-336 | a slot's generation counts its frees and resets |
| ArenaRefinement.StaleHandleRefused | memory-buffer/src/buffer.rs:112-144 | a freed or reset handle is refused until 2^24 - 1 advances of its slot |
| ArenaInitialised.EmptyIsInitialised | memory-buffer/src/buffer.rs:205-237 | an arena without live buffers keeps the promise with an empty log, so runs may start there |
| ArenaInitialised.StepInitialised | memory-buffer/src/buffer.rs:352-467 | a log of writes stays true under every call, and a call keeps every readable byte written if and only if it is not a successful write or length change over bytes never written |
| ArenaInitialised.RunInitialised | memory-buffer/src/buffer.rs:249-576 | over any run the promise holds throughout if and only if no call exposes unwritten bytes |
| ArenaInitialised.ReadsWhatWasWritten | memory-buffer/src/buffer.rs:400-431 | while the promise holds, a read returns what was last written to each position |
| ArenaInitialised.GapIsBeyondLength | memory-buffer/src/buffer.rs:352-384 | on a buffer written without gaps, exactly a write that begins beyond the length breaks the promise |
| ArenaInitialised.GapIsReadAsItWas | memory-buffer/src/buffer.rs:352-431 | a byte in the gap is read as the arena held it before, for every arena, buffer and gap |
| ArenaInitialised.UnwrittenByteIsRead | memory-buffer/src/buffer.rs:352-431 | a concrete run from a fresh arena that reads a byte nobody wrote |
| EventBuffer.Envelopes.Make | foundation/event/src/utility_event_buffer.c:70-105 | allocate, write and own, with the rollback of a failed write |
| EventBuffer.Envelopes.ReleaseEnvelope | foundation/event/src/utility_event_buffer.c:107-123 | frees and clears, keeps the envelope when the buffer is on loan |
| EventBuffer.Envelopes.ReadEnvelope | foundation/event/src/utility_event_buffer.c:131-149 | the bytes, or the adapter's error |
| EventBuffer.Envelopes.PushEnvelope | foundation/event/src/utility_event_buffer.c:170-185 | moves into the tail and clears the source |
| EventBuffer.Envelopes.PopEnvelope | foundation/event/src/utility_event_buffer.c:187-203 | moves the head out |
| EventBuffer.Envelopes.ReleaseAllEnvelopes | foundation/event/src/utility_event_buffer.c:211-226 | the loop releases from the head and stops at an error |
| EventBufferConservation.CreateKeeps | foundation/event/src/utility_event_buffer.c:70-105 | conservation through creation |
| EventBufferConservation.PushKeeps | foundation/event/src/utility_event_buffer.c:170-185 | conservation through a push, which appends to the queue's contents |
| EventBufferConservation.PopKeeps | foundation/event/src/utility_event_buffer.c:187-203 | conservation through a pop, which removes the first of the contents |
| EventBufferConservation.ReleaseQueueKeeps | foundation/event/src/utility_event_buffer.c:211-226 | releasing all empties the queue, or stops at a loan and keeps the rest |
| EventBufferConservation.RunConserves | foundation/event/src/utility_event_buffer.c:61-226 | in every run live buffers are exactly the handles owned by envelopes, each owned once, with the bytes they were made with |
| EventBufferConservation.ReadReturnsMade | foundation/event/src/utility_event_buffer.c:131-149 | a consumer reads the producer's bytes |
| EventBufferOutcomes.CreateExactly | foundation/event/src/utility_event_buffer.c:70-105 | an envelope is created if and only if its cell is empty, there are bytes, and the arena has a slot and an interval for them; it owns a new buffer with the bytes, and nothing else changes |
| EventBufferOutcomes.PushExactly | foundation/event/src/utility_event_buffer.c:170-185 | a push succeeds if and only if the cell owns a buffer and the queue is not full; its envelope is then the last of the queue and the cell is empty |
| EventBufferOutcomes.PopExactly | foundation/event/src/utility_event_buffer.c:187-203 | a pop succeeds if and only if the cell is empty and the queue is not; the cell then owns the first of the queue |
| EventBufferOutcomes.ReleaseExactly | foundation/event/src/utility_event_buffer.c:107-123 | a release succeeds if and only if the cell owns a buffer that is not on loan, and frees exactly that one |
| EventBufferOutcomes.ReleaseAllExactly | foundation/event/src/utility_event_buffer.c:211-226 | releasing the queue frees its envelopes up to the first on loan and keeps the rest in order; Ok exactly when none is on loan |
| EventBufferJourney.HeldOrReleased | foundation/event/src/utility_event_buffer.c:61-226 | after any call a held envelope is still held by one cell, unless that call was asked to release it |
| EventBufferJourney.FromProducerToConsumer | foundation/event/src/utility_event_buffer.c:61-226 | an envelope created in a run and not freed is owned by exactly one cell later on, with its ids, and reads the bytes it was created with |
| EventQueue.Queue.Push | foundation/event/src/utility_event_queue.c:41-60 | appends, or Full exactly at capacity |
| EventQueue.Queue.Pop | foundation/event/src/utility_event_queue.c:62-77 | removes the first, or Empty |
| EventQueue.Queue.Peek | foundation/event/src/utility_event_queue.c:79-92 | returns the first without removing it |
| EventQueue.Queue.Clear | foundation/event/src/utility_event_queue.c:94-104 | empties |
| Ring.Pushed | foundation/event/src/utility_event_queue.c:56-58 | writing at the tail of a ring appends to its contents |
| Ring.Popped | foundation/event/src/utility_event_queue.c:73-75 | advancing the head removes the first of its contents |
| PublisherModel.FirstFree | foundation/event/src/utility_event_publisher.c:70-79 | the first free slot |
| PublisherModel.SlotAt | foundation/event/src/utility_event_publisher.c:88-99 | the first slot at an address |
| PublisherSafety.PublishKeeps | foundation/event/src/utility_event_publisher.c:162-214 | publishing at any moment keeps one-to-one slot ownership and the bytes of all events on their way |
| PublisherSafety.TakeKeeps | foundation/event/src/utility_event_publisher.c:224-243 | taking an event keeps the invariant and never meets a bad slot |
| PublisherSafety.SettleKeeps | foundation/event/src/utility_event_publisher.c:251-260 | the end of a delivery releases exactly its slot |
| PublisherSafety.DeliveredOnceInOrder | foundation/event/src/utility_event_publisher.c:162-317 | in every interleaving accepted events are the delivered ones followed by those on their way, with their bytes; occupied slots are those of the events on their way |
| PublisherSafety.AcceptedExactly | foundation/event/src/utility_event_publisher.c:162-214 | when a publish succeeds, as an if-and-only-if over size, queue and payload events on their way |
| PublisherSafety.BeginsExactly | foundation/event/src/utility_event_publisher.c:279-300 | a dispatch without budget or within another one is refused and changes nothing |
| PublisherSafety.DispatchIsARun | foundation/event/src/utility_event_publisher.c:279-317 | the dispatch loop is a run, delivers as many events as it reports, and stops early only on an empty queue |
| PublisherService.Publisher.PublishCopy | foundation/event/src/utility_event_publisher.c:162-214 | memory, flags and queue after a publish |
| PublisherService.Publisher.PopEvent | foundation/event/src/utility_event_publisher.c:224-243 | the popped event with its slot, or the error branch |
| PublisherService.Publisher.ReleaseSlot | foundation/event/src/utility_event_publisher.c:251-260 | clears one flag |
| PublisherService.Publisher.Dispatch | foundation/event/src/utility_event_publisher.c:279-317 | the loop computes `DispatchLoop`; re-entry returns Busy and changes nothing |
| Dispatcher.ChangesKeep | foundation/event/src/utility_event_dispatcher.c:41-119 | no subscription is held twice and the count is exact |
| Dispatcher.SubscribeAddsOneCall | foundation/event/src/utility_event_dispatcher.c:41-87 | a subscription adds one call to the events it hears, in place, and changes no other event |
| Dispatcher.UnsubscribeUndoes | foundation/event/src/utility_event_dispatcher.c:89-119 | unsubscribing restores the calls of every event |
| Dispatcher.ChangesExactly | foundation/event/src/utility_event_dispatcher.c:43-119 | outside a dispatch a subscription is taken if it is not held and a slot is left, and given back if it is held; no other comes or goes |
| Dispatcher.CalledInSlotOrder | foundation/event/src/utility_event_dispatcher.c:121-159 | an event calls each subscription of its id or of any id once, in slot order |
| Dispatcher.DispatchedExactly | foundation/event/src/utility_event_dispatcher.c:121-159 | busy exactly within a dispatch, not found exactly when no slot hears the event |
| DispatcherService.EventDispatcher.Subscribe | foundation/event/src/utility_event_dispatcher.c:41-87 | the single pass finds the duplicate or the first vacant slot |
| DispatcherService.EventDispatcher.Unsubscribe | foundation/event/src/utility_event_dispatcher.c:89-119 | removes the one match |
| DispatcherService.EventDispatcher.Dispatch | foundation/event/src/utility_event_dispatcher.c:121-159 | calls exactly the matching handlers in slot order |
| TimerLaws.NextDeadlineIsLeast | foundation/event/src/utility_event_timer.c:117-134 | the next deadline is the least one after now a whole number of periods on; the timer stops exactly when it exceeds 64 bits |
| TimerLaws.EmitsDueInOrder | foundation/event/src/utility_event_timer.c:234-279 | emitted are the due events in slot order as far as they fit; Full exactly when one does not |
| TimerLaws.OkLeavesNothingDue | foundation/event/src/utility_event_timer.c:234-279 | after Ok no active deadline is at or before now |
| TimerPeriods.LeastPointIsLeast | foundation/event/src/utility_event_timer.c:117-134 | the point the schedule demands is a whole number of periods on, later than now, and the least such |
| TimerPeriods.FiredExactly | foundation/event/src/utility_event_timer.c:258-272 | a timer that fires is cleared when one-shot or when its next point exceeds 64 bits, otherwise it moves to that point and stays the same otherwise |
| TimerPeriods.ProcessOutcome | foundation/event/src/utility_event_timer.c:234-279 | the outcome of a call for every slot: due timers before the stop have fired, all others are untouched; the stop is the end exactly on Ok |
| TimerPeriods.RunKeepsTimely | foundation/event/src/utility_event_timer.c:154-279 | in every run with a clock that never goes back, a periodic timer that has fired is due within one period of the clock, and a timer asked for and not cancelled is active unless it has nothing left to fire |
| TimerPeriods.InitialTimely | foundation/event/src/utility_event_timer.c:136-152 | a new scheduler may start such a run at any clock |
| TimerPeriods.OkSettles | foundation/event/src/utility_event_timer.c:234-279 | by a call that returns Ok each active timer moves to the least point after now on the schedule that was asked for, or is dropped if it is a one-shot that has fired or that point exceeds 64 bits |
| TimerPeriods.OkLeavesNextPoints | foundation/event/src/utility_event_timer.c:117-279 | in every such run of a new scheduler, after Ok exactly the timers asked for and not cancelled that are still to fire are active, each with the event and period asked for, a one-shot at its first deadline and a periodic one at the least later point of its schedule |
| TimerPeriods.ClockMustNotGoBack | foundation/event/src/utility_event_timer.c:234-279 | a concrete timer that is not on the least point when the clock goes back |
| TimerLaws.ResumeFrom | foundation/event/src/utility_event_timer.c:234-279 | a stopped call and its resumption are one call with both rooms |
| TimerLaws.RepeatedCallsAreOne | foundation/event/src/utility_event_timer.c:234-279 | calls at one tick repeated until Ok emit and leave what one unlimited call does |
| TimerLaws.NextKeeps | foundation/event/src/utility_event_timer.c:154-279 | every call keeps count, distinct ids, and each timer's event, period and schedule as asked |
| TimerLaws.RunKeeps | foundation/event/src/utility_event_timer.c:154-279 | in every run the count is exact, active ids are distinct, and every active timer has the event and period it was last started or restarted with and a deadline that is its first one plus whole periods |
| TimerLaws.ResultsExactly | foundation/event/src/utility_event_timer.c:154-232 | when starting, restarting and cancelling succeed and which error they give, by the ids that are active, the slots left and the 64-bit range |
| TimerLaws.OthersStay | foundation/event/src/utility_event_timer.c:154-232 | these calls leave every timer with another id as it was |
| TimerLaws.StartAddsOneEvent | foundation/event/src/utility_event_timer.c:154-232 | a started timer adds exactly its event to what is due from its deadline on and nothing earlier; cancelling restores what is due at every tick |
| TimerLaws.EarliestIsLeast | foundation/event/src/utility_event_timer.c:287-312 | the search returns the least active deadline, or that there is none |
| TimerLaws.DueWhenDeadlinePassed | foundation/event/src/utility_event_timer.c:234-312 | a process call emits exactly when the next deadline has come |
| TimerService.TimerScheduler.Start | foundation/event/src/utility_event_timer.c:154-183 | new slots or the error |
| TimerService.TimerScheduler.Restart | foundation/event/src/utility_event_timer.c:185-210 | likewise |
| TimerService.TimerScheduler.Cancel | foundation/event/src/utility_event_timer.c:212-232 | likewise |
| TimerService.TimerScheduler.Process | foundation/event/src/utility_event_timer.c:234-279 | the loop over slots and queue computes `Process`; the queue gains exactly the emitted events |
| TimerService.TimerScheduler.NextDeadlineOf | foundation/event/src/utility_event_timer.c:287-312 | the loop computes the least active deadline |
| ThreadPoolSafety.LookKeepsPhases | foundation/thread_pool/src/utility_thread_pool.c:55-78 | a worker's look under the lock keeps the invariant and never takes from an empty queue |
| ThreadPoolSafety.SubmitKeeps | foundation/thread_pool/src/utility_thread_pool.c:135-162 | so does a submission with its signal |
| ThreadPoolSafety.ShutKeeps | foundation/thread_pool/src/utility_thread_pool.c:171-196 | so does a shutdown with its broadcast |
| ThreadPoolSafety.NextKeeps | foundation/thread_pool/src/utility_thread_pool.c:55-230 | so does every step |
| ThreadPoolSafety.StartInSubmitOrder | foundation/thread_pool/src/utility_thread_pool.c:55-162 | in every interleaving started jobs are a prefix of the accepted ones |
| ThreadPoolSafety.AcceptedExactly | foundation/thread_pool/src/utility_thread_pool.c:135-162 | in every run a job is accepted if and only if no shutdown was asked for and fewer accepted jobs than places wait to start; it is then the last accepted; otherwise nothing changes |
| ThreadPoolSafety.ShutdownExactly | foundation/thread_pool/src/utility_thread_pool.c:171-208 | in every run the first shutdown is accepted and every later one refused; a drain discards nothing, a stop all that waits |
| ThreadPoolSafety.DrainRunsEveryJob | foundation/thread_pool/src/utility_thread_pool.c:55-230 | when joined after a drain, exactly the accepted jobs ran, each once; otherwise accepted jobs split into run and discarded |
| ThreadPoolSafety.StoppedStartsNothing | foundation/thread_pool/src/utility_thread_pool.c:171-208 | after an immediate shutdown no further job starts or is accepted, in any run |
| ThreadPoolSafety.NoLostWakeup | foundation/thread_pool/src/utility_thread_pool.c:55-196 | as many workers are awake as there are queued jobs or workers; after a shutdown none waits |
| ThreadPoolSafety.WorkerStepsAreBounded | foundation/thread_pool/src/utility_thread_pool.c:55-78 | after a shutdown every run takes as many worker steps as the rank falls |
| ThreadPoolSafety.ShutPoolCanMove | foundation/thread_pool/src/utility_thread_pool.c:55-78 | some worker can move exactly while not all have exited |
| ThreadPoolSafety.ShutdownCompletes | foundation/thread_pool/src/utility_thread_pool.c:55-230 | from every shut-down state workers and joiner alone reach JOINED, in a number of steps that is computed |
| ThreadPoolService.JoinStopsAtFailure | foundation/thread_pool/src/utility_thread_pool.c:210-230 | join is Ok exactly when every remaining thread joins, and stops before the first that does not |
| ThreadPoolService.SpawnAll | foundation/thread_pool/src/utility_thread_pool.c:123-132 | spawning all workers gives the pool that a successful init returns |
| ThreadPoolService.ThreadPool.Submit | foundation/thread_pool/src/utility_thread_pool.c:135-162 | the ring gains the job, or the error; an uninitialised or destroyed pool is an invalid argument |
| ThreadPoolService.ThreadPool.Inspect | foundation/thread_pool/src/utility_thread_pool.c:60-74 | wait, exit or the oldest job |
| ThreadPoolService.ThreadPool.Shutdown | foundation/thread_pool/src/utility_thread_pool.c:171-196 | new state, queue emptied when stopping, or the error |
| ThreadPoolService.ThreadPool.Join | foundation/thread_pool/src/utility_thread_pool.c:210-230 | the loop computes `JoinLoop`; the wrong state or no pool is refused unchanged |
| ThreadPoolService.ThreadPool.Destroy | foundation/thread_pool/src/utility_thread_pool.c:232-255 | when it succeeds and what a failure leaves |
| ThreadPoolService.ThreadPool.Init | foundation/thread_pool/src/utility_thread_pool.c:96-133 | succeeds exactly when all primitives and threads start; a failure leaves no running pool, and none at all if what was made can be joined and destroyed |
| Calendar.CountsDayByDay | foundation/time/src/utility_time_rfc3339.c:84-112 | the day number is day-by-day counting from the epoch under the leap and month rules |
| Calendar.DateOf | foundation/time/src/utility_time_rfc3339.c:50-76 | every day number belongs to a date |
| Calendar.DayNumberIncreases | foundation/time/src/utility_time_rfc3339.c:24-40 | dates and day numbers are in the same strict order, both directions |
| Calendar.DaysFromCivilCounts | foundation/time/src/utility_time_rfc3339.c:24-40 | the closed form equals the count for every date of every year |
| Calendar.YearOfEraInverts | foundation/time/src/utility_time_rfc3339.c:65-68 | the year within the 400-year era is recovered from every day of the era |
| Calendar.CivilInvertsDays | foundation/time/src/utility_time_rfc3339.c:50-76 | the date is recovered from its day number without overflow if and only if its year and the year begun in March fit `int`; month and day always |
| Calendar.YearBeyondInt | foundation/time/src/utility_time_rfc3339.c:69-75 | a concrete date whose year is not recovered |
| Calendar.DaysInvertCivil | foundation/time/src/utility_time_rfc3339.c:24-76 | the day number is recovered from its date, with the same condition |
| Rfc3339.ValidDate | foundation/time/src/utility_time_rfc3339.c:97-112 | accepts exactly the dates of years 1 to 9999 |
| Rfc3339.TextIsParsed | foundation/time/src/utility_time_rfc3339.c:245-277 | every timestamp of the profile is parsed to the instant it names |
| Rfc3339.ParsedIsText | foundation/time/src/utility_time_rfc3339.c:245-277 | every parsed text is a timestamp of the profile |
| Rfc3339.AcceptsExactlyTheProfile | foundation/time/src/utility_time_rfc3339.c:245-277 | a text is parsed to an instant if and only if it spells it: section 5.6 of RFC 3339 with Z, and 0 or 1 to 9 fraction digits |
| Rfc3339RoundTrip.RangeIsYears | foundation/time/src/utility_time_rfc3339.c:11-14 | the range constants are exactly the years 1 to 9999 |
| Rfc3339RoundTrip.FitsWhenPrinted | foundation/time/src/utility_time_rfc3339.c:225-235 | the years the printer converts fit `int` |
| Rfc3339RoundTrip.StampNamesInstant | foundation/time/src/utility_time_rfc3339.c:229-241 | the printed fields name the instant |
| Rfc3339RoundTrip.ParseOfFormat | foundation/time/src/utility_time_rfc3339.c:208-277 | parsing a printed instant returns it, for the whole range, in 30 characters |
| Rfc3339RoundTrip.FormatOfParse | foundation/time/src/utility_time_rfc3339.c:208-277 | printing what a 30-character timestamp names returns the timestamp |
| Rfc3339Service.ParseDigits | foundation/time/src/utility_time_rfc3339.c:122-134 | the loop reads the digits' number without overflow |
| Rfc3339Service.PadFraction | foundation/time/src/utility_time_rfc3339.c:196-199 | the loop scales a fraction to nanoseconds without overflow |
| Rfc3339Service.ParseFractionAndZone | foundation/time/src/utility_time_rfc3339.c:175-206 | the loops accept 0 or 1 to 9 digits and a final Z |
| Rfc3339Service.Parse | foundation/time/src/utility_time_rfc3339.c:245-277 | result and instant; the output is untouched on failure |
| Rfc3339Service.Format | foundation/time/src/utility_time_rfc3339.c:208-243 | the buffer holds the text and its NUL, the errors in their order |
| TimeTypes.CorrectedRoundsDown | foundation/time/src/utility_time.c:24-29 | truncated division with the correction rounds down |
| UtcTimeLaws.AddIsExact | foundation/time/src/utility_time.c:221-309 | the exact sum if and only if it fits, no operation wrapping |
| UtcTimeLaws.SubtractIsExact | foundation/time/src/utility_time.c:268-337 | likewise for subtraction |
| UtcTimeLaws.DifferenceIsExact | foundation/time/src/utility_time.c:268-365 | likewise for differences |
| UtcTimeLaws.StartPlusDifference | foundation/time/src/utility_time.c:291-365 | start plus (end minus start) is end, and end minus it is start |
| UtcTimeLaws.AddThenSubtract | foundation/time/src/utility_time.c:291-365 | subtraction and difference undo addition |
| UtcTimeLaws.CompareIsSign | foundation/time/src/utility_time.c:367-384 | comparison is the sign of the exact difference |
| UtcTimeLaws.InvalidExactly | foundation/time/src/utility_time.c:291-384 | an invalid argument is reported exactly for nanoseconds out of range |
| UtcTimeLaws.ToUnitsRoundsDown | foundation/time/src/utility_time.c:44-66 | conversion rounds down and is refused exactly outside the stated range |
| UtcTimeLaws.FromUnitsIsExact | foundation/time/src/utility_time.c:99-112 | conversion from units is exact |
| UtcTimeLaws.UnitsRoundTrip | foundation/time/src/utility_time.c:18-184 | from units and back is the identity exactly from the least convertible value on, refused below |
| UtcTimeLaws.DurationRoundTrip | foundation/time/src/utility_time.c:186-209 | the same for durations |
| UtcTimeLaws.SomeValuesAreRefused | foundation/time/src/utility_time.c:56-59 | in every unit there are values that convert in and not back |

## Left out

- WorkflowRender.LoadableExactly: speaks of all texts; the loader also refuses files that are empty or larger than one megabyte, cannot be read, or exhaust the heap.
- JsonValidator.ValidateComposite: one method with a flag stands for the source's array and object validators, which are the same loop but for the key.
- WorkflowLoader.ParseSteps: allocation always succeeds; partially built catalogs and their release are not modelled.
- WorkflowReading.NumberRead: `strtoull` is modelled on tokens only, which hold no blanks and no NUL.
- DomainService.Service.Process: a callback that calls process again is not modelled; it may submit requests, load catalogs and set the handler. Deadlines wrap at 64 bits as in the source.
- DomainInvariant.RunKeepsInv: a timeout is not claimed to belong to the step that armed it, because the source does not match it to a request id. Unit threads, their delays and logging are an environment that may answer or refuse at any time.
- Arena.Context.FindRegion: offsets in an array of bytes stand for pointers; alignment, the context's magic number, the check that storage and arena do not overlap, and copies within the arena are not modelled.
- EventBuffer.Envelopes.Make: envelopes are cells of one memory, so an index is an address; only one pool exists.
- ThreadPoolService.ThreadPool.Inspect: asks that a worker never finds nothing to take, which `ThreadPoolSafety.NoLostWakeup` proves in every reachable state. The wait inside a worker's loop is a step of the protocol, not of the method. Failing mutex locks are not modelled, and a join from inside a job is not.
- PublisherService.Publisher.Dispatch: handlers are what they publish and the payload they see; which of them run is the dispatcher's part.
- WorkflowNames.LoadReadsByName: one direction; a mistaken value that no lookup meets, or in a part the loader rejects anyway, changes nothing, and `WorkflowLookup.LookupExactly` is the exact condition of each lookup.
- TimerLaws.RunKeeps: the `processing` flag is never seen set, because a queue push calls nothing back.
- Calendar.DaysFromCivilCounts: years are unbounded; the overflow of 64-bit intermediate values for years beyond some 25 thousand million millions is not modelled.
- Rfc3339Service.Format: `snprintf` is a function that prints zero-padded decimals.
- StateMachineService.EventStateMachine.Dispatch: guards are the set of those that pass; hooks are recorded, not run; trace output is not modelled.
- Null-pointer arguments, sizes of storage areas and the lock callbacks of the publisher are not modelled.
- Logger, trace, metrics, contract registry, id generator, byte reader and writer, retry, executor, Linux clock and time service: thin, or only easy members.
