/**
 The runners' table: what the workflow model calls `Signalled` is a dispatch on this table.
 */
module RunnerMachine {
  import opened Wrappers
  import opened StateMachine
  import DomainModel

  function StateId(machine: DomainModel.Machine): nat {
    match machine
    case Idle => 1
    case Running => 2
    case Completed => 3
    case Error => 4
  }

  function SignalId(signal: DomainModel.Signal): nat {
    match signal
    case Start => 1
    case Complete => 2
    case Fail => 3
  }

  function Step(from: DomainModel.Machine, signal: DomainModel.Signal, to: DomainModel.Machine): Transition {
    Transition(StateId(from), SignalId(signal), StateId(to), None, None, false)
  }

  const RUNNER_STATES: seq<StateEntry> := [
    StateEntry(1, None, None), StateEntry(2, None, None), StateEntry(3, None, None), StateEntry(4, None, None)
  ]

  const RUNNER_TRANSITIONS: seq<Transition> := [
    Step(DomainModel.Idle, DomainModel.Start, DomainModel.Running),
    Step(DomainModel.Running, DomainModel.Complete, DomainModel.Completed),
    Step(DomainModel.Running, DomainModel.Fail, DomainModel.Error)
  ]

  function Runner(machine: DomainModel.Machine): Machine {
    Machine(RUNNER_STATES, RUNNER_TRANSITIONS, StateId(machine), false)
  }

  lemma KnownState(id: nat)
    requires 1 <= id <= 4
    ensures Known(RUNNER_STATES, id)
  {
    assert RUNNER_STATES[id - 1].id == id;
  }

  lemma RunnerIsUsable(machine: DomainModel.Machine)
    ensures Usable(Runner(machine))
  {
    KnownState(1);
    KnownState(2);
    KnownState(3);
    KnownState(4);
    hide Known;
  }

  /** The table row for a signal, or 3. */
  function RowOf(machine: DomainModel.Machine, signal: DomainModel.Signal): nat {
    match (machine, signal)
    case (Idle, Start) => 0
    case (Running, Complete) => 1
    case (Running, Fail) => 2
    case _ => 3
  }

  lemma RowMatches(machine: DomainModel.Machine, signal: DomainModel.Signal, passing: set<nat>, i: nat)
    requires i < 3
    ensures Matches(RUNNER_TRANSITIONS[i], StateId(machine), SignalId(signal), passing) <==> RowOf(machine, signal) == i
  {
  }

  lemma RowFound(machine: DomainModel.Machine, signal: DomainModel.Signal, passing: set<nat>)
    ensures FindTransition(Runner(machine), SignalId(signal), passing, 0) == RowOf(machine, signal)
  {
    hide Matches, FindTransition;
    RowMatches(machine, signal, passing, 0);
    RowMatches(machine, signal, passing, 1);
    RowMatches(machine, signal, passing, 2);
    assert |RUNNER_TRANSITIONS| == 3;
  }

  /** A row's target is what `Signalled` gives, and no row calls anything. */
  lemma RowTarget(machine: DomainModel.Machine, signal: DomainModel.Signal)
    requires RowOf(machine, signal) < 3
    ensures DomainModel.Signalled(machine, signal).Some?
    ensures var t := RUNNER_TRANSITIONS[RowOf(machine, signal)];
            && t.to == StateId(DomainModel.Signalled(machine, signal).value)
            && Known(RUNNER_STATES, StateId(machine)) && Known(RUNNER_STATES, t.to)
            && Calls(Runner(machine), t) == []
  {
    KnownState(StateId(machine));
    KnownState(StateId(DomainModel.Signalled(machine, signal).value));
    NoHooks(FindState(RUNNER_STATES, StateId(machine), 0));
    NoHooks(FindState(RUNNER_STATES, RUNNER_TRANSITIONS[RowOf(machine, signal)].to, 0));
    hide Known, FindState;
  }

  lemma NoHooks(i: nat)
    requires i < |RUNNER_STATES|
    ensures RUNNER_STATES[i].entry == None && RUNNER_STATES[i].exit == None
  {
  }

  /** A signal moves the runner's machine exactly as `Signalled` says, and calls nothing. */
  lemma SignalledIsDispatch(machine: DomainModel.Machine, signal: DomainModel.Signal, passing: set<nat>)
    ensures Dispatched(Runner(machine), SignalId(signal), passing) ==
            match DomainModel.Signalled(machine, signal)
            case Some(next) => (Runner(next), Ok, [])
            case None => (Runner(machine), NotFound, [])
  {
    hide FindTransition, FindState, Calls, Matches;
    KnownState(StateId(machine));
    RowFound(machine, signal, passing);
    if RowOf(machine, signal) < 3 {
      RowTarget(machine, signal);
    }
  }

  /** A runner's machine never leaves its four states, and no signal finds a missing one. */
  lemma RunnersStayInTable(machine: DomainModel.Machine, inputs: seq<Input>, next: Input)
    ensures var m := AfterAll(Runner(machine), inputs);
            && Known(RUNNER_STATES, m.current) && m.states == RUNNER_STATES && !m.dispatching
            && (Dispatched(m, next.event, next.passing).1 == Ok || Dispatched(m, next.event, next.passing).1 == NotFound)
  {
    hide AfterAll, Known, Dispatched;
    RunnerIsUsable(machine);
    StaysInTable(Runner(machine), inputs, next);
  }
}
