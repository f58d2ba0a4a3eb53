/**
 The table-driven state machine (`utility_event_state_machine.c`).
 */
module StateMachine {
  import opened Wrappers

  const ANY: nat := 0xffff_ffff

  /** Hooks, guards and actions are numbered; `None` is a null function pointer. */
  datatype StateEntry = StateEntry(id: nat, entry: Option<nat>, exit: Option<nat>)

  datatype Transition = Transition(from: nat, event: nat, to: nat, guard: Option<nat>, action: Option<nat>, isInternal: bool)

  datatype Machine = Machine(states: seq<StateEntry>, transitions: seq<Transition>, current: nat, dispatching: bool)

  datatype Result = Ok | InvalidArgument | NotFound | Busy

  /** A call out of the machine: the hook and the state that `current_state` reports to it. */
  datatype Hook = Hook(kind: HookKind, hook: nat, current: nat)

  datatype HookKind = OnExit | OnTransition | OnEntry

  // ----- Table searches -----

  function FindState(states: seq<StateEntry>, id: nat, k: nat): (at: nat)
    requires k <= |states|
    ensures k <= at <= |states|
    ensures at < |states| ==> states[at].id == id
    ensures forall i :: k <= i < at ==> states[i].id != id
    decreases |states| - k
  {
    if k < |states| && states[k].id != id then FindState(states, id, k + 1) else k
  }

  predicate Known(states: seq<StateEntry>, id: nat) {
    FindState(states, id, 0) < |states|
  }

  /** `passing` holds the guards that let the event through. */
  predicate Matches(t: Transition, current: nat, event: nat, passing: set<nat>) {
    (t.from == current || t.from == ANY) && (t.event == event || t.event == ANY) && (t.guard == None || t.guard.value in passing)
  }

  function FindTransition(m: Machine, event: nat, passing: set<nat>, k: nat): (at: nat)
    requires k <= |m.transitions|
    ensures k <= at <= |m.transitions|
    ensures at < |m.transitions| ==> Matches(m.transitions[at], m.current, event, passing)
    ensures forall i :: k <= i < at ==> !Matches(m.transitions[i], m.current, event, passing)
    decreases |m.transitions| - k
  {
    if k < |m.transitions| && !Matches(m.transitions[k], m.current, event, passing) then FindTransition(m, event, passing, k + 1)
    else k
  }

  // ----- Tables that init accepts -----

  predicate StatesValid(states: seq<StateEntry>) {
    && states != []
    && (forall i :: 0 <= i < |states| ==> states[i].id != ANY)
    && (forall i, j :: 0 <= i < j < |states| ==> states[i].id != states[j].id)
  }

  predicate TransitionValid(states: seq<StateEntry>, t: Transition) {
    (t.from == ANY || Known(states, t.from)) && Known(states, t.to)
  }

  predicate TablesValid(states: seq<StateEntry>, transitions: seq<Transition>) {
    && StatesValid(states) && transitions != []
    && forall i :: 0 <= i < |transitions| ==> TransitionValid(states, transitions[i])
  }

  predicate Usable(m: Machine) {
    TablesValid(m.states, m.transitions) && Known(m.states, m.current)
  }

  // ----- Dispatch -----

  function Called(hook: Option<nat>, kind: HookKind, current: nat): seq<Hook> {
    if hook == None then [] else [Hook(kind, hook.value, current)]
  }

  /** The calls of a transition, in order; an internal one skips exit and entry. */
  function Calls(m: Machine, t: Transition): seq<Hook>
    requires Known(m.states, m.current) && Known(m.states, t.to)
  {
    var leaving := m.states[FindState(m.states, m.current, 0)].exit;
    var entering := m.states[FindState(m.states, t.to, 0)].entry;
    (if t.isInternal then [] else Called(leaving, OnExit, m.current))
    + Called(t.action, OnTransition, m.current)
    + (if t.isInternal then [] else Called(entering, OnEntry, t.to))
  }

  function Dispatched(m: Machine, event: nat, passing: set<nat>): (Machine, Result, seq<Hook>) {
    if m.states == [] || m.transitions == [] || !Known(m.states, m.current) then (m, InvalidArgument, [])
    else if m.dispatching then (m, Busy, [])
    else
      var at := FindTransition(m, event, passing, 0);
      if at == |m.transitions| then (m, NotFound, [])
      else
        var t := m.transitions[at];
        if !Known(m.states, t.to) then (m, InvalidArgument, [])
        else (m.(current := t.to), Ok, Calls(m, t))
  }

  // ----- Laws -----

  datatype Input = Input(event: nat, passing: set<nat>)

  function AfterAll(m: Machine, inputs: seq<Input>): Machine
    decreases |inputs|
  {
    if inputs == [] then m else AfterAll(Dispatched(m, inputs[0].event, inputs[0].passing).0, inputs[1..])
  }

  /**
   In every run of an initialised machine the current state stays in the table, and the
   branches for a missing state are never taken.
   */
  lemma {:induction false} StaysInTable(m: Machine, inputs: seq<Input>, next: Input)
    requires Usable(m) && !m.dispatching
    ensures var n := AfterAll(m, inputs);
            && Usable(n) && !n.dispatching && n.states == m.states && n.transitions == m.transitions
            && (Dispatched(n, next.event, next.passing).1 == Ok || Dispatched(n, next.event, next.passing).1 == NotFound)
    decreases |inputs|
  {
    if inputs != [] {
      StaysInTable(Dispatched(m, inputs[0].event, inputs[0].passing).0, inputs[1..], next);
    } else {
      var at := FindTransition(m, next.event, next.passing, 0);
      assert at < |m.transitions| ==> TransitionValid(m.states, m.transitions[at]);
    }
  }

  /** From this state, or from any; on this event, or on any; past its guard, if it has one. */
  predicate Fires(t: Transition, current: nat, event: nat, passing: set<nat>) {
    && (t.from == current || t.from == 0xffff_ffff) && (t.event == event || t.event == 0xffff_ffff)
    && (t.guard.Some? ==> t.guard.value in passing)
  }

  predicate IsFirst(m: Machine, event: nat, passing: set<nat>, i: nat) {
    && i < |m.transitions| && Fires(m.transitions[i], m.current, event, passing)
    && forall j :: 0 <= j < i ==> !Fires(m.transitions[j], m.current, event, passing)
  }

  /**
   A usable machine refuses an event exactly when it is dispatching already or no transition
   fires; otherwise it takes the first that does, in registration order, and each hook sees the
   state it belongs to.
   */
  lemma TakesFirstMatch(m: Machine, event: nat, passing: set<nat>)
    requires Usable(m)
    ensures var (next, result, calls) := Dispatched(m, event, passing);
            && (result == Busy <==> m.dispatching)
            && (result == NotFound <==> !m.dispatching && forall i :: 0 <= i < |m.transitions| ==>
                                          !Fires(m.transitions[i], m.current, event, passing))
            && (result == Ok <==> !m.dispatching && exists i: nat :: IsFirst(m, event, passing, i))
            && (result == Ok ==> exists i: nat :: IsFirst(m, event, passing, i) && next == m.(current := m.transitions[i].to))
            && (forall c :: c in calls ==> c.current == if c.kind == OnEntry then next.current else m.current)
  {
    var at := FindTransition(m, event, passing, 0);
    assert forall t: Transition :: Matches(t, m.current, event, passing) <==> Fires(t, m.current, event, passing);
    if at < |m.transitions| {
      assert TransitionValid(m.states, m.transitions[at]);
      assert IsFirst(m, event, passing, at);
    }
    hide Matches, Fires, TransitionValid;
  }

  /** What an existing hook adds to the calls. */
  predicate CalledOnce(calls: seq<Hook>, kind: HookKind, hook: Option<nat>) {
    if hook == None then forall c :: c in calls ==> c.kind != kind
    else exists c :: c in calls && c.kind == kind && c.hook == hook.value
  }

  function Rank(kind: HookKind): nat {
    match kind
    case OnExit => 0
    case OnTransition => 1
    case OnEntry => 2
  }

  /**
   The calls of an event: a refused event calls nothing. The first matching transition calls
   its action, if it has one; if it is external, before that the exit hook of the state it
   leaves and after that the entry hook of the state it enters, as far as these exist. Nothing
   is called twice, and nothing else is called.
   */
  lemma HooksExactly(m: Machine, event: nat, passing: set<nat>, i: nat, from: nat, to: nat)
    requires Usable(m) && !m.dispatching
    requires IsFirst(m, event, passing, i)
    requires from < |m.states| && m.states[from].id == m.current
    requires to < |m.states| && m.states[to].id == m.transitions[i].to
    ensures var t, calls := m.transitions[i], Dispatched(m, event, passing).2;
            && CalledOnce(calls, OnExit, if t.isInternal then None else m.states[from].exit)
            && CalledOnce(calls, OnTransition, t.action)
            && CalledOnce(calls, OnEntry, if t.isInternal then None else m.states[to].entry)
            && forall k, l :: 0 <= k < l < |calls| ==> Rank(calls[k].kind) < Rank(calls[l].kind)
  {
    var t := m.transitions[i];
    assert TransitionValid(m.states, t);
    assert forall u: Transition :: Matches(u, m.current, event, passing) <==> Fires(u, m.current, event, passing);
    assert FindTransition(m, event, passing, 0) == i;
    SameState(m.states, from, FindState(m.states, m.current, 0));
    SameState(m.states, to, FindState(m.states, t.to, 0));
    hide Usable, FindState, FindTransition, Known, Matches, Fires, Called, CalledOnce;
    var exit := if t.isInternal then None else m.states[from].exit;
    var entry := if t.isInternal then None else m.states[to].entry;
    assert Called(None, OnExit, m.current) == [] == Called(None, OnEntry, t.to) by {
      NoCall(OnExit, m.current);
      NoCall(OnEntry, t.to);
    }
    AtMostThree(exit, t.action, entry, m.current, t.to);
  }

  lemma NoCall(kind: HookKind, current: nat)
    ensures Called(None, kind, current) == []
  {
  }

  lemma AtMostThree(exit: Option<nat>, action: Option<nat>, entry: Option<nat>, left: nat, entered: nat)
    ensures var calls := Called(exit, OnExit, left) + Called(action, OnTransition, left) + Called(entry, OnEntry, entered);
            && CalledOnce(calls, OnExit, exit) && CalledOnce(calls, OnTransition, action) && CalledOnce(calls, OnEntry, entry)
            && forall k, l :: 0 <= k < l < |calls| ==> Rank(calls[k].kind) < Rank(calls[l].kind)
  {
    var calls := Called(exit, OnExit, left) + Called(action, OnTransition, left) + Called(entry, OnEntry, entered);
    assert exit.Some? ==> Hook(OnExit, exit.value, left) in calls;
    assert action.Some? ==> Hook(OnTransition, action.value, left) in calls;
    assert entry.Some? ==> Hook(OnEntry, entry.value, entered) in calls;
  }

  lemma SameState(states: seq<StateEntry>, i: nat, j: nat)
    requires StatesValid(states) && i < |states| && j < |states| && states[i].id == states[j].id
    ensures i == j
  {
  }

  /** A refused event changes nothing and calls nothing. */
  lemma RefusedCallsNothing(m: Machine, event: nat, passing: set<nat>)
    requires Dispatched(m, event, passing).1 != Ok
    ensures Dispatched(m, event, passing).0 == m && Dispatched(m, event, passing).2 == []
  {
  }
}
