/**
 The machine as an object, with its loops over the tables.
 */
module StateMachineService {
  import opened Wrappers
  import opened StateMachine

  method FindStateIn(states: seq<StateEntry>, id: nat) returns (at: nat)
    ensures at == FindState(states, id, 0)
  {
    at := 0;
    while at < |states|
      invariant at <= |states| && FindState(states, id, at) == FindState(states, id, 0)
    {
      if states[at].id == id {
        return;
      }
      at := at + 1;
    }
  }

  method CheckStates(states: seq<StateEntry>) returns (valid: bool)
    ensures valid == StatesValid(states)
  {
    if |states| == 0 {
      return false;
    }
    var outer := 0;
    while outer < |states|
      invariant outer <= |states|
      invariant forall i :: 0 <= i < outer ==> states[i].id != ANY
      invariant forall i, j :: 0 <= i < outer && i < j < |states| ==> states[i].id != states[j].id
    {
      if states[outer].id == ANY {
        return false;
      }
      var inner := outer + 1;
      while inner < |states|
        invariant outer < inner <= |states|
        invariant forall j :: outer < j < inner ==> states[outer].id != states[j].id
      {
        if states[outer].id == states[inner].id {
          return false;
        }
        inner := inner + 1;
      }
      outer := outer + 1;
    }
    return true;
  }

  method CheckTransitions(states: seq<StateEntry>, transitions: seq<Transition>) returns (valid: bool)
    ensures valid == (transitions != [] && forall i :: 0 <= i < |transitions| ==> TransitionValid(states, transitions[i]))
  {
    if |transitions| == 0 {
      return false;
    }
    var index := 0;
    while index < |transitions|
      invariant index <= |transitions|
      invariant forall i :: 0 <= i < index ==> TransitionValid(states, transitions[i])
    {
      var t := transitions[index];
      var from := FindStateIn(states, t.from);
      if t.from != ANY && from == |states| {
        assert !TransitionValid(states, transitions[index]);
        return false;
      }
      var to := FindStateIn(states, t.to);
      if to == |states| {
        assert !TransitionValid(states, transitions[index]);
        return false;
      }
      index := index + 1;
    }
    return true;
  }

  class EventStateMachine {
    var states: seq<StateEntry>
    var transitions: seq<Transition>
    var current: nat
    var dispatching: bool

    ghost function View(): Machine
      reads this
    {
      Machine(states, transitions, current, dispatching)
    }

    constructor ()
    {
      states, transitions, current, dispatching := [], [], 0, false;
    }

    /** Accepts exactly the valid tables with a known initial state. */
    method Init(states: seq<StateEntry>, transitions: seq<Transition>, initial: nat) returns (result: Result)
      modifies this
      ensures result == if TablesValid(states, transitions) && Known(states, initial) then Ok else InvalidArgument
      ensures result == Ok ==> View() == Machine(states, transitions, initial, false)
      ensures result != Ok ==> View() == old(View())
    {
      var statesOk := CheckStates(states);
      var transitionsOk := CheckTransitions(states, transitions);
      var at := FindStateIn(states, initial);
      if !statesOk || !transitionsOk || at == |states| {
        return InvalidArgument;
      }
      this.states, this.transitions := states, transitions;
      current, dispatching := initial, false;
      return Ok;
    }

    method Search(event: nat, passing: set<nat>) returns (at: nat)
      ensures at == FindTransition(View(), event, passing, 0)
    {
      at := 0;
      while at < |transitions|
        invariant at <= |transitions|
        invariant FindTransition(View(), event, passing, at) == FindTransition(View(), event, passing, 0)
      {
        var t := transitions[at];
        if (t.from == current || t.from == ANY) && (t.event == event || t.event == ANY)
           && (t.guard == None || t.guard.value in passing) {
          return;
        }
        at := at + 1;
      }
    }

    /** `calls` lists the hooks in the order they ran. */
    method Dispatch(event: nat, passing: set<nat>) returns (result: Result, calls: seq<Hook>)
      modifies this
      ensures (View(), result, calls) == Dispatched(old(View()), event, passing)
    {
      calls := [];
      var from := FindStateIn(states, current);
      if |states| == 0 || |transitions| == 0 || from == |states| {
        return InvalidArgument, [];
      }
      if dispatching {
        return Busy, [];
      }
      var at := Search(event, passing);
      if at == |transitions| {
        return NotFound, [];
      }
      var t := transitions[at];
      var to := FindStateIn(states, t.to);
      if to == |states| {
        return InvalidArgument, [];
      }
      dispatching := true;
      if !t.isInternal && states[from].exit != None {
        calls := calls + [Hook(OnExit, states[from].exit.value, current)];
      }
      if t.action != None {
        calls := calls + [Hook(OnTransition, t.action.value, current)];
      }
      current := t.to;
      if !t.isInternal && states[to].entry != None {
        calls := calls + [Hook(OnEntry, states[to].entry.value, current)];
      }
      dispatching := false;
      ghost var m := old(View());
      assert calls == (if t.isInternal then [] else Called(m.states[from].exit, OnExit, m.current))
                      + Called(t.action, OnTransition, m.current)
                      + (if t.isInternal then [] else Called(m.states[to].entry, OnEntry, t.to));
      assert calls == Calls(m, t);
      return Ok, calls;
    }
  }
}
