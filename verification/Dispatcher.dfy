/**
 The event dispatcher (`utility_event_dispatcher.c`): a fixed number of subscription slots,
 called in slot order.
 */
module Dispatcher {

  const ANY: nat := 0xffff_ffff

  datatype Subscription = Subscription(eventId: nat, handler: nat, context: nat, occupied: bool)

  const VACANT := Subscription(0, 0, 0, false)

  datatype Registry = Registry(slots: seq<Subscription>, count: nat, dispatching: bool)

  datatype Result = Ok | Busy | AlreadyExists | NotFound | Full

  datatype Call = Call(handler: nat, context: nat)

  predicate Is(s: Subscription, eventId: nat, call: Call) {
    s.occupied && s.eventId == eventId && s.handler == call.handler && s.context == call.context
  }

  function FindSubscription(slots: seq<Subscription>, eventId: nat, call: Call, k: nat): (at: nat)
    requires k <= |slots|
    ensures k <= at <= |slots|
    ensures at < |slots| ==> Is(slots[at], eventId, call)
    ensures forall i :: k <= i < at ==> !Is(slots[i], eventId, call)
    decreases |slots| - k
  {
    if k < |slots| && !Is(slots[k], eventId, call) then FindSubscription(slots, eventId, call, k + 1) else k
  }

  function FindVacant(slots: seq<Subscription>, k: nat): (at: nat)
    requires k <= |slots|
    ensures k <= at <= |slots|
    ensures at < |slots| ==> !slots[at].occupied
    ensures forall i :: k <= i < at ==> slots[i].occupied
    decreases |slots| - k
  {
    if k < |slots| && slots[k].occupied then FindVacant(slots, k + 1) else k
  }

  function Subscribed(r: Registry, eventId: nat, call: Call): (Registry, Result) {
    if r.dispatching then (r, Busy)
    else if FindSubscription(r.slots, eventId, call, 0) < |r.slots| then (r, AlreadyExists)
    else
      var at := FindVacant(r.slots, 0);
      if at == |r.slots| then (r, Full)
      else (r.(slots := r.slots[at := Subscription(eventId, call.handler, call.context, true)], count := r.count + 1), Ok)
  }

  function Unsubscribed(r: Registry, eventId: nat, call: Call): (Registry, Result) {
    if r.dispatching then (r, Busy)
    else
      var at := FindSubscription(r.slots, eventId, call, 0);
      if at == |r.slots| then (r, NotFound)
      else (r.(slots := r.slots[at := VACANT], count := if r.count > 0 then r.count - 1 else 0), Ok)
  }

  predicate Hears(s: Subscription, eventId: nat) {
    s.occupied && (s.eventId == eventId || s.eventId == ANY)
  }

  /** The handlers called for an event, from slot `k` on. */
  function CallsFrom(slots: seq<Subscription>, eventId: nat, k: nat): seq<Call>
    requires k <= |slots|
    decreases |slots| - k
  {
    if k == |slots| then []
    else (if Hears(slots[k], eventId) then [Call(slots[k].handler, slots[k].context)] else [])
         + CallsFrom(slots, eventId, k + 1)
  }

  function Dispatched(r: Registry, eventId: nat): (seq<Call>, Result) {
    if r.dispatching then ([], Busy)
    else
      var calls := CallsFrom(r.slots, eventId, 0);
      (calls, if calls == [] then NotFound else Ok)
  }

  // ----- Laws -----

  function OccupiedCount(slots: seq<Subscription>): nat {
    if slots == [] then 0 else (if slots[0].occupied then 1 else 0) + OccupiedCount(slots[1..])
  }

  ghost predicate Inv(r: Registry) {
    && r.count == OccupiedCount(r.slots)
    && forall i, j :: 0 <= i < j < |r.slots| && r.slots[i].occupied && r.slots[j].occupied ==> r.slots[i] != r.slots[j]
  }

  lemma {:induction false} OccupiedUpdate(slots: seq<Subscription>, at: nat, to: Subscription)
    requires at < |slots|
    ensures OccupiedCount(slots[at := to]) + (if slots[at].occupied then 1 else 0)
            == OccupiedCount(slots) + (if to.occupied then 1 else 0)
  {
    if at == 0 {
      assert slots[0 := to][1..] == slots[1..];
    } else {
      assert slots[at := to][1..] == slots[1..][at - 1 := to];
      OccupiedUpdate(slots[1..], at - 1, to);
    }
  }

  /** No subscription is ever held twice, and the count is the number held. */
  lemma ChangesKeep(r: Registry, eventId: nat, call: Call)
    requires Inv(r)
    ensures Inv(Subscribed(r, eventId, call).0) && Inv(Unsubscribed(r, eventId, call).0)
  {
    hide OccupiedCount;
    var at, free := FindSubscription(r.slots, eventId, call, 0), FindVacant(r.slots, 0);
    if free < |r.slots| {
      OccupiedUpdate(r.slots, free, Subscription(eventId, call.handler, call.context, true));
    }
    if at < |r.slots| {
      OccupiedUpdate(r.slots, at, VACANT);
    }
  }

  lemma {:induction false} DeafSlot(slots: seq<Subscription>, at: nat, to: Subscription, eventId: nat, k: nat)
    requires at < |slots| && k <= |slots| && !Hears(slots[at], eventId) && !Hears(to, eventId)
    ensures CallsFrom(slots[at := to], eventId, k) == CallsFrom(slots, eventId, k)
    decreases |slots| - k
  {
    if k < |slots| {
      DeafSlot(slots, at, to, eventId, k + 1);
    }
  }

  lemma {:induction false} CallsSplit(slots: seq<Subscription>, to: Subscription, at: nat, eventId: nat, k: nat)
    returns (before: seq<Call>, behind: seq<Call>)
    requires k <= at < |slots| && !Hears(slots[at], eventId) && Hears(to, eventId)
    ensures CallsFrom(slots, eventId, k) == before + behind
    ensures CallsFrom(slots[at := to], eventId, k) == before + [Call(to.handler, to.context)] + behind
    decreases at - k
  {
    if k == at {
      before, behind := [], CallsFrom(slots, eventId, k + 1);
      Behind(slots, to, at, eventId, k + 1);
    } else {
      before, behind := CallsSplit(slots, to, at, eventId, k + 1);
      before := (if Hears(slots[k], eventId) then [Call(slots[k].handler, slots[k].context)] else []) + before;
    }
  }

  lemma {:induction false} Behind(slots: seq<Subscription>, to: Subscription, at: nat, eventId: nat, k: nat)
    requires at < k <= |slots|
    ensures CallsFrom(slots[at := to], eventId, k) == CallsFrom(slots, eventId, k)
    decreases |slots| - k
  {
    if k < |slots| {
      Behind(slots, to, at, eventId, k + 1);
    }
  }

  /** How many of the first `k` slots hear the event. */
  function Hearing(slots: seq<Subscription>, eventId: nat, k: nat): nat
    requires k <= |slots|
  {
    if k == 0 then 0
    else Hearing(slots, eventId, k - 1)
         + if slots[k - 1].occupied && slots[k - 1].eventId in {eventId, 0xffff_ffff} then 1 else 0
  }

  lemma {:induction false} CallsBehind(slots: seq<Subscription>, eventId: nat, k: nat, i: nat)
    requires k <= i < |slots| && Hears(slots[i], eventId)
    ensures |CallsFrom(slots, eventId, k)| == Hearing(slots, eventId, |slots|) - Hearing(slots, eventId, k)
    ensures var at := Hearing(slots, eventId, i) - Hearing(slots, eventId, k);
            0 <= at < |CallsFrom(slots, eventId, k)|
            && CallsFrom(slots, eventId, k)[at] == Call(slots[i].handler, slots[i].context)
    decreases i - k
  {
    if k == i {
      CallsCount(slots, eventId, k + 1);
    } else {
      CallsBehind(slots, eventId, k + 1, i);
    }
  }

  lemma {:induction false} CallsCount(slots: seq<Subscription>, eventId: nat, k: nat)
    requires k <= |slots|
    ensures |CallsFrom(slots, eventId, k)| == Hearing(slots, eventId, |slots|) - Hearing(slots, eventId, k)
    decreases |slots| - k
  {
    if k < |slots| {
      CallsCount(slots, eventId, k + 1);
    }
  }

  /**
   An event calls each subscription of its id or of the id for any event once, in slot order:
   as many handlers as slots hear it, and that of slot `i` after those of the slots before it.
   */
  lemma CalledInSlotOrder(r: Registry, eventId: nat, i: nat)
    requires !r.dispatching && i < |r.slots| && r.slots[i].occupied && r.slots[i].eventId in {eventId, 0xffff_ffff}
    ensures var (calls, result) := Dispatched(r, eventId);
            && result == Ok && |calls| == Hearing(r.slots, eventId, |r.slots|)
            && Hearing(r.slots, eventId, i) < |calls|
            && calls[Hearing(r.slots, eventId, i)] == Call(r.slots[i].handler, r.slots[i].context)
  {
    CallsBehind(r.slots, eventId, 0, i);
  }

  /** A dispatch within a dispatch is refused, and an event that no slot hears is not found. */
  lemma DispatchedExactly(r: Registry, eventId: nat)
    ensures var (calls, result) := Dispatched(r, eventId);
            && (result == Busy <==> r.dispatching)
            && (result == NotFound <==> !r.dispatching && Hearing(r.slots, eventId, |r.slots|) == 0)
            && (result == Ok <==> !r.dispatching && Hearing(r.slots, eventId, |r.slots|) > 0)
            && (result != Ok ==> calls == [])
  {
    CallsCount(r.slots, eventId, 0);
  }

  /**
   A new subscription adds one call of its handler to the events it hears, keeping the order
   of the others, and changes nothing for other events.
   */
  lemma SubscribeAddsOneCall(r: Registry, eventId: nat, call: Call, heard: nat)
    requires Subscribed(r, eventId, call).1 == Ok
    ensures var before, behind := CallsFrom(r.slots, heard, 0), CallsFrom(Subscribed(r, eventId, call).0.slots, heard, 0);
            if heard == eventId || eventId == ANY
            then exists i :: 0 <= i <= |before| && behind == before[..i] + [call] + before[i..]
            else behind == before
  {
    var at := FindVacant(r.slots, 0);
    var to := Subscription(eventId, call.handler, call.context, true);
    if heard == eventId || eventId == ANY {
      var first, last := CallsSplit(r.slots, to, at, heard, 0);
      var calls := CallsFrom(r.slots, heard, 0);
      assert calls[..|first|] == first && calls[|first|..] == last;
    } else {
      DeafSlot(r.slots, at, to, heard, 0);
    }
  }

  lemma {:induction false} OccupiedBelow(slots: seq<Subscription>)
    ensures OccupiedCount(slots) <= |slots|
    ensures OccupiedCount(slots) == |slots| <==> forall i :: 0 <= i < |slots| ==> slots[i].occupied
  {
    if slots != [] {
      OccupiedBelow(slots[1..]);
      assert forall i :: 0 < i < |slots| ==> slots[i] == slots[1..][i - 1];
    }
  }

  /**
   The result of every change, by the subscriptions held: outside a dispatch a subscription is
   taken if it is not held yet and fewer than the slots are, and given back if it is held. No
   other subscription comes or goes.
   */
  lemma ChangesExactly(r: Registry, eventId: nat, call: Call)
    requires Inv(r)
    ensures var own := Subscription(eventId, call.handler, call.context, true); var held := own in r.slots;
            var (s, subscribed) := Subscribed(r, eventId, call); var (u, unsubscribed) := Unsubscribed(r, eventId, call);
            && subscribed == (if r.dispatching then Busy else if held then AlreadyExists
                              else if r.count == |r.slots| then Full else Ok)
            && unsubscribed == (if r.dispatching then Busy else if held then Ok else NotFound)
            && (forall o: Subscription :: o.occupied ==>
                  && (o in s.slots <==> o in r.slots || (subscribed == Ok && o == own))
                  && (o in u.slots <==> o in r.slots && !(unsubscribed == Ok && o == own)))
  {
    var slots, own := r.slots, Subscription(eventId, call.handler, call.context, true);
    OccupiedBelow(slots);
    var at, free := FindSubscription(slots, eventId, call, 0), FindVacant(slots, 0);
    HeldIsFound(slots, eventId, call);
    hide OccupiedCount, Is;
    forall o: Subscription | o.occupied
      ensures free < |slots| ==> (o in slots[free := own] <==> o in slots || o == own)
      ensures at < |slots| ==> (o in slots[at := VACANT] <==> o in slots && o != own)
    {
      if free < |slots| {
        Replaced(slots, free, own, o);
      }
      if at < |slots| {
        Replaced(slots, at, VACANT, o);
        if o in slots && o != own {
          var i :| 0 <= i < |slots| && slots[i] == o;
          assert slots[at := VACANT][i] == o;
        }
        if own in slots[at := VACANT] {
          var i :| 0 <= i < |slots| && slots[at := VACANT][i] == own;
          assert i != at && slots[i] == slots[at];
        }
      }
    }
  }

  lemma HeldIsFound(slots: seq<Subscription>, eventId: nat, call: Call)
    ensures var own, at := Subscription(eventId, call.handler, call.context, true), FindSubscription(slots, eventId, call, 0);
            (at < |slots| ==> slots[at] == own) && (own in slots <==> at < |slots|)
  {
    var own, at := Subscription(eventId, call.handler, call.context, true), FindSubscription(slots, eventId, call, 0);
    if own in slots {
      var i :| 0 <= i < |slots| && slots[i] == own;
      assert Is(slots[i], eventId, call);
    }
  }

  lemma Replaced(slots: seq<Subscription>, at: nat, to: Subscription, o: Subscription)
    requires at < |slots|
    ensures o in slots[at := to] ==> o in slots || o == to
    ensures o in slots && o != slots[at] ==> o in slots[at := to]
    ensures to in slots[at := to]
  {
    assert slots[at := to][at] == to;
    if o in slots && o != slots[at] {
      var i :| 0 <= i < |slots| && slots[i] == o;
      assert slots[at := to][i] == o;
    }
  }

  /** Unsubscribing what was subscribed restores the calls of every event, and the count. */
  lemma UnsubscribeUndoes(r: Registry, eventId: nat, call: Call, heard: nat)
    requires Subscribed(r, eventId, call).1 == Ok
    ensures var r1 := Subscribed(r, eventId, call).0; var (r2, result) := Unsubscribed(r1, eventId, call);
            && result == Ok && r2.count == r.count
            && CallsFrom(r2.slots, heard, 0) == CallsFrom(r.slots, heard, 0)
  {
    var at := FindVacant(r.slots, 0);
    var r1 := Subscribed(r, eventId, call).0;
    assert Is(r1.slots[at], eventId, call);
    var found := FindSubscription(r1.slots, eventId, call, 0);
    assert forall i :: 0 <= i < at ==> !Is(r1.slots[i], eventId, call);
    assert found == at;
    assert r.slots[at := VACANT] == Unsubscribed(r1, eventId, call).0.slots;
    DeafSlot(r.slots, at, VACANT, heard, 0);
  }
}
