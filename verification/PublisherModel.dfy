/**
 The value-copying event publisher (`utility_event_publisher.c`): payload slots in one
 memory, a queue of events that point into it, and a dispatch whose handlers publish again.
 */
module PublisherModel {
  import opened Wrappers
  import opened Bytes

  /** `payload` is the offset of the event's slot in the payload memory. */
  datatype Event = Event(id: nat, source: nat, payload: Option<nat>, size: nat)

  datatype Result = Ok | Full | BadArgument | Busy

  datatype Store = Store(memory: seq<bv8>, occupied: seq<bool>, slotSize: nat, queue: seq<Event>)

  datatype Request = Request(id: nat, source: nat, bytes: seq<bv8>)

  function Offset(slot: nat, slotSize: nat): nat {
    slot * slotSize
  }

  predicate Sized(s: Store) {
    s.slotSize > 0 && s.occupied != [] && |s.memory| == Offset(|s.occupied|, s.slotSize) && |s.queue| <= |s.occupied|
  }

  lemma OffsetsOrdered(i: nat, j: nat, slotSize: nat)
    requires i < j
    ensures Offset(i, slotSize) + slotSize <= Offset(j, slotSize)
  {
    assert (j - i - 1) * slotSize >= 0;
  }

  /** The first free slot from `k` on, or the number of slots. */
  function FirstFree(occupied: seq<bool>, k: nat): (slot: nat)
    requires k <= |occupied|
    ensures k <= slot <= |occupied|
    ensures forall i :: k <= i < slot ==> occupied[i]
    ensures slot < |occupied| ==> !occupied[slot]
    decreases |occupied| - k
  {
    if k < |occupied| && occupied[k] then FirstFree(occupied, k + 1) else k
  }

  /** The slot from `k` on whose offset is `payload`, or `count`. */
  function SlotAt(payload: nat, slotSize: nat, k: nat, count: nat): (slot: nat)
    requires k <= count
    ensures k <= slot <= count
    ensures slot < count ==> Offset(slot, slotSize) == payload
    ensures forall i :: k <= i < slot ==> Offset(i, slotSize) != payload
    decreases count - k
  {
    if k < count && Offset(k, slotSize) != payload then SlotAt(payload, slotSize, k + 1, count) else k
  }

  // ----- The critical sections -----

  function Published(s: Store, r: Request): (Store, Result)
    requires Sized(s)
  {
    if |r.bytes| > s.slotSize then (s, BadArgument)
    else if r.bytes == [] then
      if |s.queue| == |s.occupied| then (s, Full)
      else (s.(queue := s.queue + [Event(r.id, r.source, None, 0)]), Ok)
    else
      var slot := FirstFree(s.occupied, 0);
      if slot == |s.occupied| then (s, Full)
      else
        OffsetsOrdered(slot, |s.occupied|, s.slotSize);
        var at := Offset(slot, s.slotSize);
        var memory := Overwrite(s.memory, at, r.bytes);
        if |s.queue| == |s.occupied| then (s.(memory := memory), Full)
        else (s.(memory := memory, occupied := s.occupied[slot := true],
                 queue := s.queue + [Event(r.id, r.source, Some(at), |r.bytes|)]), Ok)
  }

  /** `BadSlot` is the branch for a payload that no occupied slot holds. */
  datatype Pop = Empty | BadSlot | Popped(event: Event, slot: nat)

  function PoppedEvent(s: Store): (Store, Pop) {
    if s.queue == [] then (s, Empty)
    else
      var e := s.queue[0];
      var s' := s.(queue := s.queue[1..]);
      if e.payload == None then (s', Popped(e, |s.occupied|))
      else
        var slot := SlotAt(e.payload.value, s.slotSize, 0, |s.occupied|);
        if slot == |s.occupied| || !s.occupied[slot] then (s', BadSlot) else (s', Popped(e, slot))
  }

  function Released(s: Store, slot: nat): Store {
    if slot < |s.occupied| then s.(occupied := s.occupied[slot := false]) else s
  }

  lemma PublishedSized(s: Store, r: Request)
    requires Sized(s)
    ensures Sized(Published(s, r).0)
    ensures |Published(s, r).0.occupied| == |s.occupied| && Published(s, r).0.slotSize == s.slotSize
  {
    if |r.bytes| <= s.slotSize && FirstFree(s.occupied, 0) < |s.occupied| {
      OffsetsOrdered(FirstFree(s.occupied, 0), |s.occupied|, s.slotSize);
    }
  }

  // ----- One dispatch call -----

  function PublishAll(s: Store, requests: seq<Request>): (t: Store)
    requires Sized(s)
    ensures Sized(t) && |t.occupied| == |s.occupied|
    decreases |requests|
  {
    if requests == [] then s
    else
      PublishedSized(s, requests[0]);
      PublishAll(Published(s, requests[0]).0, requests[1..])
  }

  /** What the handlers of the k-th delivery of a dispatch publish. */
  function Script(scripts: seq<seq<Request>>, k: nat): seq<Request> {
    if k < |scripts| then scripts[k] else []
  }

  /** The dispatch loop after `dispatched` deliveries. */
  function DispatchLoop(s: Store, budget: nat, dispatched: nat, scripts: seq<seq<Request>>): (Store, Result, nat)
    requires Sized(s)
    decreases budget - dispatched
  {
    if dispatched >= budget then (s, Ok, dispatched)
    else
      var (s1, pop) := PoppedEvent(s);
      match pop
      case Empty => (s, Ok, dispatched)
      case BadSlot => (s1, BadArgument, dispatched)
      case Popped(_, slot) =>
        DispatchLoop(Released(PublishAll(s1, Script(scripts, dispatched)), slot), budget, dispatched + 1, scripts)
  }

  // ----- The publisher with its history -----

  /** What was published, or what a handler sees. */
  datatype Parcel = Parcel(id: nat, source: nat, bytes: seq<bv8>)

  function Seen(memory: seq<bv8>, e: Event): Parcel {
    Parcel(e.id, e.source,
           if e.payload.Some? && e.payload.value + e.size <= |memory|
           then memory[e.payload.value..e.payload.value + e.size] else [])
  }

  /** `left` is the budget of the dispatch under way; `current` the event in its handlers and its slot. */
  datatype Publisher = Publisher(store: Store, left: Option<nat>, current: Option<(Event, nat)>, broken: bool,
                                 accepted: seq<Parcel>, delivered: seq<Parcel>)

  datatype Action = Publish(request: Request) | Begin(budget: nat) | TakeNext | Settle

  /** Publishing and calling dispatch are possible at any moment, in a handler too. */
  predicate Enabled(p: Publisher, a: Action) {
    Sized(p.store) &&
    match a
    case Publish(_) => true
    case Begin(_) => true
    case TakeNext => p.left.Some? && p.current.None?
    case Settle => p.left.Some? && p.current.Some?
  }

  function Began(p: Publisher, budget: nat): (Publisher, Result) {
    if budget == 0 then (p, BadArgument)
    else if p.left.Some? then (p, Busy)
    else (p.(left := Some(budget)), Ok)
  }

  function Next(p: Publisher, a: Action): Publisher
    requires Enabled(p, a)
  {
    match a
    case Publish(r) =>
      var (store, result) := Published(p.store, r);
      p.(store := store, accepted := p.accepted + if result == Ok then [Parcel(r.id, r.source, r.bytes)] else [])
    case Begin(budget) => Began(p, budget).0
    case TakeNext =>
      if p.left.value == 0 then p.(left := None)
      else
        var (store, pop) := PoppedEvent(p.store);
        (match pop
         case Empty => p.(left := None)
         case BadSlot => p.(store := store, left := None, broken := true)
         case Popped(e, slot) => p.(store := store, current := Some((e, slot))))
    case Settle =>
      var (e, slot) := p.current.value;
      p.(store := Released(p.store, slot), current := None,
         left := Some(if p.left.value > 0 then p.left.value - 1 else 0),
         delivered := p.delivered + [Seen(p.store.memory, e)])
  }

  predicate Run(p: Publisher, actions: seq<Action>)
    decreases |actions|
  {
    actions == [] || (Enabled(p, actions[0]) && Run(Next(p, actions[0]), actions[1..]))
  }

  function After(p: Publisher, actions: seq<Action>): Publisher
    requires Run(p, actions)
    decreases |actions|
  {
    if actions == [] then p else After(Next(p, actions[0]), actions[1..])
  }

  function Initial(slots: nat, slotSize: nat, memory: seq<bv8>): Publisher {
    Publisher(Store(memory, seq(slots, _ => false), slotSize, []), None, None, false, [], [])
  }
}
