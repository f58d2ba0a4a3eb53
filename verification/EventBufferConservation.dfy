/**
 Conservation of buffers: at any time the live buffers of the arena are exactly the
 handles owned by envelopes, each owned once, and they hold the bytes they were made with.
 */
module EventBufferConservation {
  import opened Wrappers
  import opened Bytes
  import opened Arena
  import opened ArenaRefinement
  import opened EventBuffer
  import RingStorage = Ring

  // ----- Ownership, without the queue -----

  predicate Clean(cells: seq<Message>) {
    forall p :: 0 <= p < |cells| ==> cells[p] == EMPTY || IsOwned(cells[p], p)
  }

  predicate Unique(cells: seq<Message>) {
    forall p, q :: 0 <= p < |cells| && 0 <= q < |cells| && p != q && cells[p].owns && cells[q].owns ==>
      cells[p].handle != cells[q].handle
  }

  function OwnedHandles(cells: seq<Message>): set<nat> {
    set p | 0 <= p < |cells| && cells[p].owns :: cells[p].handle
  }

  ghost predicate Intact(cells: seq<Message>, m: Model, made: map<nat, seq<bv8>>) {
    && made.Keys == m.Keys
    && (forall h :: h in made ==> m[h].data == made[h] && m[h].length == |made[h]|)
    && (forall p :: 0 <= p < |cells| && cells[p].owns ==> cells[p].handle in made && cells[p].length == |made[cells[p].handle]|)
  }

  /** The ownership law. */
  ghost predicate Ownership(cells: seq<Message>, m: Model, made: map<nat, seq<bv8>>) {
    Clean(cells) && Unique(cells) && m.Keys == OwnedHandles(cells) && Intact(cells, m, made)
  }

  lemma HandlesAdd(cells: seq<Message>, at: nat, message: Message)
    requires at < |cells| && !cells[at].owns && message.owns
    ensures OwnedHandles(cells[at := message]) == OwnedHandles(cells) + {message.handle}
  {
    var next := cells[at := message];
    forall h | h in OwnedHandles(cells)
      ensures h in OwnedHandles(next)
    {
      var p :| 0 <= p < |cells| && cells[p].owns && cells[p].handle == h;
      assert next[p].owns && next[p].handle == h;
    }
    assert next[at].owns && next[at].handle == message.handle;
  }

  lemma HandlesRemove(cells: seq<Message>, at: nat)
    requires at < |cells| && cells[at].owns && Unique(cells)
    ensures OwnedHandles(cells[at := EMPTY]) == OwnedHandles(cells) - {cells[at].handle}
  {
    var next := cells[at := EMPTY];
    forall h | h in OwnedHandles(cells) && h != cells[at].handle
      ensures h in OwnedHandles(next)
    {
      var p :| 0 <= p < |cells| && cells[p].owns && cells[p].handle == h;
      assert next[p].owns && next[p].handle == h;
    }
    forall h | h in OwnedHandles(next)
      ensures h in OwnedHandles(cells) && h != cells[at].handle
    {
      var p :| 0 <= p < |next| && next[p].owns && next[p].handle == h;
      assert cells[p].owns;
    }
  }

  lemma OwnershipAdd(cells: seq<Message>, m: Model, made: map<nat, seq<bv8>>, at: nat, message: Message, source: seq<bv8>)
    requires Ownership(cells, m, made) && at < |cells| && !cells[at].owns
    requires IsOwned(message, at) && message.handle !in m && message.length == |source|
    ensures Ownership(cells[at := message], m[message.handle := Buffer(source, |source|, false)], made[message.handle := source])
  {
    HandlesAdd(cells, at, message);
    assert forall p :: 0 <= p < |cells| && cells[p].owns ==> cells[p].handle in OwnedHandles(cells);
    hide OwnedHandles;
  }

  lemma OwnershipRemove(cells: seq<Message>, m: Model, made: map<nat, seq<bv8>>, at: nat)
    requires Ownership(cells, m, made) && at < |cells| && cells[at].owns
    ensures Ownership(cells[at := EMPTY], m - {cells[at].handle}, made - {cells[at].handle})
  {
    HandlesRemove(cells, at);
    hide OwnedHandles;
    assert forall p :: 0 <= p < |cells| && p != at && cells[p].owns ==> cells[p].handle != cells[at].handle;
    assert (m - {cells[at].handle}).Keys == m.Keys - {cells[at].handle};
  }

  lemma OwnershipMove(cells: seq<Message>, m: Model, made: map<nat, seq<bv8>>, from: nat, to: nat)
    requires Ownership(cells, m, made) && from < |cells| && to < |cells| && from != to
    requires IsOwned(cells[from], from) && !cells[to].owns
    ensures Ownership(Moved(cells, from, to), m, made)
    ensures Moved(cells, from, to)[to].owns && !Moved(cells, from, to)[from].owns
  {
    var message := cells[from].(payload := Some(to));
    HandlesRemove(cells, from);
    HandlesAdd(cells[from := EMPTY], to, message);
    assert Moved(cells, from, to) == cells[from := EMPTY][to := message];
    assert cells[from].handle in OwnedHandles(cells);
    hide OwnedHandles;
  }

  lemma OwnershipLoan(cells: seq<Message>, m: Model, made: map<nat, seq<bv8>>, h: nat, mapped: bool)
    requires Ownership(cells, m, made) && h in m
    ensures Ownership(cells, m[h := m[h].(mapped := mapped)], made)
  {
  }

  // ----- The ring -----

  function Wrap(r: Ring, k: nat): nat {
    RingStorage.Cell(r.head, k, r.capacity)
  }

  /** How many cells lie between the head and cell `j`. */
  function Rank(r: Ring, j: nat): int {
    if j >= r.head then j - r.head else j + r.capacity - r.head
  }

  predicate InWindow(r: Ring, j: nat) {
    Rank(r, j) < r.count
  }

  ghost predicate RingInv(cells: seq<Message>, r: Ring) {
    && RingOk(r) && r.capacity <= |cells|
    && r.tail == (if r.count == r.capacity then r.head else Wrap(r, r.count))
    && forall j :: 0 <= j < r.capacity ==> (cells[j].owns <==> InWindow(r, j))
  }

  function Bare(m: Message): Message {
    m.(payload := None)
  }

  /** The queued envelopes in order, without their addresses. */
  function Queued(cells: seq<Message>, r: Ring): seq<Message>
    requires RingOk(r) && r.capacity <= |cells|
  {
    seq(r.count, k requires 0 <= k < r.count => Bare(cells[Wrap(r, k)]))
  }

  lemma TailIsFree(cells: seq<Message>, r: Ring)
    requires RingInv(cells, r) && r.count < r.capacity
    ensures r.tail < r.capacity && !cells[r.tail].owns
  {
    assert Rank(r, r.tail) == r.count;
  }

  /** Filling the cell at the tail appends its envelope. */
  lemma TailRing(cells: seq<Message>, r: Ring, next: seq<Message>)
    requires RingInv(cells, r) && r.count < r.capacity && |next| == |cells|
    requires r.tail < r.capacity && next[r.tail].owns
    requires forall j :: 0 <= j < r.capacity && j != r.tail ==> next[j] == cells[j]
    ensures var r' := r.(tail := (r.tail + 1) % r.capacity, count := r.count + 1);
            RingInv(next, r') && Queued(next, r') == Queued(cells, r) + [Bare(next[r.tail])]
  {
    var r' := r.(tail := (r.tail + 1) % r.capacity, count := r.count + 1);
    RingStorage.NextIndex(r.tail, r.capacity);
    assert r'.tail == if r.tail + 1 < r.capacity then r.tail + 1 else 0;
    assert Rank(r, r.tail) == r.count;
    assert RingInv(next, r');
    assert forall k :: 0 <= k < r.count ==> Wrap(r, k) != r.tail && Wrap(r, k) < r.capacity;
    assert forall k :: 0 <= k < r.count ==> next[Wrap(r', k)] == cells[Wrap(r, k)];
  }

  lemma HeadWindow(r: Ring, j: nat)
    requires RingOk(r) && r.count > 0 && j < r.capacity
    ensures InWindow(r, r.head)
    ensures InWindow(Popped(r), j) <==> InWindow(r, j) && j != r.head
    ensures Popped(r).head == if r.head + 1 < r.capacity then r.head + 1 else 0
  {
    RingStorage.NextIndex(r.head, r.capacity);
  }

  lemma HeadWrap(r: Ring, k: nat)
    requires RingOk(r) && r.count > 0 && k < r.count - 1
    ensures Wrap(Popped(r), k) == Wrap(r, k + 1) != r.head && Wrap(r, k + 1) < r.capacity
  {
    RingStorage.NextIndex(r.head, r.capacity);
  }

  /** The head of a nonempty ring is owned; emptying it drops the first envelope. */
  lemma HeadRing(cells: seq<Message>, r: Ring, next: seq<Message>)
    requires RingInv(cells, r) && r.count > 0 && |next| == |cells| && !next[r.head].owns
    requires forall j :: 0 <= j < r.capacity && j != r.head ==> next[j] == cells[j]
    ensures cells[r.head].owns
    ensures RingInv(next, Popped(r)) && Queued(cells, r) == [Bare(cells[r.head])] + Queued(next, Popped(r))
  {
    HeadWindow(r, r.head);
    HeadRingKept(cells, r, next);
    hide InWindow;
    var r' := Popped(r);
    forall k | 0 <= k < r'.count
      ensures next[Wrap(r', k)] == cells[Wrap(r, k + 1)]
    {
      HeadWrap(r, k);
    }
    assert Wrap(r, 0) == r.head;
  }

  lemma HeadRingKept(cells: seq<Message>, r: Ring, next: seq<Message>)
    requires RingInv(cells, r) && r.count > 0 && |next| == |cells| && !next[r.head].owns
    requires forall j :: 0 <= j < r.capacity && j != r.head ==> next[j] == cells[j]
    ensures RingInv(next, Popped(r))
  {
    hide InWindow;
    forall j | 0 <= j < r.capacity
      ensures InWindow(Popped(r), j) <==> InWindow(r, j) && j != r.head
    {
      HeadWindow(r, j);
    }
    RingStorage.NextIndex(r.head, r.capacity);
  }

  // ----- Every call -----

  ghost predicate Inv(sys: System) {
    Sized(sys) && Ownership(sys.cells, Abs(sys.arena), sys.made) && RingInv(sys.cells, sys.ring)
  }

  /** The facts about one owned envelope that the other lemmas use. */
  lemma OwnedFacts(sys: System, at: nat)
    requires Sized(sys) && Ownership(sys.cells, Abs(sys.arena), sys.made) && at < |sys.cells| && sys.cells[at].owns
    ensures IsOwned(sys.cells[at], at)
    ensures var h := sys.cells[at].handle; var m := Abs(sys.arena);
            && h in m && h in sys.made && m[h].data == sys.made[h]
            && m[h].length == |sys.made[h]| == sys.cells[at].length
  {
    hide Valid, Abs;
    assert sys.cells[at].handle in OwnedHandles(sys.cells);
  }

  lemma OverwriteAll(data: seq<bv8>, source: seq<bv8>)
    requires |data| == |source|
    ensures Overwrite(data, 0, source) == source
  {
  }

  /** A successful allocation and the write behind it make one new buffer holding `source`. */
  lemma CreateEffect(a: Arena, source: seq<bv8>)
    requires Valid(a) && source != [] && Step(a, Alloc(|source|)).1.Handle?
    ensures var (a1, granted) := Step(a, Alloc(|source|)); var h := granted.handle;
            && h !in Abs(a) && Valid(a1) && Step(a1, Write(h, 0, source)).1 == Done
            && Valid(Step(a1, Write(h, 0, source)).0)
            && Abs(Step(a1, Write(h, 0, source)).0) == Abs(a)[h := Buffer(source, |source|, false)]
  {
    hide Valid, Step, Abs, Overwrite, Lookup;
    StepRefines(a, Alloc(|source|));
    var a1, h := Step(a, Alloc(|source|)).0, Step(a, Alloc(|source|)).1.handle;
    StepRefines(a1, Write(h, 0, source));
    OverwriteAll(Abs(a1)[h].data, source);
  }

  /** A refused allocation changes nothing. */
  lemma RefusedEffect(a: Arena, source: seq<bv8>)
    requires Valid(a) && source != [] && !Step(a, Alloc(|source|)).1.Handle?
    ensures Valid(Step(a, Alloc(|source|)).0) && Abs(Step(a, Alloc(|source|)).0) == Abs(a)
    ensures Mapped(Step(a, Alloc(|source|)).1) == Full
  {
    hide Valid, Step, Abs, Lookup;
    StepRefines(a, Alloc(|source|));
  }

  lemma OwnershipFresh(sys: System, at: nat, source: seq<bv8>, message: Message, next: Model)
    requires Sized(sys) && Ownership(sys.cells, Abs(sys.arena), sys.made) && at < |sys.cells| && !sys.cells[at].owns
    requires IsOwned(message, at) && message.handle !in Abs(sys.arena) && message.length == |source|
    requires next == Abs(sys.arena)[message.handle := Buffer(source, |source|, false)]
    ensures Ownership(sys.cells[at := message], next, sys.made[message.handle := source])
  {
    hide Valid, Abs, Ownership, IsOwned, RingOk, Lookup;
    OwnershipAdd(sys.cells, Abs(sys.arena), sys.made, at, message, source);
  }

  /** A successful creation adds one owner; a refused one changes neither envelopes nor buffers. */
  lemma CreateKeeps(sys: System, at: nat, eventId: nat, sourceId: nat, source: seq<bv8>)
    requires Inv(sys) && sys.ring.capacity <= at < |sys.cells|
    ensures Inv(CreateCopy(sys, at, eventId, sourceId, source).0)
    ensures var (next, result) := CreateCopy(sys, at, eventId, sourceId, source);
            result != Ok ==> Abs(next.arena) == Abs(sys.arena) && next.cells == sys.cells
  {
    hide Valid, Step, Abs, Ownership, IsOwned, Lookup;
    if !sys.cells[at].owns && source != [] {
      var granted := Step(sys.arena, Alloc(|source|)).1;
      if granted.Handle? {
        CreateEffect(sys.arena, source);
        var message := Message(eventId, sourceId, Some(at), true, granted.handle, |source|, true);
        assert IsOwned(message, at) by { OwnMessage(message, at); }
        OwnershipFresh(sys, at, source, message, Abs(CreateCopy(sys, at, eventId, sourceId, source).0.arena));
      } else {
        RefusedEffect(sys.arena, source);
      }
    }
  }

  lemma OwnMessage(message: Message, at: nat)
    requires message.owns && message.pooled && message.payload == Some(at)
    ensures IsOwned(message, at)
  {
  }

  /** Freeing a live buffer fails only while it is mapped, and then changes nothing. */
  lemma FreeEffect(a: Arena, h: nat)
    requires Valid(a) && h in Abs(a)
    ensures Valid(Step(a, Free(h)).0)
    ensures Step(a, Free(h)).1 == if Abs(a)[h].mapped then Failed(Busy) else Done
    ensures Abs(Step(a, Free(h)).0) == if Abs(a)[h].mapped then Abs(a) else Abs(a) - {h}
  {
    hide Valid, Step, Abs, Lookup;
    StepRefines(a, Free(h));
  }

  lemma OwnershipFreed(sys: System, at: nat)
    requires Sized(sys) && Ownership(sys.cells, Abs(sys.arena), sys.made) && at < |sys.cells| && sys.cells[at].owns
    ensures Ownership(sys.cells[at := EMPTY], Abs(sys.arena) - {sys.cells[at].handle}, sys.made - {sys.cells[at].handle})
  {
    hide Valid, Abs, Ownership, IsOwned, RingOk, Lookup;
    OwnershipRemove(sys.cells, Abs(sys.arena), sys.made, at);
  }

  lemma ReleaseEffect(sys: System, at: nat)
    requires Sized(sys) && Ownership(sys.cells, Abs(sys.arena), sys.made) && at < |sys.cells| && sys.cells[at].owns
    ensures var (next, result) := ReleaseAt(sys, at); var h := sys.cells[at].handle;
            && Sized(next) && next.ring == sys.ring && h in Abs(sys.arena)
            && Ownership(next.cells, Abs(next.arena), next.made)
            && result == (if Abs(sys.arena)[h].mapped then Locked else Ok)
            && next.cells == (if result == Ok then sys.cells[at := EMPTY] else sys.cells)
  {
    hide Valid, Step, Abs, Ownership, IsOwned, Lookup;
    OwnedFacts(sys, at);
    FreeEffect(sys.arena, sys.cells[at].handle);
    OwnershipFreed(sys, at);
  }

  lemma ReleaseKeeps(sys: System, at: nat)
    requires Inv(sys) && sys.ring.capacity <= at < |sys.cells|
    ensures Inv(ReleaseAt(sys, at).0)
  {
    hide Valid, Step, Abs, Ownership, Lookup;
    if IsOwned(sys.cells[at], at) {
      ReleaseEffect(sys, at);
    }
  }

  lemma OwnershipMoved(sys: System, from: nat, to: nat)
    requires Sized(sys) && Ownership(sys.cells, Abs(sys.arena), sys.made)
    requires from < |sys.cells| && to < |sys.cells| && from != to && sys.cells[from].owns && !sys.cells[to].owns
    ensures Ownership(Moved(sys.cells, from, to), Abs(sys.arena), sys.made)
  {
    hide Valid, Abs, Ownership, IsOwned;
    OwnedFacts(sys, from);
    OwnershipMove(sys.cells, Abs(sys.arena), sys.made, from, to);
  }

  lemma MovedCells(cells: seq<Message>, from: nat, to: nat)
    requires from < |cells| && to < |cells| && from != to
    ensures |Moved(cells, from, to)| == |cells|
    ensures Moved(cells, from, to)[to] == cells[from].(payload := Some(to)) && Moved(cells, from, to)[from] == EMPTY
    ensures forall j :: 0 <= j < |cells| && j != from && j != to ==> Moved(cells, from, to)[j] == cells[j]
  {
  }

  /** Pushing moves the envelope to the end of the queue; a full queue leaves it where it was. */
  lemma PushKeeps(sys: System, at: nat)
    requires Inv(sys) && sys.ring.capacity <= at < |sys.cells|
    ensures Inv(PushMove(sys, at).0)
    ensures PushMove(sys, at).1 == Ok ==>
              Queued(PushMove(sys, at).0.cells, PushMove(sys, at).0.ring)
              == Queued(sys.cells, sys.ring) + [Bare(sys.cells[at])]
  {
    hide Valid, Abs, Queued, Ownership, Moved, RingInv, Lookup;
    if IsOwned(sys.cells[at], at) && sys.ring.count < sys.ring.capacity {
      TailIsFree(sys.cells, sys.ring);
      OwnershipMoved(sys, at, sys.ring.tail);
      MovedCells(sys.cells, at, sys.ring.tail);
      TailRing(sys.cells, sys.ring, Moved(sys.cells, at, sys.ring.tail));
    }
  }

  lemma HeadIsOwned(cells: seq<Message>, r: Ring)
    requires RingInv(cells, r) && r.count > 0
    ensures cells[r.head].owns
  {
    assert InWindow(r, r.head);
  }

  /** Popping takes the first envelope of the queue. */
  lemma PopKeeps(sys: System, at: nat)
    requires Inv(sys) && sys.ring.capacity <= at < |sys.cells|
    ensures Inv(PopMove(sys, at).0)
    ensures PopMove(sys, at).1 == Ok ==>
              Queued(sys.cells, sys.ring)
              == [Bare(PopMove(sys, at).0.cells[at])] + Queued(PopMove(sys, at).0.cells, PopMove(sys, at).0.ring)
  {
    hide Valid, Abs, Queued, Ownership, Moved, RingInv, Popped, Lookup;
    if !sys.cells[at].owns && sys.ring.count > 0 {
      HeadIsOwned(sys.cells, sys.ring);
      OwnershipMoved(sys, sys.ring.head, at);
      MovedCells(sys.cells, sys.ring.head, at);
      HeadRing(sys.cells, sys.ring, Moved(sys.cells, sys.ring.head, at));
      PoppedOk(sys.ring);
    }
  }

  lemma PoppedOk(r: Ring)
    requires RingOk(r) && r.count > 0
    ensures RingOk(Popped(r)) && Popped(r).capacity == r.capacity && Popped(r).count == r.count - 1
  {
    RingStorage.NextIndex(r.head, r.capacity);
  }

  /** Releasing a queue empties it, or stops at the first envelope on loan and keeps the rest. */
  lemma {:induction false} ReleaseQueueKeeps(sys: System)
    requires Inv(sys)
    ensures Inv(ReleaseQueue(sys).0)
    ensures ReleaseQueue(sys).1 == Ok ==> ReleaseQueue(sys).0.ring.count == 0
    ensures ReleaseQueue(sys).1 != Ok ==>
              ReleaseQueue(sys).1 == Locked && ReleaseQueue(sys).0.ring.count > 0
    decreases sys.ring.count
  {
    hide Valid, Step, Abs, Ownership, ReleaseAt, RingInv, Popped, Lookup;
    if sys.ring.count > 0 {
      HeadIsOwned(sys.cells, sys.ring);
      ReleaseEffect(sys, sys.ring.head);
      var next := ReleaseAt(sys, sys.ring.head).0;
      PoppedOk(sys.ring);
      if ReleaseAt(sys, sys.ring.head).1 == Ok {
        HeadRing(sys.cells, sys.ring, next.cells);
        ReleaseQueueKeeps(next.(ring := Popped(next.ring)));
      }
    }
  }

  /** Mapping and unmapping change the loan of one buffer and nothing else. */
  lemma LoanEffect(a: Arena, op: Op)
    requires Valid(a) && (op.Map? || op.Unmap?) && op.handle in Abs(a)
    ensures Valid(Step(a, op).0)
    ensures Abs(Step(a, op).0) == Abs(a)[op.handle := Abs(a)[op.handle].(mapped := op.Map?)]
  {
    hide Valid, Step, Abs, Lookup;
    StepRefines(a, op);
  }

  lemma OwnershipLent(sys: System, at: nat, mapped: bool)
    requires Sized(sys) && Ownership(sys.cells, Abs(sys.arena), sys.made) && at < |sys.cells| && sys.cells[at].owns
    ensures sys.cells[at].handle in Abs(sys.arena)
    ensures Ownership(sys.cells, Abs(sys.arena)[sys.cells[at].handle := Abs(sys.arena)[sys.cells[at].handle].(mapped := mapped)],
                      sys.made)
  {
    hide Valid, Abs, Ownership, IsOwned, Lookup;
    OwnedFacts(sys, at);
    OwnershipLoan(sys.cells, Abs(sys.arena), sys.made, sys.cells[at].handle, mapped);
  }

  lemma LendKeeps(sys: System, at: nat, op: Op)
    requires Inv(sys) && at < |sys.cells|
    requires (op.Map? || op.Unmap?) && op.handle == sys.cells[at].handle
    ensures Inv(LendAt(sys, at, op).0)
  {
    hide Valid, Step, Abs, RingInv, Ownership, Lookup;
    if IsOwned(sys.cells[at], at) {
      OwnershipLent(sys, at, op.Map?);
      LoanEffect(sys.arena, op);
    }
  }

  lemma NextKeeps(sys: System, call: Call)
    requires Inv(sys) && Enabled(sys, call)
    ensures Inv(Next(sys, call).0)
  {
    hide Inv, CreateCopy, ReleaseAt, PushMove, PopMove, ReleaseQueue, LendAt;
    match call
    case Create(at, eventId, sourceId, source) => CreateKeeps(sys, at, eventId, sourceId, source);
    case Release(at) => ReleaseKeeps(sys, at);
    case Push(at) => PushKeeps(sys, at);
    case Pop(at) => PopKeeps(sys, at);
    case ReleaseAll => ReleaseQueueKeeps(sys);
    case Lend(at) => LendKeeps(sys, at, Map(sys.cells[at].handle));
    case GiveBack(at) => LendKeeps(sys, at, Unmap(sys.cells[at].handle));
  }

  // ----- Runs -----

  ghost predicate IsRun(states: seq<System>, calls: seq<Call>) {
    && |states| == |calls| + 1 && Inv(states[0])
    && forall k :: 0 <= k < |calls| ==>
         Sized(states[k]) && Enabled(states[k], calls[k]) && states[k + 1] == Next(states[k], calls[k]).0
  }

  lemma InitialInv(memory: seq<bv8>, cells: nat, capacity: nat)
    requires 0 < capacity <= cells && |memory| < INVALID_OFFSET
    ensures Inv(System(Arena(seq(MAX_BUFFERS, i => EMPTY_SLOT), memory), seq(cells, i => EMPTY), Ring(capacity, 0, 0, 0), map[]))
  {
    var a := Arena(seq(MAX_BUFFERS, i => EMPTY_SLOT), memory);
    assert forall i :: 0 <= i < |a.slots| ==> a.slots[i] == EMPTY_SLOT;
    assert Valid(a);
    AbsIs(a, map[]);
    var empty := seq(cells, i => EMPTY);
    assert forall p :: 0 <= p < |empty| ==> empty[p] == EMPTY;
    assert OwnedHandles(empty) == {};
  }

  /** In every run: live buffers and owners match one to one, with the bytes of their creation. */
  lemma {:induction false} RunConserves(states: seq<System>, calls: seq<Call>, k: nat)
    requires IsRun(states, calls) && k < |states|
    ensures Inv(states[k])
    ensures Abs(states[k].arena).Keys == OwnedHandles(states[k].cells)
    ensures Unique(states[k].cells)
  {
    hide Next, Enabled;
    if k > 0 {
      RunConserves(states, calls, k - 1);
      hide Inv;
      NextKeeps(states[k - 1], calls[k - 1]);
    }
    assert Inv(states[k]);
  }

  /** A holder reads exactly the bytes its buffer was made with. */
  lemma ReadReturnsMade(sys: System, at: nat, offset: nat, count: nat)
    requires Inv(sys) && at < |sys.cells| && IsOwned(sys.cells[at], at)
    requires !Abs(sys.arena)[sys.cells[at].handle].mapped
    ensures var bytes := sys.made[sys.cells[at].handle];
            ReadAt(sys, at, offset, count)
            == if offset + count <= |bytes| then (Ok, bytes[offset..offset + count]) else (BadArgument, [])
  {
    hide Valid, Step, Abs, Ownership, RingInv, Lookup;
    OwnedFacts(sys, at);
    StepRefines(sys.arena, Op.Read(sys.cells[at].handle, offset, count));
  }
}
