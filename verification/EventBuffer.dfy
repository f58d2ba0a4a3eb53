/**
 Envelopes that own arena buffers and the queue that moves them
 (`utility_event_buffer.c` over `memory_buffer_event_adapter.c`).

 All envelopes live in one memory of cells, so a cell's index is its address: the queue's
 storage takes the first `capacity` cells, producers and consumers hold the others.
 */
module EventBuffer {
  import opened Wrappers
  import opened Arena
  import opened ArenaRefinement

  /** `payload` is the address of the cell whose buffer reference the event points at. */
  datatype Message = Message(eventId: nat, sourceId: nat, payload: Option<nat>, pooled: bool,
                             handle: nat, length: nat, owns: bool)

  const EMPTY := Message(0, 0, None, false, 0, 0, false)

  datatype Ring = Ring(capacity: nat, head: nat, tail: nat, count: nat)

  /** `made` remembers, for the proofs, the bytes each live buffer was created with. */
  datatype System = System(arena: Arena, cells: seq<Message>, ring: Ring, made: map<nat, seq<bv8>>)

  datatype Result = Ok | BadArgument | Full | QueueEmpty | NotFound | Locked

  /** `map_result` of the adapter. */
  function Mapped(reply: Reply): Result {
    match reply
    case Failed(OutOfMemory) => Full
    case Failed(Busy) => Locked
    case Failed(InvalidHandle) => NotFound
    case Failed(_) => BadArgument
    case _ => Ok
  }

  predicate IsOwned(m: Message, address: nat) {
    m.owns && m.pooled && m.payload == Some(address)
  }

  predicate RingOk(r: Ring) {
    r.capacity > 0 && r.head < r.capacity && r.tail < r.capacity && r.count <= r.capacity
  }

  predicate Sized(sys: System) {
    Valid(sys.arena) && RingOk(sys.ring) && sys.ring.capacity <= |sys.cells|
  }

  // ----- The calls -----

  datatype Call =
    | Create(at: nat, eventId: nat, sourceId: nat, source: seq<bv8>)
    | Release(at: nat)
    | Push(at: nat)
    | Pop(at: nat)
    | ReleaseAll
    | Lend(at: nat)
    | GiveBack(at: nat)

  function CreateCopy(sys: System, at: nat, eventId: nat, sourceId: nat, source: seq<bv8>): (System, Result)
    requires Sized(sys) && at < |sys.cells|
  {
    if sys.cells[at].owns || source == [] then (sys, BadArgument)
    else
      var (a1, granted) := Step(sys.arena, Alloc(|source|));
      if !granted.Handle? then (sys.(arena := a1), Mapped(granted))
      else
        StepRefines(sys.arena, Alloc(|source|));
        var (a2, written) := Step(a1, Write(granted.handle, 0, source));
        StepRefines(a1, Write(granted.handle, 0, source));
        if written != Done then (sys.(arena := Step(a2, Free(granted.handle)).0), Mapped(written))
        else
          var message := Message(eventId, sourceId, Some(at), true, granted.handle, |source|, true);
          (sys.(arena := a2, cells := sys.cells[at := message], made := sys.made[granted.handle := source]), Ok)
  }

  function ReleaseAt(sys: System, at: nat): (System, Result)
    requires Sized(sys) && at < |sys.cells|
  {
    if !IsOwned(sys.cells[at], at) then (sys, BadArgument)
    else
      var handle := sys.cells[at].handle;
      var (arena, reply) := Step(sys.arena, Free(handle));
      if reply == Done then
        (sys.(arena := arena, cells := sys.cells[at := EMPTY], made := sys.made - {handle}), Ok)
      else (sys.(arena := arena), Mapped(reply))
  }

  function ReadAt(sys: System, at: nat, offset: nat, count: nat): (Result, seq<bv8>)
    requires Sized(sys) && at < |sys.cells|
  {
    var m := sys.cells[at];
    if !IsOwned(m, at) || offset > m.length || count > m.length - offset then (BadArgument, [])
    else
      var reply := Step(sys.arena, Op.Read(m.handle, offset, count)).1;
      (Mapped(reply), if reply.Data? then reply.data else [])
  }

  /** `move_message`: the event's payload pointer follows the envelope, the source is cleared. */
  function Moved(cells: seq<Message>, from: nat, to: nat): seq<Message>
    requires from < |cells| && to < |cells| && from != to
  {
    cells[to := cells[from].(payload := Some(to))][from := EMPTY]
  }

  function PushMove(sys: System, at: nat): (System, Result)
    requires Sized(sys) && sys.ring.capacity <= at < |sys.cells|
  {
    var r := sys.ring;
    if !IsOwned(sys.cells[at], at) then (sys, BadArgument)
    else if r.count == r.capacity then (sys, Full)
    else (sys.(cells := Moved(sys.cells, at, r.tail),
               ring := r.(tail := (r.tail + 1) % r.capacity, count := r.count + 1)), Ok)
  }

  function Popped(r: Ring): Ring
    requires RingOk(r) && r.count > 0
  {
    r.(head := (r.head + 1) % r.capacity, count := r.count - 1)
  }

  function PopMove(sys: System, at: nat): (System, Result)
    requires Sized(sys) && sys.ring.capacity <= at < |sys.cells|
  {
    if sys.cells[at].owns then (sys, BadArgument)
    else if sys.ring.count == 0 then (sys, QueueEmpty)
    else (sys.(cells := Moved(sys.cells, sys.ring.head, at), ring := Popped(sys.ring)), Ok)
  }

  lemma ReleaseAtSized(sys: System, at: nat)
    requires Sized(sys) && at < |sys.cells|
    ensures Sized(ReleaseAt(sys, at).0)
    ensures |ReleaseAt(sys, at).0.cells| == |sys.cells| && ReleaseAt(sys, at).0.ring == sys.ring
  {
    hide Valid, Step;
    StepRefines(sys.arena, Free(sys.cells[at].handle));
  }

  function ReleaseQueue(sys: System): (System, Result)
    requires Sized(sys)
    decreases sys.ring.count
  {
    if sys.ring.count == 0 then (sys, Ok)
    else
      var (next, result) := ReleaseAt(sys, sys.ring.head);
      ReleaseAtSized(sys, sys.ring.head);
      if result != Ok then (next, result) else ReleaseQueue(next.(ring := Popped(next.ring)))
  }

  /** A handler that maps or unmaps the buffer of an envelope it holds. */
  function LendAt(sys: System, at: nat, op: Op): (System, Result)
    requires Sized(sys) && at < |sys.cells|
  {
    if !IsOwned(sys.cells[at], at) then (sys, BadArgument)
    else
      var (arena, reply) := Step(sys.arena, op);
      (sys.(arena := arena), Mapped(reply))
  }

  predicate Enabled(sys: System, call: Call) {
    match call
    case Create(at, _, _, _) => sys.ring.capacity <= at < |sys.cells|
    case Release(at) => sys.ring.capacity <= at < |sys.cells|
    case Push(at) => sys.ring.capacity <= at < |sys.cells|
    case Pop(at) => sys.ring.capacity <= at < |sys.cells|
    case ReleaseAll => true
    case Lend(at) => at < |sys.cells|
    case GiveBack(at) => at < |sys.cells|
  }

  function Next(sys: System, call: Call): (System, Result)
    requires Sized(sys) && Enabled(sys, call)
  {
    match call
    case Create(at, eventId, sourceId, source) => CreateCopy(sys, at, eventId, sourceId, source)
    case Release(at) => ReleaseAt(sys, at)
    case Push(at) => PushMove(sys, at)
    case Pop(at) => PopMove(sys, at)
    case ReleaseAll => ReleaseQueue(sys)
    case Lend(at) => LendAt(sys, at, Map(sys.cells[at].handle))
    case GiveBack(at) => LendAt(sys, at, Unmap(sys.cells[at].handle))
  }

  // ----- The envelopes and their queue -----

  class Envelopes {
    const context: Context
    const cells: array<Message>
    const capacity: nat
    var head: nat
    var tail: nat
    var count: nat
    ghost var made: map<nat, seq<bv8>>

    ghost function View(): System
      reads this, context.slots, context.bytes, cells
    {
      System(context.View(), cells[..], Ring(capacity, head, tail, count), made)
    }

    ghost predicate Usable()
      reads this, context.slots, context.bytes, cells
    {
      && context.Ok() && Sized(View())
      && cells as object != context.slots && cells as object != context.bytes
    }

    /** `ut_event_buffer_queue_init`: storage is cleared, no envelope owns anything. */
    constructor (context: Context, total: nat, capacity: nat)
      requires context.Ok() && 0 < capacity <= total
      ensures Usable() && this.context == context && fresh(cells)
      ensures View() == System(context.View(), seq(total, i => EMPTY), Ring(capacity, 0, 0, 0), map[])
    {
      this.context, this.capacity := context, capacity;
      cells := new Message[total](_ => EMPTY);
      head, tail, count, made := 0, 0, 0, map[];
      new;
      assert cells[..] == seq(total, i => EMPTY);
    }

    method SetCell(at: nat, message: Message)
      requires at < cells.Length && cells as object != context.slots && cells as object != context.bytes
      modifies cells
      ensures View() == old(View()).(cells := old(View()).cells[at := message])
    {
      cells[at] := message;
      assert cells[..] == old(cells[..])[at := message];
      assert context.slots[..] == old(context.slots[..]) && context.bytes[..] == old(context.bytes[..]);
    }

    method Make(at: nat, eventId: nat, sourceId: nat, source: seq<bv8>) returns (result: Result)
      requires Usable() && at < cells.Length
      modifies this, cells, context.slots, context.bytes
      ensures (View(), result) == CreateCopy(old(View()), at, eventId, sourceId, source)
    {
      hide Step, Valid;
      if cells[at].owns || source == [] {
        return BadArgument;
      }
      StepRefines(context.View(), Alloc(|source|));
      var reply := context.AllocateBuffer(|source|);
      assert cells[..] == old(cells[..]);
      if !reply.Handle? {
        return Mapped(reply);
      }
      StepRefines(context.View(), Write(reply.handle, 0, source));
      var written := context.WriteBuffer(reply.handle, 0, source);
      assert cells[..] == old(cells[..]);
      if written != Done {
        var _ := context.FreeBuffer(reply.handle);
        assert cells[..] == old(cells[..]);
        return Mapped(written);
      }
      SetCell(at, Message(eventId, sourceId, Some(at), true, reply.handle, |source|, true));
      made := made[reply.handle := source];
      return Ok;
    }

    method ReleaseEnvelope(at: nat) returns (result: Result)
      requires Usable() && at < cells.Length
      modifies this, cells, context.slots
      ensures (View(), result) == ReleaseAt(old(View()), at)
      ensures head == old(head) && tail == old(tail) && count == old(count)
    {
      hide Step, Valid;
      if !IsOwned(cells[at], at) {
        return BadArgument;
      }
      StepRefines(context.View(), Free(cells[at].handle));
      var handle := cells[at].handle;
      var reply := context.FreeBuffer(handle);
      assert cells[..] == old(cells[..]);
      if reply == Done {
        SetCell(at, EMPTY);
        made := made - {handle};
        return Ok;
      }
      return Mapped(reply);
    }

    method ReadEnvelope(at: nat, offset: nat, size: nat) returns (result: Result, data: seq<bv8>)
      requires Usable() && at < cells.Length
      ensures (result, data) == ReadAt(View(), at, offset, size)
    {
      hide Step, Valid;
      if !IsOwned(cells[at], at) || offset > cells[at].length || size > cells[at].length - offset {
        return BadArgument, [];
      }
      var reply := context.ReadBuffer(cells[at].handle, offset, size);
      return Mapped(reply), if reply.Data? then reply.data else [];
    }

    method MoveCell(from: nat, to: nat)
      requires from < cells.Length && to < cells.Length && from != to
      requires cells as object != context.slots && cells as object != context.bytes
      modifies cells
      ensures View() == old(View()).(cells := Moved(old(View()).cells, from, to))
    {
      SetCell(to, cells[from]);
      SetCell(to, cells[to].(payload := Some(to)));
      SetCell(from, EMPTY);
      assert cells[..] == Moved(old(cells[..]), from, to);
    }

    method PushEnvelope(at: nat) returns (result: Result)
      requires Usable() && capacity <= at < cells.Length
      modifies this, cells
      ensures (View(), result) == PushMove(old(View()), at)
    {
      hide Valid, Moved;
      if !IsOwned(cells[at], at) {
        return BadArgument;
      }
      if count == capacity {
        return Full;
      }
      MoveCell(at, tail);
      tail, count := (tail + 1) % capacity, count + 1;
      return Ok;
    }

    method PopEnvelope(at: nat) returns (result: Result)
      requires Usable() && capacity <= at < cells.Length
      modifies this, cells
      ensures (View(), result) == PopMove(old(View()), at)
    {
      hide Valid, Moved;
      if cells[at].owns {
        return BadArgument;
      }
      if count == 0 {
        return QueueEmpty;
      }
      MoveCell(head, at);
      head, count := (head + 1) % capacity, count - 1;
      return Ok;
    }

    method ReleaseAllEnvelopes() returns (result: Result)
      requires Usable()
      modifies this, cells, context.slots
      ensures (View(), result) == ReleaseQueue(old(View()))
    {
      hide Valid, ReleaseAt;
      ghost var goal := ReleaseQueue(View());
      while count > 0
        invariant Usable() && ReleaseQueue(View()) == goal
        decreases count
      {
        ReleaseAtSized(View(), head);
        result := ReleaseEnvelope(head);
        if result != Ok {
          return;
        }
        head, count := (head + 1) % capacity, count - 1;
      }
      return Ok;
    }
  }
}
