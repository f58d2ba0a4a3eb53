/**
 The arena allocator (`memory-buffer/src/buffer.rs`).

 `Arena` is the context record with the bytes it manages. `Step` specifies one API call;
 the class `Context` updates its slots and bytes in place and is proved to compute it.
 */
module Arena {
  import opened Wrappers
  import opened Bytes

  const MAX_BUFFERS: nat := 64
  const INVALID_OFFSET: nat := 0xFFFF_FFFF_FFFF_FFFF
  const GENERATIONS: nat := 0x100_0000

  datatype Slot = Slot(offset: nat, length: nat, capacity: nat, generation: nat, mapCount: nat)

  const EMPTY_SLOT := Slot(INVALID_OFFSET, 0, 0, 1, 0)

  datatype Arena = Arena(slots: seq<Slot>, bytes: seq<bv8>)

  predicate Active(slot: Slot) {
    slot.offset != INVALID_OFFSET
  }

  // ----- Handles -----

  /** The slot index and generation of a well-formed handle; the low byte is the index plus one. */
  function Decode(handle: nat): (r: Option<(nat, nat)>)
    ensures r.Some? ==> r.value.0 < MAX_BUFFERS && 0 < r.value.1
  {
    var encoded := handle % 256;
    if encoded == 0 then None
    else if encoded - 1 >= MAX_BUFFERS || handle / 256 == 0 then None
    else Some((encoded - 1, handle / 256))
  }

  function Encode(index: nat, generation: nat): nat {
    generation * 256 + (index + 1)
  }

  function NextGeneration(current: nat): nat {
    if (current + 1) % GENERATIONS == 0 then 1 else (current + 1) % GENERATIONS
  }

  /** The active slot a handle names. */
  function SlotFor(slots: seq<Slot>, handle: nat): (r: Option<nat>)
    requires |slots| == MAX_BUFFERS
    ensures r.Some? ==> r.value < MAX_BUFFERS && Active(slots[r.value])
  {
    var decoded := Decode(handle);
    if decoded.None? then None
    else
      var (index, generation) := decoded.value;
      if Active(slots[index]) && slots[index].generation == generation then Some(index) else None
  }

  // ----- Regions -----

  predicate Apart(slot: Slot, offset: nat, capacity: nat) {
    Active(slot) ==> offset + capacity <= slot.offset || slot.offset + slot.capacity <= offset
  }

  /** `[offset, offset + capacity)` lies in the arena and meets no active region. */
  predicate Fits(slots: seq<Slot>, size: nat, capacity: nat, offset: nat) {
    offset + capacity <= size && forall i :: 0 <= i < |slots| ==> Apart(slots[i], offset, capacity)
  }

  predicate WellFormed(slot: Slot, size: nat) {
    && 0 < slot.generation < GENERATIONS
    && (Active(slot) ==> 0 < slot.capacity && slot.offset + slot.capacity <= size
                         && slot.length <= slot.capacity && slot.mapCount <= 1)
    && (!Active(slot) ==> slot.mapCount == 0)
  }

  predicate Disjoint(slots: seq<Slot>) {
    forall i, j :: 0 <= i < |slots| && 0 <= j < |slots| && i != j && Active(slots[i]) ==>
      Apart(slots[j], slots[i].offset, slots[i].capacity)
  }

  predicate Valid(a: Arena) {
    && |a.slots| == MAX_BUFFERS && |a.bytes| < INVALID_OFFSET
    && (forall i :: 0 <= i < |a.slots| ==> WellFormed(a.slots[i], |a.bytes|))
    && Disjoint(a.slots)
  }

  /** The least offset from `from` on that fits. */
  function FirstFit(slots: seq<Slot>, size: nat, capacity: nat, from: nat): (r: Option<nat>)
    ensures r.Some? ==> from <= r.value && Fits(slots, size, capacity, r.value)
    ensures r.Some? ==> forall o :: from <= o < r.value ==> !Fits(slots, size, capacity, o)
    ensures r.None? ==> forall o :: from <= o ==> !Fits(slots, size, capacity, o)
    decreases size - from
  {
    if from + capacity > size then None
    else if Fits(slots, size, capacity, from) then Some(from)
    else if from >= size then None
    else FirstFit(slots, size, capacity, from + 1)
  }

  function FreeSlot(slots: seq<Slot>, from: nat): (r: Option<nat>)
    ensures r.Some? ==> from <= r.value < |slots| && !Active(slots[r.value])
    ensures r.Some? ==> forall i :: from <= i < r.value ==> Active(slots[i])
    ensures r.None? ==> forall i :: from <= i < |slots| ==> Active(slots[i])
    decreases |slots| - from
  {
    if from >= |slots| then None
    else if !Active(slots[from]) then Some(from)
    else FreeSlot(slots, from + 1)
  }

  // ----- The calls -----

  datatype Error = InvalidArgument | OutOfMemory | InvalidHandle | OutOfBounds | Busy

  datatype Reply =
    | Done
    | Failed(error: Error)
    | Handle(handle: nat)
    | Data(data: seq<bv8>)
    | Info(length: nat, capacity: nat, mapped: bool)
    | Granted(capacity: nat)

  /** `Store` is a write through the pointer that `Map` lends; only a mapped buffer has one. */
  datatype Op =
    | Alloc(capacity: nat)
    | Free(handle: nat)
    | Write(handle: nat, offset: nat, source: seq<bv8>)
    | Read(handle: nat, offset: nat, count: nat)
    | SetLength(handle: nat, count: nat)
    | GetInfo(handle: nat)
    | Map(handle: nat)
    | Unmap(handle: nat)
    | Store(handle: nat, offset: nat, value: bv8)
    | Reset

  function Max(a: nat, b: nat): nat { if a < b then b else a }

  function Released(slot: Slot): Slot {
    Slot(INVALID_OFFSET, 0, 0, NextGeneration(slot.generation), slot.mapCount)
  }

  function Allocate(a: Arena, capacity: nat): (Arena, Reply)
    requires |a.slots| == MAX_BUFFERS
  {
    if capacity == 0 then (a, Failed(InvalidArgument))
    else
      var index, offset := FreeSlot(a.slots, 0), FirstFit(a.slots, |a.bytes|, capacity, 0);
      if index.None? || offset.None? then (a, Failed(OutOfMemory))
      else
        var generation := a.slots[index.value].generation;
        (a.(slots := a.slots[index.value := Slot(offset.value, 0, capacity, generation, 0)]),
         Handle(Encode(index.value, generation)))
  }

  /** A call on the buffer in slot `i`. */
  function OnSlot(a: Arena, i: nat, op: Op): (Arena, Reply)
    requires Valid(a) && i < MAX_BUFFERS && Active(a.slots[i])
  {
    var slot := a.slots[i];
    if op.GetInfo? then (a, Info(slot.length, slot.capacity, slot.mapCount != 0))
    else if op.Unmap? then
      if slot.mapCount == 0 then (a, Failed(InvalidArgument))
      else (a.(slots := a.slots[i := slot.(mapCount := slot.mapCount - 1)]), Done)
    else if op.Store? then
      if slot.mapCount == 0 || op.offset >= slot.capacity then (a, Done)
      else
        assert WellFormed(slot, |a.bytes|);
        (a.(bytes := Overwrite(a.bytes, slot.offset + op.offset, [op.value])), Done)
    else if slot.mapCount != 0 then (a, Failed(Busy))
    else OnUnmapped(a, i, op)
  }

  function Written(a: Arena, i: nat, offset: nat, source: seq<bv8>): Arena
    requires i < |a.slots| && a.slots[i].offset + offset + |source| <= |a.bytes|
  {
    Arena(a.slots[i := a.slots[i].(length := Max(a.slots[i].length, offset + |source|))],
          Overwrite(a.bytes, a.slots[i].offset + offset, source))
  }

  function OnUnmapped(a: Arena, i: nat, op: Op): (Arena, Reply)
    requires Valid(a) && i < MAX_BUFFERS && Active(a.slots[i])
  {
    var slot := a.slots[i];
    assert WellFormed(slot, |a.bytes|);
    match op
    case Free(_) => (a.(slots := a.slots[i := Released(slot)]), Done)
    case Write(_, offset, source) =>
      if offset + |source| > slot.capacity then (a, Failed(OutOfBounds))
      else (Written(a, i, offset, source), Done)
    case Read(_, offset, count) =>
      if offset + count > slot.length then (a, Failed(OutOfBounds))
      else (a, Data(a.bytes[slot.offset + offset..slot.offset + offset + count]))
    case SetLength(_, count) =>
      if count > slot.capacity then (a, Failed(OutOfBounds))
      else (a.(slots := a.slots[i := slot.(length := count)]), Done)
    case Map(_) => (a.(slots := a.slots[i := slot.(mapCount := 1)]), Granted(slot.capacity))
    case _ => (a, Done)
  }

  predicate AnyMapped(slots: seq<Slot>) {
    exists i :: 0 <= i < |slots| && slots[i].mapCount != 0
  }

  function ResetAll(a: Arena): (Arena, Reply) {
    if AnyMapped(a.slots) then (a, Failed(Busy))
    else (a.(slots := ReleasedAll(a.slots)), Done)
  }

  function ReleasedAll(slots: seq<Slot>): (r: seq<Slot>)
    ensures |r| == |slots| && forall i :: 0 <= i < |slots| ==> r[i] == Released(slots[i])
  {
    seq(|slots|, i requires 0 <= i < |slots| => Released(slots[i]))
  }

  function Step(a: Arena, op: Op): (Arena, Reply)
    requires Valid(a)
  {
    if op.Alloc? then Allocate(a, op.capacity)
    else if op.Reset? then ResetAll(a)
    else
      var i := SlotFor(a.slots, op.handle);
      if i.None? then (a, Failed(InvalidHandle)) else OnSlot(a, i.value, op)
  }

  // ----- The context -----

  class Context {
    const slots: array<Slot>
    const bytes: array<bv8>

    ghost function View(): Arena
      reads slots, bytes
    {
      Arena(slots[..], bytes[..])
    }

    ghost predicate Ok()
      reads slots, bytes
    {
      slots as object != bytes && Valid(View())
    }

    /** `mb_init`: the arena's content is whatever the caller's memory holds. */
    constructor (memory: array<bv8>)
      requires memory.Length < INVALID_OFFSET
      ensures Ok() && bytes == memory && fresh(slots)
      ensures View() == Arena(seq(MAX_BUFFERS, i => EMPTY_SLOT), memory[..])
    {
      slots := new Slot[MAX_BUFFERS](_ => EMPTY_SLOT);
      bytes := memory;
      new;
      assert slots[..] == seq(MAX_BUFFERS, i => EMPTY_SLOT);
    }

    /** The loop of `find_region`: jump from region to region until a gap is wide enough. */
    method FindRegion(capacity: nat) returns (r: Option<nat>)
      requires Ok()
      ensures r == if capacity == 0 then None else FirstFit(slots[..], bytes.Length, capacity, 0)
    {
      if capacity == 0 || capacity > bytes.Length {
        return None;
      }
      var candidate := 0;
      while true
        invariant candidate <= bytes.Length && Clear(slots[..], candidate)
        invariant forall o :: 0 <= o < candidate ==> !Fits(slots[..], bytes.Length, capacity, o)
        decreases bytes.Length - candidate
      {
        var nearestOffset, nearestEnd := NearestRegion(candidate);
        if capacity <= nearestOffset - candidate {
          FitsBefore(slots[..], bytes.Length, capacity, candidate, nearestOffset);
          return Some(candidate);
        }
        if nearestOffset == bytes.Length {
          return None;
        }
        NoFitUpTo(slots[..], bytes.Length, capacity, candidate, nearestOffset, nearestEnd);
        candidate := nearestEnd;
      }
    }

    /** The first active region at or after `candidate`, or the end of the arena. */
    method NearestRegion(candidate: nat) returns (offset: nat, end: nat)
      requires Ok() && candidate <= bytes.Length
      ensures candidate <= offset <= bytes.Length
      ensures Nearest(slots[..], bytes.Length, candidate, offset, end)
    {
      offset, end := bytes.Length, bytes.Length;
      var i := 0;
      while i < slots.Length
        invariant 0 <= i <= slots.Length && candidate <= offset <= bytes.Length
        invariant Nearest(slots[..i], bytes.Length, candidate, offset, end)
      {
        assert slots[..i + 1] == slots[..i] + [slots[i]];
        assert WellFormed(View().slots[i], bytes.Length);
        if Active(slots[i]) && slots[i].offset >= candidate && slots[i].offset < offset {
          offset, end := slots[i].offset, slots[i].offset + slots[i].capacity;
        }
        i := i + 1;
      }
      assert slots[..i] == slots[..];
    }

    method AllocateBuffer(capacity: nat) returns (reply: Reply)
      requires Ok()
      modifies slots
      ensures (View(), reply) == Step(old(View()), Alloc(capacity))
    {
      if capacity == 0 {
        return Failed(InvalidArgument);
      }
      var index := 0;
      while index < slots.Length && Active(slots[index])
        invariant 0 <= index <= slots.Length
        invariant FreeSlot(slots[..], 0) == FreeSlot(slots[..], index)
      {
        index := index + 1;
      }
      if index == slots.Length {
        return Failed(OutOfMemory);
      }
      var offset := FindRegion(capacity);
      if offset.None? {
        return Failed(OutOfMemory);
      }
      SetSlot(index, slots[index].(offset := offset.value, length := 0, capacity := capacity, mapCount := 0));
      reply := Handle(Encode(index, slots[index].generation));
    }

    method SetSlot(i: nat, slot: Slot)
      requires i < slots.Length && slots as object != bytes
      modifies slots
      ensures View() == old(View()).(slots := old(View()).slots[i := slot])
    {
      slots[i] := slot;
      assert slots[..] == old(slots[..])[i := slot];
      assert bytes[..] == old(bytes[..]);
    }

    method FindSlot(handle: nat) returns (index: Option<nat>)
      requires Ok()
      ensures index == SlotFor(slots[..], handle)
    {
      var decoded := Decode(handle);
      if decoded.None? {
        return None;
      }
      var (i, generation) := decoded.value;
      return if Active(slots[i]) && slots[i].generation == generation then Some(i) else None;
    }

    method FreeBuffer(handle: nat) returns (reply: Reply)
      requires Ok()
      modifies slots
      ensures (View(), reply) == Step(old(View()), Free(handle))
    {
      var i := FindSlot(handle);
      if i.None? {
        return Failed(InvalidHandle);
      }
      if slots[i.value].mapCount != 0 {
        return Failed(Busy);
      }
      SetSlot(i.value, slots[i.value].(offset := INVALID_OFFSET, length := 0, capacity := 0,
                                        generation := NextGeneration(slots[i.value].generation)));
      reply := Done;
    }

    /** Copies `source` to `at`; the loop of `ptr::copy`. */
    method CopyIn(at: nat, source: seq<bv8>)
      requires at + |source| <= bytes.Length && slots as object != bytes
      modifies bytes
      ensures View() == old(View()).(bytes := Overwrite(old(View()).bytes, at, source))
    {
      for k := 0 to |source|
        invariant bytes[..] == Overwrite(old(bytes[..]), at, source[..k])
      {
        bytes[at + k] := source[k];
        OverwriteOneMore(old(bytes[..]), at, source, k);
        assert source[..k + 1] == source[..k] + [source[k]];
      }
      assert source[..|source|] == source;
      assert slots[..] == old(slots[..]);
    }

    method WriteBuffer(handle: nat, offset: nat, source: seq<bv8>) returns (reply: Reply)
      requires Ok()
      modifies slots, bytes
      ensures (View(), reply) == Step(old(View()), Write(handle, offset, source))
    {
      hide Overwrite;
      var i := FindSlot(handle);
      if i.None? {
        return Failed(InvalidHandle);
      }
      var slot := slots[i.value];
      assert WellFormed(View().slots[i.value], bytes.Length);
      if slot.mapCount != 0 {
        return Failed(Busy);
      }
      if offset + |source| > slot.capacity {
        return Failed(OutOfBounds);
      }
      CopyIn(slot.offset + offset, source);
      SetSlot(i.value, slot.(length := Max(slot.length, offset + |source|)));
      reply := Done;
    }

    method ReadBuffer(handle: nat, offset: nat, count: nat) returns (reply: Reply)
      requires Ok()
      ensures (View(), reply) == Step(View(), Read(handle, offset, count))
    {
      var i := FindSlot(handle);
      if i.None? {
        return Failed(InvalidHandle);
      }
      var slot := slots[i.value];
      assert WellFormed(View().slots[i.value], bytes.Length);
      if slot.mapCount != 0 {
        return Failed(Busy);
      }
      if offset + count > slot.length {
        return Failed(OutOfBounds);
      }
      var at := slot.offset + offset;
      assert bytes[at..at + count] == View().bytes[at..at + count];
      reply := Data(bytes[at..at + count]);
    }

    method ChangeLength(handle: nat, count: nat) returns (reply: Reply)
      requires Ok()
      modifies slots
      ensures (View(), reply) == Step(old(View()), SetLength(handle, count))
    {
      var i := FindSlot(handle);
      if i.None? {
        return Failed(InvalidHandle);
      }
      if slots[i.value].mapCount != 0 {
        return Failed(Busy);
      }
      if count > slots[i.value].capacity {
        return Failed(OutOfBounds);
      }
      SetSlot(i.value, slots[i.value].(length := count));
      reply := Done;
    }

    method BufferInfo(handle: nat) returns (reply: Reply)
      requires Ok()
      ensures (View(), reply) == Step(View(), GetInfo(handle))
    {
      var i := FindSlot(handle);
      if i.None? {
        return Failed(InvalidHandle);
      }
      return Info(slots[i.value].length, slots[i.value].capacity, slots[i.value].mapCount != 0);
    }

    method MapBuffer(handle: nat) returns (reply: Reply)
      requires Ok()
      modifies slots
      ensures (View(), reply) == Step(old(View()), Map(handle))
    {
      var i := FindSlot(handle);
      if i.None? {
        return Failed(InvalidHandle);
      }
      if slots[i.value].mapCount != 0 {
        return Failed(Busy);
      }
      SetSlot(i.value, slots[i.value].(mapCount := 1));
      reply := Granted(slots[i.value].capacity);
    }

    method UnmapBuffer(handle: nat) returns (reply: Reply)
      requires Ok()
      modifies slots
      ensures (View(), reply) == Step(old(View()), Unmap(handle))
    {
      var i := FindSlot(handle);
      if i.None? {
        return Failed(InvalidHandle);
      }
      if slots[i.value].mapCount == 0 {
        return Failed(InvalidArgument);
      }
      SetSlot(i.value, slots[i.value].(mapCount := slots[i.value].mapCount - 1));
      reply := Done;
    }

    method ResetBuffers() returns (reply: Reply)
      requires Ok()
      modifies slots
      ensures (View(), reply) == Step(old(View()), Reset)
    {
      var i := 0;
      while i < slots.Length
        invariant 0 <= i <= slots.Length && forall k :: 0 <= k < i ==> slots[k].mapCount == 0
      {
        if slots[i].mapCount != 0 {
          assert View().slots[i].mapCount != 0;
          return Failed(Busy);
        }
        i := i + 1;
      }
      ghost var before := slots[..];
      assert !AnyMapped(before);
      i := 0;
      while i < slots.Length
        invariant 0 <= i <= slots.Length
        invariant forall k :: 0 <= k < i ==> slots[k] == Released(before[k])
        invariant forall k :: i <= k < slots.Length ==> slots[k] == before[k]
      {
        slots[i] := slots[i].(offset := INVALID_OFFSET, length := 0, capacity := 0,
                              generation := NextGeneration(slots[i].generation));
        i := i + 1;
      }
      assert slots[..] == ReleasedAll(before);
      assert bytes[..] == old(bytes[..]);
      reply := Done;
    }
  }

  // ----- Why jumping from region to region misses nothing -----

  /** No active region reaches across `candidate`. */
  predicate Clear(slots: seq<Slot>, candidate: nat) {
    forall i :: 0 <= i < |slots| && Active(slots[i]) && slots[i].offset < candidate ==>
      slots[i].offset + slots[i].capacity <= candidate
  }

  predicate Nearest(slots: seq<Slot>, size: nat, candidate: nat, offset: nat, end: nat) {
    && (forall i :: 0 <= i < |slots| && Active(slots[i]) && slots[i].offset >= candidate ==> offset <= slots[i].offset)
    && (if offset == size then end == size
        else exists i :: 0 <= i < |slots| && Active(slots[i]) && slots[i].offset == offset
                         && end == offset + slots[i].capacity)
  }

  lemma FitsBefore(slots: seq<Slot>, size: nat, capacity: nat, candidate: nat, offset: nat)
    requires Clear(slots, candidate) && candidate + capacity <= offset <= size
    requires forall i :: 0 <= i < |slots| && Active(slots[i]) && slots[i].offset >= candidate ==> offset <= slots[i].offset
    ensures Fits(slots, size, capacity, candidate)
  {
  }

  /** Nothing fits before the end of a region that starts too early. */
  lemma NoFitUpTo(slots: seq<Slot>, size: nat, capacity: nat, candidate: nat, offset: nat, end: nat)
    requires Disjoint(slots) && Nearest(slots, size, candidate, offset, end) && offset < size
    requires forall i :: 0 <= i < |slots| ==> WellFormed(slots[i], size)
    requires candidate <= offset < candidate + capacity
    ensures offset < end <= size && Clear(slots, end)
    ensures forall o :: candidate <= o < end ==> !Fits(slots, size, capacity, o)
  {
    var i :| 0 <= i < |slots| && Active(slots[i]) && slots[i].offset == offset && end == offset + slots[i].capacity;
    assert WellFormed(slots[i], size);
    forall o | candidate <= o < end
      ensures !Fits(slots, size, capacity, o)
    {
      assert !Apart(slots[i], o, capacity);
    }
    forall j | 0 <= j < |slots| && Active(slots[j]) && slots[j].offset < end
      ensures slots[j].offset + slots[j].capacity <= end
    {
      if j != i {
        assert Apart(slots[j], slots[i].offset, slots[i].capacity);
        assert WellFormed(slots[j], size);
      }
    }
  }
}
