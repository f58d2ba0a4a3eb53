/**
 The arena refines a map from handles to byte strings.

 `ModelStep` is the simple model: every buffer has bytes of its own. `StepRefines` shows
 that each call on the arena is a call on the model, and keeps the arena well formed.
 */
module ArenaRefinement {
  import opened Wrappers
  import opened Bytes
  import opened Arena

  /** `data` holds the whole capacity; only the first `length` bytes can be read. */
  datatype Buffer = Buffer(data: seq<bv8>, length: nat, mapped: bool)

  type Model = map<nat, Buffer>

  // ----- The simple model -----

  function ModelOnBuffer(m: Model, op: Op): (Model, Reply)
    requires !op.Alloc? && !op.Reset? && op.handle in m
  {
    var h, b := op.handle, m[op.handle];
    match op
    case GetInfo(_) => (m, Info(b.length, |b.data|, b.mapped))
    case Unmap(_) => if b.mapped then (m[h := b.(mapped := false)], Done) else (m, Failed(InvalidArgument))
    case Store(_, offset, value) =>
      if b.mapped && offset < |b.data| then (m[h := b.(data := b.data[offset := value])], Done) else (m, Done)
    case Free(_) => if b.mapped then (m, Failed(Busy)) else (m - {h}, Done)
    case Write(_, offset, source) =>
      if b.mapped then (m, Failed(Busy))
      else if offset + |source| > |b.data| then (m, Failed(OutOfBounds))
      else (m[h := Buffer(Overwrite(b.data, offset, source), Max(b.length, offset + |source|), false)], Done)
    case Read(_, offset, count) =>
      if b.mapped then (m, Failed(Busy))
      else if offset + count > b.length || b.length > |b.data| then (m, Failed(OutOfBounds))
      else (m, Data(b.data[offset..offset + count]))
    case SetLength(_, count) =>
      if b.mapped then (m, Failed(Busy))
      else if count > |b.data| then (m, Failed(OutOfBounds))
      else (m[h := b.(length := count)], Done)
    case Map(_) => if b.mapped then (m, Failed(Busy)) else (m[h := b.(mapped := true)], Granted(|b.data|))
  }

  /** A new buffer has a new handle, the requested capacity and any content, none of it readable. */
  ghost predicate ModelAllocates(m: Model, capacity: nat, reply: Reply, m': Model) {
    match reply
    case Failed(error) => m' == m && error == if capacity == 0 then InvalidArgument else OutOfMemory
    case Handle(h) =>
      && capacity > 0 && h !in m && |m| < MAX_BUFFERS
      && h in m' && |m'[h].data| == capacity && m' == m[h := Buffer(m'[h].data, 0, false)]
    case _ => false
  }

  ghost predicate ModelStep(m: Model, op: Op, reply: Reply, m': Model) {
    if op.Alloc? then ModelAllocates(m, op.capacity, reply, m')
    else if op.Reset? then
      if exists h :: h in m && m[h].mapped then m' == m && reply == Failed(Busy) else m' == map[] && reply == Done
    else if op.handle !in m then m' == m && reply == Failed(InvalidHandle)
    else (m', reply) == ModelOnBuffer(m, op)
  }

  // ----- Handles -----

  lemma DecodeEncode(index: nat, generation: nat)
    requires index < MAX_BUFFERS && 0 < generation
    ensures Decode(Encode(index, generation)) == Some((index, generation))
  {
    var handle := Encode(index, generation);
    assert handle / 256 == generation && handle % 256 == index + 1;
  }

  lemma EncodeDecode(handle: nat)
    requires Decode(handle).Some?
    ensures Encode(Decode(handle).value.0, Decode(handle).value.1) == handle
    ensures handle < 0x1_0000_0000 ==> Decode(handle).value.1 < GENERATIONS
  {
  }

  function HandleAt(a: Arena, i: nat): nat
    requires i < |a.slots|
  {
    Encode(i, a.slots[i].generation)
  }

  function Handles(a: Arena): set<nat> {
    set i | 0 <= i < |a.slots| && Active(a.slots[i]) :: HandleAt(a, i)
  }

  lemma SlotOfHandle(a: Arena, i: nat)
    requires Valid(a) && i < MAX_BUFFERS && Active(a.slots[i])
    ensures SlotFor(a.slots, HandleAt(a, i)) == Some(i)
  {
    assert WellFormed(a.slots[i], |a.bytes|);
    DecodeEncode(i, a.slots[i].generation);
  }

  lemma HandleOfSlot(a: Arena, handle: nat)
    requires Valid(a) && SlotFor(a.slots, handle).Some?
    ensures HandleAt(a, SlotFor(a.slots, handle).value) == handle && handle in Handles(a)
  {
    EncodeDecode(handle);
  }

  /** A handle is accepted exactly when it is the handle of an active slot. */
  lemma AcceptedHandles(a: Arena, handle: nat)
    requires Valid(a)
    ensures handle in Handles(a) <==> SlotFor(a.slots, handle).Some?
  {
    if handle in Handles(a) {
      var i :| 0 <= i < |a.slots| && Active(a.slots[i]) && HandleAt(a, i) == handle;
      SlotOfHandle(a, i);
    }
    if SlotFor(a.slots, handle).Some? {
      HandleOfSlot(a, handle);
    }
  }

  /** Live handles are distinct: equal handles name the same slot. */
  lemma LiveHandlesDistinct(a: Arena, i: nat, j: nat)
    requires Valid(a) && i < MAX_BUFFERS && j < MAX_BUFFERS && Active(a.slots[i]) && Active(a.slots[j])
    requires HandleAt(a, i) == HandleAt(a, j)
    ensures i == j
  {
    SlotOfHandle(a, i);
    SlotOfHandle(a, j);
  }

  // ----- The abstraction -----

  function BufferAt(a: Arena, i: nat): Buffer
    requires Valid(a) && i < MAX_BUFFERS && Active(a.slots[i])
  {
    var slot := a.slots[i];
    assert WellFormed(slot, |a.bytes|);
    Buffer(a.bytes[slot.offset..slot.offset + slot.capacity], slot.length, slot.mapCount != 0)
  }

  /** What a handle names: nothing, or the buffer of its slot. */
  function Lookup(a: Arena, handle: nat): Option<Buffer>
    requires Valid(a)
  {
    var i := SlotFor(a.slots, handle);
    if i.None? then None else Some(BufferAt(a, i.value))
  }

  ghost function Abs(a: Arena): (m: Model)
    requires Valid(a)
    ensures forall h {:trigger h in m} :: h in m <==> Lookup(a, h).Some?
    ensures forall h {:trigger m[h]} :: h in m ==> m[h] == Lookup(a, h).value
  {
    forall h
      ensures h in Handles(a) <==> Lookup(a, h).Some?
    {
      AcceptedHandles(a, h);
    }
    map h | h in Handles(a) :: Lookup(a, h).value
  }

  /** Two arenas agree on a slot: the same handle names the same buffer in both. */
  predicate Agree(a: Arena, b: Arena, i: nat)
    requires Valid(a) && Valid(b) && i < MAX_BUFFERS
  {
    (Active(a.slots[i]) <==> Active(b.slots[i]))
    && (Active(a.slots[i]) ==> a.slots[i].generation == b.slots[i].generation && BufferAt(a, i) == BufferAt(b, i))
  }

  predicate AgreeElsewhere(a: Arena, b: Arena, i: nat)
    requires Valid(a) && Valid(b)
  {
    forall j :: 0 <= j < MAX_BUFFERS && j != i ==> Agree(a, b, j)
  }

  lemma LookupElsewhere(a: Arena, b: Arena, i: nat, h: nat)
    requires Valid(a) && Valid(b) && AgreeElsewhere(a, b, i)
    requires Decode(h).Some? ==> Decode(h).value.0 != i
    ensures Lookup(a, h) == Lookup(b, h)
  {
    hide Valid, BufferAt, Decode;
    if Decode(h).Some? {
      assert Agree(a, b, Decode(h).value.0);
    }
  }

  /** A handle that names slot `i` is the slot's own handle or names nothing. */
  lemma LookupHere(a: Arena, i: nat, h: nat)
    requires Valid(a) && i < MAX_BUFFERS && Decode(h).Some? && Decode(h).value.0 == i
    ensures Lookup(a, h) == if Active(a.slots[i]) && h == HandleAt(a, i) then Some(BufferAt(a, i)) else None
  {
    hide BufferAt;
    EncodeDecode(h);
    if Active(a.slots[i]) {
      SlotOfHandle(a, i);
    }
  }

  /** The handle that slot `i` had, or has, decodes to `i`. */
  lemma HandleDecodes(a: Arena, i: nat)
    requires Valid(a) && i < MAX_BUFFERS
    ensures Decode(HandleAt(a, i)).Some? && Decode(HandleAt(a, i)).value.0 == i
  {
    assert WellFormed(a.slots[i], |a.bytes|);
    DecodeEncode(i, a.slots[i].generation);
  }

  /** The handle `h` that slot `i` has in one arena or in both. */
  predicate OwnHandle(a: Arena, b: Arena, i: nat, h: nat)
    requires Valid(a) && Valid(b) && i < MAX_BUFFERS
  {
    (Active(a.slots[i]) || Active(b.slots[i]))
    && (Active(a.slots[i]) ==> h == HandleAt(a, i)) && (Active(b.slots[i]) ==> h == HandleAt(b, i))
  }

  /** When only slot `i` changes, only its handle is read differently. */
  lemma LookupChanged(a: Arena, b: Arena, i: nat, own: nat, h: nat)
    requires Valid(a) && Valid(b) && i < MAX_BUFFERS && AgreeElsewhere(a, b, i) && OwnHandle(a, b, i, own)
    ensures h != own ==> Lookup(b, h) == Lookup(a, h)
    ensures Lookup(a, own) == if Active(a.slots[i]) then Some(BufferAt(a, i)) else None
    ensures Lookup(b, own) == if Active(b.slots[i]) then Some(BufferAt(b, i)) else None
  {
    HandleDecodes(a, i);
    HandleDecodes(b, i);
    hide Valid, Lookup, BufferAt, Decode, AgreeElsewhere;
    LookupHere(a, i, own);
    LookupHere(b, i, own);
    if Decode(h).Some? && Decode(h).value.0 == i {
      LookupHere(a, i, h);
      LookupHere(b, i, h);
    } else {
      LookupElsewhere(a, b, i, h);
    }
  }

  lemma AbsIs(a: Arena, m: Model)
    requires Valid(a)
    requires forall h :: h in m <==> Lookup(a, h).Some?
    requires forall h :: h in m ==> m[h] == Lookup(a, h).value
    ensures Abs(a) == m
  {
    hide Valid, Lookup;
  }

  lemma AbsChanged(a: Arena, b: Arena, i: nat, own: nat)
    requires Valid(a) && Valid(b) && i < MAX_BUFFERS && AgreeElsewhere(a, b, i) && OwnHandle(a, b, i, own)
    ensures own in Abs(a) <==> Active(a.slots[i])
    ensures Active(a.slots[i]) ==> Abs(a)[own] == BufferAt(a, i)
    ensures Abs(b) == if Active(b.slots[i]) then Abs(a)[own := BufferAt(b, i)] else Abs(a) - {own}
  {
    assert |b.slots| == MAX_BUFFERS;
    hide Valid, Lookup, BufferAt, AgreeElsewhere, OwnHandle;
    LookupChanged(a, b, i, own, own);
    var m := if Active(b.slots[i]) then Abs(a)[own := BufferAt(b, i)] else Abs(a) - {own};
    forall h
      ensures h in m <==> Lookup(b, h).Some?
      ensures h in m ==> m[h] == Lookup(b, h).value
    {
      LookupChanged(a, b, i, own, h);
    }
    AbsIs(b, m);
  }

  /** The buffer of an active slot, seen through the map. */
  lemma AbsAt(a: Arena, i: nat)
    requires Valid(a) && i < MAX_BUFFERS && Active(a.slots[i])
    ensures HandleAt(a, i) in Abs(a) && Abs(a)[HandleAt(a, i)] == BufferAt(a, i)
  {
    hide AgreeElsewhere;
    assert AgreeElsewhere(a, a, i) by { AgreesWithItself(a, i); }
    AbsChanged(a, a, i, HandleAt(a, i));
  }

  lemma AgreesWithItself(a: Arena, i: nat)
    requires Valid(a)
    ensures AgreeElsewhere(a, a, i)
  {
    hide Valid, BufferAt;
  }

  // ----- Overwriting bytes -----

  lemma OverwriteInside(bytes: seq<bv8>, base: nat, capacity: nat, offset: nat, source: seq<bv8>)
    requires base + capacity <= |bytes| && offset + |source| <= capacity
    ensures Overwrite(bytes, base + offset, source)[base..base + capacity]
            == Overwrite(bytes[base..base + capacity], offset, source)
  {
  }

  lemma OverwriteOutside(bytes: seq<bv8>, at: nat, source: seq<bv8>, base: nat, capacity: nat)
    requires at + |source| <= |bytes| && base + capacity <= |bytes|
    requires base + capacity <= at || at + |source| <= base
    ensures Overwrite(bytes, at, source)[base..base + capacity] == bytes[base..base + capacity]
  {
  }

  // ----- Each kind of change keeps the arena well formed and the other buffers -----

  /** Slot `i` keeps its region and generation; the bytes stay. */
  lemma SlotChanged(a: Arena, b: Arena, i: nat)
    requires Valid(a) && i < MAX_BUFFERS && Active(a.slots[i]) && b.bytes == a.bytes
    requires i < |b.slots|
    requires b.slots == a.slots[i := a.slots[i].(length := b.slots[i].length, mapCount := b.slots[i].mapCount)]
    requires b.slots[i].length <= b.slots[i].capacity && b.slots[i].mapCount <= 1
    ensures Valid(b) && AgreeElsewhere(a, b, i) && OwnHandle(a, b, i, HandleAt(a, i))
    ensures BufferAt(b, i) == Buffer(BufferAt(a, i).data, b.slots[i].length, b.slots[i].mapCount != 0)
  {
    assert WellFormed(a.slots[i], |a.bytes|);
    forall j | 0 <= j < |b.slots|
      ensures WellFormed(b.slots[j], |b.bytes|)
    {
      assert WellFormed(a.slots[j], |a.bytes|);
    }
    SameRegions(a.slots, b.slots);
  }

  lemma SameRegions(s: seq<Slot>, t: seq<Slot>)
    requires Disjoint(s) && |s| == |t|
    requires forall i :: 0 <= i < |s| ==> s[i].offset == t[i].offset && s[i].capacity == t[i].capacity
    ensures Disjoint(t)
  {
    forall i, j | 0 <= i < |t| && 0 <= j < |t| && i != j && Active(t[i])
      ensures Apart(t[j], t[i].offset, t[i].capacity)
    {
      assert Apart(s[j], s[i].offset, s[i].capacity);
    }
  }

  /** Bytes written inside the region of slot `i` touch no other buffer. */
  lemma BytesChanged(a: Arena, i: nat, offset: nat, source: seq<bv8>)
    requires Valid(a) && i < MAX_BUFFERS && Active(a.slots[i]) && offset + |source| <= a.slots[i].capacity
    ensures a.slots[i].offset + a.slots[i].capacity <= |a.bytes|
    ensures var b := a.(bytes := Overwrite(a.bytes, a.slots[i].offset + offset, source));
            && Valid(b) && AgreeElsewhere(a, b, i)
            && BufferAt(b, i) == BufferAt(a, i).(data := Overwrite(BufferAt(a, i).data, offset, source))
  {
    assert WellFormed(a.slots[i], |a.bytes|);
    var at := a.slots[i].offset + offset;
    var b := a.(bytes := Overwrite(a.bytes, at, source));
    OverwriteInside(a.bytes, a.slots[i].offset, a.slots[i].capacity, offset, source);
    forall j | 0 <= j < MAX_BUFFERS && j != i
      ensures Agree(a, b, j)
    {
      if Active(a.slots[j]) {
        assert WellFormed(a.slots[j], |a.bytes|);
        assert Apart(a.slots[j], a.slots[i].offset, a.slots[i].capacity);
        hide Overwrite;
        OverwriteOutside(a.bytes, at, source, a.slots[j].offset, a.slots[j].capacity);
      }
    }
  }

  lemma SlotReleased(a: Arena, b: Arena, i: nat)
    requires Valid(a) && i < MAX_BUFFERS && a.slots[i].mapCount == 0 && b == a.(slots := a.slots[i := Released(a.slots[i])])
    ensures Valid(b) && AgreeElsewhere(a, b, i)
  {
    assert WellFormed(a.slots[i], |a.bytes|);
    forall j | 0 <= j < |b.slots|
      ensures WellFormed(b.slots[j], |b.bytes|)
    {
      assert WellFormed(a.slots[j], |a.bytes|);
    }
    forall j, k | 0 <= j < |b.slots| && 0 <= k < |b.slots| && j != k && Active(b.slots[j])
      ensures Apart(b.slots[k], b.slots[j].offset, b.slots[j].capacity)
    {
      assert Apart(a.slots[k], a.slots[j].offset, a.slots[j].capacity);
    }
  }

  lemma SlotTaken(a: Arena, b: Arena, i: nat, offset: nat, capacity: nat)
    requires Valid(a) && i < MAX_BUFFERS && !Active(a.slots[i]) && 0 < capacity
    requires Fits(a.slots, |a.bytes|, capacity, offset)
    requires b == a.(slots := a.slots[i := Slot(offset, 0, capacity, a.slots[i].generation, 0)])
    ensures Valid(b) && AgreeElsewhere(a, b, i) && Active(b.slots[i])
  {
    forall j | 0 <= j < |b.slots|
      ensures WellFormed(b.slots[j], |b.bytes|)
    {
      assert WellFormed(a.slots[j], |a.bytes|);
    }
    forall j, k | 0 <= j < |b.slots| && 0 <= k < |b.slots| && j != k && Active(b.slots[j])
      ensures Apart(b.slots[k], b.slots[j].offset, b.slots[j].capacity)
    {
      assert Apart(a.slots[j], offset, capacity) && Apart(a.slots[k], offset, capacity);
      if j != i && k != i {
        assert Apart(a.slots[k], a.slots[j].offset, a.slots[j].capacity);
      }
    }
  }

  lemma AgreeTransitive(a: Arena, b: Arena, c: Arena, i: nat)
    requires Valid(a) && Valid(b) && Valid(c) && AgreeElsewhere(a, b, i) && AgreeElsewhere(b, c, i)
    ensures AgreeElsewhere(a, c, i)
  {
    hide Valid, BufferAt;
    forall j | 0 <= j < MAX_BUFFERS && j != i
      ensures Agree(a, c, j)
    {
      assert Agree(a, b, j) && Agree(b, c, j);
    }
  }

  // ----- The refinement -----

  /** What `StepRefines` says of a call on the buffer in slot `i`. */
  ghost predicate Refines(a: Arena, op: Op, b: Arena, reply: Reply)
    requires Valid(a) && !op.Alloc? && !op.Reset?
  {
    Valid(b) && op.handle in Abs(a) && (Abs(b), reply) == ModelOnBuffer(Abs(a), op)
  }

  lemma FreeRefines(a: Arena, i: nat)
    requires Valid(a) && i < MAX_BUFFERS && Active(a.slots[i]) && a.slots[i].mapCount == 0
    ensures Refines(a, Free(HandleAt(a, i)), a.(slots := a.slots[i := Released(a.slots[i])]), Done)
  {
    var b := a.(slots := a.slots[i := Released(a.slots[i])]);
    SlotReleased(a, b, i);
    hide Valid, AgreeElsewhere, Abs, Lookup;
    AbsChanged(a, b, i, HandleAt(a, i));
  }

  /** A change of length or map state. */
  lemma FieldsRefine(a: Arena, i: nat, b: Arena, op: Op, reply: Reply)
    requires Valid(a) && i < MAX_BUFFERS && Active(a.slots[i]) && b.bytes == a.bytes && i < |b.slots|
    requires b.slots == a.slots[i := a.slots[i].(length := b.slots[i].length, mapCount := b.slots[i].mapCount)]
    requires b.slots[i].length <= b.slots[i].capacity && b.slots[i].mapCount <= 1
    requires op.SetLength? || op.Map? || op.Unmap?
    requires op.handle == HandleAt(a, i) && (b, reply) == OnSlot(a, i, op) && reply != Failed(Busy)
    requires !reply.Failed?
    ensures Refines(a, op, b, reply)
  {
    SlotChanged(a, b, i);
    assert |BufferAt(a, i).data| == a.slots[i].capacity;
    hide Valid, AgreeElsewhere, OwnHandle, Abs, Lookup, BufferAt;
    AbsChanged(a, b, i, HandleAt(a, i));
    BufferFields(a, i);
  }

  lemma ValidSize(a: Arena)
    requires Valid(a)
    ensures |a.slots| == MAX_BUFFERS
  {
  }

  lemma BufferFields(a: Arena, i: nat)
    requires Valid(a) && i < MAX_BUFFERS && Active(a.slots[i])
    ensures |BufferAt(a, i).data| == a.slots[i].capacity
    ensures BufferAt(a, i).length == a.slots[i].length <= a.slots[i].capacity
    ensures BufferAt(a, i).mapped == (a.slots[i].mapCount != 0)
    ensures a.slots[i].mapCount <= 1
  {
    assert WellFormed(a.slots[i], |a.bytes|);
  }

  lemma WriteChanges(a: Arena, i: nat, offset: nat, source: seq<bv8>)
    requires Valid(a) && i < MAX_BUFFERS && Active(a.slots[i]) && a.slots[i].mapCount == 0
    requires offset + |source| <= a.slots[i].capacity
    ensures a.slots[i].offset + a.slots[i].capacity <= |a.bytes|
    ensures var b := Written(a, i, offset, source);
            && |b.slots| == MAX_BUFFERS && Valid(b) && AgreeElsewhere(a, b, i)
            && OwnHandle(a, b, i, HandleAt(a, i)) && Active(b.slots[i])
            && BufferAt(b, i) == Buffer(Overwrite(BufferAt(a, i).data, offset, source),
                                        Max(a.slots[i].length, offset + |source|), false)
  {
    BytesChanged(a, i, offset, source);
    BufferFields(a, i);
    var mid := a.(bytes := Overwrite(a.bytes, a.slots[i].offset + offset, source));
    var b := Written(a, i, offset, source);
    hide Valid, AgreeElsewhere, Overwrite, BufferAt;
    SlotChanged(mid, b, i);
    AgreeTransitive(a, mid, b, i);
  }

  lemma WriteRefines(a: Arena, i: nat, offset: nat, source: seq<bv8>)
    requires Valid(a) && i < MAX_BUFFERS && Active(a.slots[i]) && a.slots[i].mapCount == 0
    requires offset + |source| <= a.slots[i].capacity
    ensures a.slots[i].offset + a.slots[i].capacity <= |a.bytes|
    ensures Refines(a, Write(HandleAt(a, i), offset, source), Written(a, i, offset, source), Done)
  {
    hide Valid, AgreeElsewhere, OwnHandle, Overwrite, BufferAt, Abs, Lookup, Written, Active;
    ValidSize(a);
    WriteChanges(a, i, offset, source);
    BufferFields(a, i);
    AbsChanged(a, Written(a, i, offset, source), i, HandleAt(a, i));
  }

  lemma StoreRefines(a: Arena, i: nat, offset: nat, value: bv8)
    requires Valid(a) && i < MAX_BUFFERS && Active(a.slots[i]) && a.slots[i].mapCount != 0 && offset < a.slots[i].capacity
    ensures a.slots[i].offset + a.slots[i].capacity <= |a.bytes|
    ensures Refines(a, Store(HandleAt(a, i), offset, value),
                    a.(bytes := Overwrite(a.bytes, a.slots[i].offset + offset, [value])), Done)
  {
    BytesChanged(a, i, offset, [value]);
    BufferFields(a, i);
    var b := a.(bytes := Overwrite(a.bytes, a.slots[i].offset + offset, [value]));
    OverwriteOne(BufferAt(a, i).data, offset, value);
    hide Valid, AgreeElsewhere, Overwrite, BufferAt, Abs, Lookup;
    AbsChanged(a, b, i, HandleAt(a, i));
  }

  lemma OverwriteOne(data: seq<bv8>, offset: nat, value: bv8)
    requires offset < |data|
    ensures Overwrite(data, offset, [value]) == data[offset := value]
  {
  }

  lemma ReadRefines(a: Arena, i: nat, offset: nat, count: nat)
    requires Valid(a) && i < MAX_BUFFERS && Active(a.slots[i]) && a.slots[i].mapCount == 0
    requires offset + count <= a.slots[i].length
    ensures a.slots[i].offset + a.slots[i].length <= |a.bytes|
    ensures Refines(a, Read(HandleAt(a, i), offset, count), a,
                    Data(a.bytes[a.slots[i].offset + offset..a.slots[i].offset + offset + count]))
  {
    hide Valid, Abs, Lookup, BufferAt, Active;
    BufferSlice(a, i, offset, count);
    BufferFields(a, i);
    AbsAt(a, i);
  }

  lemma BufferSlice(a: Arena, i: nat, offset: nat, count: nat)
    requires Valid(a) && i < MAX_BUFFERS && Active(a.slots[i]) && offset + count <= a.slots[i].length
    ensures a.slots[i].offset + a.slots[i].length <= |a.bytes| && offset + count <= |BufferAt(a, i).data|
    ensures BufferAt(a, i).data[offset..offset + count]
            == a.bytes[a.slots[i].offset + offset..a.slots[i].offset + offset + count]
  {
    assert WellFormed(a.slots[i], |a.bytes|);
    SliceOfSlice(a.bytes, a.slots[i].offset, a.slots[i].capacity, offset, count);
  }

  lemma SliceOfSlice(bytes: seq<bv8>, base: nat, capacity: nat, offset: nat, count: nat)
    requires base + capacity <= |bytes| && offset + count <= capacity
    ensures bytes[base..base + capacity][offset..offset + count] == bytes[base + offset..base + offset + count]
  {
    var inner := bytes[base..base + capacity][offset..offset + count];
    assert forall k :: 0 <= k < count ==> inner[k] == bytes[base + offset + k];
  }

  /** A range beyond the buffer is refused by both. */
  lemma OutOfBoundsRefines(a: Arena, i: nat, op: Op)
    requires Valid(a) && i < MAX_BUFFERS && Active(a.slots[i]) && a.slots[i].mapCount == 0
    requires (op.Write? && op.offset + |op.source| > a.slots[i].capacity)
             || (op.Read? && op.offset + op.count > a.slots[i].length)
             || (op.SetLength? && op.count > a.slots[i].capacity)
    requires op.handle == HandleAt(a, i)
    ensures Refines(a, op, a, Failed(OutOfBounds))
  {
    BufferFields(a, i);
    AbsAt(a, i);
    hide Valid, Abs, Lookup, BufferAt, Overwrite;
  }

  lemma OnUnmappedRefines(a: Arena, i: nat, op: Op)
    requires Valid(a) && i < MAX_BUFFERS && Active(a.slots[i]) && a.slots[i].mapCount == 0
    requires op.Free? || op.Write? || op.Read? || op.SetLength? || op.Map?
    requires op.handle == HandleAt(a, i)
    ensures Refines(a, op, OnUnmapped(a, i, op).0, OnUnmapped(a, i, op).1)
  {
    hide Valid, Abs, Lookup, BufferAt, Written, Refines, HandleAt, Released;
    ValidSize(a);
    BufferFields(a, i);
    if OnUnmapped(a, i, op).1 == Failed(OutOfBounds) {
      OutOfBoundsRefines(a, i, op);
    } else if op.Free? {
      FreeRefines(a, i);
    } else if op.Write? {
      WriteRefines(a, i, op.offset, op.source);
    } else if op.Read? {
      ReadRefines(a, i, op.offset, op.count);
    } else {
      FieldsRefine(a, i, OnUnmapped(a, i, op).0, op, OnUnmapped(a, i, op).1);
    }
  }

  lemma OnSlotRefines(a: Arena, i: nat, op: Op)
    requires Valid(a) && i < MAX_BUFFERS && Active(a.slots[i])
    requires !op.Alloc? && !op.Reset? && op.handle == HandleAt(a, i)
    ensures Refines(a, op, OnSlot(a, i, op).0, OnSlot(a, i, op).1)
  {
    BufferFields(a, i);
    AbsAt(a, i);
    var (b, reply) := OnSlot(a, i, op);
    hide Valid, Abs, Lookup, BufferAt, Overwrite, OnUnmapped;
    if op.Unmap? {
      if a.slots[i].mapCount != 0 {
        FieldsRefine(a, i, b, op, reply);
      }
    } else if op.Store? {
      if a.slots[i].mapCount != 0 && op.offset < a.slots[i].capacity {
        StoreRefines(a, i, op.offset, op.value);
      }
    } else if !op.GetInfo? && a.slots[i].mapCount == 0 {
      OnUnmappedRefines(a, i, op);
    }
  }

  // ----- Allocation and reset -----

  function HandlesUpTo(a: Arena, n: nat): set<nat>
    requires n <= |a.slots|
  {
    set i | 0 <= i < n && Active(a.slots[i]) :: HandleAt(a, i)
  }

  /** At most one handle per slot, and none for the free slot `free`. */
  lemma {:induction false} HandleCount(a: Arena, n: nat, free: nat)
    requires n <= |a.slots| && free < |a.slots| && !Active(a.slots[free])
    ensures |HandlesUpTo(a, n)| <= n && (free < n ==> |HandlesUpTo(a, n)| < n)
    decreases n
  {
    if n == 0 {
      assert HandlesUpTo(a, 0) == {};
    } else {
      HandleCount(a, n - 1, free);
      var shorter, last := HandlesUpTo(a, n - 1), HandleAt(a, n - 1);
      if Active(a.slots[n - 1]) {
        assert HandlesUpTo(a, n) == shorter + {last};
      } else {
        assert HandlesUpTo(a, n) == shorter;
      }
    }
  }

  /** What a successful allocation does to the slots. */
  lemma AllocTakes(a: Arena, capacity: nat) returns (i: nat, offset: nat)
    requires Valid(a) && Allocate(a, capacity).1.Handle?
    ensures i < MAX_BUFFERS && i < |a.slots| && !Active(a.slots[i]) && 0 < capacity
    ensures Fits(a.slots, |a.bytes|, capacity, offset)
    ensures Allocate(a, capacity).0 == a.(slots := a.slots[i := Slot(offset, 0, capacity, a.slots[i].generation, 0)])
    ensures Allocate(a, capacity).1 == Handle(HandleAt(a, i))
  {
    hide Valid, Fits;
    ValidSize(a);
    i, offset := FreeSlot(a.slots, 0).value, FirstFit(a.slots, |a.bytes|, capacity, 0).value;
  }

  lemma AllocRefused(a: Arena, capacity: nat)
    requires Valid(a) && !Allocate(a, capacity).1.Handle?
    ensures Allocate(a, capacity) == (a, Failed(if capacity == 0 then InvalidArgument else OutOfMemory))
  {
    hide Valid, Fits;
    ValidSize(a);
  }

  lemma FewerThanSlots(a: Arena, free: nat)
    requires Valid(a) && free < MAX_BUFFERS && free < |a.slots| && !Active(a.slots[free])
    ensures |Abs(a)| < MAX_BUFFERS
  {
    hide Valid, Abs, Active;
    ValidSize(a);
    HandleCount(a, MAX_BUFFERS, free);
    assert HandlesUpTo(a, MAX_BUFFERS) == Handles(a);
    AbsKeys(a);
  }

  lemma AllocRefines(a: Arena, capacity: nat)
    requires Valid(a)
    ensures var (b, reply) := Allocate(a, capacity); Valid(b) && ModelAllocates(Abs(a), capacity, reply, Abs(b))
  {
    hide Valid, Allocate, Fits, AgreeElsewhere, BufferAt, Abs, Lookup, HandlesUpTo;
    ValidSize(a);
    var (b, reply) := Allocate(a, capacity);
    if reply.Handle? {
      var i, offset := AllocTakes(a, capacity);
      SlotTaken(a, b, i, offset, capacity);
      BufferFields(b, i);
      FewerThanSlots(a, i);
      AbsChanged(a, b, i, HandleAt(b, i));
    } else {
      AllocRefused(a, capacity);
    }
  }

  lemma AbsKeys(a: Arena)
    requires Valid(a)
    ensures |Abs(a)| == |Handles(a)|
  {
    hide Valid, Lookup;
    assert Abs(a).Keys == Handles(a) by {
      forall h
        ensures h in Handles(a) <==> Lookup(a, h).Some?
      {
        AcceptedHandlesLookup(a, h);
      }
    }
  }

  lemma AcceptedHandlesLookup(a: Arena, handle: nat)
    requires Valid(a)
    ensures handle in Handles(a) <==> Lookup(a, handle).Some?
  {
    AcceptedHandles(a, handle);
  }

  /** Allocation fails exactly when every slot is taken or no free interval is long enough. */
  lemma AllocFailsExactly(a: Arena, capacity: nat)
    requires Valid(a) && capacity > 0
    ensures Allocate(a, capacity).1 == Failed(OutOfMemory) <==>
              || (forall i :: 0 <= i < MAX_BUFFERS ==> Active(a.slots[i]))
              || (forall o :: !Fits(a.slots, |a.bytes|, capacity, o))
  {
    var offset := FirstFit(a.slots, |a.bytes|, capacity, 0);
    if offset.None? {
      assert forall o: nat :: 0 <= o ==> !Fits(a.slots, |a.bytes|, capacity, o);
    }
  }

  /** What a successful allocation takes: the first of the 64 slots that is free, at the lowest offset that fits. */
  ghost predicate TakesFirst(a: Arena, b: Arena, capacity: nat, handle: nat, i: nat) {
    && |a.slots| == |b.slots| == 64 && i < 64 && !Active(a.slots[i]) && Active(b.slots[i])
    && (forall j :: 0 <= j < i ==> Active(a.slots[j]))
    && Fits(a.slots, |a.bytes|, capacity, b.slots[i].offset)
    && (forall o :: 0 <= o < b.slots[i].offset ==> !Fits(a.slots, |a.bytes|, capacity, o))
    && b.slots[i].capacity == capacity && b.slots[i].length == 0
    && handle % 256 == i + 1 && handle / 256 == a.slots[i].generation == b.slots[i].generation
    && (forall j :: 0 <= j < 64 && j != i ==> b.slots[j] == a.slots[j]) && b.bytes == a.bytes
  }

  /** Allocation is first fit, in the slots and in the bytes; the handle names the slot and its generation. */
  lemma AllocatesFirstFit(a: Arena, capacity: nat) returns (i: nat)
    requires Valid(a) && Allocate(a, capacity).1.Handle?
    ensures TakesFirst(a, Allocate(a, capacity).0, capacity, Allocate(a, capacity).1.handle, i)
  {
    ValidSize(a);
    i := FreeSlot(a.slots, 0).value;
    var offset := FirstFit(a.slots, |a.bytes|, capacity, 0).value;
    OffsetIsActive(a, capacity, offset);
    EncodeParts(i, a.slots[i].generation);
    hide Valid, Fits;
  }

  lemma EncodeParts(index: nat, generation: nat)
    requires index < 64
    ensures Encode(index, generation) % 256 == index + 1 && Encode(index, generation) / 256 == generation
  {
  }

  lemma OffsetIsActive(a: Arena, capacity: nat, offset: nat)
    requires Valid(a) && Fits(a.slots, |a.bytes|, capacity, offset) && capacity > 0
    ensures offset != INVALID_OFFSET
  {
  }

  lemma ResetValid(a: Arena)
    requires Valid(a) && !AnyMapped(a.slots)
    ensures Valid(a.(slots := ReleasedAll(a.slots)))
    ensures forall h :: Lookup(a.(slots := ReleasedAll(a.slots)), h).None?
  {
    var b := a.(slots := ReleasedAll(a.slots));
    forall j | 0 <= j < |b.slots|
      ensures WellFormed(b.slots[j], |b.bytes|) && !Active(b.slots[j])
    {
      assert WellFormed(a.slots[j], |a.bytes|);
      assert a.slots[j].mapCount == 0;
    }
  }

  lemma MappedIffSlot(a: Arena)
    requires Valid(a)
    ensures AnyMapped(a.slots) <==> exists h :: h in Abs(a) && Abs(a)[h].mapped
  {
    if AnyMapped(a.slots) {
      var i :| 0 <= i < |a.slots| && a.slots[i].mapCount != 0;
      assert WellFormed(a.slots[i], |a.bytes|);
      AbsAt(a, i);
      BufferFields(a, i);
      assert Abs(a)[HandleAt(a, i)].mapped;
    }
    if h :| h in Abs(a) && Abs(a)[h].mapped {
      var i := SlotFor(a.slots, h).value;
      assert a.slots[i].mapCount != 0;
    }
  }

  lemma ResetRefines(a: Arena)
    requires Valid(a)
    ensures var (b, reply) := ResetAll(a); Valid(b) && ModelStep(Abs(a), Reset, reply, Abs(b))
  {
    MappedIffSlot(a);
    if !AnyMapped(a.slots) {
      ResetValid(a);
      hide Valid, Lookup;
      AbsIs(a.(slots := ReleasedAll(a.slots)), map[]);
    }
  }

  /** Every call keeps the arena well formed and does to the map what the simple model does. */
  lemma StepRefines(a: Arena, op: Op)
    requires Valid(a)
    ensures Valid(Step(a, op).0)
    ensures ModelStep(Abs(a), op, Step(a, op).1, Abs(Step(a, op).0))
  {
    if op.Alloc? {
      hide Valid, Abs, Allocate;
      AllocRefines(a, op.capacity);
    } else if op.Reset? {
      hide Valid, Abs, ResetAll;
      ResetRefines(a);
    } else {
      AcceptedHandlesLookup(a, op.handle);
      var i := SlotFor(a.slots, op.handle);
      if i.Some? {
        HandleOfSlot(a, op.handle);
        hide Valid, Abs, OnSlot, ModelOnBuffer;
        OnSlotRefines(a, i.value, op);
      }
    }
  }

  // ----- Runs -----

  ghost predicate IsRun(states: seq<Arena>, ops: seq<Op>) {
    && |states| == |ops| + 1 && Valid(states[0])
    && forall k :: 0 <= k < |ops| ==> Valid(states[k]) ==> states[k + 1] == Step(states[k], ops[k]).0
  }

  /** Over any run the arena stays well formed and follows the simple model call by call. */
  lemma {:induction false} RunRefines(states: seq<Arena>, ops: seq<Op>, k: nat)
    requires IsRun(states, ops) && k < |states|
    ensures Valid(states[k])
    ensures k < |ops| ==>
              Valid(states[k + 1]) && ModelStep(Abs(states[k]), ops[k], Step(states[k], ops[k]).1, Abs(states[k + 1]))
  {
    hide Valid, Step, Abs, ModelStep;
    if k > 0 {
      RunRefines(states, ops, k - 1);
      StepRefines(states[k - 1], ops[k - 1]);
    }
    if k < |ops| {
      StepRefines(states[k], ops[k]);
    }
  }

  /** A loan pins its region: nothing but the matching unmap touches the slot. */
  lemma MappedSlotKept(a: Arena, op: Op, i: nat)
    requires Valid(a) && i < MAX_BUFFERS && Active(a.slots[i]) && a.slots[i].mapCount != 0
    requires op != Unmap(HandleAt(a, i))
    ensures i < |Step(a, op).0.slots| && Step(a, op).0.slots[i] == a.slots[i]
  {
    if !op.Alloc? && !op.Reset? && SlotFor(a.slots, op.handle) == Some(i) {
      HandleOfSlot(a, op.handle);
    }
  }

  lemma {:induction false} LoanPinsRegion(states: seq<Arena>, ops: seq<Op>, i: nat, k: nat)
    requires IsRun(states, ops) && k < |states|
    requires i < MAX_BUFFERS && Active(states[0].slots[i]) && states[0].slots[i].mapCount != 0
    requires forall j :: 0 <= j < k ==> ops[j] != Unmap(HandleAt(states[0], i))
    ensures i < |states[k].slots| && states[k].slots[i] == states[0].slots[i]
  {
    if k > 0 {
      LoanPinsRegion(states, ops, i, k - 1);
      RunRefines(states, ops, k - 1);
      hide Valid, Step;
      MappedSlotKept(states[k - 1], ops[k - 1], i);
    }
  }

  // ----- Stale handles -----

  /** How often a call advances the generation of slot `i`. */
  function Advances(a: Arena, op: Op, i: nat): nat {
    if Valid(a) && Step(a, op).1 == Done && (op.Reset? || (op.Free? && SlotFor(a.slots, op.handle) == Some(i)))
    then 1 else 0
  }

  function Advanced(generation: nat, n: nat): nat {
    if n == 0 then generation else NextGeneration(Advanced(generation, n - 1))
  }

  /** Generations return to their start exactly every 2^24 - 1 advances. */
  lemma {:induction false} AdvancedIsCyclic(generation: nat, n: nat)
    requires 0 < generation < GENERATIONS
    ensures Advanced(generation, n) == (generation - 1 + n) % 0xFF_FFFF + 1
    ensures 0 < n < 0xFF_FFFF ==> Advanced(generation, n) != generation
  {
    if n > 0 {
      AdvancedIsCyclic(generation, n - 1);
      NextIsSuccessor(generation - 1 + (n - 1));
    }
  }

  lemma NextIsSuccessor(n: nat)
    ensures NextGeneration(n % 0xFF_FFFF + 1) == (n + 1) % 0xFF_FFFF + 1
  {
  }

  lemma GenerationStep(a: Arena, op: Op, i: nat)
    requires Valid(a) && i < MAX_BUFFERS
    ensures i < |Step(a, op).0.slots|
    ensures Step(a, op).0.slots[i].generation == Advanced(a.slots[i].generation, Advances(a, op, i))
  {
    assert Advanced(a.slots[i].generation, 1) == NextGeneration(Advanced(a.slots[i].generation, 0));
  }

  function TotalAdvances(states: seq<Arena>, ops: seq<Op>, i: nat, k: nat): nat
    requires k <= |ops| && |states| == |ops| + 1
  {
    if k == 0 then 0 else TotalAdvances(states, ops, i, k - 1) + Advances(states[k - 1], ops[k - 1], i)
  }

  lemma {:induction false} AdvancedTwice(generation: nat, m: nat, n: nat)
    ensures Advanced(Advanced(generation, m), n) == Advanced(generation, m + n)
  {
    if n > 0 {
      AdvancedTwice(generation, m, n - 1);
    }
  }

  lemma {:induction false} GenerationAfter(states: seq<Arena>, ops: seq<Op>, i: nat, k: nat)
    requires IsRun(states, ops) && k <= |ops| && i < MAX_BUFFERS
    ensures i < |states[k].slots|
    ensures states[k].slots[i].generation == Advanced(states[0].slots[i].generation, TotalAdvances(states, ops, i, k))
  {
    hide Step, Advances, NextGeneration;
    if k > 0 {
      GenerationAfter(states, ops, i, k - 1);
      RunRefines(states, ops, k - 1);
      GenerationStep(states[k - 1], ops[k - 1], i);
      AdvancedTwice(states[0].slots[i].generation, TotalAdvances(states, ops, i, k - 1),
                    Advances(states[k - 1], ops[k - 1], i));
    }
  }

  /**
   A handle whose buffer was freed or reset is refused until its slot's generation has been
   advanced 2^24 - 1 times in all.
   */
  lemma StaleHandleRefused(states: seq<Arena>, ops: seq<Op>, handle: nat, k: nat)
    requires IsRun(states, ops) && k <= |ops|
    requires SlotFor(states[0].slots, handle).Some?
    requires 0 < TotalAdvances(states, ops, SlotFor(states[0].slots, handle).value, k) < 0xFF_FFFF
    ensures Valid(states[k]) && SlotFor(states[k].slots, handle).None?
    ensures k < |ops| && !ops[k].Alloc? && !ops[k].Reset? && ops[k].handle == handle ==>
              Step(states[k], ops[k]) == (states[k], Failed(InvalidHandle))
  {
    var i := SlotFor(states[0].slots, handle).value;
    var n := TotalAdvances(states, ops, i, k);
    GenerationAfter(states, ops, i, k);
    RunRefines(states, ops, k);
    assert WellFormed(states[0].slots[i], |states[0].bytes|);
    hide TotalAdvances, Advanced, NextGeneration, Abs;
    AdvancedIsCyclic(states[0].slots[i].generation, n);
  }
}
