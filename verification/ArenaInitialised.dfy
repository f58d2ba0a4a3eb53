/**
 When every readable byte of a buffer was written.

 The interface calls a buffer's length the length of its initialised data, but two calls can
 move it over bytes nobody wrote. A log of what was written to each live buffer since its
 allocation says exactly when they do.
 */
module ArenaInitialised {
  import opened Wrappers
  import opened Bytes
  import opened Arena
  import opened ArenaRefinement

  /** For each live buffer, the last value written to each position since the allocation. */
  type Log = map<nat, map<nat, bv8>>

  function Noted(written: map<nat, bv8>, offset: nat, source: seq<bv8>): map<nat, bv8>
    decreases |source|
  {
    if source == [] then written else Noted(written[offset := source[0]], offset + 1, source[1..])
  }

  lemma {:induction false} NotedAt(written: map<nat, bv8>, offset: nat, source: seq<bv8>, p: nat)
    ensures p in Noted(written, offset, source) <==> p in written || offset <= p < offset + |source|
    ensures offset <= p < offset + |source| ==> Noted(written, offset, source)[p] == source[p - offset]
    ensures p in written && !(offset <= p < offset + |source|) ==> Noted(written, offset, source)[p] == written[p]
    decreases |source|
  {
    if source != [] {
      NotedAt(written[offset := source[0]], offset + 1, source[1..], p);
    }
  }

  /** The log after a call that got this reply; only writes, through the call or a loan, add to it. */
  function Logged(m: Model, log: Log, op: Op, reply: Reply): Log {
    match op
    case Alloc(_) => if reply.Handle? then log[reply.handle := map[]] else log
    case Free(h) => if reply == Done then log - {h} else log
    case Write(h, offset, source) => if reply == Done && h in log then log[h := Noted(log[h], offset, source)] else log
    case Store(h, offset, value) =>
      if h in m && h in log && m[h].mapped && offset < |m[h].data| then log[h := Noted(log[h], offset, [value])] else log
    case Reset => if reply == Done then map[] else log
    case _ => log
  }

  /** The log is about the live buffers, and they hold what it says. */
  ghost predicate Faithful(m: Model, log: Log) {
    && log.Keys == m.Keys
    && forall h, p: nat | h in log && p in log[h] :: p < |m[h].data| && m[h].data[p] == log[h][p]
  }

  /** The promise: every readable byte was written since the allocation. */
  ghost predicate Initialised(m: Model, log: Log) {
    forall h, p: nat | h in m && h in log && p < m[h].length :: p in log[h]
  }

  /** Whether some position of the range was never written. */
  ghost predicate Gap(written: map<nat, bv8>, from: nat, to: nat) {
    exists p: nat :: from <= p < to && p !in written
  }

  /** A write that leaves a gap behind the current length, or a length moved over one. */
  ghost predicate Exposes(m: Model, log: Log, op: Op) {
    match op
    case Write(h, offset, source) =>
      && h in m && h in log && !m[h].mapped && offset + |source| <= |m[h].data|
      && Gap(log[h], m[h].length, offset)
    case SetLength(h, count) =>
      && h in m && h in log && !m[h].mapped && count <= |m[h].data|
      && Gap(log[h], m[h].length, count)
    case _ => false
  }

  // ----- One call -----

  lemma OverwrittenAt(data: seq<bv8>, offset: nat, source: seq<bv8>, p: nat)
    requires offset + |source| <= |data| && p < |data|
    ensures Overwrite(data, offset, source)[p] ==
            if offset <= p < offset + |source| then source[p - offset] else data[p]
  {
  }

  /** Noting what was written keeps the log faithful. */
  lemma NotedFaithful(m: Model, log: Log, h: nat, offset: nat, source: seq<bv8>, next: Buffer)
    requires Faithful(m, log) && h in m && offset + |source| <= |m[h].data|
    requires next.data == Overwrite(m[h].data, offset, source)
    ensures Faithful(m[h := next], log[h := Noted(log[h], offset, source)])
  {
    hide Overwrite, Noted;
    var noted := Noted(log[h], offset, source);
    forall p: nat | p in noted
      ensures p < |next.data| && next.data[p] == noted[p]
    {
      NotedAt(log[h], offset, source, p);
      if p in log[h] {
        assert p < |m[h].data|;
      }
      OverwrittenAt(m[h].data, offset, source, p);
    }
  }

  /** A buffer's length moved to `length`, `noted` being what is written of it afterwards. */
  lemma LengthMoved(m: Model, log: Log, h: nat, next: Buffer, noted: map<nat, bv8>)
    requires Faithful(m, log) && Initialised(m, log) && h in m
    requires forall p: nat | p in log[h] :: p in noted
    ensures Initialised(m[h := next], log[h := noted]) <==> !Gap(noted, m[h].length, next.length)
  {
    var m', log' := m[h := next], log[h := noted];
    if !Gap(noted, m[h].length, next.length) {
      forall g, p: nat | g in m' && g in log' && p < m'[g].length
        ensures p in log'[g]
      {
        if g != h {
          assert g in m && g in log && p < m[g].length;
        } else if p < m[h].length {
          assert p in log[h];
        }
      }
    } else {
      var p: nat :| m[h].length <= p < next.length && p !in noted;
      assert h in m' && h in log' && p < m'[h].length && p !in log'[h];
    }
  }

  lemma WriteGap(written: map<nat, bv8>, length: nat, offset: nat, source: seq<bv8>)
    ensures Gap(Noted(written, offset, source), length, Max(length, offset + |source|)) <==> Gap(written, length, offset)
  {
    var noted, end := Noted(written, offset, source), Max(length, offset + |source|);
    if Gap(written, length, offset) {
      var p: nat :| length <= p < offset && p !in written;
      NotedAt(written, offset, source, p);
      assert length <= p < end && p !in noted;
    }
    if Gap(noted, length, end) {
      var p: nat :| length <= p < end && p !in noted;
      NotedAt(written, offset, source, p);
      assert length <= p < offset && p !in written;
    }
  }

  lemma BufferCallInitialised(m: Model, log: Log, op: Op)
    requires Faithful(m, log) && !op.Alloc? && !op.Reset? && op.handle in m
    ensures var (m', reply) := ModelOnBuffer(m, op); var log' := Logged(m, log, op, reply);
            && Faithful(m', log')
            && (Initialised(m, log) ==> (Initialised(m', log') <==> !Exposes(m, log, op)))
  {
    var h, b := op.handle, m[op.handle];
    var (m', reply) := ModelOnBuffer(m, op);
    hide Overwrite, Noted, Gap;
    match op
    case Write(_, offset, source) =>
      if reply == Done {
        NotedFaithful(m, log, h, offset, source, m'[h]);
        NotedMore(log[h], offset, source);
        WriteGap(log[h], b.length, offset, source);
        if Initialised(m, log) {
          LengthMoved(m, log, h, m'[h], Noted(log[h], offset, source));
        }
      }
    case Store(_, offset, value) =>
      if b.mapped && offset < |b.data| {
        OverwriteOne(b.data, offset, value);
        NotedFaithful(m, log, h, offset, [value], m'[h]);
        NotedMore(log[h], offset, [value]);
      }
    case SetLength(_, count) =>
      if reply == Done {
        assert log[h := log[h]] == log;
        if Initialised(m, log) {
          LengthMoved(m, log, h, m'[h], log[h]);
        }
      }
    case _ =>
  }

  lemma NotedMore(written: map<nat, bv8>, offset: nat, source: seq<bv8>)
    ensures forall p: nat | p in written :: p in Noted(written, offset, source)
  {
    forall p: nat | p in written
      ensures p in Noted(written, offset, source)
    {
      NotedAt(written, offset, source, p);
    }
  }

  /**
   The log stays faithful under every call, and a call keeps the promise if and only if it is
   not a successful write or length change over bytes that were never written.
   */
  lemma StepInitialised(a: Arena, op: Op, log: Log)
    requires Valid(a) && Faithful(Abs(a), log)
    ensures var (b, reply) := Step(a, op); var next := Logged(Abs(a), log, op, reply);
            && Valid(b) && Faithful(Abs(b), next)
            && (Initialised(Abs(a), log) ==> (Initialised(Abs(b), next) <==> !Exposes(Abs(a), log, op)))
  {
    hide Valid, Step, Abs, Lookup, ModelOnBuffer, Gap, Noted;
    StepRefines(a, op);
    if !op.Alloc? && !op.Reset? && op.handle in Abs(a) {
      BufferCallInitialised(Abs(a), log, op);
    }
  }

  // ----- Runs -----

  /** A run with its log. */
  ghost predicate IsLoggedRun(states: seq<Arena>, ops: seq<Op>, logs: seq<Log>) {
    && IsRun(states, ops) && |logs| == |states| && Faithful(Abs(states[0]), logs[0])
    && forall k :: 0 <= k < |ops| ==>
         Valid(states[k]) ==> logs[k + 1] == Logged(Abs(states[k]), logs[k], ops[k], Step(states[k], ops[k]).1)
  }

  ghost predicate InitialisedAt(states: seq<Arena>, logs: seq<Log>, k: nat)
    requires k < |states| == |logs|
  {
    Valid(states[k]) && Initialised(Abs(states[k]), logs[k])
  }

  ghost predicate ExposesAt(states: seq<Arena>, ops: seq<Op>, logs: seq<Log>, k: nat)
    requires k < |ops| && k < |states| == |logs|
  {
    Valid(states[k]) && Exposes(Abs(states[k]), logs[k], ops[k])
  }

  lemma {:induction false} RunStaysFaithful(states: seq<Arena>, ops: seq<Op>, logs: seq<Log>, k: nat)
    requires IsLoggedRun(states, ops, logs) && k < |states|
    ensures Valid(states[k]) && Faithful(Abs(states[k]), logs[k])
  {
    hide Valid, Step, Abs, Lookup, Faithful, Logged;
    RunRefines(states, ops, k);
    if k > 0 {
      RunStaysFaithful(states, ops, logs, k - 1);
      StepInitialised(states[k - 1], ops[k - 1], logs[k - 1]);
    }
  }

  /** Over any run the promise holds throughout if and only if no call exposes unwritten bytes. */
  lemma {:induction false} RunInitialised(states: seq<Arena>, ops: seq<Op>, logs: seq<Log>, n: nat)
    requires n < |states| == |logs| == |ops| + 1 && IsLoggedRun(states, ops, logs) && InitialisedAt(states, logs, 0)
    ensures (forall k :: 0 <= k <= n ==> InitialisedAt(states, logs, k)) <==>
            (forall k :: 0 <= k < n ==> !ExposesAt(states, ops, logs, k))
  {
    hide IsLoggedRun, InitialisedAt, ExposesAt, Valid, Faithful, Abs;
    if n > 0 {
      RunInitialised(states, ops, logs, n - 1);
      RunStaysFaithful(states, ops, logs, n - 1);
      StepOfRun(states, ops, logs, n - 1);
    }
  }

  lemma StepOfRun(states: seq<Arena>, ops: seq<Op>, logs: seq<Log>, k: nat)
    requires IsLoggedRun(states, ops, logs) && k < |ops| && Valid(states[k]) && Faithful(Abs(states[k]), logs[k])
    ensures InitialisedAt(states, logs, k) ==>
              (InitialisedAt(states, logs, k + 1) <==> !ExposesAt(states, ops, logs, k))
  {
    hide Valid, Step, Abs, Lookup, Faithful, Logged, Initialised, Exposes;
    StepInitialised(states[k], ops[k], logs[k]);
  }

  /** A new arena, or one with no live buffer, keeps the promise with an empty log. */
  lemma EmptyIsInitialised(a: Arena)
    requires Valid(a) && forall i :: 0 <= i < |a.slots| ==> !Active(a.slots[i])
    ensures Faithful(Abs(a), map[]) && Initialised(Abs(a), map[])
  {
    AbsIs(a, map[]);
  }

  /** While the promise holds, a read returns what was last written to each position. */
  lemma ReadsWhatWasWritten(a: Arena, log: Log, h: nat, offset: nat, count: nat)
    requires Valid(a) && Faithful(Abs(a), log) && Initialised(Abs(a), log)
    requires Step(a, Read(h, offset, count)).1.Data?
    ensures var data := Step(a, Read(h, offset, count)).1.data;
            |data| == count && h in log
            && forall j :: 0 <= j < count ==> offset + j in log[h] && data[j] == log[h][offset + j]
  {
    hide Valid, Step, Abs, Lookup;
    StepRefines(a, Read(h, offset, count));
  }

  // ----- The guard -----

  /** On a buffer written without gaps or cuts, exactly a write that begins beyond the length exposes bytes. */
  lemma GapIsBeyondLength(m: Model, log: Log, h: nat, offset: nat, source: seq<bv8>)
    requires h in m && h in log && !m[h].mapped && offset + |source| <= |m[h].data|
    requires forall p: nat :: p in log[h] <==> p < m[h].length
    ensures Exposes(m, log, Write(h, offset, source)) <==> offset > m[h].length
  {
    if offset > m[h].length {
      assert m[h].length !in log[h];
    }
  }

  lemma GapInModel(m: Model, h: nat, p: nat, offset: nat, source: seq<bv8>)
    requires h in m && !m[h].mapped && m[h].length <= p < offset && offset + |source| <= |m[h].data|
    ensures var (n, reply) := ModelOnBuffer(m, Write(h, offset, source));
            reply == Done && h in n && ModelOnBuffer(n, Read(h, p, 1)) == (n, Data([m[h].data[p]]))
  {
    hide Overwrite;
    var data := Overwrite(m[h].data, offset, source);
    OverwrittenAt(m[h].data, offset, source, p);
    assert data[p..p + 1] == [data[p]];
  }

  /** The byte in such a gap is read as the arena held it before, for every arena, buffer and gap. */
  lemma GapIsReadAsItWas(a: Arena, i: nat, p: nat, offset: nat, source: seq<bv8>)
    requires Valid(a) && i < MAX_BUFFERS && Active(a.slots[i]) && a.slots[i].mapCount == 0
    requires a.slots[i].length <= p < offset && offset + |source| <= a.slots[i].capacity
    ensures a.slots[i].offset + p < |a.bytes|
    ensures var (b, reply) := Step(a, Write(HandleAt(a, i), offset, source));
            && reply == Done && Valid(b)
            && Step(b, Read(HandleAt(a, i), p, 1)).1 == Data([a.bytes[a.slots[i].offset + p]])
  {
    hide Valid, Step, Abs, Lookup, BufferAt, HandleAt, Overwrite, Active, ModelOnBuffer;
    ValidSize(a);
    var h := HandleAt(a, i);
    AbsAt(a, i);
    BufferFields(a, i);
    BufferByte(a, i, p);
    GapInModel(Abs(a), h, p, offset, source);
    StepRefines(a, Write(h, offset, source));
    StepRefines(Step(a, Write(h, offset, source)).0, Read(h, p, 1));
  }

  lemma BufferByte(a: Arena, i: nat, p: nat)
    requires Valid(a) && i < MAX_BUFFERS && Active(a.slots[i]) && p < a.slots[i].capacity
    ensures a.slots[i].offset + p < |a.bytes| && p < |BufferAt(a, i).data|
    ensures BufferAt(a, i).data[p] == a.bytes[a.slots[i].offset + p]
  {
    assert WellFormed(a.slots[i], |a.bytes|);
  }

  /**
   In a fresh arena of two bytes, allocating both, writing `x` to the second and reading the
   first returns the byte the memory held before.
   */
  lemma UnwrittenByteIsRead(old0: bv8, old1: bv8, x: bv8)
    ensures var a := Arena(seq(MAX_BUFFERS, _ => EMPTY_SLOT), [old0, old1]);
            && Valid(a)
            && var (a1, granted) := Step(a, Alloc(2));
               && granted.Handle? && Valid(a1)
               && var (a2, written) := Step(a1, Write(granted.handle, 1, [x]));
                  && written == Done && Valid(a2)
                  && Step(a2, Read(granted.handle, 0, 1)).1 == Data([old0])
  {
    var a := Arena(seq(MAX_BUFFERS, _ => EMPTY_SLOT), [old0, old1]);
    assert forall i :: 0 <= i < |a.slots| ==> a.slots[i] == EMPTY_SLOT;
    assert Valid(a);
    assert Fits(a.slots, 2, 2, 0);
    assert FirstFit(a.slots, 2, 2, 0) == Some(0) && FreeSlot(a.slots, 0) == Some(0);
    var (a1, granted) := Step(a, Alloc(2));
    assert a1.slots[0] == Slot(0, 0, 2, 1, 0) && granted == Handle(HandleAt(a1, 0));
    StepRefines(a, Alloc(2));
    hide Valid, Step, FirstFit, Fits;
    GapIsReadAsItWas(a1, 0, 0, 1, [x]);
  }
}
