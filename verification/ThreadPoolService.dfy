/**
 The calls of the thread pool on its fields and its ring of jobs. Every method is one
 critical section, except `Join` and `Init`, which loop outside the lock.
 */
module ThreadPoolService {
  import opened Ring
  import opened ThreadPoolModel

  /** `JoinedOne` repeated; `joins` says which `pthread_join` calls succeed. */
  function JoinLoop(s: Shared, joins: seq<bool>): (Shared, Result)
    requires s.state == Draining || s.state == Stopping
    requires s.created <= |joins|
    decreases s.created - s.joined
  {
    if s.joined < s.created then
      if joins[s.joined] then JoinLoop(JoinedOne(s), joins) else (s, SystemError)
    else (JoinedOne(s), Ok)
  }

  /**
   A join returns Ok exactly when every remaining thread could be joined, and then the pool
   is `Joined`; otherwise it stops before the first thread that could not.
   */
  lemma {:induction false} JoinStopsAtFailure(s: Shared, joins: seq<bool>)
    requires (s.state == Draining || s.state == Stopping) && s.joined <= s.created <= |joins|
    ensures var (t, result) := JoinLoop(s, joins);
            && (result == Ok <==> forall i :: s.joined <= i < s.created ==> joins[i])
            && (result == Ok ==> t == s.(state := Joined, joined := s.created))
            && (result != Ok ==> result == SystemError && t == s.(joined := t.joined) && s.joined <= t.joined < s.created
                                 && !joins[t.joined] && forall i :: s.joined <= i < t.joined ==> joins[i])
    decreases s.created - s.joined
  {
    if s.joined < s.created && joins[s.joined] {
      JoinStopsAtFailure(JoinedOne(s), joins);
    }
  }

  class ThreadPool {
    var queue: array<Job>
    var head: nat
    var tail: nat
    var count: nat
    var state: State
    var created: nat
    var joined: nat
    var mutexReady: bool
    var conditionReady: bool

    /** Both primitives are there: without them every call is an invalid argument. */
    predicate Ready()
      reads this
    {
      mutexReady && conditionReady
    }

    ghost predicate Valid()
      reads this, queue
    {
      Ready() ==> TailFits(head, tail, count, queue.Length) && joined <= created
    }

    ghost function View(): Shared
      reads this, queue
      requires Valid() && Ready()
    {
      Shared(Contents(queue[..], head, count), queue.Length, state, created, joined)
    }

    /** A pool that was never initialised, or was destroyed. */
    predicate Unset()
      reads this
    {
      !mutexReady && !conditionReady && state == Uninitialized && created == 0 && joined == 0 && count == 0
    }

    constructor ()
      ensures Unset()
    {
      queue := new Job[0];
      head, tail, count, created, joined := 0, 0, 0, 0, 0;
      state, mutexReady, conditionReady := Uninitialized, false, false;
    }

    method Submit(job: Job) returns (result: Result)
      requires Valid()
      modifies this, queue
      ensures Valid() && queue == old(queue) && Ready() == old(Ready())
      ensures old(Ready()) ==> (View(), result) == Submitted(old(View()), job)
      ensures !old(Ready()) ==> result == InvalidArgument && unchanged(this, queue)
    {
      if !mutexReady || !conditionReady {
        return InvalidArgument;
      }
      if state != Running {
        return StateError;
      }
      if count == queue.Length {
        return QueueFull;
      }
      Pushed(queue[..], head, tail, count, job);
      queue[tail] := job;
      assert queue[..] == old(queue[..])[old(tail) := job];
      tail := (tail + 1) % queue.Length;
      count := count + 1;
      return Ok;
    }

    /** One pass of a worker under the lock: it waits, exits, or leaves with the oldest job. */
    method Inspect() returns (verdict: Verdict)
      requires Valid() && Ready()
      requires Inspected(View()).1 != TakeNothing
      modifies this
      ensures Valid() && Ready() && queue == old(queue)
      ensures (View(), verdict) == Inspected(old(View()))
    {
      if count == 0 && state == Running {
        return Wait;
      }
      if state == Stopping || (state == Draining && count == 0) {
        return Exit;
      }
      Popped(queue[..], head, tail, count);
      var job := queue[head];
      head := (head + 1) % queue.Length;
      count := count - 1;
      return Take(job);
    }

    method Shutdown(order: State) returns (result: Result)
      requires Valid() && (order == Draining || order == Stopping)
      modifies this
      ensures Valid() && queue == old(queue) && Ready() == old(Ready())
      ensures old(Ready()) ==> (View(), result) == ShutDown(old(View()), order)
      ensures !old(Ready()) ==> result == InvalidArgument && unchanged(this)
    {
      if !mutexReady || !conditionReady {
        return InvalidArgument;
      }
      if state != Running {
        return StateError;
      }
      state := order;
      if order == Stopping {
        head, tail, count := 0, 0, 0;
        assert View().queue == [];
      }
      return Ok;
    }

    method Join(joins: seq<bool>) returns (result: Result)
      requires Valid() && created <= |joins|
      modifies this
      ensures Valid() && queue == old(queue) && Ready() == old(Ready())
      ensures !old(Ready()) ==> result == InvalidArgument && unchanged(this)
      ensures old(Ready()) ==>
                if old(state) == Draining || old(state) == Stopping
                then (View(), result) == JoinLoop(old(View()), joins)
                else unchanged(this) && result == StateError
    {
      if !mutexReady || !conditionReady {
        return InvalidArgument;
      }
      if state != Draining && state != Stopping {
        return StateError;
      }
      while joined < created
        invariant Ready() && Valid() && queue == old(queue) && created == old(created)
        invariant state == Draining || state == Stopping
        invariant JoinLoop(View(), joins) == JoinLoop(old(View()), joins)
      {
        if !joins[joined] {
          return SystemError;
        }
        joined := joined + 1;
      }
      state := Joined;
      return Ok;
    }

    /** Refused before the join; the primitives that could be destroyed stay destroyed. */
    method Destroy(conditionGone: bool, mutexGone: bool) returns (result: Result)
      modifies this
      ensures result == InvalidArgument <==> !old(mutexReady) && !old(conditionReady)
      ensures result == StateError <==> (old(mutexReady) || old(conditionReady)) && old(state) != Joined
      ensures result == Ok ==> old(state) == Joined && Unset()
      ensures result == Ok <==> (old(mutexReady) || old(conditionReady)) && old(state) == Joined
                                && (old(conditionReady) ==> conditionGone) && (old(mutexReady) ==> mutexGone)
      ensures result != Ok ==> unchanged(`state, `queue, `head, `tail, `count, `created, `joined) && mutexReady == old(mutexReady)
      ensures result != Ok ==> conditionReady == (old(conditionReady) && (old(state) != Joined || !conditionGone))
    {
      if !mutexReady && !conditionReady {
        return InvalidArgument;
      }
      if state != Joined {
        return StateError;
      }
      if conditionReady {
        if !conditionGone {
          return SystemError;
        }
        conditionReady := false;
      }
      if mutexReady {
        if !mutexGone {
          return SystemError;
        }
        mutexReady := false;
      }
      head, tail, count, created, joined := 0, 0, 0, 0, 0;
      state := Uninitialized;
      return Ok;
    }

    method CleanupFailedInit(joins: seq<bool>, conditionGone: bool, mutexGone: bool)
      requires Ready() && Valid() && state == Running && created <= |joins|
      modifies this
      ensures (forall i :: 0 <= i < old(created) ==> joins[i]) && old(joined) == 0 && conditionGone && mutexGone ==> Unset()
      ensures !Unset() ==> state == Stopping || state == Joined
    {
      state := Stopping;
      ghost var before := View();
      var joining := Join(joins);
      JoinStopsAtFailure(before, joins);
      if joining == Ok {
        var _ := Destroy(conditionGone, mutexGone);
      }
    }

    /**
     `starts` says which `pthread_create` calls succeed. On success the pool is the running,
     empty one that the protocol reaches by spawning every worker; on failure no pool is left
     running, and nothing at all if the threads made so far can be joined and the mutex destroyed.
     */
    method Init(workerCount: nat, storage: array<Job>, mutexOk: bool, conditionOk: bool, starts: seq<bool>,
                joins: seq<bool>, mutexGone: bool)
      returns (result: Result)
      requires Unset() && workerCount <= |starts| && workerCount <= |joins|
      modifies this
      ensures result == InvalidArgument <==> workerCount == 0 || storage.Length == 0
      ensures result == Ok <==> workerCount > 0 && storage.Length > 0 && mutexOk && conditionOk
                                && forall i :: 0 <= i < workerCount ==> starts[i]
      ensures result == Ok ==> Ready() && Valid() && queue == storage && View() == Shared([], storage.Length, Running, workerCount, 0)
      ensures result != Ok ==> state != Running && result != QueueFull && result != StateError
      ensures result == InvalidArgument ==> unchanged(this)
      ensures result == SystemError && mutexGone && (forall i :: 0 <= i < workerCount ==> joins[i]) ==> Unset()
    {
      if workerCount == 0 || storage.Length == 0 {
        return InvalidArgument;
      }
      queue := storage;
      head, tail, count, created, joined := 0, 0, 0, 0, 0;
      if !mutexOk {
        return SystemError;
      }
      mutexReady := true;
      if !conditionOk {
        state := Joined;
        var _ := Destroy(true, mutexGone);
        return SystemError;
      }
      conditionReady := true;
      state := Running;
      while created < workerCount
        invariant created <= workerCount && Ready() && Valid() && queue == storage && joined == 0
        invariant View() == Shared([], storage.Length, Running, created, 0)
        invariant forall i :: 0 <= i < created ==> starts[i]
      {
        if !starts[created] {
          CleanupFailedInit(joins, true, mutexGone);
          return SystemError;
        }
        created := created + 1;
      }
      return Ok;
    }
  }

  /** Spawning every worker of the initial pool gives the pool that a successful `Init` returns. */
  lemma {:induction false} SpawnAll(p: Pool, actions: seq<Action>)
    requires p.shared == Shared([], p.shared.capacity, Running, |p.workers|, 0)
    requires |p.workers| + |actions| == p.target && forall i :: 0 <= i < |actions| ==> actions[i] == Spawn
    ensures Run(p, actions)
    ensures After(p, actions).shared == Shared([], p.shared.capacity, Running, p.target, 0)
    ensures |After(p, actions).workers| == p.target
    decreases |actions|
  {
    if actions != [] {
      SpawnAll(Next(p, actions[0]), actions[1..]);
    }
  }
}
