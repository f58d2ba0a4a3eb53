/**
 What every interleaving of the thread pool keeps: order, exactly-once execution, no lost
 wakeup, and an end to every shutdown.
 */
module ThreadPoolSafety {
  import opened ThreadPoolModel

  // ----- The invariant -----

  function Min(a: int, b: int): int {
    if a < b then a else b
  }

  /** Every started job has finished or is in a worker's hand. */
  ghost predicate Balanced(started: seq<Job>, finished: seq<Job>, ws: seq<Worker>) {
    multiset(started) == multiset(finished) + JobsInHand(ws)
  }

  ghost predicate Books(p: Pool) {
    && p.accepted == p.started + p.shared.queue + p.discarded
    && Balanced(p.started, p.finished, p.workers)
    && (p.order != Stopping ==> p.discarded == [])
    && (p.order == Stopping ==> p.shared.queue == [])
    && (|p.workers| < p.target ==> p.accepted == [])
  }

  ghost predicate Phases(p: Pool) {
    && 0 < p.target && |p.workers| <= p.target && 0 < p.shared.capacity && |p.shared.queue| <= p.shared.capacity
    && p.shared.created == |p.workers| && p.shared.joined <= |p.workers|
    && (p.shared.state == Joined || p.shared.state == p.order)
    && (p.order == Running || p.order == Draining || p.order == Stopping)
    && (p.shared.state == Joined ==> p.order != Running && p.shared.joined == |p.workers|)
    && (p.order == Draining ==> |p.workers| == p.target)
    && (p.order == Running ==> p.shared.joined == 0)
  }

  ghost predicate Workers(p: Pool) {
    && (p.order == Running ==> forall i :: 0 <= i < |p.workers| ==> p.workers[i] != Exited)
    && (p.order != Running ==> forall i :: 0 <= i < |p.workers| ==> p.workers[i] != Waiting)
    && (p.shared.queue != [] && p.order != Running ==> forall i :: 0 <= i < |p.workers| ==> p.workers[i] != Exited)
    && p.shared.joined <= |p.workers| && (forall i :: 0 <= i < p.shared.joined ==> p.workers[i] == Exited)
    && (p.order == Running ==> Awake(p.workers) >= Min(|p.shared.queue|, |p.workers|))
  }

  ghost predicate Inv(p: Pool) {
    Phases(p) && Books(p) && Workers(p)
  }

  lemma BalancedTake(started: seq<Job>, finished: seq<Job>, ws: seq<Worker>, w: nat, job: Job)
    requires Balanced(started, finished, ws) && w < |ws| && ws[w] == Ready
    ensures Balanced(started + [job], finished, ws[w := Busy(job)])
  {
    hide JobsInHand;
    InHandMoves(ws, w, Busy(job));
    var hands, hands' := JobsInHand(ws), JobsInHand(ws[w := Busy(job)]);
    assert hands' == hands' + InHand(ws[w]) == hands + multiset{job};
    assert multiset(started + [job]) == multiset(started) + multiset{job};
  }

  lemma BalancedReturn(started: seq<Job>, finished: seq<Job>, ws: seq<Worker>, w: nat)
    requires Balanced(started, finished, ws) && w < |ws| && ws[w].Busy?
    ensures Balanced(started, finished + [ws[w].job], ws[w := Ready])
  {
    hide JobsInHand;
    InHandMoves(ws, w, Ready);
    var job, hands, hands' := ws[w].job, JobsInHand(ws), JobsInHand(ws[w := Ready]);
    assert hands == hands + InHand(Ready) == hands' + multiset{job};
    assert multiset(finished + [job]) == multiset(finished) + multiset{job};
    assert multiset(finished) + (hands' + multiset{job}) == (multiset(finished) + multiset{job}) + hands';
  }

  lemma BalancedIdle(started: seq<Job>, finished: seq<Job>, ws: seq<Worker>, w: nat, to: Worker)
    requires Balanced(started, finished, ws) && w < |ws| && !ws[w].Busy? && !to.Busy?
    ensures Balanced(started, finished, ws[w := to])
  {
    hide JobsInHand;
    InHandMoves(ws, w, to);
    var hands, hands' := JobsInHand(ws), JobsInHand(ws[w := to]);
    assert hands' == hands' + InHand(ws[w]) == hands + InHand(to) == hands;
  }

  lemma InitialInv(target: nat, capacity: nat)
    requires target > 0 && capacity > 0
    ensures Inv(Initial(target, capacity))
  {
  }

  lemma SpawnKeeps(p: Pool)
    requires Inv(p) && Enabled(p, Spawn)
    ensures Inv(Next(p, Spawn))
  {
    hide Awake, JobsInHand;
    OneJoins(p.workers);
  }

  lemma LookKeepsPhases(p: Pool, w: nat)
    requires Inv(p) && Enabled(p, Look(w))
    ensures Inspected(p.shared).1 != TakeNothing
    ensures Phases(Next(p, Look(w))) && Workers(Next(p, Look(w)))
  {
    hide Awake, Books;
    OneMoves(p.workers, w, Next(p, Look(w)).workers[w]);
    NothingAccepted(p);
  }

  lemma NothingAccepted(p: Pool)
    requires Books(p)
    ensures |p.workers| < p.target ==> p.shared.queue == []
    ensures p.order == Stopping ==> p.shared.queue == []
  {
  }

  lemma LookKeepsBooks(p: Pool, w: nat)
    requires Books(p) && Enabled(p, Look(w)) && Inspected(p.shared).1 != TakeNothing
    ensures Books(Next(p, Look(w)))
  {
    hide Balanced;
    match Inspected(p.shared).1
    case Take(job) =>
      BalancedTake(p.started, p.finished, p.workers, w, job);
      assert p.shared.queue == [job] + p.shared.queue[1..];
      assert p.started + p.shared.queue == p.started + [job] + p.shared.queue[1..];
    case Wait => BalancedIdle(p.started, p.finished, p.workers, w, Waiting);
    case Exit => BalancedIdle(p.started, p.finished, p.workers, w, Exited);
  }

  lemma LookKeeps(p: Pool, w: nat)
    requires Inv(p) && Enabled(p, Look(w))
    ensures Inv(Next(p, Look(w)))
  {
    hide Phases, Books, Workers;
    LookKeepsPhases(p, w);
    LookKeepsBooks(p, w);
  }

  /** A waiting or busy worker becomes ready. */
  lemma ReadyKeepsWorkers(p: Pool, w: nat)
    requires Phases(p) && Workers(p) && w < |p.workers| && (p.workers[w].Busy? || p.workers[w] == Waiting)
    ensures Phases(p.(workers := p.workers[w := Ready])) && Workers(p.(workers := p.workers[w := Ready]))
  {
    hide Awake;
    OneMoves(p.workers, w, Ready);
  }

  lemma ReturnKeeps(p: Pool, w: nat)
    requires Inv(p) && Enabled(p, Return(w))
    ensures Inv(Next(p, Return(w)))
  {
    hide Workers, Balanced;
    ReadyKeepsWorkers(p, w);
    WorkersOnly(p.(workers := p.workers[w := Ready]), Next(p, Return(w)));
    BalancedReturn(p.started, p.finished, p.workers, w);
  }

  lemma WorkersOnly(p: Pool, q: Pool)
    requires Workers(p) && p.workers == q.workers && p.shared == q.shared && p.order == q.order
    ensures Workers(q)
  {
  }

  lemma WakeupKeeps(p: Pool, w: nat)
    requires Inv(p) && Enabled(p, SpuriousWakeup(w))
    ensures Inv(Next(p, SpuriousWakeup(w)))
  {
    hide Workers, Balanced;
    ReadyKeepsWorkers(p, w);
    BalancedIdle(p.started, p.finished, p.workers, w, Ready);
  }

  /** Some waiting worker, if there is one, is awake after the signal. */
  lemma SignalKeeps(p: Pool, woken: set<nat>, shared: Shared)
    requires Phases(p) && Workers(p) && p.order == Running && SignalWakes(p.workers, woken)
    requires shared.joined == p.shared.joined && |shared.queue| == |p.shared.queue| + 1
    ensures Workers(p.(shared := shared, workers := Woken(p.workers, woken)))
    ensures JobsInHand(Woken(p.workers, woken)) == JobsInHand(p.workers)
  {
    hide Awake, JobsInHand;
    var ws, next := p.workers, Woken(p.workers, woken);
    WakingKeeps(ws, next);
    if exists i :: 0 <= i < |ws| && ws[i] == Waiting {
      var i :| 0 <= i < |ws| && ws[i] == Waiting && i in woken;
      OneWakes(ws, next, i);
    } else {
      NoneWaiting(ws);
      NoneWaiting(next);
    }
  }

  lemma SubmitKeeps(p: Pool, job: Job, woken: set<nat>)
    requires Inv(p) && Enabled(p, Submit(job, woken))
    ensures Inv(Next(p, Submit(job, woken)))
  {
    hide JobsInHand, Workers;
    if p.shared.state == Running && |p.shared.queue| < p.shared.capacity {
      SignalKeeps(p, woken, Submitted(p.shared, job).0);
      WorkersOnly(p.(shared := Submitted(p.shared, job).0, workers := Woken(p.workers, woken)),
                  Next(p, Submit(job, woken)));
    }
  }

  /** Waking everyone for a shutdown leaves nobody waiting. */
  lemma BroadcastKeeps(p: Pool, shared: Shared, order: State)
    requires Phases(p) && Workers(p) && p.order == Running && order != Running
    requires shared.joined == p.shared.joined
    ensures Workers(p.(shared := shared, workers := AllWoken(p.workers), order := order))
    ensures JobsInHand(AllWoken(p.workers)) == JobsInHand(p.workers)
  {
    hide Awake, JobsInHand;
    WakingKeeps(p.workers, AllWoken(p.workers));
  }

  lemma ShutBooks(p: Pool, order: State)
    requires Phases(p) && Books(p) && p.order == Running && (order == Draining || order == Stopping)
    requires JobsInHand(AllWoken(p.workers)) == JobsInHand(p.workers)
    ensures Books(AfterShut(p, order))
  {
    hide JobsInHand, AllWoken;
    assert |AllWoken(p.workers)| == |p.workers| by {
      WokenLength(p.workers);
    }
    assert p.started + p.shared.queue + [] == p.started + [] + p.shared.queue;
  }

  lemma WokenLength(ws: seq<Worker>)
    ensures |AllWoken(ws)| == |ws|
  {
  }

  lemma ShutKeeps(p: Pool, order: State)
    requires Inv(p) && Enabled(p, Shut(order))
    ensures Inv(Next(p, Shut(order)))
  {
    hide JobsInHand, Workers, Books, AllWoken;
    if p.order == Running {
      BroadcastKeeps(p, ShutDown(p.shared, order).0, order);
      WorkersOnly(p.(shared := ShutDown(p.shared, order).0, workers := AllWoken(p.workers), order := order),
                  Next(p, Shut(order)));
      ShutBooks(p, order);
      WokenLength(p.workers);
    }
  }

  lemma SpawnFailedKeeps(p: Pool)
    requires Inv(p) && Enabled(p, SpawnFailed)
    ensures Inv(Next(p, SpawnFailed))
  {
    hide JobsInHand, Workers;
    BroadcastKeeps(p, p.shared.(state := Stopping), Stopping);
  }

  lemma JoinKeeps(p: Pool)
    requires Inv(p) && Enabled(p, JoinOne)
    ensures Inv(Next(p, JoinOne))
  {
    hide Balanced, Awake;
  }

  lemma NextKeeps(p: Pool, a: Action)
    requires Inv(p) && Enabled(p, a)
    ensures Inv(Next(p, a))
  {
    hide Phases, Books, Workers, AfterLook, AfterSubmit, AfterShut;
    match a
    case Spawn => SpawnKeeps(p);
    case SpawnFailed => SpawnFailedKeeps(p);
    case Look(w) => LookKeeps(p, w);
    case Return(w) => ReturnKeeps(p, w);
    case SpuriousWakeup(w) => WakeupKeeps(p, w);
    case Submit(job, woken) => SubmitKeeps(p, job, woken);
    case Shut(order) => ShutKeeps(p, order);
    case JoinOne => JoinKeeps(p);
  }

  lemma {:induction false} RunKeeps(p: Pool, actions: seq<Action>)
    requires Inv(p) && Run(p, actions)
    ensures Inv(After(p, actions))
    decreases |actions|
  {
    if actions != [] {
      NextKeeps(p, actions[0]);
      RunKeeps(Next(p, actions[0]), actions[1..]);
    }
  }

  // ----- Safety -----

  /** In every run jobs start in the order they were accepted, and none starts twice. */
  lemma StartInSubmitOrder(target: nat, capacity: nat, actions: seq<Action>)
    requires target > 0 && capacity > 0 && Run(Initial(target, capacity), actions)
    ensures var p := After(Initial(target, capacity), actions); p.started <= p.accepted
  {
    InitialInv(target, capacity);
    RunKeeps(Initial(target, capacity), actions);
  }

  /** Once all workers are joined, a drained pool has run every accepted job exactly once. */
  lemma DrainRunsEveryJob(target: nat, capacity: nat, actions: seq<Action>)
    requires target > 0 && capacity > 0 && Run(Initial(target, capacity), actions)
    requires After(Initial(target, capacity), actions).shared.state == Joined
    ensures var p := After(Initial(target, capacity), actions);
            && multiset(p.finished) == multiset(p.started)
            && p.accepted == p.started + p.discarded
            && (p.order == Draining ==> p.started == p.accepted && multiset(p.finished) == multiset(p.accepted))
  {
    var p := After(Initial(target, capacity), actions);
    InitialInv(target, capacity);
    RunKeeps(Initial(target, capacity), actions);
    ExitedHoldNothing(p.workers);
    assert p.shared.queue == [];
  }

  lemma StoppedNext(p: Pool, a: Action)
    requires p.order == Stopping && Phases(p) && p.shared.queue == [] && Enabled(p, a)
    requires p.shared.state == Stopping || p.shared.state == Joined
    ensures var q := Next(p, a);
            q.order == Stopping && q.started == p.started && q.discarded == p.discarded && q.accepted == p.accepted
  {
  }

  /** After an immediate shutdown nothing starts or is accepted any more: the split is final. */
  lemma {:induction false} StoppedStartsNothing(p: Pool, actions: seq<Action>)
    requires Inv(p) && p.order == Stopping && Run(p, actions)
    ensures var q := After(p, actions);
            && q.started == p.started && q.discarded == p.discarded && q.order == Stopping
            && q.accepted == p.accepted == p.started + p.discarded
    decreases |actions|
  {
    hide JobsInHand, Awake, Workers, AllWoken;
    if actions != [] {
      NextKeeps(p, actions[0]);
      StoppedNext(p, actions[0]);
      StoppedStartsNothing(Next(p, actions[0]), actions[1..]);
    }
  }

  // ----- When a call is accepted -----

  lemma {:induction false} CapacityStays(p: Pool, actions: seq<Action>)
    requires Run(p, actions)
    ensures After(p, actions).shared.capacity == p.shared.capacity && After(p, actions).target == p.target
    decreases |actions|
  {
    if actions != [] {
      CapacityStays(Next(p, actions[0]), actions[1..]);
    }
  }

  /** In a reachable state the order says whether a shutdown was asked for, and the books what is waiting. */
  lemma WaitingJobs(p: Pool)
    requires Inv(p)
    ensures p.shared.state == Running <==> p.order == Running
    ensures |p.shared.queue| == |p.accepted| - |p.started| - |p.discarded|
  {
    hide Balanced;
  }

  /**
   In every run of a pool of `capacity` places a job is accepted if and only if no shutdown was
   asked for and fewer than `capacity` accepted jobs are still waiting to start. It is then the
   last of the accepted jobs; otherwise nothing changes.
   */
  lemma AcceptedExactly(target: nat, capacity: nat, actions: seq<Action>, job: Job, woken: set<nat>)
    requires target > 0 && capacity > 0 && Run(Initial(target, capacity), actions)
    requires Enabled(After(Initial(target, capacity), actions), Submit(job, woken))
    ensures var p := After(Initial(target, capacity), actions);
            var q, result := Next(p, Submit(job, woken)), Submitted(p.shared, job).1;
            var waiting := |p.accepted| - |p.started| - |p.discarded|;
            && (result == StateError <==> p.order != Running)
            && (result == QueueFull <==> p.order == Running && waiting == capacity)
            && (result == Ok <==> p.order == Running && waiting < capacity)
            && q.accepted == (if result == Ok then p.accepted + [job] else p.accepted)
            && q.started == p.started && q.finished == p.finished && q.discarded == p.discarded && q.order == p.order
            && (result != Ok ==> q == p)
  {
    var p := After(Initial(target, capacity), actions);
    InitialInv(target, capacity);
    RunKeeps(Initial(target, capacity), actions);
    CapacityStays(Initial(target, capacity), actions);
    WaitingJobs(p);
    assert |p.shared.queue| <= p.shared.capacity;
    hide Inv;
  }

  /**
   In every run the first shutdown is accepted, whatever is queued, and sets the order; every
   later one is refused. A drain discards nothing, a stop everything that waits to start.
   */
  lemma ShutdownExactly(target: nat, capacity: nat, actions: seq<Action>, order: State)
    requires target > 0 && capacity > 0 && Run(Initial(target, capacity), actions)
    requires Enabled(After(Initial(target, capacity), actions), Shut(order))
    ensures var p := After(Initial(target, capacity), actions);
            var q, result := Next(p, Shut(order)), ShutDown(p.shared, order).1;
            && (result == Ok <==> p.order == Running) && (result == StateError <==> p.order != Running)
            && (result == Ok ==> q.order == order && q.accepted == p.accepted && q.started == p.started
                                 && (if order == Draining then q.discarded == [] else p.accepted == p.started + q.discarded))
            && (result != Ok ==> q == p)
  {
    var p := After(Initial(target, capacity), actions);
    InitialInv(target, capacity);
    RunKeeps(Initial(target, capacity), actions);
    WaitingJobs(p);
    hide Balanced, Phases, Workers;
  }

  // ----- No lost wakeup -----

  /**
   While jobs are queued in a running pool, as many workers are awake as there are jobs (or
   workers); after a shutdown none is asleep; no look finds a queue without the job it wants.
   */
  lemma NoLostWakeup(p: Pool)
    requires Inv(p)
    ensures p.shared.state == Running && p.shared.queue != [] ==> exists i :: 0 <= i < |p.workers| && p.workers[i] != Waiting
    ensures p.shared.state == Running ==> Awake(p.workers) >= Min(|p.shared.queue|, |p.workers|)
    ensures p.shared.state != Running ==> forall i :: 0 <= i < |p.workers| ==> p.workers[i] != Waiting
    ensures forall i :: 0 <= i < |p.workers| && p.workers[i] == Ready ==> Inspected(p.shared).1 != TakeNothing
  {
    if p.shared.state == Running && p.shared.queue != [] {
      assert |p.workers| == p.target;
      SomeAwake(p.workers);
    }
  }

  // ----- Every shutdown ends -----

  predicate IsWorkerStep(a: Action) {
    a.Look? || a.Return?
  }

  function WorkerSteps(actions: seq<Action>): nat {
    if actions == [] then 0 else (if IsWorkerStep(actions[0]) then 1 else 0) + WorkerSteps(actions[1..])
  }

  lemma LookRank(p: Pool, w: nat)
    requires Phases(p) && p.order != Running && Enabled(p, Look(w)) && Inspected(p.shared).1 != TakeNothing
    ensures Rank(Next(p, Look(w))) == Rank(p) - 1
    ensures JoinsLeft(Next(p, Look(w))) == JoinsLeft(p)
  {
    hide StepsLeft;
    OneMoves(p.workers, w, Next(p, Look(w)).workers[w]);
  }

  lemma ReturnRank(p: Pool, w: nat)
    requires Enabled(p, Return(w))
    ensures Rank(Next(p, Return(w))) == Rank(p) - 1
    ensures JoinsLeft(Next(p, Return(w))) == JoinsLeft(p)
  {
    hide StepsLeft;
    OneMoves(p.workers, w, Ready);
  }

  lemma RankDrops(p: Pool, a: Action)
    requires Inv(p) && p.order != Running && Enabled(p, a)
    ensures Rank(Next(p, a)) == Rank(p) - (if IsWorkerStep(a) then 1 else 0)
    ensures Next(p, a).order == p.order
    ensures IsWorkerStep(a) ==> JoinsLeft(Next(p, a)) == JoinsLeft(p)
  {
    hide StepsLeft, Books;
    match a
    case Look(w) =>
      LookKeepsPhases(p, w);
      LookRank(p, w);
    case Return(w) => ReturnRank(p, w);
    case _ =>
  }

  /**
   After a shutdown every run takes exactly as many worker steps as the rank fell, so never
   more than the rank it began with.
   */
  lemma {:induction false} WorkerStepsAreBounded(p: Pool, actions: seq<Action>)
    requires Inv(p) && p.order != Running && Run(p, actions)
    ensures WorkerSteps(actions) == Rank(p) - Rank(After(p, actions))
    decreases |actions|
  {
    if actions != [] {
      NextKeeps(p, actions[0]);
      RankDrops(p, actions[0]);
      WorkerStepsAreBounded(Next(p, actions[0]), actions[1..]);
    }
  }

  /** The next worker step of a shut-down pool: some worker can move exactly while not all have exited. */
  lemma ShutPoolCanMove(p: Pool)
    requires Inv(p) && p.order != Running
    ensures Rank(p) == 0 <==> (forall i :: 0 <= i < |p.workers| ==> p.workers[i] == Exited)
    ensures Rank(p) > 0 <==> exists a :: IsWorkerStep(a) && Enabled(p, a)
  {
    RankZero(p.workers);
    if !(forall i :: 0 <= i < |p.workers| ==> p.workers[i] == Exited) {
      var i :| 0 <= i < |p.workers| && p.workers[i] != Exited;
      var a := if p.workers[i] == Ready then Look(i) else Return(i);
      assert IsWorkerStep(a) && Enabled(p, a);
    } else {
      if p.workers != [] {
        assert p.workers[0] == Exited;
      }
      assert p.shared.queue == [];
    }
  }

  function JoinsLeft(p: Pool): nat {
    if p.shared.state == Joined || p.shared.joined > |p.workers| then 0 else 1 + |p.workers| - p.shared.joined
  }

  lemma JoinsLeftDrops(p: Pool)
    requires Phases(p) && p.order != Running && Enabled(p, JoinOne)
    ensures JoinsLeft(p) > 0 <==> p.shared.state != Joined
    ensures p.shared.state != Joined ==> JoinsLeft(Next(p, JoinOne)) == JoinsLeft(p) - 1
  {
  }

  /** From every shut-down state the workers and the joining thread alone reach `Joined`. */
  lemma ShutdownCompletes(p: Pool) returns (actions: seq<Action>)
    requires Inv(p) && p.order != Running
    ensures Run(p, actions) && After(p, actions).shared.state == Joined
    ensures WorkerSteps(actions) == Rank(p) && |actions| == Rank(p) + JoinsLeft(p)
    decreases Rank(p), JoinsLeft(p)
  {
    hide Rank, Books, Workers;
    ShutPoolCanMove(p);
    if Rank(p) == 0 && p.shared.state == Joined {
      return [];
    }
    var a := JoinOne;
    if Rank(p) > 0 {
      a :| IsWorkerStep(a) && Enabled(p, a);
    }
    NextKeeps(p, a);
    RankDrops(p, a);
    if a == JoinOne {
      JoinsLeftDrops(p);
    }
    var rest := ShutdownCompletes(Next(p, a));
    actions := [a] + rest;
    assert actions[1..] == rest;
  }
}
