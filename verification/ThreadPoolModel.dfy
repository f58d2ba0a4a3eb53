/**
 The thread pool (`utility_thread_pool.c`) as a protocol: every step is one critical
 section, one job callback returning, or one wakeup, and steps interleave freely.
 */
module ThreadPoolModel {

  datatype Job = Job(callback: nat, context: nat)

  datatype State = Uninitialized | Running | Draining | Stopping | Joined

  datatype Result = Ok | InvalidArgument | QueueFull | StateError | SystemError

  /** What the mutex guards. */
  datatype Shared = Shared(queue: seq<Job>, capacity: nat, state: State, created: nat, joined: nat)

  // ----- The critical sections -----

  function Submitted(s: Shared, job: Job): (Shared, Result) {
    if s.state != Running then (s, StateError)
    else if |s.queue| == s.capacity then (s, QueueFull)
    else (s.(queue := s.queue + [job]), Ok)
  }

  /** What a worker does with one look at the pool. `TakeNothing` would read a cell without a job. */
  datatype Verdict = Wait | Exit | Take(job: Job) | TakeNothing

  function Inspected(s: Shared): (Shared, Verdict) {
    if s.queue == [] && s.state == Running then (s, Wait)
    else if s.state == Stopping || (s.state == Draining && s.queue == []) then (s, Exit)
    else if s.queue == [] then (s, TakeNothing)
    else (s.(queue := s.queue[1..]), Take(s.queue[0]))
  }

  function ShutDown(s: Shared, order: State): (Shared, Result) {
    if s.state != Running then (s, StateError)
    else (s.(state := order, queue := if order == Stopping then [] else s.queue), Ok)
  }

  /** One round of the join loop, its `pthread_join` having returned, or the end of the loop. */
  function JoinedOne(s: Shared): Shared {
    if s.state != Draining && s.state != Stopping then s
    else if s.joined < s.created then s.(joined := s.joined + 1)
    else s.(state := Joined)
  }

  // ----- The pool and its workers -----

  datatype Worker = Ready | Waiting | Busy(job: Job) | Exited

  /** `order` is the shutdown that was asked for, `Running` while there was none. */
  datatype Pool = Pool(shared: Shared, workers: seq<Worker>, target: nat, order: State,
                       accepted: seq<Job>, started: seq<Job>, finished: seq<Job>, discarded: seq<Job>)

  datatype Action =
    | Spawn
    | SpawnFailed
    | Look(w: nat)
    | Return(w: nat)
    | SpuriousWakeup(w: nat)
    | Submit(job: Job, woken: set<nat>)
    | Shut(order: State)
    | JoinOne

  function Initial(target: nat, capacity: nat): Pool {
    Pool(Shared([], capacity, Running, 0, 0), [], target, Running, [], [], [], [])
  }

  function Woken(ws: seq<Worker>, woken: set<nat>): seq<Worker> {
    seq(|ws|, i requires 0 <= i < |ws| => if ws[i] == Waiting && i in woken then Ready else ws[i])
  }

  /** A broadcast wakes every waiting worker. */
  function AllWoken(ws: seq<Worker>): seq<Worker> {
    seq(|ws|, i requires 0 <= i < |ws| => if ws[i] == Waiting then Ready else ws[i])
  }

  /** A signal wakes at least one waiting worker when there is one. */
  predicate SignalWakes(ws: seq<Worker>, woken: set<nat>) {
    (exists i :: 0 <= i < |ws| && ws[i] == Waiting) ==> exists i :: 0 <= i < |ws| && ws[i] == Waiting && i in woken
  }

  /** Calls wait until `init` has returned; a join step waits for its worker. */
  predicate Enabled(p: Pool, a: Action) {
    match a
    case Spawn => p.shared.state == Running && |p.workers| < p.target
    case SpawnFailed => p.shared.state == Running && |p.workers| < p.target
    case Look(w) => w < |p.workers| && p.workers[w] == Ready
    case Return(w) => w < |p.workers| && p.workers[w].Busy?
    case SpuriousWakeup(w) => w < |p.workers| && p.workers[w] == Waiting
    case Submit(job, woken) => |p.workers| == p.target && SignalWakes(p.workers, woken)
    case Shut(order) => |p.workers| == p.target && (order == Draining || order == Stopping)
    case JoinOne =>
      (p.shared.state == Draining || p.shared.state == Stopping) && p.shared.joined < |p.workers| ==>
        p.workers[p.shared.joined] == Exited
  }

  function AfterLook(p: Pool, w: nat): Pool
    requires w < |p.workers|
  {
    var (shared, verdict) := Inspected(p.shared);
    match verdict
    case Wait => p.(workers := p.workers[w := Waiting])
    case Exit => p.(workers := p.workers[w := Exited])
    case Take(job) => p.(shared := shared, workers := p.workers[w := Busy(job)], started := p.started + [job])
    case TakeNothing => p
  }

  function AfterSubmit(p: Pool, job: Job, woken: set<nat>): Pool {
    var (shared, result) := Submitted(p.shared, job);
    if result != Ok then p
    else p.(shared := shared, workers := Woken(p.workers, woken), accepted := p.accepted + [job])
  }

  function AfterShut(p: Pool, order: State): Pool {
    var (shared, result) := ShutDown(p.shared, order);
    if result != Ok then p
    else p.(shared := shared, workers := AllWoken(p.workers), order := order,
            discarded := if order == Stopping then p.shared.queue else [])
  }

  function Next(p: Pool, a: Action): Pool
    requires Enabled(p, a)
  {
    match a
    case Spawn => p.(shared := p.shared.(created := p.shared.created + 1), workers := p.workers + [Ready])
    case SpawnFailed =>
      p.(shared := p.shared.(state := Stopping), workers := AllWoken(p.workers), order := Stopping)
    case Look(w) => AfterLook(p, w)
    case Return(w) => p.(workers := p.workers[w := Ready], finished := p.finished + [p.workers[w].job])
    case SpuriousWakeup(w) => p.(workers := p.workers[w := Ready])
    case Submit(job, woken) => AfterSubmit(p, job, woken)
    case Shut(order) => AfterShut(p, order)
    case JoinOne => p.(shared := JoinedOne(p.shared))
  }

  predicate Run(p: Pool, actions: seq<Action>)
    decreases |actions|
  {
    actions == [] || (Enabled(p, actions[0]) && Run(Next(p, actions[0]), actions[1..]))
  }

  function After(p: Pool, actions: seq<Action>): Pool
    requires Run(p, actions)
    decreases |actions|
  {
    if actions == [] then p else After(Next(p, actions[0]), actions[1..])
  }

  // ----- Counting workers -----

  function AwakeWeight(w: Worker): nat {
    if w == Waiting then 0 else 1
  }

  /** How many worker steps are left to a worker of a pool that is shut down, its queue aside. */
  function RankWeight(w: Worker): nat {
    match w
    case Exited => 0
    case Busy(_) => 2
    case _ => 1
  }

  function Awake(ws: seq<Worker>): nat {
    if ws == [] then 0 else AwakeWeight(ws[0]) + Awake(ws[1..])
  }

  function StepsLeft(ws: seq<Worker>): nat {
    if ws == [] then 0 else RankWeight(ws[0]) + StepsLeft(ws[1..])
  }

  function Rank(p: Pool): nat {
    2 * |p.shared.queue| + StepsLeft(p.workers)
  }

  function JobsInHand(ws: seq<Worker>): multiset<Job> {
    if ws == [] then multiset{} else InHand(ws[0]) + JobsInHand(ws[1..])
  }

  function InHand(w: Worker): multiset<Job> {
    if w.Busy? then multiset{w.job} else multiset{}
  }

  lemma {:induction false} InHandMoves(ws: seq<Worker>, w: nat, to: Worker)
    requires w < |ws|
    ensures JobsInHand(ws[w := to]) + InHand(ws[w]) == JobsInHand(ws) + InHand(to)
  {
    hide InHand;
    if w == 0 {
      assert ws[0 := to][1..] == ws[1..];
    } else {
      assert ws[w := to][1..] == ws[1..][w - 1 := to];
      InHandMoves(ws[1..], w - 1, to);
      calc {
        JobsInHand(ws[w := to]) + InHand(ws[w]);
        InHand(ws[0]) + (JobsInHand(ws[1..][w - 1 := to]) + InHand(ws[w]));
        InHand(ws[0]) + (JobsInHand(ws[1..]) + InHand(to));
        JobsInHand(ws) + InHand(to);
      }
    }
  }

  /** One worker's move, counted. */
  lemma {:induction false} OneMoves(ws: seq<Worker>, w: nat, to: Worker)
    requires w < |ws|
    ensures Awake(ws[w := to]) == Awake(ws) - AwakeWeight(ws[w]) + AwakeWeight(to)
    ensures StepsLeft(ws[w := to]) == StepsLeft(ws) - RankWeight(ws[w]) + RankWeight(to)
  {
    hide AwakeWeight, RankWeight;
    if w == 0 {
      assert ws[0 := to][1..] == ws[1..];
    } else {
      assert ws[w := to][1..] == ws[1..][w - 1 := to];
      OneMoves(ws[1..], w - 1, to);
    }
  }

  lemma {:induction false} OneJoins(ws: seq<Worker>)
    ensures Awake(ws + [Ready]) == Awake(ws) + 1
    ensures JobsInHand(ws + [Ready]) == JobsInHand(ws)
  {
    if ws != [] {
      assert (ws + [Ready])[1..] == ws[1..] + [Ready];
      OneJoins(ws[1..]);
    } else {
      assert ws + [Ready] == [Ready];
    }
  }

  /** Waking only turns `Waiting` into `Ready`. */
  predicate WakesOnly(ws: seq<Worker>, next: seq<Worker>) {
    |next| == |ws| && forall i :: 0 <= i < |ws| ==> next[i] == ws[i] || (ws[i] == Waiting && next[i] == Ready)
  }

  lemma WakesOnlyRest(ws: seq<Worker>, next: seq<Worker>)
    requires WakesOnly(ws, next) && ws != []
    ensures WakesOnly(ws[1..], next[1..])
  {
    forall i | 0 <= i < |ws| - 1
      ensures next[1..][i] == ws[1..][i] || (ws[1..][i] == Waiting && next[1..][i] == Ready)
    {
      assert next[1..][i] == next[i + 1] && ws[1..][i] == ws[i + 1];
    }
  }

  lemma {:induction false} WakingKeeps(ws: seq<Worker>, next: seq<Worker>)
    requires WakesOnly(ws, next)
    ensures JobsInHand(next) == JobsInHand(ws)
    ensures Awake(next) >= Awake(ws)
  {
    if ws != [] {
      WakesOnlyRest(ws, next);
      assert InHand(next[0]) == InHand(ws[0]) && AwakeWeight(next[0]) >= AwakeWeight(ws[0]);
      hide WakesOnly, InHand, AwakeWeight;
      WakingKeeps(ws[1..], next[1..]);
    }
  }

  lemma {:induction false} OneWakes(ws: seq<Worker>, next: seq<Worker>, i: nat)
    requires WakesOnly(ws, next) && i < |ws| && ws[i] == Waiting && next[i] == Ready
    ensures Awake(next) > Awake(ws)
  {
    WakesOnlyRest(ws, next);
    assert AwakeWeight(next[0]) >= AwakeWeight(ws[0]) && (i == 0 ==> AwakeWeight(next[0]) > AwakeWeight(ws[0]));
    hide WakesOnly, AwakeWeight;
    if i == 0 {
      hide JobsInHand;
      WakingKeeps(ws[1..], next[1..]);
    } else {
      assert ws[1..][i - 1] == ws[i] && next[1..][i - 1] == next[i];
      OneWakes(ws[1..], next[1..], i - 1);
    }
  }

  lemma {:induction false} NoneWaiting(ws: seq<Worker>)
    requires forall i :: 0 <= i < |ws| ==> ws[i] != Waiting
    ensures Awake(ws) == |ws|
  {
    if ws != [] {
      NoneWaiting(ws[1..]);
    }
  }

  lemma {:induction false} SomeAwake(ws: seq<Worker>)
    requires Awake(ws) > 0
    ensures exists i :: 0 <= i < |ws| && ws[i] != Waiting
  {
    if ws[0] == Waiting {
      SomeAwake(ws[1..]);
      var i :| 0 <= i < |ws| - 1 && ws[1..][i] != Waiting;
      assert ws[i + 1] != Waiting;
    }
  }

  lemma {:induction false} RankZero(ws: seq<Worker>)
    ensures StepsLeft(ws) == 0 <==> forall i :: 0 <= i < |ws| ==> ws[i] == Exited
  {
    if ws != [] {
      RankZero(ws[1..]);
      assert forall i :: 0 < i < |ws| ==> ws[i] == ws[1..][i - 1];
    }
  }

  lemma {:induction false} ExitedHoldNothing(ws: seq<Worker>)
    requires forall i :: 0 <= i < |ws| ==> ws[i] == Exited
    ensures JobsInHand(ws) == multiset{}
  {
    if ws != [] {
      ExitedHoldNothing(ws[1..]);
    }
  }
}
