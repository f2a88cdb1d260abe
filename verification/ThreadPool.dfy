/** The thread pool as interleaved steps of its workers, the threads that enqueue, and the destructor, around one mutex
    and one condition variable. */
module ThreadPool {

  type Task = int

  datatype Worker =
    | Entering            // top of the loop, before the lock
    | Checking            // holds the mutex, about to evaluate the predicate
    | Waiting             // blocked on the condition variable, mutex released
    | Woken               // notified, has to take the mutex again
    | Took(task: Task)    // popped a task, still holds the mutex
    | Running(task: Task) // runs the task without the mutex
    | Exited

  datatype Producer = Idle | Requesting(task: Task) | Holding(task: Task) | Notifying

  datatype Destructor = Alive | Stopping | Stopped | Joining(k: nat) | Gone

  datatype Holder = Free | ByWorker(i: nat) | ByProducer(j: nat) | ByDestructor

  /** `accepted`, `started` and `finished` are history. */
  datatype State = State(workers: seq<Worker>, producers: seq<Producer>, destructor: Destructor, mutex: Holder, stop: bool,
                         queue: seq<Task>, accepted: seq<Task>, started: seq<Task>, finished: multiset<Task>)

  datatype Action =
    // the environment: a call of enqueue, a wake-up without a notification, the start of destruction
    | Call(j: nat, task: Task)
    | Spurious(i: nat)
    | Destroy
    // the pool itself
    | Lock(i: nat)
    | Check(i: nat)
    | Unlock(i: nat)
    | Finish(i: nat)
    | ProducerLock(j: nat)
    | Push(j: nat)
    | NotifyOne(j: nat, target: nat)
    | SetStop
    | NotifyAll
    | Join

  predicate External(a: Action) {
    a.Call? || a.Spurious? || a.Destroy?
  }

  datatype Outcome = Next(s: State) | Blocked

  function Wake(w: Worker): Worker {
    if w == Waiting then Woken else w
  }

  function WakeAll(ws: seq<Worker>): (r: seq<Worker>)
    ensures |r| == |ws| && forall i | 0 <= i < |ws| :: r[i] == Wake(ws[i])
  {
    seq(|ws|, i requires 0 <= i < |ws| => Wake(ws[i]))
  }

  function Start(workers: nat, producers: nat): State {
    State(seq(workers, _ => Entering), seq(producers, _ => Idle), Alive, Free, false, [], [], [], multiset{})
  }

  /** The body of the worker's critical section, after the predicate was evaluated. */
  function CheckStep(s: State, i: nat): State
    requires i < |s.workers|
  {
    if !s.stop && s.queue == [] then s.(workers := s.workers[i := Waiting], mutex := Free)
    else if s.queue == [] then s.(workers := s.workers[i := Exited], mutex := Free)
    else s.(workers := s.workers[i := Took(s.queue[0])], queue := s.queue[1..], started := s.started + [s.queue[0]])
  }

  function WorkerStep(s: State, a: Action): Outcome {
    match a
    case Spurious(i) =>
      if i < |s.workers| && s.workers[i] == Waiting then Next(s.(workers := s.workers[i := Woken])) else Blocked
    case Lock(i) =>
      if i < |s.workers| && (s.workers[i] == Entering || s.workers[i] == Woken) && s.mutex == Free
      then Next(s.(workers := s.workers[i := Checking], mutex := ByWorker(i))) else Blocked
    case Check(i) =>
      if i < |s.workers| && s.workers[i] == Checking then Next(CheckStep(s, i)) else Blocked
    case Unlock(i) =>
      if i < |s.workers| && s.workers[i].Took?
      then Next(s.(workers := s.workers[i := Running(s.workers[i].task)], mutex := Free)) else Blocked
    case Finish(i) =>
      if i < |s.workers| && s.workers[i].Running?
      then Next(s.(workers := s.workers[i := Entering], finished := s.finished + multiset{s.workers[i].task})) else Blocked
    case _ => Blocked
  }

  function ProducerStep(s: State, a: Action): Outcome {
    match a
    case Call(j, task) =>
      if j < |s.producers| && s.producers[j] == Idle then Next(s.(producers := s.producers[j := Requesting(task)])) else Blocked
    case ProducerLock(j) =>
      if j < |s.producers| && s.producers[j].Requesting? && s.mutex == Free
      then Next(s.(producers := s.producers[j := Holding(s.producers[j].task)], mutex := ByProducer(j))) else Blocked
    case Push(j) =>
      if j < |s.producers| && s.producers[j].Holding? then
        var task := s.producers[j].task;
        if s.stop then Next(s.(producers := s.producers[j := Idle], mutex := Free))  // throws
        else Next(s.(producers := s.producers[j := Notifying], mutex := Free, queue := s.queue + [task],
                     accepted := s.accepted + [task]))
      else Blocked
    case NotifyOne(j, target) =>
      if j < |s.producers| && s.producers[j] == Notifying then
        if Waiting !in s.workers then Next(s.(producers := s.producers[j := Idle]))
        else if target < |s.workers| && s.workers[target] == Waiting
        then Next(s.(producers := s.producers[j := Idle], workers := s.workers[target := Woken])) else Blocked
      else Blocked
    case _ => Blocked
  }

  function DestructorStep(s: State, a: Action): Outcome {
    match a
    case Destroy =>
      if s.destructor == Alive && s.mutex == Free then Next(s.(destructor := Stopping, mutex := ByDestructor)) else Blocked
    case SetStop =>
      if s.destructor == Stopping then Next(s.(destructor := Stopped, mutex := Free, stop := true)) else Blocked
    case NotifyAll =>
      if s.destructor == Stopped then Next(s.(destructor := Joining(0), workers := WakeAll(s.workers))) else Blocked
    case Join =>
      (match s.destructor
       case Joining(k) =>
         if k >= |s.workers| then Next(s.(destructor := Gone))
         else if s.workers[k] == Exited then Next(s.(destructor := Joining(k + 1))) else Blocked
       case _ => Blocked)
    case _ => Blocked
  }

  function Step(s: State, a: Action): Outcome {
    if a.Spurious? || a.Lock? || a.Check? || a.Unlock? || a.Finish? then WorkerStep(s, a)
    else if a.Call? || a.ProducerLock? || a.Push? || a.NotifyOne? then ProducerStep(s, a)
    else DestructorStep(s, a)
  }

  // ---------- the invariant ----------

  ghost predicate MutexOk(s: State) {
    && (forall i | 0 <= i < |s.workers| :: s.workers[i] == Checking || s.workers[i].Took? <==> s.mutex == ByWorker(i))
    && (forall j | 0 <= j < |s.producers| :: s.producers[j].Holding? <==> s.mutex == ByProducer(j))
    && (s.destructor == Stopping <==> s.mutex == ByDestructor)
    && (s.mutex.ByWorker? ==> s.mutex.i < |s.workers|) && (s.mutex.ByProducer? ==> s.mutex.j < |s.producers|)
  }

  /** The tasks in the hands of workers. */
  function Held(ws: seq<Worker>): multiset<Task> {
    if ws == [] then multiset{}
    else Held(ws[1..]) + Own(ws[0])
  }

  function Own(w: Worker): multiset<Task> {
    if w.Took? || w.Running? then multiset{w.task} else multiset{}
  }

  ghost predicate HistoryOk(s: State) {
    && s.accepted == s.started + s.queue
    && multiset(s.started) == s.finished + Held(s.workers)
  }

  /** Wake-ups are not lost: a queue with entries that nobody is about to look at has a notification on its way. */
  ghost predicate WakeOk(s: State) {
    || s.queue == []
    || (exists i :: 0 <= i < |s.workers| && s.workers[i] != Waiting)
    || (exists j :: 0 <= j < |s.producers| && s.producers[j] == Notifying)
  }

  ghost predicate StopOk(s: State) {
    && (s.stop <==> s.destructor == Stopped || s.destructor.Joining? || s.destructor == Gone)
    && (forall i | 0 <= i < |s.workers| && s.workers[i] == Exited :: s.stop && s.queue == [])
    && (s.destructor.Joining? || s.destructor == Gone ==> forall i | 0 <= i < |s.workers| :: s.workers[i] != Waiting)
    && (s.destructor.Joining? ==> forall i | 0 <= i < s.destructor.k && i < |s.workers| :: s.workers[i] == Exited)
    && (s.destructor == Gone ==> forall i | 0 <= i < |s.workers| :: s.workers[i] == Exited)
  }

  ghost predicate Inv(s: State) {
    |s.workers| >= 1 && MutexOk(s) && HistoryOk(s) && WakeOk(s) && StopOk(s)
  }

  lemma {:induction false} HeldNone(ws: seq<Worker>)
    requires forall w <- ws :: !w.Took? && !w.Running?
    ensures Held(ws) == multiset{}
  {
    if ws != [] {
      HeldNone(ws[1..]);
    }
  }

  lemma Shift(a: multiset<Task>, b: multiset<Task>, c: multiset<Task>, d: multiset<Task>, e: multiset<Task>)
    requires a + b == c + d
    ensures a + e + b == c + e + d
  {
    assert a + e + b == (a + b) + e;
    assert c + e + d == (c + d) + e;
  }

  lemma {:induction false} HeldSet(ws: seq<Worker>, i: nat, w: Worker)
    requires i < |ws|
    ensures Held(ws[i := w]) + Own(ws[i]) == Held(ws) + Own(w)
  {
    hide Own;
    var r := ws[i := w];
    assert Held(r) == Held(r[1..]) + Own(r[0]);
    if i == 0 {
      assert r[1..] == ws[1..];
    } else {
      HeldSet(ws[1..], i - 1, w);
      assert r[1..] == ws[1..][i - 1 := w];
      Shift(Held(r[1..]), Own(ws[i]), Held(ws[1..]), Own(w), Own(ws[0]));
    }
  }

  lemma {:induction false} HeldWake(ws: seq<Worker>)
    ensures Held(WakeAll(ws)) == Held(ws)
  {
    if ws != [] {
      HeldWake(ws[1..]);
      assert WakeAll(ws)[1..] == WakeAll(ws[1..]);
    }
  }

  lemma StartOk(workers: nat, producers: nat)
    requires workers >= 1
    ensures Inv(Start(workers, producers))
  {
    HeldNone(Start(workers, producers).workers);
  }

  function Actor(a: Action): nat
    requires a.Spurious? || a.Lock? || a.Check? || a.Unlock? || a.Finish?
  {
    match a case Spurious(i) => i case Lock(i) => i case Check(i) => i case Unlock(i) => i case Finish(i) => i
  }

  lemma WorkerMutex(s: State, a: Action)
    requires MutexOk(s) && WorkerStep(s, a).Next?
    ensures MutexOk(WorkerStep(s, a).s)
  {
  }

  lemma HeldSame(ws: seq<Worker>, i: nat, w: Worker)
    requires i < |ws| && Own(w) == Own(ws[i])
    ensures Held(ws[i := w]) == Held(ws)
  {
    HeldSet(ws, i, w);
    Cancel(Held(ws[i := w]), Held(ws), Own(w));
  }

  lemma HeldMore(ws: seq<Worker>, i: nat, t: Task)
    requires i < |ws| && Own(ws[i]) == multiset{}
    ensures Held(ws[i := Took(t)]) == Held(ws) + multiset{t}
  {
    HeldSet(ws, i, Took(t));
    Cancel(Held(ws[i := Took(t)]), Held(ws) + multiset{t}, multiset{});
  }

  lemma PopHistory(s: State, r: State, t: Task)
    requires HistoryOk(s) && s.queue == [t] + r.queue && r.started == s.started + [t]
    requires r.accepted == s.accepted && r.finished == s.finished && Held(r.workers) == Held(s.workers) + multiset{t}
    ensures HistoryOk(r)
  {
    hide Held;
    assert multiset(r.started) == multiset(s.started) + multiset{t};
    assert s.finished + (Held(s.workers) + multiset{t}) == (s.finished + Held(s.workers)) + multiset{t};
  }

  lemma CheckHistory(s: State, i: nat)
    requires HistoryOk(s) && i < |s.workers| && s.workers[i] == Checking
    ensures HistoryOk(CheckStep(s, i))
  {
    hide HistoryOk, Held;
    var r := CheckStep(s, i);
    if s.queue != [] {
      HeldMore(s.workers, i, s.queue[0]);
      PopHistory(s, r, s.queue[0]);
    } else {
      HeldSame(s.workers, i, r.workers[i]);
      SameHistory(s, r);
    }
  }

  lemma FinishHistory(s: State, i: nat)
    requires HistoryOk(s) && WorkerStep(s, Finish(i)).Next?
    ensures HistoryOk(WorkerStep(s, Finish(i)).s)
  {
    var r := WorkerStep(s, Finish(i)).s;
    var t := s.workers[i].task;
    HeldSet(s.workers, i, Entering);
    hide Held;
    assert Held(s.workers) == Held(r.workers) + multiset{t};
    assert s.finished + Held(s.workers) == r.finished + Held(r.workers);
  }

  lemma QuietHistory(s: State, a: Action)
    requires HistoryOk(s) && WorkerStep(s, a).Next? && (a.Spurious? || a.Lock? || a.Unlock?)
    ensures HistoryOk(WorkerStep(s, a).s)
  {
    hide HistoryOk, Held, CheckStep;
    var r := WorkerStep(s, a).s;
    var i := Actor(a);
    QuietMoves(s, a);
    hide WorkerStep;
    HeldSame(s.workers, i, r.workers[i]);
    SameHistory(s, r);
  }

  lemma QuietMoves(s: State, a: Action)
    requires WorkerStep(s, a).Next? && (a.Spurious? || a.Lock? || a.Unlock?)
    ensures var r := WorkerStep(s, a).s;
      && Actor(a) < |s.workers| == |r.workers| && Own(r.workers[Actor(a)]) == Own(s.workers[Actor(a)])
      && r == s.(workers := s.workers[Actor(a) := r.workers[Actor(a)]], mutex := r.mutex)
  {
    hide CheckStep;
  }

  lemma WorkerHistory(s: State, a: Action)
    requires HistoryOk(s) && WorkerStep(s, a).Next?
    ensures HistoryOk(WorkerStep(s, a).s)
  {
    hide HistoryOk, CheckStep;
    if a.Check? {
      CheckHistory(s, a.i);
    } else if a.Finish? {
      FinishHistory(s, a.i);
    } else {
      QuietHistory(s, a);
    }
  }

  lemma SameHistory(s: State, r: State)
    requires HistoryOk(s) && r.accepted == s.accepted && r.started == s.started && r.queue == s.queue
    requires r.finished == s.finished && Held(r.workers) == Held(s.workers)
    ensures HistoryOk(r)
  {
  }

  lemma Cancel(a: multiset<Task>, b: multiset<Task>, c: multiset<Task>)
    requires a + c == b + c
    ensures a == b
  {
    assert a == a + c - c;
  }

  lemma WorkerWake(s: State, a: Action)
    requires WakeOk(s) && StopOk(s) && WorkerStep(s, a).Next?
    ensures WakeOk(WorkerStep(s, a).s) && StopOk(WorkerStep(s, a).s)
  {
    var r := WorkerStep(s, a).s;
    var i := Actor(a);
    assert r.workers[i] != Waiting || r.queue == [];
  }

  lemma ProducerMutex(s: State, a: Action)
    requires MutexOk(s) && ProducerStep(s, a).Next?
    ensures MutexOk(ProducerStep(s, a).s)
  {
  }

  lemma ProducerHistory(s: State, a: Action)
    requires HistoryOk(s) && ProducerStep(s, a).Next?
    ensures HistoryOk(ProducerStep(s, a).s)
  {
    if a.NotifyOne? && Waiting in s.workers {
      HeldSame(s.workers, a.target, Woken);
    }
  }

  lemma ProducerWake(s: State, a: Action)
    requires |s.workers| >= 1 && WakeOk(s) && StopOk(s) && ProducerStep(s, a).Next?
    ensures WakeOk(ProducerStep(s, a).s) && StopOk(ProducerStep(s, a).s)
  {
    var r := ProducerStep(s, a).s;
    if a.Push? {
      assert r.producers[a.j] == Notifying || r.queue == s.queue;
    } else if a.NotifyOne? {
      if Waiting in s.workers {
        assert r.workers[a.target] == Woken;
      } else {
        assert r.workers[0] in s.workers;
      }
    }
    if j :| 0 <= j < |s.producers| && s.producers[j] == Notifying {
      assert a.NotifyOne? || r.producers[j] == Notifying;
    }
  }

  lemma DestructorMutex(s: State, a: Action)
    requires MutexOk(s) && DestructorStep(s, a).Next?
    ensures MutexOk(DestructorStep(s, a).s)
  {
  }

  lemma DestructorHistory(s: State, a: Action)
    requires HistoryOk(s) && DestructorStep(s, a).Next?
    ensures HistoryOk(DestructorStep(s, a).s)
  {
    hide HistoryOk, Held;
    HeldWake(s.workers);
    SameHistory(s, DestructorStep(s, a).s);
  }

  lemma DestructorWake(s: State, a: Action)
    requires |s.workers| >= 1 && WakeOk(s) && DestructorStep(s, a).Next?
    ensures WakeOk(DestructorStep(s, a).s)
  {
    var r := DestructorStep(s, a).s;
    assert r.producers == s.producers && r.queue == s.queue;
    if a == NotifyAll {
      assert r.workers[0] != Waiting;
    } else {
      assert r.workers == s.workers;
    }
  }

  lemma DestructorStop(s: State, a: Action)
    requires StopOk(s) && DestructorStep(s, a).Next?
    ensures StopOk(DestructorStep(s, a).s)
  {
  }

  lemma StepKeeps(s: State, a: Action)
    requires Inv(s) && Step(s, a).Next?
    ensures Inv(Step(s, a).s)
  {
    hide MutexOk, HistoryOk, WakeOk, StopOk;
    if a.Spurious? || a.Lock? || a.Check? || a.Unlock? || a.Finish? {
      WorkerMutex(s, a);
      WorkerHistory(s, a);
      WorkerWake(s, a);
    } else if a.Call? || a.ProducerLock? || a.Push? || a.NotifyOne? {
      ProducerMutex(s, a);
      ProducerHistory(s, a);
      ProducerWake(s, a);
    } else {
      DestructorMutex(s, a);
      DestructorHistory(s, a);
      DestructorWake(s, a);
      DestructorStop(s, a);
    }
  }

  // ---------- runs ----------

  /** The state after a series of steps, those that are not possible being skipped. */
  function Run(s: State, acts: seq<Action>): State
    decreases |acts|
  {
    if acts == [] then s
    else match Step(s, acts[0])
      case Next(r) => Run(r, acts[1..])
      case Blocked => Run(s, acts[1..])
  }

  lemma {:induction false} RunKeeps(s: State, acts: seq<Action>)
    requires Inv(s)
    ensures Inv(Run(s, acts)) && |Run(s, acts).workers| == |s.workers|
    decreases |acts|
  {
    hide Inv;
    if acts != [] {
      match Step(s, acts[0]) {
        case Next(r) => StepKeeps(s, acts[0]); RunKeeps(r, acts[1..]);
        case Blocked => RunKeeps(s, acts[1..]);
      }
    }
  }

  ghost predicate Reachable(s: State) {
    exists n: nat, p: nat, acts: seq<Action> :: n >= 1 && s == Run(Start(n, p), acts)
  }

  lemma ReachableInv(s: State)
    requires Reachable(s)
    ensures Inv(s)
  {
    var n: nat, p: nat, acts: seq<Action> :| n >= 1 && s == Run(Start(n, p), acts);
    StartOk(n, p);
    RunKeeps(Start(n, p), acts);
  }

  /** Tasks start in the order in which they were accepted, each exactly once, and every started task is finished or
      in the hands of exactly one worker. */
  lemma StartedInOrder(s: State)
    requires Reachable(s)
    ensures s.accepted == s.started + s.queue && multiset(s.started) == s.finished + Held(s.workers)
  {
    ReachableInv(s);
  }

  /** While tasks are queued and all workers wait, a notification is still to come. */
  lemma NoLostWakeup(s: State)
    requires Reachable(s) && s.queue != [] && forall w <- s.workers :: w == Waiting
    ensures Notifying in s.producers
  {
    ReachableInv(s);
    assert forall i | 0 <= i < |s.workers| :: s.workers[i] in s.workers;
  }

  /** When the destructor has joined every worker, nothing is queued and every accepted task has been finished once. */
  lemma JoinedMeansDone(s: State)
    requires Reachable(s) && s.destructor == Gone
    ensures s.queue == [] && s.finished == multiset(s.accepted)
  {
    ReachableInv(s);
    assert s.workers[0] == Exited;
    HeldNone(s.workers);
    assert s.accepted == s.started;
  }

  // ---------- progress ----------

  ghost predicate Stuck(s: State) {
    forall a: Action :: !External(a) ==> Step(s, a) == Blocked
  }

  /** The pool never hangs: when none of its own steps is possible it is idle, with an empty queue and every worker
      waiting, or it is destroyed, with every worker gone. */
  lemma StuckMeansIdle(s: State)
    requires Reachable(s) && Stuck(s)
    ensures s.mutex == Free && s.queue == [] && s.finished == multiset(s.accepted)
    ensures forall p <- s.producers :: p == Idle
    ensures || (s.destructor == Alive && forall w <- s.workers :: w == Waiting)
            || (s.destructor == Gone && forall w <- s.workers :: w == Exited)
  {
    ReachableInv(s);
    if s.mutex != Free {
      var a := HolderSteps(s);
    }
    StuckThreads(s);
    hide MutexOk, Stuck, Held, Step;
    HeldNone(s.workers);
    assert forall i | 0 <= i < |s.workers| :: s.workers[i] in s.workers;
    assert forall j | 0 <= j < |s.producers| :: s.producers[j] in s.producers;
  }

  /** Whoever holds the mutex can go on. */
  lemma HolderSteps(s: State) returns (a: Action)
    requires Inv(s) && s.mutex != Free
    ensures !External(a) && Step(s, a).Next?
  {
    a := match s.mutex
      case ByProducer(j) => Push(j)
      case ByWorker(i) => if s.workers[i] == Checking then Check(i) else Unlock(i)
      case _ => SetStop;
  }

  lemma StuckThreads(s: State)
    requires Inv(s) && Stuck(s) && s.mutex == Free
    ensures forall p <- s.producers :: p == Idle
    ensures || (s.destructor == Alive && forall w <- s.workers :: w == Waiting)
            || (s.destructor == Gone && forall w <- s.workers :: w == Exited)
  {
    forall j | 0 <= j < |s.producers| ensures s.producers[j] == Idle {
      assert Step(s, ProducerLock(j)) == Blocked && Step(s, Push(j)) == Blocked;
      if Waiting in s.workers {
        var i :| 0 <= i < |s.workers| && s.workers[i] == Waiting;
        assert Step(s, NotifyOne(j, i)) == Blocked;
      } else {
        assert Step(s, NotifyOne(j, 0)) == Blocked;
      }
    }
    forall i | 0 <= i < |s.workers| ensures s.workers[i] == Waiting || s.workers[i] == Exited {
      assert Step(s, Lock(i)) == Blocked && Step(s, Check(i)) == Blocked;
      assert Step(s, Unlock(i)) == Blocked && Step(s, Finish(i)) == Blocked;
    }
    assert Step(s, NotifyAll) == Blocked && Step(s, Join) == Blocked && Step(s, SetStop) == Blocked;
  }

  /** What is still to be done, in steps, if the environment leaves the pool alone. */
  function Measure(s: State): nat {
    Work(s.workers) + Errands(s.producers) + 4 * |s.queue| + Teardown(s.destructor, |s.workers|)
  }

  function Rank(w: Worker): nat {
    match w
    case Waiting | Exited => 0
    case Checking => 1
    case Entering | Woken => 2
    case Running(_) => 3
    case Took(_) => 4
  }

  function Work(ws: seq<Worker>): nat {
    if ws == [] then 0 else Rank(ws[0]) + Work(ws[1..])
  }

  function Errand(p: Producer): nat {
    match p case Idle => 0 case Notifying => 3 case Holding(_) => 8 case Requesting(_) => 9
  }

  function Errands(ps: seq<Producer>): nat {
    if ps == [] then 0 else Errand(ps[0]) + Errands(ps[1..])
  }

  function Teardown(d: Destructor, n: nat): nat {
    match d
    case Alive => 0
    case Stopping => 3 * n + 3
    case Stopped => 3 * n + 2
    case Joining(k) => if k < n then n - k + 1 else 1
    case Gone => 0
  }

  lemma {:induction false} WorkSet(ws: seq<Worker>, i: nat, w: Worker)
    requires i < |ws|
    ensures Work(ws[i := w]) + Rank(ws[i]) == Work(ws) + Rank(w)
  {
    if i == 0 {
      assert ws[i := w][1..] == ws[1..];
    } else {
      WorkSet(ws[1..], i - 1, w);
      assert ws[i := w][1..] == ws[1..][i - 1 := w];
    }
  }

  lemma {:induction false} ErrandsSet(ps: seq<Producer>, j: nat, p: Producer)
    requires j < |ps|
    ensures Errands(ps[j := p]) + Errand(ps[j]) == Errands(ps) + Errand(p)
  {
    if j == 0 {
      assert ps[j := p][1..] == ps[1..];
    } else {
      ErrandsSet(ps[1..], j - 1, p);
      assert ps[j := p][1..] == ps[1..][j - 1 := p];
    }
  }

  lemma {:induction false} WorkWake(ws: seq<Worker>)
    ensures Work(WakeAll(ws)) <= Work(ws) + 2 * |ws|
  {
    if ws != [] {
      WorkWake(ws[1..]);
      assert WakeAll(ws)[1..] == WakeAll(ws[1..]);
    }
  }

  lemma StepProgresses(s: State, a: Action)
    requires !External(a) && Step(s, a).Next?
    ensures Measure(Step(s, a).s) < Measure(s)
  {
    hide Work, Errands;
    var r := Step(s, a).s;
    if a.Lock? || a.Check? || a.Unlock? || a.Finish? {
      WorkSet(s.workers, Actor(a), r.workers[Actor(a)]);
      assert r.workers == s.workers[Actor(a) := r.workers[Actor(a)]];
    } else if a.ProducerLock? || a.Push? || a.NotifyOne? {
      ErrandsSet(s.producers, a.j, r.producers[a.j]);
      if a.NotifyOne? && Waiting in s.workers {
        WorkSet(s.workers, a.target, Woken);
      }
    } else {
      WorkWake(s.workers);
    }
  }

  /** A series of the pool's own steps, each of them possible. */
  predicate Alone(s: State, acts: seq<Action>)
    decreases |acts|
  {
    acts == [] || (!External(acts[0]) && Step(s, acts[0]).Next? && Alone(Step(s, acts[0]).s, acts[1..]))
  }

  /** Left alone, the pool comes to rest, whatever the schedule. */
  lemma {:induction false} RunsEnd(s: State, acts: seq<Action>)
    requires Alone(s, acts)
    ensures |acts| + Measure(Run(s, acts)) <= Measure(s)
    decreases |acts|
  {
    hide Step, Measure, External;
    if acts != [] {
      StepProgresses(s, acts[0]);
      RunsEnd(Step(s, acts[0]).s, acts[1..]);
    }
  }

  // ---------- what becomes of every task ----------

  /** The critical section of enqueue: the task goes to the end of the queue, or is refused once the pool is stopped. */
  lemma PushAppends(s: State, j: nat)
    requires j < |s.producers| && s.producers[j].Holding?
    ensures var task := s.producers[j].task;
      && Step(s, Push(j)).Next?
      && var r := Step(s, Push(j)).s;
      && r.workers == s.workers && r.mutex == Free
      && (if s.stop then r.queue == s.queue && r.accepted == s.accepted && r.producers == s.producers[j := Idle]
          else r.queue == s.queue + [task] && r.accepted == s.accepted + [task] && r.producers == s.producers[j := Notifying])
  {
  }

  /** The task a step hands in, if it begins a call of enqueue. */
  function Asks(a: Action): multiset<Task> {
    if a.Call? then multiset{a.task} else multiset{}
  }

  /** The task a step refuses, if it looks at the flag in vain. */
  function Refuses(s: State, a: Action): multiset<Task> {
    if a.Push? && a.j < |s.producers| && s.producers[a.j].Holding? && s.stop then multiset{s.producers[a.j].task}
    else multiset{}
  }

  /** The tasks handed in by the steps of a run that were possible. */
  function Asked(s: State, acts: seq<Action>): multiset<Task>
    decreases |acts|
  {
    if acts == [] then multiset{}
    else match Step(s, acts[0])
      case Next(r) => Asks(acts[0]) + Asked(r, acts[1..])
      case Blocked => Asked(s, acts[1..])
  }

  function Refused(s: State, acts: seq<Action>): multiset<Task>
    decreases |acts|
  {
    if acts == [] then multiset{}
    else match Step(s, acts[0])
      case Next(r) => Refuses(s, acts[0]) + Refused(r, acts[1..])
      case Blocked => Refused(s, acts[1..])
  }

  function Carries(p: Producer): multiset<Task> {
    if p.Requesting? || p.Holding? then multiset{p.task} else multiset{}
  }

  /** The tasks of calls that have not come to their push. */
  function Pending(ps: seq<Producer>): multiset<Task> {
    if ps == [] then multiset{} else Carries(ps[0]) + Pending(ps[1..])
  }

  lemma {:induction false} PendingSet(ps: seq<Producer>, j: nat, p: Producer)
    requires j < |ps|
    ensures Pending(ps[j := p]) + Carries(ps[j]) == Pending(ps) + Carries(p)
  {
    hide Carries;
    if j == 0 {
      assert ps[j := p][1..] == ps[1..];
    } else {
      PendingSet(ps[1..], j - 1, p);
      assert ps[j := p][1..] == ps[1..][j - 1 := p];
      Plus(Carries(ps[0]), Pending(ps[1..][j - 1 := p]), Carries(ps[j]), Pending(ps[1..]), Carries(p));
    }
  }

  lemma Plus(a: multiset<Task>, x: multiset<Task>, b: multiset<Task>, y: multiset<Task>, c: multiset<Task>)
    requires x + b == y + c
    ensures a + x + b == a + y + c
  {
    assert a + x + b == a + (x + b) && a + y + c == a + (y + c);
  }

  lemma PendingIs(ps: seq<Producer>, j: nat, p: Producer)
    requires j < |ps|
    ensures Carries(ps[j]) == multiset{} ==> Pending(ps[j := p]) == Pending(ps) + Carries(p)
    ensures Carries(p) == multiset{} ==> Pending(ps[j := p]) + Carries(ps[j]) == Pending(ps)
    ensures Carries(p) == Carries(ps[j]) ==> Pending(ps[j := p]) == Pending(ps)
  {
    PendingSet(ps, j, p);
    hide Pending, Carries;
    if Carries(p) == Carries(ps[j]) {
      Cancel(Pending(ps[j := p]), Pending(ps), Carries(p));
    }
  }

  /** Every step keeps the books: accepted, refused and pending together are what was handed in. */
  lemma StepBalances(s: State, a: Action)
    requires Step(s, a).Next?
    ensures var r := Step(s, a).s;
      multiset(r.accepted) + Refuses(s, a) + Pending(r.producers) == multiset(s.accepted) + Asks(a) + Pending(s.producers)
  {
    if a.Push? {
      PushBalances(s, a.j);
    } else {
      OtherBalances(s, a);
      hide Step, Pending;
      assert Refuses(s, a) == multiset{};
    }
  }

  /** No other step accepts or refuses. */
  lemma OtherBalances(s: State, a: Action)
    requires Step(s, a).Next? && !a.Push?
    ensures var r := Step(s, a).s;
      r.accepted == s.accepted && Pending(r.producers) == Pending(s.producers) + Asks(a)
  {
    hide Pending;
    var r := Step(s, a).s;
    if a.Call? || a.ProducerLock? || a.NotifyOne? {
      ProducerMoves(s, a);
      PendingIs(s.producers, a.j, r.producers[a.j]);
    } else {
      assert r.accepted == s.accepted && r.producers == s.producers;
      hide Step;
      assert Pending(s.producers) + multiset{} == Pending(s.producers);
    }
  }

  lemma ProducerMoves(s: State, a: Action)
    requires Step(s, a).Next? && (a.Call? || a.ProducerLock? || a.NotifyOne?)
    ensures var r := Step(s, a).s;
      && r.accepted == s.accepted && a.j < |s.producers| == |r.producers|
      && r.producers == s.producers[a.j := r.producers[a.j]]
      && if a.Call? then Carries(s.producers[a.j]) == multiset{} && Carries(r.producers[a.j]) == Asks(a)
         else Carries(s.producers[a.j]) == Carries(r.producers[a.j]) && Asks(a) == multiset{}
  {
  }

  lemma PushBalances(s: State, j: nat)
    requires Step(s, Push(j)).Next?
    ensures var r := Step(s, Push(j)).s;
      multiset(r.accepted) + Refuses(s, Push(j)) + Pending(r.producers) == multiset(s.accepted) + Asks(Push(j)) + Pending(s.producers)
  {
    var task := s.producers[j].task;
    PushAppends(s, j);
    var r := Step(s, Push(j)).s;
    PendingIs(s.producers, j, r.producers[j]);
    assert Carries(r.producers[j]) == multiset{} && Carries(s.producers[j]) == multiset{task};
    assert Refuses(s, Push(j)) == (if s.stop then multiset{task} else multiset{}) && Asks(Push(j)) == multiset{};
    assert r.producers == s.producers[j := r.producers[j]];
    hide Step, Pending, Refuses, Asks, Carries;
    Moved(multiset(s.accepted), multiset{task}, Pending(r.producers), Pending(s.producers));
    if !s.stop {
      assert multiset(r.accepted) == multiset(s.accepted) + multiset{task};
    }
  }

  lemma Moved(a: multiset<Task>, t: multiset<Task>, p: multiset<Task>, q: multiset<Task>)
    requires p + t == q
    ensures a + t + p == a + multiset{} + q && a + t + multiset{} + p == a + multiset{} + q
  {
    assert a + t + p == a + (p + t) && a + t + multiset{} + p == a + (p + t) && a + multiset{} + q == a + q;
  }

  lemma Books(a: multiset<Task>, b: multiset<Task>, c: multiset<Task>, rf: multiset<Task>, rg: multiset<Task>,
              ak: multiset<Task>, al: multiset<Task>, p: multiset<Task>, q: multiset<Task>, r: multiset<Task>)
    requires b + rf + q == a + ak + p && c + rg + r == b + al + q
    ensures c + (rf + rg) + r == a + (ak + al) + p
  {
    assert c + (rf + rg) + r == (c + rg + r) + rf;
    assert (b + al + q) + rf == (b + rf + q) + al;
    assert (a + ak + p) + al == a + (ak + al) + p;
  }

  /** Over any run, from the calls alone: every task that was handed in has been accepted, has been refused, or belongs to a
      call that has not come to its push; none is lost and none comes twice. */
  lemma {:induction false} EveryTaskCounts(s: State, acts: seq<Action>)
    ensures multiset(Run(s, acts).accepted) + Refused(s, acts) + Pending(Run(s, acts).producers)
            == multiset(s.accepted) + Asked(s, acts) + Pending(s.producers)
    decreases |acts|
  {
    hide Step, Asks, Refuses, Pending;
    if acts != [] {
      match Step(s, acts[0]) {
        case Next(r) =>
          var t := Run(r, acts[1..]);
          StepBalances(s, acts[0]);
          EveryTaskCounts(r, acts[1..]);
          Books(multiset(s.accepted), multiset(r.accepted), multiset(t.accepted), Refuses(s, acts[0]), Refused(r, acts[1..]),
                Asks(acts[0]), Asked(r, acts[1..]), Pending(s.producers), Pending(r.producers), Pending(t.producers));
        case Blocked => EveryTaskCounts(s, acts[1..]);
      }
    }
  }

  lemma StopStays(s: State, a: Action)
    requires Step(s, a).Next? && s.stop
    ensures Step(s, a).s.stop
  {
  }

  lemma {:induction false} StoppedStays(s: State, acts: seq<Action>)
    requires s.stop
    ensures Run(s, acts).stop
    decreases |acts|
  {
    hide Step;
    if acts != [] {
      match Step(s, acts[0]) {
        case Next(r) => StopStays(s, acts[0]); StoppedStays(r, acts[1..]);
        case Blocked => StoppedStays(s, acts[1..]);
      }
    }
  }

  /** Nothing is refused while the pool is not stopped. */
  lemma {:induction false} NoneRefused(s: State, acts: seq<Action>)
    requires !Run(s, acts).stop
    ensures Refused(s, acts) == multiset{}
    decreases |acts|
  {
    hide Step;
    if acts != [] {
      if s.stop {
        StoppedStays(s, acts);
      }
      match Step(s, acts[0]) {
        case Next(r) => NoneRefused(r, acts[1..]);
        case Blocked => NoneRefused(s, acts[1..]);
      }
    }
  }

  lemma {:induction false} RunConcat(s: State, a: seq<Action>, b: seq<Action>)
    ensures Run(s, a + b) == Run(Run(s, a), b)
    decreases |a|
  {
    hide Step;
    if a == [] {
      assert a + b == b;
    } else {
      assert (a + b)[1..] == a[1..] + b;
      match Step(s, a[0]) {
        case Next(r) => RunConcat(r, a[1..], b);
        case Blocked => RunConcat(s, a[1..], b);
      }
    }
  }

  lemma AcceptedGrows(s: State, a: Action)
    requires Step(s, a).Next?
    ensures s.accepted <= Step(s, a).s.accepted
  {
  }

  lemma {:induction false} AcceptedStays(s: State, acts: seq<Action>)
    ensures s.accepted <= Run(s, acts).accepted
    decreases |acts|
  {
    hide Step;
    if acts != [] {
      match Step(s, acts[0]) {
        case Next(r) => AcceptedGrows(s, acts[0]); AcceptedStays(r, acts[1..]);
        case Blocked => AcceptedStays(s, acts[1..]);
      }
    }
  }

  /** When the destructor has joined every worker, every task ever handed in has been finished once, was refused, or belongs
      to a call that has not come to its push. */
  lemma DoneOrRefused(workers: nat, producers: nat, acts: seq<Action>)
    requires workers >= 1 && Run(Start(workers, producers), acts).destructor == Gone
    ensures var s := Start(workers, producers);
      Run(s, acts).finished + Refused(s, acts) + Pending(Run(s, acts).producers) == Asked(s, acts)
  {
    var s := Start(workers, producers);
    assert Reachable(Run(s, acts));
    JoinedMeansDone(Run(s, acts));
    EveryTaskCounts(s, acts);
    NonePending(producers);
    hide Run, Refused, Asked, Pending;
  }

  lemma {:induction false} NonePending(n: nat)
    ensures Pending(seq(n, _ => Idle)) == multiset{}
  {
    if n > 0 {
      NonePending(n - 1);
      assert seq(n, _ => Idle)[1..] == seq(n - 1, _ => Idle);
    }
  }

  /** Every task handed in by calls that were over while the pool was not stopped has been finished when the destructor
      has joined the workers. */
  lemma HandedInMeansDone(workers: nat, producers: nat, before: seq<Action>, after: seq<Action>)
    requires var s := Run(Start(workers, producers), before);
      workers >= 1 && !s.stop && Pending(s.producers) == multiset{} && Run(s, after).destructor == Gone
    ensures Asked(Start(workers, producers), before) <= Run(Start(workers, producers), before + after).finished
  {
    var s0 := Start(workers, producers);
    var s, t := Run(s0, before), Run(s0, before + after);
    RunConcat(s0, before, after);
    AcceptedStays(s, after);
    AskedIsAccepted(workers, producers, before);
    assert Reachable(t);
    JoinedMeansDone(t);
    hide Run, Asked, Pending;
    assert t.accepted == s.accepted + t.accepted[|s.accepted|..];
  }

  lemma AskedIsAccepted(workers: nat, producers: nat, acts: seq<Action>)
    requires var s := Run(Start(workers, producers), acts); !s.stop && Pending(s.producers) == multiset{}
    ensures Asked(Start(workers, producers), acts) == multiset(Run(Start(workers, producers), acts).accepted)
  {
    var s := Start(workers, producers);
    NonePending(producers);
    assert Pending(s.producers) == multiset{} && multiset(s.accepted) == multiset{};
    EveryTaskCounts(s, acts);
    NoneRefused(s, acts);
    hide Run, Asked, Pending, Refused, Start;
    var t := Run(s, acts);
    Settle(multiset(t.accepted), Refused(s, acts), Pending(t.producers), multiset(s.accepted), Asked(s, acts),
           Pending(s.producers));
  }

  lemma Settle(a: multiset<Task>, b: multiset<Task>, c: multiset<Task>, d: multiset<Task>, e: multiset<Task>, f: multiset<Task>)
    requires a + b + c == d + e + f && b == c == d == f == multiset{}
    ensures a == e
  {
    assert a + b + c == a && d + e + f == e;
  }
}
