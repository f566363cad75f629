/**
  The thread pool: any number of workers, enqueuers on any threads, and a destructor. What
  happens under the queue mutex is one step; waiting on the condition variable, notifying and
  running a task are steps of their own, so a run is an arbitrary interleaving of them.
 */
module WorkerPool {

  type Task = nat

  /** A worker is about to take the mutex, asleep on the condition, running a task, or gone. */
  datatype Worker = Ready | Asleep | Running(task: Task) | Exited

  datatype Pool = Pool(
    tasks: seq<Task>, stop: bool, workers: seq<Worker>,
    notifies: nat,              // enqueuers that have left the mutex and not yet notified
    notifyAll: bool,            // the destructor has set stop and not yet notified
    accepted: seq<Task>,        // history: tasks put on the queue, in order
    taken: seq<Task>,           // history: tasks taken off the queue, in order
    done: multiset<Task>)       // tasks that have run to the end

  datatype Action =
    | Enqueue(task: Task)
    | NotifyOne(w: nat)         // wakes worker w if it is asleep
    | NotifyNobody              // a notification while nobody is asleep
    | Stop
    | NotifyEveryone
    | Spurious(w: nat)          // a wake-up without a notification
    | Check(w: nat)             // the worker holds the mutex and looks at stop and the queue
    | Finish(w: nat)            // the task returns

  predicate Enabled(p: Pool, a: Action) {
    match a
    case Enqueue(_) => true
    case NotifyOne(w) => p.notifies > 0 && w < |p.workers| && p.workers[w].Asleep?
    case NotifyNobody => p.notifies > 0 && forall w | 0 <= w < |p.workers| :: !p.workers[w].Asleep?
    case Stop => !p.stop
    case NotifyEveryone => p.notifyAll
    case Spurious(w) => w < |p.workers| && p.workers[w].Asleep?
    case Check(w) => w < |p.workers| && p.workers[w].Ready?
    case Finish(w) => w < |p.workers| && p.workers[w].Running?
  }

  function Awake(workers: seq<Worker>): (r: seq<Worker>)
    ensures |r| == |workers|
  {
    seq(|workers|, i requires 0 <= i < |workers| => if workers[i].Asleep? then Ready else workers[i])
  }

  function Next(p: Pool, a: Action): Pool
    requires Enabled(p, a)
  {
    match a
    case Enqueue(task) =>
      if p.stop then p   // enqueue throws
      else p.(tasks := p.tasks + [task], accepted := p.accepted + [task], notifies := p.notifies + 1)
    case NotifyOne(w) => p.(notifies := p.notifies - 1, workers := p.workers[w := Ready])
    case NotifyNobody => p.(notifies := p.notifies - 1)
    case Stop => p.(stop := true, notifyAll := true)
    case NotifyEveryone => p.(notifyAll := false, workers := Awake(p.workers))
    case Spurious(w) => p.(workers := p.workers[w := Ready])
    case Check(w) =>
      if |p.tasks| > 0 then
        p.(tasks := p.tasks[1..], taken := p.taken + [p.tasks[0]], workers := p.workers[w := Running(p.tasks[0])])
      else
        p.(workers := p.workers[w := if p.stop then Exited else Asleep])
    case Finish(w) =>
      p.(workers := p.workers[w := Ready], done := p.done + multiset{p.workers[w].task})
  }

  function Start(threads: nat): Pool {
    Pool([], false, seq(threads, i => Ready), 0, false, [], [], multiset{})
  }

  // ---- Invariants ---------------------------------------------------------------------------

  function TaskOf(w: Worker): multiset<Task> {
    if w.Running? then multiset{w.task} else multiset{}
  }

  /** The tasks being run. */
  function InFlight(workers: seq<Worker>): multiset<Task> {
    if |workers| == 0 then multiset{}
    else InFlight(workers[..|workers| - 1]) + TaskOf(workers[|workers| - 1])
  }

  /** First in, first out, and what was taken has run or is running. */
  ghost predicate Exact(p: Pool) {
    p.accepted == p.taken + p.tasks && multiset(p.taken) == p.done + InFlight(p.workers)
  }

  predicate Active(w: Worker) {
    w.Ready? || w.Running?
  }

  /** A worker leaves only when the pool is stopped and drained, and sleeps on only while someone will wake it. */
  ghost predicate Drains(p: Pool) {
    && (forall w | 0 <= w < |p.workers| && p.workers[w].Exited? :: p.stop && p.tasks == [])
    && (p.stop && !p.notifyAll ==> forall w | 0 <= w < |p.workers| :: !p.workers[w].Asleep?)
    && (p.notifyAll ==> p.stop)
  }

  /** No lost wake-up: work on the queue has an active worker or a notification on its way. */
  ghost predicate Watched(p: Pool) {
    |p.tasks| > 0 && |p.workers| > 0 ==>
      p.notifies > 0 || p.notifyAll || exists w | 0 <= w < |p.workers| :: Active(p.workers[w])
  }

  ghost predicate Inv(p: Pool) {
    Exact(p) && Drains(p) && Watched(p)
  }

  lemma {:induction false} InFlightUpdate(workers: seq<Worker>, w: nat, next: Worker)
    requires w < |workers|
    ensures InFlight(workers[w := next]) + TaskOf(workers[w]) == InFlight(workers) + TaskOf(next)
  {
    hide TaskOf;
    var n := |workers| - 1;
    var last := TaskOf(workers[n]);
    if w < n {
      InFlightUpdate(workers[..n], w, next);
      assert workers[w := next][..n] == workers[..n][w := next];
      var x, y := InFlight(workers[..n][w := next]), InFlight(workers[..n]);
      assert (x + last) + TaskOf(workers[w]) == (x + TaskOf(workers[w])) + last;
      assert (y + last) + TaskOf(next) == (y + TaskOf(next)) + last;
    } else {
      assert workers[w := next][..n] == workers[..n];
    }
  }

  lemma {:induction false} InFlightAwake(workers: seq<Worker>)
    ensures InFlight(Awake(workers)) == InFlight(workers)
    decreases |workers|
  {
    if |workers| > 0 {
      var n := |workers| - 1;
      InFlightAwake(workers[..n]);
      assert Awake(workers)[..n] == Awake(workers[..n]);
    }
  }

  lemma {:induction false} InFlightNone(workers: seq<Worker>)
    requires forall w | 0 <= w < |workers| :: !workers[w].Running?
    ensures InFlight(workers) == multiset{}
    decreases |workers|
  {
    if |workers| > 0 {
      InFlightNone(workers[..|workers| - 1]);
    }
  }

  lemma StartInv(threads: nat)
    ensures Inv(Start(threads))
  {
    InFlightNone(Start(threads).workers);
  }

  lemma InFlightSame(workers: seq<Worker>, w: nat, next: Worker)
    requires w < |workers| && !workers[w].Running? && !next.Running?
    ensures InFlight(workers[w := next]) == InFlight(workers)
  {
    hide InFlight;
    InFlightUpdate(workers, w, next);
    NothingAdded(InFlight(workers));
    NothingAdded(InFlight(workers[w := next]));
  }

  lemma InFlightGains(workers: seq<Worker>, w: nat, task: Task)
    requires w < |workers| && !workers[w].Running?
    ensures InFlight(workers[w := Running(task)]) == InFlight(workers) + multiset{task}
  {
    hide InFlight;
    InFlightUpdate(workers, w, Running(task));
    NothingAdded(InFlight(workers[w := Running(task)]));
  }

  lemma InFlightLoses(workers: seq<Worker>, w: nat)
    requires w < |workers| && workers[w].Running?
    ensures InFlight(workers) == InFlight(workers[w := Ready]) + multiset{workers[w].task}
  {
    hide InFlight;
    InFlightUpdate(workers, w, Ready);
    NothingAdded(InFlight(workers));
  }

  lemma NothingAdded(m: multiset<Task>)
    ensures m + multiset{} == m
  {}

  lemma TakeExact(p: Pool, w: nat)
    requires Exact(p) && Enabled(p, Check(w)) && |p.tasks| > 0
    ensures Exact(Next(p, Check(w)))
  {
    hide InFlight;
    var t := p.tasks[0];
    InFlightGains(p.workers, w, t);
    assert p.taken + [t] + p.tasks[1..] == p.taken + p.tasks;
    assert multiset(p.taken + [t]) == multiset(p.taken) + multiset{t};
    assert (p.done + InFlight(p.workers)) + multiset{t} == p.done + (InFlight(p.workers) + multiset{t});
  }

  lemma FinishExact(p: Pool, w: nat)
    requires Exact(p) && Enabled(p, Finish(w))
    ensures Exact(Next(p, Finish(w)))
  {
    hide InFlight;
    InFlightLoses(p.workers, w);
    var t, rest := p.workers[w].task, InFlight(p.workers[w := Ready]);
    assert p.done + (rest + multiset{t}) == (p.done + multiset{t}) + rest;
  }

  lemma NextExact(p: Pool, a: Action)
    requires Exact(p) && Enabled(p, a)
    ensures Exact(Next(p, a))
  {
    hide InFlight;
    match a
    case NotifyOne(w) => InFlightSame(p.workers, w, Ready);
    case Spurious(w) => InFlightSame(p.workers, w, Ready);
    case Finish(w) => FinishExact(p, w);
    case NotifyEveryone => InFlightAwake(p.workers);
    case Check(w) =>
      if |p.tasks| > 0 {
        TakeExact(p, w);
      } else {
        InFlightSame(p.workers, w, if p.stop then Exited else Asleep);
      }
    case Enqueue(task) => assert p.taken + (p.tasks + [task]) == (p.taken + p.tasks) + [task];
    case _ =>
  }

  lemma NextSameSize(p: Pool, a: Action)
    requires Enabled(p, a)
    ensures |Next(p, a).workers| == |p.workers|
  {}

  lemma NextDrains(p: Pool, a: Action)
    requires Drains(p) && Enabled(p, a)
    ensures Drains(Next(p, a))
  {}

  lemma NextWatched(p: Pool, a: Action)
    requires Drains(p) && Watched(p) && Enabled(p, a)
    ensures Watched(Next(p, a))
  {
    var q := Next(p, a);
    if |q.tasks| > 0 && |q.workers| > 0 && q.notifies == 0 && !q.notifyAll {
      match a {
        case NotifyOne(w) => assert Active(q.workers[w]);
        case Spurious(w) => assert Active(q.workers[w]);
        case Finish(w) => assert Active(q.workers[w]);
        case Check(w) => assert Active(q.workers[w]);
        case NotifyEveryone =>
          assert !p.workers[0].Exited?;
          assert Active(q.workers[0]);
        case NotifyNobody =>
          assert !p.workers[0].Exited? && !p.workers[0].Asleep?;
          assert Active(q.workers[0]);
        case Enqueue(_) =>
          var w :| 0 <= w < |p.workers| && Active(p.workers[w]);
          assert Active(q.workers[w]);
        case Stop =>
      }
    }
  }

  lemma NextInv(p: Pool, a: Action)
    requires Inv(p) && Enabled(p, a)
    ensures Inv(Next(p, a))
  {
    hide Exact, Drains, Watched, Next, Enabled;
    NextExact(p, a);
    NextDrains(p, a);
    NextWatched(p, a);
  }

  // ---- Runs -------------------------------------------------------------------------------------

  predicate Run(p: Pool, actions: seq<Action>)
    decreases |actions|
  {
    |actions| == 0 || (Enabled(p, actions[0]) && Run(Next(p, actions[0]), actions[1..]))
  }

  function Last(p: Pool, actions: seq<Action>): Pool
    requires Run(p, actions)
    decreases |actions|
  {
    if |actions| == 0 then p else Last(Next(p, actions[0]), actions[1..])
  }

  lemma {:induction false} RunInv(p: Pool, actions: seq<Action>)
    requires Inv(p) && Run(p, actions)
    ensures Inv(Last(p, actions)) && |Last(p, actions).workers| == |p.workers|
    decreases |actions|
  {
    hide Inv, Enabled, Next;
    if |actions| > 0 {
      NextInv(p, actions[0]);
      NextSameSize(p, actions[0]);
      RunInv(Next(p, actions[0]), actions[1..]);
    }
  }

  predicate AllExited(p: Pool) {
    forall w | 0 <= w < |p.workers| :: p.workers[w].Exited?
  }

  /** Every accepted task is taken once, in order; and when all workers have left, all of them have run. */
  lemma ShutdownRunsEverything(threads: nat, actions: seq<Action>)
    requires threads > 0 && Run(Start(threads), actions)
    ensures var p := Last(Start(threads), actions);
      && p.taken <= p.accepted
      && multiset(p.taken) == p.done + InFlight(p.workers)
      && (AllExited(p) ==> p.tasks == [] && p.taken == p.accepted && p.done == multiset(p.accepted))
  {
    hide Run, Last, Watched;
    StartInv(threads);
    RunInv(Start(threads), actions);
    var p := Last(Start(threads), actions);
    if AllExited(p) {
      assert p.workers[0].Exited?;
      InFlightNone(p.workers);
      assert p.done + multiset{} == p.done;
    }
  }

  /** A step of a worker, or a notification that somebody owes. */
  predicate Helps(a: Action) {
    a.Check? || a.Finish? || a.NotifyOne? || a.NotifyNobody? || a.NotifyEveryone?
  }

  ghost predicate CanHelp(p: Pool) {
    exists a: Action :: Helps(a) && Enabled(p, a)
  }

  /** Queued work is never forgotten: someone can always do the next thing about it. */
  lemma NeverStuck(threads: nat, actions: seq<Action>)
    requires threads > 0 && Run(Start(threads), actions)
    ensures var p := Last(Start(threads), actions); |p.tasks| > 0 ==> CanHelp(p)
  {
    hide Run, Last, Exact;
    StartInv(threads);
    RunInv(Start(threads), actions);
    var p := Last(Start(threads), actions);
    if |p.tasks| > 0 {
      var a := SomeHelp(p);
    }
  }

  lemma SomeHelp(p: Pool) returns (a: Action)
    requires Watched(p) && |p.tasks| > 0 && |p.workers| > 0
    ensures Helps(a) && Enabled(p, a)
  {
    if p.notifyAll {
      a := NotifyEveryone;
    } else if p.notifies > 0 {
      if w :| 0 <= w < |p.workers| && p.workers[w].Asleep? {
        a := NotifyOne(w);
      } else {
        a := NotifyNobody;
      }
    } else {
      var w :| 0 <= w < |p.workers| && Active(p.workers[w]);
      a := if p.workers[w].Ready? then Check(w) else Finish(w);
    }
  }

  // ---- The destructor returns ---------------------------------------------------------------------

  function Effort(w: Worker): nat {
    match w
    case Running(_) => 2
    case Ready => 1
    case Asleep => 1
    case Exited => 0
  }

  function Efforts(workers: seq<Worker>): nat {
    if |workers| == 0 then 0 else Efforts(workers[..|workers| - 1]) + Effort(workers[|workers| - 1])
  }

  /** What is left to do before the last worker can leave. */
  function Remaining(p: Pool): nat {
    2 * |p.tasks| + Efforts(p.workers)
  }

  lemma {:induction false} EffortsUpdate(workers: seq<Worker>, w: nat, next: Worker)
    requires w < |workers|
    ensures Efforts(workers[w := next]) + Effort(workers[w]) == Efforts(workers) + Effort(next)
  {
    var n := |workers| - 1;
    if w < n {
      EffortsUpdate(workers[..n], w, next);
      assert workers[w := next][..n] == workers[..n][w := next];
    } else {
      assert workers[w := next][..n] == workers[..n];
    }
  }

  /** After stop, every step of a worker brings the end nearer. */
  lemma StoppedStepsShrink(p: Pool, a: Action)
    requires p.stop && Enabled(p, a) && (a.Check? || a.Finish?)
    ensures Next(p, a).stop && Remaining(Next(p, a)) < Remaining(p)
  {
    hide Efforts;
    EffortsUpdate(p.workers, a.w, Next(p, a).workers[a.w]);
  }

  // ---- Shutdown comes to an end ------------------------------------------------------------------

  predicate WorkerStep(a: Action) {
    a.Check? || a.Finish?
  }

  function WorkerSteps(actions: seq<Action>): nat {
    if |actions| == 0 then 0 else (if WorkerStep(actions[0]) then 1 else 0) + WorkerSteps(actions[1..])
  }

  /** The destructor has set stop and notified; nobody is asleep. */
  ghost predicate ShuttingDown(p: Pool) {
    Inv(p) && p.stop && !p.notifyAll
  }

  lemma ShutdownStep(p: Pool, a: Action)
    requires ShuttingDown(p) && Enabled(p, a)
    ensures ShuttingDown(Next(p, a))
    ensures Remaining(Next(p, a)) + (if WorkerStep(a) then 1 else 0) <= Remaining(p)
  {
    hide Exact, Watched, Efforts, InFlight;
    NextInv(p, a);
    if WorkerStep(a) {
      StoppedStepsShrink(p, a);
    }
  }

  /** After the destructor's notification, workers take no more steps than there is work left. */
  lemma {:induction false} ShutdownIsBounded(p: Pool, actions: seq<Action>)
    requires ShuttingDown(p) && Run(p, actions)
    ensures ShuttingDown(Last(p, actions)) && WorkerSteps(actions) + Remaining(Last(p, actions)) <= Remaining(p)
    decreases |actions|
  {
    hide ShuttingDown, Enabled, Next, Remaining, WorkerStep;
    if |actions| > 0 {
      ShutdownStep(p, actions[0]);
      ShutdownIsBounded(Next(p, actions[0]), actions[1..]);
    }
  }

  lemma SomeWorker(p: Pool) returns (a: Action)
    requires ShuttingDown(p) && !AllExited(p)
    ensures WorkerStep(a) && Enabled(p, a)
  {
    hide Exact, Watched;
    var w :| 0 <= w < |p.workers| && !p.workers[w].Exited?;
    a := if p.workers[w].Running? then Finish(w) else Check(w);
  }

  /** And some continuation, of worker steps alone, lets the last worker leave. */
  lemma {:induction false} ShutdownCanEnd(p: Pool) returns (actions: seq<Action>)
    requires ShuttingDown(p)
    ensures Run(p, actions) && AllExited(Last(p, actions)) && WorkerSteps(actions) == |actions|
    decreases Remaining(p)
  {
    hide ShuttingDown, Enabled, Next, Remaining, AllExited, WorkerStep;
    actions := [];
    if !AllExited(p) {
      var a := SomeWorker(p);
      ShutdownStep(p, a);
      var rest := ShutdownCanEnd(Next(p, a));
      actions := [a] + rest;
      assert actions[1..] == rest;
    }
  }

  /** A continuation in which no worker can move any more has ended: everything accepted has run. */
  lemma ShutdownEnds(threads: nat, before: seq<Action>, after: seq<Action>)
    requires threads > 0 && Run(Start(threads), before)
    requires var p := Last(Start(threads), before); p.stop && !p.notifyAll && Run(p, after)
    ensures var p := Last(Start(threads), before);
      && WorkerSteps(after) <= Remaining(p)
      && ((forall a | WorkerStep(a) :: !Enabled(Last(p, after), a)) <==> AllExited(Last(p, after)))
      && (AllExited(Last(p, after)) ==> Last(p, after).done == multiset(p.accepted))
  {
    hide Run, Last, Remaining, Inv, Exact, Drains, Watched, InFlight;
    StartInv(threads);
    RunInv(Start(threads), before);
    var p := Last(Start(threads), before);
    ShutdownIsBounded(p, after);
    RunInv(p, after);
    StoppedAcceptsNothing(p, after);
    var q := Last(p, after);
    if !AllExited(q) {
      var a := SomeWorker(q);
    } else {
      DrainedIsDone(q);
    }
  }

  lemma DrainedIsDone(p: Pool)
    requires Inv(p) && |p.workers| > 0 && AllExited(p)
    ensures p.done == multiset(p.accepted)
  {
    hide InFlight, Watched;
    InFlightNone(p.workers);
    assert p.workers[0].Exited?;
    assert p.taken + [] == p.taken;
  }

  lemma {:induction false} StoppedAcceptsNothing(p: Pool, actions: seq<Action>)
    requires p.stop && Run(p, actions)
    ensures Last(p, actions).accepted == p.accepted
    decreases |actions|
  {
    if |actions| > 0 {
      StoppedAcceptsNothing(Next(p, actions[0]), actions[1..]);
    }
  }

  // ---- What is accepted ---------------------------------------------------------------------------

  /** The tasks of the calls to enqueue that come before the destructor sets stop. */
  function Submitted(actions: seq<Action>): seq<Task> {
    if |actions| == 0 || actions[0].Stop? then []
    else (if actions[0].Enqueue? then [actions[0].task] else []) + Submitted(actions[1..])
  }

  lemma StepAccepts(p: Pool, a: Action)
    requires Enabled(p, a)
    ensures Next(p, a).accepted == p.accepted + if a.Enqueue? && !p.stop then [a.task] else []
    ensures Next(p, a).stop == (p.stop || a.Stop?)
  {
    hide InFlight, Awake;
  }

  lemma {:induction false} AcceptedFrom(p: Pool, actions: seq<Action>)
    requires Run(p, actions)
    ensures Last(p, actions).accepted == p.accepted + if p.stop then [] else Submitted(actions)
    decreases |actions|
  {
    hide Enabled, Next;
    if |actions| > 0 {
      var a, rest := actions[0], actions[1..];
      StepAccepts(p, a);
      AcceptedFrom(Next(p, a), rest);
      if a.Enqueue? && !p.stop {
        assert p.accepted + [a.task] + Submitted(rest) == p.accepted + ([a.task] + Submitted(rest));
      }
    }
  }

  /** In every run exactly the tasks handed over before stop are accepted, in that order. */
  lemma AcceptedAreSubmitted(threads: nat, actions: seq<Action>)
    requires Run(Start(threads), actions)
    ensures Last(Start(threads), actions).accepted == Submitted(actions)
  {
    hide Run, Last, Submitted;
    AcceptedFrom(Start(threads), actions);
  }
}
