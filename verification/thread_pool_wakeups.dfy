/**
 The condition variable of the thread pool. On top of a state of the pool stand, for each worker, whether it sleeps, and
 the notifications still to be given. A worker that finds nothing to do holds the lock until it sleeps; a notification
 that finds no sleeper is lost; a sleeper may also wake up for no reason.
 */
module ThreadPoolWakeups {
  import opened TaskLists
  import P = ThreadPoolRuns
  import G = ThreadPoolProgress

  /** Where a worker is in its wait. */
  datatype Wait =
    | Awake
    | AboutToSleep  // saw nothing to do, still holds the lock
    | Asleep

  datatype System = System(
    p: P.Pool,
    waits: seq<Wait>,
    notifying: nat,  // calls of AddTask that have queued their task and not yet called notify_one
    notified: bool)  // the destructor has called notify_all

  datatype Step =
    | Act(step: P.Step)
    | NotifyOne(worker: nat)  // AddTask wakes this sleeper; any worker if nobody sleeps
    | NotifyAll               // the destructor, once, after it cleared _run
    | WakeUp(worker: nat)     // for no reason

  const INITIAL := System(P.INITIAL, [], 0, false)

  ghost predicate Formed(s: System) {
    Agrees(s.p.t) && |s.waits| == |s.p.workers|
  }

  predicate SleepsAt(s: System, w: nat) {
    w < |s.waits| && s.waits[w].Asleep?
  }

  ghost predicate Locked(s: System) {
    exists w :: 0 <= w < |s.waits| && s.waits[w].AboutToSleep?
  }

  ghost predicate SomeoneSleeps(s: System) {
    exists w: nat :: SleepsAt(s, w)
  }

  function Woken(waits: seq<Wait>): (r: seq<Wait>)
    ensures |r| == |waits|
    ensures forall w :: 0 <= w < |waits| ==> r[w] == if waits[w].Asleep? then Awake else waits[w]
  {
    seq(|waits|, w requires 0 <= w < |waits| => if waits[w].Asleep? then Awake else waits[w])
  }

  /** What the pool does; the region under the lock waits for the lock. */
  ghost function Acts(s: System, step: P.Step): (r: System)
    requires Formed(s)
    ensures Formed(r)
  {
    match step
    case Work(w) => if w < |s.waits| then Works(s, w) else s
    case Submit(i) =>
      if Locked(s) || i >= |s.p.pending| then s
      else s.(p := P.Next(s.p, step), notifying := s.notifying + 1)
    case CloseFd(_) => if Locked(s) then s else s.(p := P.Next(s.p, step))
    case Spawn =>
      var p := P.Next(s.p, step);
      s.(p := p, waits := if |p.workers| > |s.waits| then s.waits + [Awake] else s.waits)
    case _ => s.(p := P.Next(s.p, step))
  }

  ghost function Works(s: System, w: nat): (r: System)
    requires Formed(s) && w < |s.waits|
    ensures Formed(r)
  {
    if !s.p.workers[w].Waiting? then s.(p := P.Next(s.p, P.Work(w)))
    else
      match s.waits[w]
      case Asleep => s
      case AboutToSleep => s.(waits := s.waits[w := Asleep])
      case Awake =>
        if Locked(s) then s
        else if s.p.run && s.p.t.list == [] then s.(waits := s.waits[w := AboutToSleep])
        else s.(p := P.Next(s.p, P.Work(w)))
  }

  ghost function Next(s: System, step: Step): (r: System)
    requires Formed(s)
    ensures Formed(r)
  {
    match step
    case Act(a) => Acts(s, a)
    case NotifyOne(w) =>
      if s.notifying == 0 then s
      else if SleepsAt(s, w) then s.(waits := s.waits[w := Awake], notifying := s.notifying - 1)
      else if SomeoneSleeps(s) then s
      else s.(notifying := s.notifying - 1)
    case NotifyAll => if s.p.run || s.notified then s else s.(waits := Woken(s.waits), notified := true)
    case WakeUp(w) => if SleepsAt(s, w) then s.(waits := s.waits[w := Awake]) else s
  }

  ghost function Run(s: System, steps: seq<Step>): (r: System)
    requires Formed(s)
    ensures Formed(r)
    decreases |steps|
  {
    if steps == [] then s else Run(Next(s, steps[0]), steps[1..])
  }

  // ---------- Every run is a run of the pool ----------

  lemma {:induction false} NextIsPoolStep(s: System, step: Step)
    requires Formed(s)
    ensures Next(s, step).p == s.p || (step.Act? && Next(s, step).p == P.Next(s.p, step.step))
  {
  }

  /** What the workers and producers do between sleeping and waking is a run of the pool, so its theorems hold here. */
  lemma {:induction false} RunsArePoolRuns(s: System, steps: seq<Step>) returns (plain: seq<P.Step>)
    requires Formed(s)
    ensures Run(s, steps).p == P.Run(s.p, plain)
    decreases |steps|
  {
    if steps == [] {
      plain := [];
    } else {
      var rest := RunsArePoolRuns(Next(s, steps[0]), steps[1..]);
      NextIsPoolStep(s, steps[0]);
      if Next(s, steps[0]).p == s.p {
        plain := rest;
      } else {
        plain := [steps[0].step] + rest;
        assert plain[1..] == rest;
      }
    }
  }

  ghost predicate AllAwake(s: System) {
    forall w :: 0 <= w < |s.waits| ==> s.waits[w].Awake?
  }

  /** A step of the pool is possible whenever nobody holds the lock; a worker with nothing to do need not fall asleep. */
  lemma {:induction false} PoolStepIsPossible(s: System, step: P.Step) returns (steps: seq<Step>)
    requires Formed(s) && AllAwake(s)
    ensures |steps| <= 1
    ensures var r := if steps == [] then s else Next(s, steps[0]);
            Formed(r) && AllAwake(r) && r.p == P.Next(s.p, step)
  {
    hide Agrees, Take, Enqueue, Cancel;
    steps := [Act(step)];
    if step.Work? && step.worker < |s.waits| && s.p.workers[step.worker].Waiting? && s.p.run && s.p.t.list == [] {
      steps := [];
    }
  }

  /** And the other way round: every run of the pool is a run with the condition variable, in which nobody sleeps. */
  lemma {:induction false} PoolRunsAreRuns(s: System, plain: seq<P.Step>) returns (steps: seq<Step>)
    requires Formed(s) && AllAwake(s)
    ensures Run(s, steps).p == P.Run(s.p, plain) && AllAwake(Run(s, steps))
    decreases |plain|
  {
    hide Formed, AllAwake, Next, P.Next;
    if plain == [] {
      steps := [];
    } else {
      var first := PoolStepIsPossible(s, plain[0]);
      if first == [] {
        steps := PoolRunsAreRuns(s, plain[1..]);
      } else {
        var rest := PoolRunsAreRuns(Next(s, first[0]), plain[1..]);
        steps := first + rest;
        assert steps[0] == first[0] && steps[1..] == rest;
      }
    }
  }

  // ---------- Nobody sleeps while a task is left ----------

  /** A worker on its way to look at the queue. */
  predicate Heads(pc: P.Pc, wait: Wait) {
    pc.AtLoop? || (pc.Waiting? && wait.Awake?)
  }

  function Heading(workers: seq<P.Pc>, waits: seq<Wait>): nat
    requires |waits| == |workers|
  {
    if workers == [] then 0
    else if Heads(workers[0], waits[0]) then 1 + Heading(workers[1..], waits[1..])
    else Heading(workers[1..], waits[1..])
  }

  lemma {:induction false} HeadingUpdate(workers: seq<P.Pc>, waits: seq<Wait>, w: nat, pc: P.Pc, wait: Wait)
    requires |waits| == |workers| && w < |workers|
    ensures Heading(workers[w := pc], waits[w := wait]) + (if Heads(workers[w], waits[w]) then 1 else 0)
            == Heading(workers, waits) + if Heads(pc, wait) then 1 else 0
  {
    if w == 0 {
      assert workers[0 := pc][1..] == workers[1..] && waits[0 := wait][1..] == waits[1..];
    } else {
      assert workers[w := pc][1..] == workers[1..][w - 1 := pc];
      assert waits[w := wait][1..] == waits[1..][w - 1 := wait];
      HeadingUpdate(workers[1..], waits[1..], w - 1, pc, wait);
    }
  }

  lemma {:induction false} HeadingSnoc(workers: seq<P.Pc>, waits: seq<Wait>)
    requires |waits| == |workers|
    ensures Heading(workers + [P.AtLoop], waits + [Awake]) == Heading(workers, waits) + 1
  {
    if workers == [] {
      assert (workers + [P.AtLoop])[1..] == [] && (waits + [Awake])[1..] == [];
    } else {
      assert (workers + [P.AtLoop])[1..] == workers[1..] + [P.AtLoop] && (waits + [Awake])[1..] == waits[1..] + [Awake];
      HeadingSnoc(workers[1..], waits[1..]);
    }
  }

  /** Only waiting workers sleep, and the one about to sleep holds the lock over an empty queue. */
  ghost predicate LockInv(s: System)
    requires Formed(s)
  {
    && (forall w :: 0 <= w < |s.waits| && !s.waits[w].Awake? ==> s.p.workers[w].Waiting?)
    && (forall w :: 0 <= w < |s.waits| && s.waits[w].AboutToSleep? ==> s.p.t.list == [])
    && (forall v, w :: 0 <= v < w < |s.waits| ==> !(s.waits[v].AboutToSleep? && s.waits[w].AboutToSleep?))
  }

  /** While a worker sleeps, each queued task has a notification to come or a worker on its way to the queue. */
  ghost predicate Called(s: System)
    requires Formed(s)
  {
    s.p.run && SomeoneSleeps(s) ==> |s.p.t.list| <= s.notifying + Heading(s.p.workers, s.waits)
  }

  lemma {:induction false} WorksKeepsLockInv(s: System, w: nat)
    requires Formed(s) && LockInv(s) && w < |s.waits|
    ensures LockInv(Works(s, w))
  {
    hide Agrees, Take;
  }

  lemma {:induction false} ActsKeepsLockInv(s: System, step: P.Step)
    requires Formed(s) && LockInv(s)
    ensures LockInv(Acts(s, step))
  {
    hide Agrees, Enqueue;
    match step
    case Work(w) => if w < |s.waits| { WorksKeepsLockInv(s, w); }
    case CloseFd(fd) =>
    case _ =>
  }

  lemma {:induction false} NextKeepsLockInv(s: System, step: Step)
    requires Formed(s) && LockInv(s)
    ensures LockInv(Next(s, step))
  {
    hide Formed, Acts;
    match step
    case Act(a) => ActsKeepsLockInv(s, a);
    case _ =>
  }

  /** The task of a worker that takes one is the one it was on its way for. */
  lemma {:induction false} WorksChangesOne(s: System, w: nat)
    requires Formed(s) && w < |s.waits|
    ensures var r := Works(s, w);
            && r.p.workers == s.p.workers[w := r.p.workers[w]] && r.waits == s.waits[w := r.waits[w]]
            && r.notifying == s.notifying && r.p.run == s.p.run
  {
    hide Agrees, Take;
  }

  /** Who takes a task was on its way, and who stops being on its way without one leaves an empty queue. */
  lemma {:induction false} WorksPaysForTask(s: System, w: nat)
    requires Formed(s) && LockInv(s) && s.p.run && w < |s.waits| && Works(s, w).p.t.list != []
    ensures var r := Works(s, w);
            && |r.p.t.list| + (if Heads(s.p.workers[w], s.waits[w]) then 1 else 0)
               <= |s.p.t.list| + (if Heads(r.p.workers[w], r.waits[w]) then 1 else 0)
            && (SleepsAt(r, w) ==> SleepsAt(s, w))
  {
    hide Agrees;
  }

  lemma {:induction false} WorksKeepsCalled(s: System, w: nat)
    requires Formed(s) && LockInv(s) && Called(s) && w < |s.waits|
    ensures Called(Works(s, w))
  {
    hide Agrees, LockInv, Works, Heads;
    var r := Works(s, w);
    WorksChangesOne(s, w);
    HeadingUpdate(s.p.workers, s.waits, w, r.p.workers[w], r.waits[w]);
    if s.p.run && SomeoneSleeps(r) && r.p.t.list != [] {
      WorksPaysForTask(s, w);
      var v: nat :| SleepsAt(r, v);
      assert SleepsAt(s, v);
    }
  }

  lemma {:induction false} WakeKeepsCalled(s: System, w: nat, notifying: nat)
    requires Formed(s) && LockInv(s) && Called(s) && SleepsAt(s, w)
    requires notifying + 1 >= s.notifying
    ensures Called(s.(waits := s.waits[w := Awake], notifying := notifying))
  {
    HeadingUpdate(s.p.workers, s.waits, w, s.p.workers[w], Awake);
    assert s.p.workers[w := s.p.workers[w]] == s.p.workers;
  }

  lemma {:induction false} ActKeepsCalled(s: System, step: P.Step)
    requires Formed(s) && LockInv(s) && Called(s)
    ensures Called(Acts(s, step))
  {
    var r := Acts(s, step);
    match step
    case Work(w) => if w < |s.waits| { WorksKeepsCalled(s, w); }
    case Spawn =>
      HeadingSnoc(s.p.workers, s.waits);
      if SomeoneSleeps(r) {
        var v: nat :| SleepsAt(r, v);
        assert SleepsAt(s, v);
      }
    case CloseFd(fd) =>
      CancelShortens(s.p.t, fd);
      SameSleepers(s, r);
    case _ => SameSleepers(s, r);
  }

  lemma {:induction false} SameSleepers(s: System, r: System)
    requires r.waits == s.waits
    ensures SomeoneSleeps(r) ==> SomeoneSleeps(s)
  {
    if v: nat :| SleepsAt(r, v) { assert SleepsAt(s, v); }
  }

  lemma {:induction false} CancelShortens(t: Tasks, fd: int)
    requires Agrees(t)
    ensures |Cancel(t, fd).list| <= |t.list|
  {
    CancelAgrees(t, fd);
    OthersShorter(t.list, fd);
  }

  lemma {:induction false} OthersShorter(list: seq<Node>, fd: int)
    ensures |Others(list, fd)| <= |list|
  {
    if list != [] { OthersShorter(list[1..], fd); }
  }

  lemma {:induction false} NextKeepsCalled(s: System, step: Step)
    requires Formed(s) && LockInv(s) && Called(s)
    ensures Called(Next(s, step))
  {
    match step
    case Act(a) => ActKeepsCalled(s, a);
    case NotifyOne(w) =>
      if s.notifying > 0 && SleepsAt(s, w) {
        WakeKeepsCalled(s, w, s.notifying - 1);
      } else {
        SameSleepers(s, Next(s, step));
      }
    case WakeUp(w) => if SleepsAt(s, w) { WakeKeepsCalled(s, w, s.notifying); }
    case NotifyAll =>
  }

  lemma {:induction false} RunKeepsCalled(s: System, steps: seq<Step>)
    requires Formed(s) && LockInv(s) && Called(s)
    ensures LockInv(Run(s, steps)) && Called(Run(s, steps))
    decreases |steps|
  {
    if steps != [] {
      NextKeepsLockInv(s, steps[0]);
      NextKeepsCalled(s, steps[0]);
      RunKeepsCalled(Next(s, steps[0]), steps[1..]);
    }
  }

  /**
   Before shutdown no wakeup for a task is lost. While a worker sleeps there are, for the queued tasks, at least as many
   notifications to come and workers on their way to the queue.
   */
  lemma {:induction false} SleepersAreCalled(steps: seq<Step>)
    requires Run(INITIAL, steps).p.run && SomeoneSleeps(Run(INITIAL, steps))
    ensures var s := Run(INITIAL, steps); |s.p.t.list| <= s.notifying + Heading(s.p.workers, s.waits)
  {
    assert !SomeoneSleeps(INITIAL);
    RunKeepsCalled(INITIAL, steps);
  }

  lemma {:induction false} NoneHeads(workers: seq<P.Pc>, waits: seq<Wait>)
    requires |waits| == |workers|
    requires forall w :: 0 <= w < |waits| ==> !Heads(workers[w], waits[w])
    ensures Heading(workers, waits) == 0
  {
    if workers != [] {
      assert forall w :: 0 <= w < |waits| - 1 ==> !Heads(workers[1..][w], waits[1..][w]);
      NoneHeads(workers[1..], waits[1..]);
    }
  }

  /** So a queued task never leaves every worker asleep with no notification to come. */
  lemma {:induction false} NoTaskIsLeftAsleep(steps: seq<Step>)
    requires Run(INITIAL, steps).p.run && Run(INITIAL, steps).p.t.list != [] && Run(INITIAL, steps).waits != []
    requires forall w :: 0 <= w < |Run(INITIAL, steps).waits| ==> Run(INITIAL, steps).waits[w].Asleep?
    ensures Run(INITIAL, steps).notifying >= |Run(INITIAL, steps).p.t.list|
  {
    var s := Run(INITIAL, steps);
    assert SleepsAt(s, 0);
    RunKeepsLockInv(INITIAL, steps);
    NoneHeads(s.p.workers, s.waits);
    SleepersAreCalled(steps);
  }

  lemma {:induction false} RunKeepsLockInv(s: System, steps: seq<Step>)
    requires Formed(s) && LockInv(s)
    ensures LockInv(Run(s, steps))
    decreases |steps|
  {
    if steps != [] {
      NextKeepsLockInv(s, steps[0]);
      RunKeepsLockInv(Next(s, steps[0]), steps[1..]);
    }
  }

  // ---------- A queued task can be taken ----------

  /** Over every run no worker leaves its loop before shutdown. */
  lemma {:induction false} WorkersGoOnUntilShutdown(steps: seq<Step>, w: nat)
    requires Run(INITIAL, steps).p.run && w < |Run(INITIAL, steps).p.workers|
    ensures !Run(INITIAL, steps).p.workers[w].Exited?
  {
    hide P.Next, Next;
    InitialFormed();
    var plain := RunsArePoolRuns(INITIAL, steps);
    G.WorkersGoOnUntilShutdown(plain, w);
  }

  lemma {:induction false} NotLockedOverTasks(s: System)
    requires Formed(s) && LockInv(s) && s.p.t.list != []
    ensures !Locked(s)
  {
  }

  lemma {:induction false} AwakeWorks(s: System, w: nat)
    requires Formed(s) && !Locked(s) && s.p.t.list != [] && w < |s.waits| && s.waits[w].Awake?
    ensures Next(s, Act(P.Work(w))) == s.(p := P.Next(s.p, P.Work(w)))
  {
    hide Agrees, P.Next;
  }

  /** A worker that is awake comes to the queue by its own steps and takes its head. */
  lemma {:induction false} AwakeTakesTheHead(s: System, w: nat) returns (steps: seq<Step>)
    requires Formed(s) && LockInv(s) && s.p.run && s.p.t.list != []
    requires w < |s.waits| && s.waits[w].Awake? && !s.p.workers[w].Exited?
    ensures forall i :: 0 <= i < |steps| ==> steps[i] == Act(P.Work(w))
    ensures Run(s, steps).p.dequeued == s.p.dequeued + [s.p.t.list[0].id]
    decreases G.Distance(s.p.workers[w])
  {
    hide Agrees, LockInv, Next, P.Next, Run;
    var work := Act(P.Work(w));
    NotLockedOverTasks(s);
    AwakeWorks(s, w);
    G.WorkerLoop(s.p, w);
    var r := Next(s, work);
    if s.p.workers[w].Waiting? {
      steps := [work];
      RunOne(s, work);
    } else {
      NextKeepsLockInv(s, work);
      var rest := AwakeTakesTheHead(r, w);
      steps := [work] + rest;
      RunCons(s, work, rest);
    }
  }

  lemma {:induction false} RunCons(s: System, step: Step, rest: seq<Step>)
    requires Formed(s)
    ensures Run(s, [step] + rest) == Run(Next(s, step), rest)
  {
    assert ([step] + rest)[1..] == rest;
  }

  lemma {:induction false} SleeperIsNotified(s: System, w: nat)
    requires Formed(s) && LockInv(s) && SleepsAt(s, w) && s.notifying > 0
    ensures var r := Next(s, NotifyOne(w));
            r.p == s.p && w < |r.waits| && r.waits[w].Awake? && s.p.workers[w].Waiting?
  {
  }

  /**
   Progress, from every reachable state before shutdown: while there are a worker and a queued task, the head of the queue
   can be taken by nothing but steps of workers and notifications that are already to come. No worker need wake up for no
   reason, and nobody need submit another task.
   */
  lemma {:induction false} HeadCanBeTaken(before: seq<Step>) returns (after: seq<Step>)
    requires Run(INITIAL, before).p.run && Run(INITIAL, before).p.t.list != [] && Run(INITIAL, before).waits != []
    ensures forall i :: 0 <= i < |after| ==> after[i].NotifyOne? || (after[i].Act? && after[i].step.Work?)
    ensures var s := Run(INITIAL, before);
            Run(s, after).p.dequeued == s.p.dequeued + [s.p.t.list[0].id]
  {
    hide Agrees, LockInv, Next, Run;
    InitialFormed();
    RunKeepsLockInv(INITIAL, before);
    var s := Run(INITIAL, before);
    NoneAboutToSleep(s);
    if w :| 0 <= w < |s.waits| && s.waits[w].Awake? {
      WorkersGoOnUntilShutdown(before, w);
      after := AwakeTakesTheHead(s, w);
    } else {
      NoTaskIsLeftAsleep(before);
      SleeperIsNotified(s, 0);
      NextKeepsLockInv(s, NotifyOne(0));
      var rest := AwakeTakesTheHead(Next(s, NotifyOne(0)), 0);
      after := [NotifyOne(0)] + rest;
      RunCons(s, NotifyOne(0), rest);
    }
  }

  lemma {:induction false} NoneAboutToSleep(s: System)
    requires Formed(s) && LockInv(s) && s.p.t.list != []
    ensures forall w :: 0 <= w < |s.waits| ==> s.waits[w].Awake? || s.waits[w].Asleep?
  {
  }

  // ---------- At shutdown a wakeup can be lost ----------

  /** After _run was cleared a worker that neither sleeps nor is about to never will. */
  lemma {:induction false} StaysAwake(s: System, steps: seq<Step>, w: nat)
    requires Formed(s) && !s.p.run && (w < |s.waits| ==> s.waits[w].Awake?)
    ensures !SleepsAt(Run(s, steps), w)
    decreases |steps|
  {
    if steps != [] {
      NextStaysAwake(s, steps[0], w);
      StaysAwake(Next(s, steps[0]), steps[1..], w);
    }
  }

  lemma {:induction false} NextStaysAwake(s: System, step: Step, w: nat)
    requires Formed(s) && !s.p.run && (w < |s.waits| ==> s.waits[w].Awake?)
    ensures var r := Next(s, step); !r.p.run && (w < |r.waits| ==> r.waits[w].Awake?)
  {
    hide Agrees, Take, Enqueue, Cancel;
  }

  /**
   The destructor clears _run and notifies without the lock. A worker can be asleep after that notification exactly if
   it was about to sleep when it was given: it had seen _run still set and the queue empty.
   */
  lemma {:induction false} ShutdownWakeupIsLostIff(before: seq<Step>, w: nat)
    requires !Run(INITIAL, before).p.run && !Run(INITIAL, before).notified && w < |Run(INITIAL, before).waits|
    ensures var s := Run(INITIAL, before);
            (exists after :: SleepsAt(Run(Next(s, NotifyAll), after), w)) <==> s.waits[w].AboutToSleep?
  {
    var s := Run(INITIAL, before);
    var n := Next(s, NotifyAll);
    if s.waits[w].AboutToSleep? {
      assert LockInv(INITIAL);
      RunKeepsLockInv(INITIAL, before);
      FallsAsleep(n, w);
      RunOne(n, Act(P.Work(w)));
      assert SleepsAt(Run(n, [Act(P.Work(w))]), w);
    } else {
      forall after ensures !SleepsAt(Run(n, after), w) {
        StaysAwake(n, after, w);
      }
    }
  }

  lemma {:induction false} FallsAsleep(s: System, w: nat)
    requires Formed(s) && w < |s.waits| && s.waits[w].AboutToSleep? && s.p.workers[w].Waiting?
    ensures Next(s, Act(P.Work(w))) == s.(waits := s.waits[w := Asleep])
  {
  }

  lemma {:induction false} RunOne(s: System, step: Step)
    requires Formed(s)
    ensures Run(s, [step]) == Next(s, step)
  {
    assert [step][1..] == [];
  }

  /** The worker sleeps for ever, unless it wakes up for no reason. */
  ghost predicate Endless(s: System, w: nat)
    requires Formed(s)
  {
    forall after :: WakeUp(w) !in after ==> SleepsAt(Run(s, after), w)
  }

  /** The destructor has notified everybody, and no call of AddTask is left that could notify anybody. */
  ghost predicate NobodyNotifies(s: System) {
    !s.p.run && s.notified && s.notifying == 0 && s.p.pending == []
  }

  lemma {:induction false} NextStaysAsleep(s: System, step: Step, w: nat)
    requires Formed(s) && LockInv(s) && NobodyNotifies(s) && SleepsAt(s, w) && step != WakeUp(w)
    ensures NobodyNotifies(Next(s, step)) && SleepsAt(Next(s, step), w)
  {
    hide Agrees;
  }

  lemma {:induction false} StaysAsleep(s: System, steps: seq<Step>, w: nat)
    requires Formed(s) && LockInv(s) && NobodyNotifies(s) && SleepsAt(s, w) && WakeUp(w) !in steps
    ensures SleepsAt(Run(s, steps), w)
    decreases |steps|
  {
    hide Formed, LockInv, NobodyNotifies, SleepsAt, Next;
    if steps != [] {
      NextKeepsLockInv(s, steps[0]);
      NextStaysAsleep(s, steps[0], w);
      StaysAsleep(Next(s, steps[0]), steps[1..], w);
    }
  }

  lemma {:induction false} NotifiedWakes(s: System, w: nat)
    requires Formed(s) && s.notifying > 0 && SleepsAt(s, w)
    ensures !SleepsAt(Next(s, NotifyOne(w)), w)
  {
  }

  lemma {:induction false} SubmitNotifies(s: System)
    requires Formed(s) && !Locked(s) && s.p.pending != []
    ensures var r := Next(s, Act(P.Submit(0))); r.waits == s.waits && r.notifying == s.notifying + 1
  {
  }

  lemma {:induction false} RunTwo(s: System, a: Step, b: Step)
    requires Formed(s)
    ensures Run(s, [a, b]) == Next(Next(s, a), b)
  {
    assert [a, b][1..] == [b];
    RunOne(Next(s, a), b);
  }

  lemma {:induction false} RunThree(s: System, a: Step, b: Step, c: Step)
    requires Formed(s)
    ensures Run(s, [a, b, c]) == Next(Next(Next(s, a), b), c)
  {
    assert [a, b, c][1..] == [b, c];
    RunTwo(Next(s, a), b, c);
  }

  lemma {:induction false} LockIsFreed(s: System, v: nat)
    requires Formed(s) && LockInv(s) && v < |s.waits| && s.waits[v].AboutToSleep?
    ensures !Locked(Next(s, Act(P.Work(v))))
    ensures Next(s, Act(P.Work(v))) == s.(waits := s.waits[v := Asleep])
  {
    FallsAsleep(s, v);
  }

  lemma {:induction false} WakesAndLeaves(s: System, w: nat)
    requires Formed(s) && LockInv(s) && !Locked(s) && SleepsAt(s, w) && !s.p.run && s.p.t.list == []
    ensures var r := Next(Next(s, WakeUp(w)), Act(P.Work(w)));
            w < |r.p.workers| && r.p.workers[w].Exited?
  {
    hide Agrees;
    assert Next(s, WakeUp(w)).waits[w].Awake?;
  }

  /** A wakeup for no reason ends even a sleep that nobody else can end: after shutdown the worker then leaves. */
  lemma {:induction false} WakeupForNoReasonEndsSleep(before: seq<Step>, w: nat) returns (after: seq<Step>)
    requires var s := Run(INITIAL, before); !s.p.run && SleepsAt(s, w) && s.p.t.list == []
    ensures forall i :: 0 <= i < |after| ==> after[i] == WakeUp(w) || (after[i].Act? && after[i].step.Work?)
    ensures var r := Run(Run(INITIAL, before), after);
            w < |r.p.workers| && r.p.workers[w].Exited?
  {
    hide Agrees, LockInv, Next, Run;
    InitialFormed();
    RunKeepsLockInv(INITIAL, before);
    var s := Run(INITIAL, before);
    var wake, work := WakeUp(w), Act(P.Work(w));
    if v: nat :| v < |s.waits| && s.waits[v].AboutToSleep? {
      var sleep := Act(P.Work(v));
      LockIsFreed(s, v);
      NextKeepsLockInv(s, sleep);
      WakesAndLeaves(Next(s, sleep), w);
      RunThree(s, sleep, wake, work);
      after := [sleep, wake, work];
    } else {
      WakesAndLeaves(s, w);
      RunTwo(s, wake, work);
      after := [wake, work];
    }
  }

  /** As long as somebody can notify, some continuation wakes the sleeper, and not for no reason. */
  lemma {:induction false} CanBeWoken(s: System, w: nat) returns (after: seq<Step>)
    requires Formed(s) && LockInv(s) && !s.p.run && s.notified && !NobodyNotifies(s)
    ensures WakeUp(w) !in after && !SleepsAt(Run(s, after), w)
  {
    hide Agrees, Next, Run;
    var submit, notify := Act(P.Submit(0)), NotifyOne(w);
    if !SleepsAt(s, w) {
      after := [];
      RunNothing(s);
    } else if s.notifying > 0 {
      after := [notify];
      RunOne(s, notify);
      NotifiedWakes(s, w);
    } else if v :| 0 <= v < |s.waits| && s.waits[v].AboutToSleep? {
      after := [Act(P.Work(v)), submit, notify];
      RunThree(s, Act(P.Work(v)), submit, notify);
      LockIsFreed(s, v);
      SubmitNotifies(Next(s, Act(P.Work(v))));
      NotifiedWakes(Next(Next(s, Act(P.Work(v))), submit), w);
    } else {
      after := [submit, notify];
      RunTwo(s, submit, notify);
      SubmitNotifies(s);
      NotifiedWakes(Next(s, submit), w);
    }
  }

  /** After the notification of the destructor a sleep has no end exactly if no call of AddTask is left to notify. */
  lemma {:induction false} EndlessIff(s: System, w: nat)
    requires Formed(s) && LockInv(s) && !s.p.run && s.notified
    ensures Endless(s, w) <==> SleepsAt(s, w) && s.notifying == 0 && s.p.pending == []
  {
    if NobodyNotifies(s) {
      RunNothing(s);
      assert WakeUp(w) !in [];
      if SleepsAt(s, w) {
        forall after | WakeUp(w) !in after ensures SleepsAt(Run(s, after), w) {
          StaysAsleep(s, after, w);
        }
      }
    } else {
      var after := CanBeWoken(s, w);
    }
  }

  // ---------- Which worker may sleep for ever ----------

  /** Only w is asleep or about to be, and a call of AddTask is still to notify it. */
  ghost predicate WillBeCalled(s: System, w: nat) {
    && !s.p.run && s.notified
    && (forall v :: 0 <= v < |s.waits| && v != w ==> s.waits[v].Awake?)
    && (w < |s.waits| && s.waits[w].AboutToSleep? ==> s.p.pending != [])
    && (w < |s.waits| && s.waits[w].Asleep? ==> s.p.pending != [] || s.notifying > 0)
  }

  lemma {:induction false} ActKeepsWillBeCalled(s: System, step: P.Step, w: nat)
    requires Formed(s) && WillBeCalled(s, w)
    ensures WillBeCalled(Acts(s, step), w)
  {
    hide Agrees;
    if w < |s.waits| && s.waits[w].AboutToSleep? { assert Locked(s); }
  }

  lemma {:induction false} NextKeepsWillBeCalled(s: System, step: Step, w: nat)
    requires Formed(s) && WillBeCalled(s, w)
    ensures WillBeCalled(Next(s, step), w)
  {
    hide Agrees, Acts;
    match step
    case Act(a) =>
      hide WillBeCalled;
      ActKeepsWillBeCalled(s, a, w);
    case NotifyOne(v) => assert SleepsAt(s, w) ==> SomeoneSleeps(s);
    case _ =>
  }

  lemma {:induction false} RunKeepsWillBeCalled(s: System, steps: seq<Step>, w: nat)
    requires Formed(s) && WillBeCalled(s, w)
    ensures WillBeCalled(Run(s, steps), w)
    decreases |steps|
  {
    hide WillBeCalled, Next;
    if steps != [] {
      NextKeepsWillBeCalled(s, steps[0], w);
      RunKeepsWillBeCalled(Next(s, steps[0]), steps[1..], w);
    }
  }

  /** With nobody asleep yet, the notifications still to come are lost. */
  lemma {:induction false} NotificationsLost(s: System) returns (steps: seq<Step>)
    requires Formed(s) && !SomeoneSleeps(s)
    ensures Run(s, steps) == s.(notifying := 0)
    decreases s.notifying
  {
    if s.notifying == 0 {
      steps := [];
    } else {
      var r := s.(notifying := s.notifying - 1);
      assert !SleepsAt(s, 0) && Next(s, NotifyOne(0)) == r;
      assert !SomeoneSleeps(r) by { SameSleepers(s, r); }
      var rest := NotificationsLost(r);
      steps := [NotifyOne(0)] + rest;
      assert steps[1..] == rest;
    }
  }

  lemma {:induction false} AllNotified(s: System, w: nat)
    requires Formed(s) && !s.p.run && !s.notified
    ensures var n := Next(s, NotifyAll);
            && |n.waits| == |s.waits| && (w < |s.waits| && s.waits[w].AboutToSleep? ==> n.waits[w].AboutToSleep?)
            && n == s.(waits := Woken(s.waits), notified := true) && !SomeoneSleeps(n)
  {
  }

  lemma {:induction false} SleepsForEver(n: System, w: nat) returns (after: seq<Step>)
    requires Formed(n) && LockInv(n) && !n.p.run && n.notified && !SomeoneSleeps(n) && n.p.pending == []
    requires w < |n.waits| && n.waits[w].AboutToSleep?
    ensures Endless(Run(n, after), w)
  {
    var drain := NotificationsLost(n);
    var d := n.(notifying := 0);
    FallsAsleep(d, w);
    after := drain + [Act(P.Work(w))];
    RunSnoc(n, drain, Act(P.Work(w)));
    RunKeepsLockInv(n, after);
    EndlessIff(Run(n, after), w);
  }

  /**
   The destructor then waits in join for a worker that no notification will ever reach. That can happen to a worker
   exactly if it was about to sleep when the destructor notified, and no call of AddTask was past its check of _run.
   */
  lemma {:induction false} JoinCanWaitForEverIff(before: seq<Step>, w: nat)
    requires !Run(INITIAL, before).p.run && !Run(INITIAL, before).notified && w < |Run(INITIAL, before).waits|
    ensures var s := Run(INITIAL, before);
            (exists after :: Endless(Run(Next(s, NotifyAll), after), w))
            <==> s.waits[w].AboutToSleep? && s.p.pending == []
  {
    hide Agrees, Formed, LockInv, Next, Run, Endless;
    InitialFormed();
    RunKeepsLockInv(INITIAL, before);
    var s := Run(INITIAL, before);
    var n := Next(s, NotifyAll);
    AllNotified(s, w);
    NextKeepsLockInv(s, NotifyAll);
    if s.waits[w].AboutToSleep? && s.p.pending == [] {
      var after := SleepsForEver(n, w);
      assert Endless(Run(n, after), w);
    } else {
      forall after ensures !Endless(Run(n, after), w) {
        NotEndless(s, n, after, w);
      }
    }
  }

  lemma {:induction false} NotEndless(s: System, n: System, after: seq<Step>, w: nat)
    requires Formed(s) && LockInv(s) && !s.p.run && w < |s.waits| && Formed(n) && LockInv(n)
    requires n == s.(waits := Woken(s.waits), notified := true)
    requires !(s.waits[w].AboutToSleep? && s.p.pending == [])
    ensures !Endless(Run(n, after), w)
  {
    hide Agrees;
    var r := Run(n, after);
    RunNothing(r);
    assert WakeUp(w) !in [];
    RunKeepsLockInv(n, after);
    if s.waits[w].AboutToSleep? {
      assert WillBeCalled(n, w);
      RunKeepsWillBeCalled(n, after, w);
      EndlessIff(r, w);
    } else {
      StaysAwake(n, after, w);
    }
  }

  lemma {:induction false} RunSnoc(s: System, steps: seq<Step>, step: Step)
    requires Formed(s)
    ensures Run(s, steps + [step]) == Next(Run(s, steps), step)
    decreases |steps|
  {
    if steps == [] {
      assert (steps + [step])[1..] == [];
    } else {
      assert (steps + [step])[1..] == steps[1..] + [step];
      RunSnoc(Next(s, steps[0]), steps[1..], step);
    }
  }

  lemma {:induction false} Extend(steps: seq<Step>, step: Step) returns (longer: seq<Step>)
    requires Formed(INITIAL)
    ensures longer == steps + [step] && Run(INITIAL, longer) == Next(Run(INITIAL, steps), step)
  {
    longer := steps + [step];
    RunSnoc(INITIAL, steps, step);
  }

  lemma {:induction false} InitialFormed()
    ensures Formed(INITIAL) && LockInv(INITIAL)
  {
  }

  /** One worker, the queue empty, nothing to notify of. */
  ghost predicate OneWorker(s: System, pc: P.Pc, wait: Wait, run: bool) {
    s.waits == [wait] && s.p.workers == [pc] && s.p.t.list == [] && s.p.run == run
    && s.notifying == 0 && s.p.pending == [] && s.notified == !run
  }

  lemma {:induction false} SpawnOne()
    requires Formed(INITIAL)
    ensures OneWorker(Next(INITIAL, Act(P.Spawn)), P.AtLoop, Awake, true)
  {
  }

  lemma {:induction false} LooksAtRun(s: System)
    requires Formed(s) && OneWorker(s, P.AtLoop, Awake, true)
    ensures OneWorker(Next(s, Act(P.Work(0))), P.Waiting, Awake, true)
  {
    hide Agrees;
  }

  lemma {:induction false} SeesNothing(s: System)
    requires Formed(s) && OneWorker(s, P.Waiting, Awake, true)
    ensures OneWorker(Next(s, Act(P.Work(0))), P.Waiting, AboutToSleep, true)
  {
    hide Agrees;
    assert !Locked(s);
  }

  lemma {:induction false} DestructorNotifies(s: System)
    requires Formed(s) && OneWorker(s, P.Waiting, AboutToSleep, true)
    ensures OneWorker(Next(Next(s, Act(P.Shutdown)), NotifyAll), P.Waiting, AboutToSleep, false)
  {
    hide Agrees;
  }

  lemma {:induction false} OneFallsAsleep(s: System)
    requires Formed(s) && OneWorker(s, P.Waiting, AboutToSleep, false)
    ensures OneWorker(Next(s, Act(P.Work(0))), P.Waiting, Asleep, false)
  {
    hide Agrees;
  }

  /**
   The run that loses it: a worker sees _run set and the queue empty, the destructor clears _run and notifies everybody
   it finds asleep, then the worker sleeps. It sleeps for ever, unless it wakes up for no reason.
   */
  lemma {:induction false} ShutdownWakeupCanBeLost() returns (steps: seq<Step>)
    ensures var s := Run(INITIAL, steps);
            && !s.p.run && s.notified && s.waits == [Asleep] && s.p.t.list == []
            && s.notifying == 0 && s.p.pending == []
            && (forall after :: WakeUp(0) !in after ==> SleepsAt(Run(s, after), 0))
  {
    hide Formed, LockInv, Run, Next;
    InitialFormed();
    SpawnOne();
    var work := Act(P.Work(0));
    var a := Extend([], Act(P.Spawn));
    RunNothing(INITIAL);
    LooksAtRun(Run(INITIAL, a));
    var b := Extend(a, work);
    SeesNothing(Run(INITIAL, b));
    var c := Extend(b, work);
    DestructorNotifies(Run(INITIAL, c));
    var d := Extend(c, Act(P.Shutdown));
    var e := Extend(d, NotifyAll);
    OneFallsAsleep(Run(INITIAL, e));
    steps := Extend(e, work);
    RunKeepsLockInv(INITIAL, steps);
    EndlessIff(Run(INITIAL, steps), 0);
  }

  lemma {:induction false} RunNothing(s: System)
    requires Formed(s)
    ensures Run(s, []) == s
  {
  }
}
