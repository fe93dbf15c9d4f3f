/** What a worker does step by step, that workers go on until shutdown, and that a queued task can always be taken. */
module ThreadPoolProgress {
  import opened TaskLists
  import opened ThreadPoolRuns

  // ---------- One step ----------

  /** The pool as it was, except for the place of one worker. */
  ghost predicate Moves(p: Pool, r: Pool, w: nat, pc: Pc) {
    w < |p.workers| && r == p.(workers := p.workers[w := pc])
  }

  /**
   The loop of a worker. It enters the region under the lock as long as it sees _run set, and leaves otherwise. There it
   takes the head of the queue if there is one, also after shutdown; with an empty queue it leaves after shutdown and
   waits before. With a task it counts itself out, runs it, counts itself in, and goes back to the head of the loop.
   */
  lemma {:induction false} WorkerLoop(p: Pool, w: nat)
    requires Agrees(p.t) && w < |p.workers|
    ensures var r := Next(p, Work(w));
            match p.workers[w]
            case AtLoop => Moves(p, r, w, if p.run then Waiting else Exited)
            case Waiting =>
              if p.t.list != [] then
                var id := p.t.list[0].id;
                && r.workers == p.workers[w := Holding(id)] && r.t.list == p.t.list[1..]
                && r.dequeued == p.dequeued + [id] && r.takenBy == p.takenBy + [w]
                && r.run == p.run && r.idle == p.idle && r.finished == p.finished && r.dropped == p.dropped
              else if p.run then r == p
              else Moves(p, r, w, Exited)
            case Holding(id) => r == p.(idle := p.idle - 1, workers := p.workers[w := Running(id)])
            case Running(id) =>
              r == p.(idle := p.idle + 1, workers := p.workers[w := AtLoop], finished := p.finished + {id})
            case Exited => r == p
  {
    hide Agrees;
  }

  // ---------- Workers go on ----------

  ghost predicate NobodyExited(p: Pool) {
    p.run ==> forall w :: 0 <= w < |p.workers| ==> !p.workers[w].Exited?
  }

  lemma {:induction false} NextKeepsWorkers(p: Pool, step: Step)
    requires Agrees(p.t) && NobodyExited(p)
    ensures NobodyExited(Next(p, step))
  {
    hide Agrees, Take, Enqueue, Cancel;
  }

  lemma {:induction false} RunKeepsWorkers(p: Pool, steps: seq<Step>)
    requires Agrees(p.t) && NobodyExited(p)
    ensures NobodyExited(Run(p, steps))
    decreases |steps|
  {
    hide Agrees, Next, NobodyExited;
    if steps != [] {
      NextKeepsWorkers(p, steps[0]);
      RunKeepsWorkers(Next(p, steps[0]), steps[1..]);
    }
  }

  /** Over every run no worker leaves its loop before shutdown, however many tasks it has run. */
  lemma {:induction false} WorkersGoOnUntilShutdown(steps: seq<Step>, w: nat)
    requires Run(INITIAL, steps).run && w < |Run(INITIAL, steps).workers|
    ensures !Run(INITIAL, steps).workers[w].Exited?
  {
    RunKeepsWorkers(INITIAL, steps);
  }

  // ---------- A queued task can be taken ----------

  /** The distance of a worker from the region under the lock. */
  function Distance(pc: Pc): nat {
    match pc
    case Waiting => 0
    case AtLoop => 1
    case Running(_) => 2
    case Holding(_) => 3
    case Exited => 4
  }

  /** Only its own steps, and it is at the lock. */
  lemma {:induction false} ReachesLock(p: Pool, w: nat) returns (steps: seq<Step>)
    requires Agrees(p.t) && p.run && w < |p.workers| && !p.workers[w].Exited?
    ensures forall i :: 0 <= i < |steps| ==> steps[i] == Work(w)
    ensures var r := Run(p, steps);
            && r.t == p.t && r.dequeued == p.dequeued && r.run
            && |r.workers| == |p.workers| && r.workers[w].Waiting?
    decreases Distance(p.workers[w])
  {
    hide Agrees;
    if p.workers[w].Waiting? {
      steps := [];
    } else {
      WorkerLoop(p, w);
      var r := Next(p, Work(w));
      assert r.t == p.t && r.dequeued == p.dequeued && r.run;
      var rest := ReachesLock(r, w);
      steps := [Work(w)] + rest;
      assert steps[1..] == rest;
    }
  }

  lemma {:induction false} RunLast(p: Pool, steps: seq<Step>, step: Step)
    requires Agrees(p.t)
    ensures Run(p, steps + [step]) == Next(Run(p, steps), step)
  {
    RunAppend(p, steps, [step]);
    assert [step][1..] == [];
  }

  /**
   Progress, from every reachable state before shutdown: as long as a task is queued, every worker, by its own steps alone
   and whatever it is doing now, comes to take the head of the queue.
   */
  lemma {:induction false} EveryWorkerCanTakeTheHead(before: seq<Step>, w: nat) returns (after: seq<Step>)
    requires Run(INITIAL, before).run && Run(INITIAL, before).t.list != [] && w < |Run(INITIAL, before).workers|
    ensures forall i :: 0 <= i < |after| ==> after[i] == Work(w)
    ensures var p, r := Run(INITIAL, before), Run(Run(INITIAL, before), after);
            && r.dequeued == p.dequeued + [p.t.list[0].id] && r.t.list == p.t.list[1..]
            && |r.workers| == |p.workers| && r.workers[w] == Holding(p.t.list[0].id)
  {
    hide Agrees, Next;
    InitialAgrees();
    WorkersGoOnUntilShutdown(before, w);
    var p := Run(INITIAL, before);
    var steps := ReachesLock(p, w);
    WorkerLoop(Run(p, steps), w);
    RunLast(p, steps, Work(w));
    after := steps + [Work(w)];
  }

  // ---------- Shutdown ----------

  ghost predicate NothingNew(p: Pool, r: Pool) {
    !r.run && r.t.accepted + |r.pending| == p.t.accepted + |p.pending|
  }

  lemma {:induction false} NextTakesNothingNew(p: Pool, step: Step)
    requires Agrees(p.t) && !p.run
    ensures NothingNew(p, Next(p, step))
  {
    hide Agrees, WorkerStep;
    if step.Work? && step.worker < |p.workers| { WorkTakesNothingNew(p, step.worker); }
  }

  lemma {:induction false} WorkTakesNothingNew(p: Pool, w: nat)
    requires Agrees(p.t) && w < |p.workers|
    ensures var r := WorkerStep(p, w); r.run == p.run && r.t.accepted == p.t.accepted && r.pending == p.pending
  {
    hide Agrees;
  }

  lemma {:induction false} RunTakesNothingNew(p: Pool, steps: seq<Step>)
    requires Agrees(p.t) && !p.run
    ensures NothingNew(p, Run(p, steps))
    decreases |steps|
  {
    hide Agrees, Next;
    if steps != [] {
      NextTakesNothingNew(p, steps[0]);
      RunTakesNothingNew(Next(p, steps[0]), steps[1..]);
    }
  }

  /** After shutdown only calls of AddTask already past their check are accepted, each at most once. */
  lemma {:induction false} NothingIsAcceptedAfterShutdown(before: seq<Step>, after: seq<Step>)
    ensures var p := Next(Run(INITIAL, before), Shutdown);
            var r := Run(p, after);
            && p.t.accepted <= r.t.accepted <= p.t.accepted + |p.pending|
            && (p.pending == [] ==> r.t.accepted == p.t.accepted)
  {
    var p := Next(Run(INITIAL, before), Shutdown);
    RunTakesNothingNew(p, after);
    RunOnlyGrows(p, after);
    RunKeepsFifo(INITIAL, before);
    NextKeepsFifo(Run(INITIAL, before), Shutdown);
    RunKeepsFifo(p, after);
  }

  /** A worker that was in the region under the lock at shutdown still takes a task, if there is one. */
  lemma {:induction false} OneMoreAfterShutdownIsTaken(before: seq<Step>, w: nat)
    requires var p := Next(Run(INITIAL, before), Shutdown);
             w < |p.workers| && p.workers[w].Waiting? && p.t.list != []
    ensures var p := Next(Run(INITIAL, before), Shutdown);
            Next(p, Work(w)).dequeued == p.dequeued + [p.t.list[0].id]
  {
    WorkerLoop(Next(Run(INITIAL, before), Shutdown), w);
  }

  // ---------- Cancellation ----------

  /** A task is dropped only by delCloseFD of its own descriptor, while it is queued. */
  lemma {:induction false} OnlyItsDescriptorDrops(p: Pool, step: Step, id: nat)
    requires Agrees(p.t) && Fifo(p) && id !in p.dropped && id in Next(p, step).dropped
    ensures id < |p.fds| && step == CloseFd(p.fds[id]) && id in Ids(p.t.list)
  {
    match step
    case CloseFd(fd) =>
      GoneExactly(p.t.list, fd, p.t.accepted);
      IdsAreMembers(p.t.list, fd, id);
      var i :| 0 <= i < |p.t.list| && p.t.list[i] == Node(id, fd);
      assert p.t.list[i] in p.t.list;
    case Work(w) =>
      hide Fifo;
      if w < |p.workers| { WorkDropsNothing(p, w); }
    case _ =>
  }

  lemma {:induction false} WorkDropsNothing(p: Pool, w: nat)
    requires Agrees(p.t) && w < |p.workers|
    ensures WorkerStep(p, w).dropped == p.dropped
  {
    hide Agrees;
  }

  /** So over a whole run every dropped task was closed with its descriptor. */
  lemma {:induction false} DroppedOnlyByClosing(steps: seq<Step>, id: nat)
    requires id in Run(INITIAL, steps).dropped
    ensures id < |Run(INITIAL, steps).fds| && CloseFd(Run(INITIAL, steps).fds[id]) in steps
    decreases |steps|
  {
    hide Agrees, Next, Fifo;
    InitialAgrees();
    if steps != [] {
      var before, step := steps[..|steps| - 1], steps[|steps| - 1];
      assert before + [step] == steps;
      RunLast(INITIAL, before, step);
      var p := Run(INITIAL, before);
      NextOnlyGrows(p, step);
      if id in p.dropped {
        DroppedOnlyByClosing(before, id);
      } else {
        InitialFifo();
        RunKeepsFifo(INITIAL, before);
        OnlyItsDescriptorDrops(p, step, id);
      }
    }
  }

  lemma {:induction false} InitialFifo()
    ensures Fifo(INITIAL)
  {
  }

  // ---------- The number of workers ----------

  lemma {:induction false} SpawnAndCount(p: Pool)
    requires Agrees(p.t) && !p.spawning && |p.workers| < 16
    ensures var r := Next(Next(p, Spawn), Count);
            && r.workers == p.workers + [AtLoop] && r.idle == p.idle + 1 && !r.spawning && r.run == p.run
  {
    hide Agrees;
  }

  lemma {:induction false} GrowsTo(n: nat) returns (steps: seq<Step>)
    requires n <= 16
    ensures var p := Run(INITIAL, steps); |p.workers| == n && p.idle == n && !p.spawning && p.run
  {
    InitialAgrees();
    if n == 0 {
      steps := [];
    } else {
      var fewer := GrowsTo(n - 1);
      hide Agrees, Next, Run;
      var started := Extend(fewer, Spawn);
      steps := Extend(started, Count);
      SpawnAndCount(Run(INITIAL, fewer));
    }
  }

  /** addThread can start 16 workers, and with so many it starts no more. */
  lemma {:induction false} SixteenWorkers() returns (steps: seq<Step>)
    ensures |Run(INITIAL, steps).workers| == 16 && Run(INITIAL, steps).idle == 16
    ensures Next(Run(INITIAL, steps), Spawn) == Run(INITIAL, steps)
  {
    steps := GrowsTo(16);
  }
}
