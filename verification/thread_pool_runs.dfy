/**
 The thread pool under every interleaving. A step is one region under the lock or one atomic update, taken by any
 producer or worker; a wait returns whenever its predicate holds, so missed and spurious wakeups are both covered.
 A step that is not possible in the present state changes nothing.
 */
module ThreadPoolRuns {
  import opened TaskLists

  const THREADPOOL_MAX_NUM := 16

  /** Where a worker is in its loop. */
  datatype Pc =
    | AtLoop              // about to read _run
    | Waiting             // in the region under the lock
    | Holding(task: nat)  // took a task, _idlThrNum not yet decremented
    | Running(task: nat)  // between the decrement and the increment
    | Exited
  {
    predicate Has(id: nat) {
      (Holding? || Running?) && task == id
    }
  }

  datatype Pool = Pool(
    t: Tasks,
    run: bool,
    idle: int,
    workers: seq<Pc>,
    spawning: bool,       // addThread started a worker and has not counted it yet
    pending: seq<int>,    // calls of AddTask that have seen _run true, by descriptor
    fds: seq<int>,        // the descriptor of every accepted task
    dequeued: seq<nat>,   // in the order of dequeuing
    takenBy: seq<nat>,    // the worker of every dequeued task
    dropped: set<nat>,
    finished: set<nat>)

  datatype Step =
    | CheckRun(fd: int)      // AddTask reads _run
    | Submit(producer: nat)  // AddTask under the lock
    | CloseFd(fd: int)       // delCloseFD
    | Work(worker: nat)      // the next action of a worker
    | Spawn                  // addThread starts a worker
    | Count                  // addThread increments _idlThrNum
    | Shutdown               // the destructor clears _run

  const INITIAL := Pool(Tasks([], map[], 0), true, 0, [], false, [], [], [], [], {}, {})

  ghost function TakeTask(p: Pool, w: nat): (r: Pool)
    requires Agrees(p.t) && w < |p.workers| && p.t.list != []
    ensures Agrees(r.t)
  {
    TakeAgrees(p.t);
    var id := p.t.list[0].id;
    p.(t := Take(p.t), workers := p.workers[w := Holding(id)], dequeued := p.dequeued + [id], takenBy := p.takenBy + [w])
  }

  ghost function WorkerStep(p: Pool, w: nat): (r: Pool)
    requires Agrees(p.t) && w < |p.workers|
    ensures Agrees(r.t)
  {
    match p.workers[w]
    case AtLoop => p.(workers := p.workers[w := if p.run then Waiting else Exited])
    case Waiting =>
      if !p.run && p.t.list == [] then p.(workers := p.workers[w := Exited])
      else if p.t.list == [] then p
      else TakeTask(p, w)
    case Holding(id) => p.(idle := p.idle - 1, workers := p.workers[w := Running(id)])
    case Running(id) => p.(idle := p.idle + 1, workers := p.workers[w := AtLoop], finished := p.finished + {id})
    case Exited => p
  }

  ghost function Next(p: Pool, step: Step): (r: Pool)
    requires Agrees(p.t)
    ensures Agrees(r.t)
  {
    match step
    case CheckRun(fd) => if p.run then p.(pending := p.pending + [fd]) else p
    case Submit(i) =>
      if i >= |p.pending| then p else
      var fd := p.pending[i];
      EnqueueAgrees(p.t, fd);
      p.(t := Enqueue(p.t, fd), pending := p.pending[..i] + p.pending[i + 1..], fds := p.fds + [fd])
    case CloseFd(fd) =>
      CancelAgrees(p.t, fd);
      p.(t := Cancel(p.t, fd), dropped := p.dropped + set id | id in OfFd(p.t.list, fd))
    case Work(w) => if w < |p.workers| then WorkerStep(p, w) else p
    case Spawn =>
      if p.spawning || |p.workers| >= THREADPOOL_MAX_NUM then p
      else p.(workers := p.workers + [AtLoop], spawning := true)
    case Count => if p.spawning then p.(idle := p.idle + 1, spawning := false) else p
    case Shutdown => p.(run := false)
  }

  ghost function Run(p: Pool, steps: seq<Step>): (r: Pool)
    requires Agrees(p.t)
    ensures Agrees(r.t)
    decreases |steps|
  {
    if steps == [] then p else Run(Next(p, steps[0]), steps[1..])
  }

  // ---------- First in, first out, except for what was cancelled ----------

  /** The ids of the first n accepted tasks, in order, without the dropped ones. */
  function Kept(n: nat, dropped: set<nat>): seq<nat> {
    if n == 0 then [] else if n - 1 in dropped then Kept(n - 1, dropped) else Kept(n - 1, dropped) + [n - 1]
  }

  lemma {:induction false} KeptMembers(n: nat, dropped: set<nat>)
    ensures forall id: nat :: id in Kept(n, dropped) <==> id < n && id !in dropped
    ensures forall i, j :: 0 <= i < j < |Kept(n, dropped)| ==> Kept(n, dropped)[i] != Kept(n, dropped)[j]
  {
    if n > 0 {
      KeptMembers(n - 1, dropped);
      var ids := Kept(n - 1, dropped);
      assert forall i :: 0 <= i < |ids| ==> ids[i] in ids;
    }
  }

  ghost predicate Fifo(p: Pool) {
    && |p.fds| == p.t.accepted
    && (forall n :: n in p.t.list ==> n.id < |p.fds| && n.fd == p.fds[n.id])
    && (forall id :: id in p.dropped ==> id < p.t.accepted)
    && p.dequeued + Ids(p.t.list) == Kept(p.t.accepted, p.dropped)
  }

  function Strip(ids: seq<nat>, gone: set<nat>): seq<nat> {
    if ids == [] then []
    else if ids[0] in gone then Strip(ids[1..], gone)
    else [ids[0]] + Strip(ids[1..], gone)
  }

  lemma {:induction false} StripNothing(ids: seq<nat>, gone: set<nat>)
    requires forall id :: id in ids ==> id !in gone
    ensures Strip(ids, gone) == ids
  {
    if ids != [] { StripNothing(ids[1..], gone); }
  }

  lemma {:induction false} StripAppend(a: seq<nat>, b: seq<nat>, gone: set<nat>)
    ensures Strip(a + b, gone) == Strip(a, gone) + Strip(b, gone)
  {
    if a == [] {
      assert a + b == b;
    } else {
      assert (a + b)[0] == a[0] && (a + b)[1..] == a[1..] + b;
      StripAppend(a[1..], b, gone);
    }
  }

  lemma {:induction false} StripSnoc(ids: seq<nat>, id: nat, gone: set<nat>)
    ensures Strip(ids + [id], gone) == if id in gone then Strip(ids, gone) else Strip(ids, gone) + [id]
  {
    StripAppend(ids, [id], gone);
    assert [id][1..] == [];
  }

  lemma {:induction false} KeptStrips(n: nat, dropped: set<nat>, gone: set<nat>)
    ensures Kept(n, dropped + gone) == Strip(Kept(n, dropped), gone)
  {
    if n > 0 {
      KeptStrips(n - 1, dropped, gone);
      if n - 1 !in dropped { StripSnoc(Kept(n - 1, dropped), n - 1, gone); }
    }
  }

  lemma {:induction false} OthersStrip(list: seq<Node>, fd: int, gone: set<nat>)
    requires forall n :: n in list ==> (n.id in gone <==> n.fd == fd)
    ensures Ids(Others(list, fd)) == Strip(Ids(list), gone)
  {
    if list != [] {
      assert list == [list[0]] + list[1..];
      OthersStrip(list[1..], fd, gone);
      assert Ids(list)[1..] == Ids(list[1..]);
      if list[0].fd != fd { assert Others(list, fd)[1..] == Others(list[1..], fd); }
    }
  }

  lemma {:induction false} GoneExactly(list: seq<Node>, fd: int, bound: nat)
    requires Increasing(list, bound)
    ensures forall n :: n in list ==> (n.id in OfFd(list, fd) <==> n.fd == fd)
    ensures forall id :: id in OfFd(list, fd) ==> id in Ids(list) && id < bound
  {
    forall n | n in list ensures n.id in OfFd(list, fd) <==> n.fd == fd {
      IdsAreMembers(list, fd, n.id);
      var i :| 0 <= i < |list| && list[i] == n;
      if n.id in OfFd(list, fd) {
        var j :| 0 <= j < |list| && list[j] == Node(n.id, fd);
        assert i == j;
      }
    }
    forall id | id in OfFd(list, fd) ensures id in Ids(list) && id < bound {
      IdsAreMembers(list, fd, id);
    }
  }

  lemma {:induction false} CloseKeepsFifo(p: Pool, fd: int)
    requires Agrees(p.t) && Fifo(p)
    ensures Fifo(Next(p, CloseFd(fd)))
  {
    var gone := set id | id in OfFd(p.t.list, fd);
    CancelAgrees(p.t, fd);
    GoneExactly(p.t.list, fd, p.t.accepted);
    OthersStrip(p.t.list, fd, gone);
    OthersMembers(p.t.list, fd);
    KeptStrips(p.t.accepted, p.dropped, gone);
    StripAppend(p.dequeued, Ids(p.t.list), gone);
    DequeuedApart(p);
    StripNothing(p.dequeued, gone);
  }

  /** A dequeued task is neither queued nor dropped. */
  lemma {:induction false} DequeuedApart(p: Pool)
    requires Fifo(p)
    ensures forall id :: id in p.dequeued ==> id !in Ids(p.t.list) && id !in p.dropped && id < p.t.accepted
    ensures forall i, j :: 0 <= i < j < |p.dequeued| ==> p.dequeued[i] != p.dequeued[j]
    ensures forall id :: id in Ids(p.t.list) ==> id !in p.dropped
  {
    KeptMembers(p.t.accepted, p.dropped);
    var kept := Kept(p.t.accepted, p.dropped);
    var queued := Ids(p.t.list);
    assert forall i :: 0 <= i < |p.dequeued| ==> kept[i] == p.dequeued[i] && kept[i] in kept;
    assert forall i :: 0 <= i < |queued| ==> kept[|p.dequeued| + i] == queued[i] && kept[|p.dequeued| + i] in kept;
  }

  lemma {:induction false} SubmitKeepsFifo(p: Pool, i: nat)
    requires Agrees(p.t) && Fifo(p) && i < |p.pending|
    ensures Fifo(Next(p, Submit(i)))
  {
    var r := Next(p, Submit(i));
    EnqueueAgrees(p.t, p.pending[i]);
    assert Kept(r.t.accepted, r.dropped) == Kept(p.t.accepted, p.dropped) + [p.t.accepted];
    assert p.dequeued + (Ids(p.t.list) + [p.t.accepted]) == (p.dequeued + Ids(p.t.list)) + [p.t.accepted];
    forall n | n in r.t.list ensures n.id < |r.fds| && n.fd == r.fds[n.id] {
      assert n in p.t.list || n == Node(p.t.accepted, p.pending[i]);
    }
  }

  lemma {:induction false} TakeKeepsFifo(p: Pool, w: nat)
    requires Agrees(p.t) && Fifo(p) && w < |p.workers| && p.t.list != []
    ensures Fifo(TakeTask(p, w))
  {
    TakeAgrees(p.t);
  }

  lemma {:induction false} WorkKeepsFifo(p: Pool, w: nat)
    requires Agrees(p.t) && Fifo(p) && w < |p.workers|
    ensures Fifo(WorkerStep(p, w))
  {
    if p.workers[w].Waiting? && p.t.list != [] { TakeKeepsFifo(p, w); }
  }

  lemma {:induction false} NextKeepsFifo(p: Pool, step: Step)
    requires Agrees(p.t) && Fifo(p)
    ensures Fifo(Next(p, step))
  {
    match step
    case Submit(i) => if i < |p.pending| { SubmitKeepsFifo(p, i); }
    case CloseFd(fd) => CloseKeepsFifo(p, fd);
    case Work(w) => if w < |p.workers| { WorkKeepsFifo(p, w); }
    case _ =>
  }

  lemma {:induction false} RunKeepsFifo(p: Pool, steps: seq<Step>)
    requires Agrees(p.t) && Fifo(p)
    ensures Fifo(Run(p, steps))
    decreases |steps|
  {
    if steps != [] {
      NextKeepsFifo(p, steps[0]);
      RunKeepsFifo(Next(p, steps[0]), steps[1..]);
    }
  }

  /**
   In every state with the lock free: the index agrees with the queue, and what was dequeued followed by what is
   queued is the sequence of accepted tasks minus exactly the dropped ones.
   */
  lemma {:induction false} QueueIsFifo(steps: seq<Step>)
    ensures var p := Run(INITIAL, steps);
            && (forall fd :: p.t.Indexed(fd) == OfFd(p.t.list, fd))
            && p.dequeued + Ids(p.t.list) == Kept(p.t.accepted, p.dropped)
  {
    RunKeepsFifo(INITIAL, steps);
  }

  // ---------- Cancellation ----------

  lemma {:induction false} NextOnlyGrows(p: Pool, step: Step)
    requires Agrees(p.t)
    ensures var r := Next(p, step); p.dropped <= r.dropped && p.fds <= r.fds && p.dequeued <= r.dequeued
  {
  }

  lemma {:induction false} RunOnlyGrows(p: Pool, steps: seq<Step>)
    requires Agrees(p.t)
    ensures var r := Run(p, steps); p.dropped <= r.dropped && p.fds <= r.fds && p.dequeued <= r.dequeued
    decreases |steps|
  {
    if steps != [] {
      NextOnlyGrows(p, steps[0]);
      RunOnlyGrows(Next(p, steps[0]), steps[1..]);
    }
  }

  lemma {:induction false} CloseDropsTheRest(p: Pool, fd: int, id: nat)
    requires Agrees(p.t) && Fifo(p) && id < |p.fds| && p.fds[id] == fd
    ensures id in p.dequeued || id in Next(p, CloseFd(fd)).dropped
  {
    if id !in p.dequeued && id !in p.dropped {
      KeptMembers(p.t.accepted, p.dropped);
      assert id in p.dequeued + Ids(p.t.list);
      IdsAreMembers(p.t.list, fd, id);
      var i :| 0 <= i < |p.t.list| && p.t.list[i].id == id;
      assert p.t.list[i] in p.t.list;
      assert p.t.list[i] == Node(id, fd);
    }
  }

  lemma {:induction false} DroppedStaysUndequeued(c: Pool, steps: seq<Step>, id: nat)
    requires Agrees(c.t) && Fifo(c) && id in c.dropped
    ensures id !in Run(c, steps).dequeued
  {
    RunKeepsFifo(c, steps);
    RunOnlyGrows(c, steps);
    DequeuedApart(Run(c, steps));
  }

  /** Once delCloseFD(fd) returns, no task of fd accepted before it is dequeued any more. */
  lemma {:induction false} ClosedTasksNeverRun(before: seq<Step>, fd: int, after: seq<Step>, id: nat)
    requires id < |Run(INITIAL, before).fds| && Run(INITIAL, before).fds[id] == fd
    ensures var u := Run(Next(Run(INITIAL, before), CloseFd(fd)), after);
            id in u.dequeued ==> id in Run(INITIAL, before).dequeued
  {
    var p := Run(INITIAL, before);
    RunKeepsFifo(INITIAL, before);
    NextKeepsFifo(p, CloseFd(fd));
    CloseDropsTheRest(p, fd, id);
    if id !in p.dequeued { DroppedStaysUndequeued(Next(p, CloseFd(fd)), after, id); }
  }

  // ---------- Every accepted task has one place ----------

  ghost predicate HeldBy(p: Pool, w: nat, id: nat) {
    w < |p.workers| && p.workers[w].Has(id)
  }

  ghost predicate Placed(p: Pool) {
    && (forall w, id :: HeldBy(p, w, id) ==> id in p.dequeued && id !in p.finished)
    && (forall v, w, id :: HeldBy(p, v, id) && HeldBy(p, w, id) ==> v == w)
    && (forall id :: id in p.dequeued ==> id in p.finished || exists w :: HeldBy(p, w, id))
    && (forall id :: id in p.finished ==> id in p.dequeued)
  }

  lemma {:induction false} TakeKeepsPlaced(p: Pool, w: nat)
    requires Agrees(p.t) && Fifo(p) && Placed(p) && w < |p.workers| && p.workers[w].Waiting? && p.t.list != []
    ensures Placed(TakeTask(p, w))
  {
    var r := TakeTask(p, w);
    var taken := p.t.list[0].id;
    DequeuedApart(p);
    assert Ids(p.t.list)[0] == taken;
    forall v, id | v != w ensures HeldBy(r, v, id) <==> HeldBy(p, v, id) {}
    forall id ensures HeldBy(r, w, id) <==> id == taken {}
    forall id | id in r.dequeued ensures id in r.finished || exists v :: HeldBy(r, v, id) {
      if id == taken {
        assert HeldBy(r, w, id);
      } else if id !in p.finished {
        var v :| HeldBy(p, v, id);
        assert HeldBy(r, v, id);
      }
    }
  }

  lemma {:induction false} OtherWorkKeepsPlaced(p: Pool, w: nat)
    requires Agrees(p.t) && Placed(p) && w < |p.workers| && !(p.workers[w].Waiting? && p.t.list != [])
    ensures Placed(WorkerStep(p, w))
  {
    var r := WorkerStep(p, w);
    var pc := p.workers[w];
    forall v, id | v != w ensures HeldBy(r, v, id) <==> HeldBy(p, v, id) {}
    forall id ensures HeldBy(r, w, id) <==> HeldBy(p, w, id) && pc.Holding? {}
    forall id | id in r.dequeued ensures id in r.finished || exists v :: HeldBy(r, v, id) {
      if id !in p.finished {
        var v :| HeldBy(p, v, id);
        assert HeldBy(r, v, id) || id in r.finished;
      }
    }
    assert pc.Running? ==> HeldBy(p, w, pc.task);
  }

  lemma {:induction false} NextKeepsPlaced(p: Pool, step: Step)
    requires Agrees(p.t) && Fifo(p) && Placed(p)
    ensures Placed(Next(p, step))
  {
    if step.Work? && step.worker < |p.workers| {
      if p.workers[step.worker].Waiting? && p.t.list != [] {
        TakeKeepsPlaced(p, step.worker);
      } else {
        OtherWorkKeepsPlaced(p, step.worker);
      }
    } else {
      var r := Next(p, step);
      forall w, id ensures HeldBy(r, w, id) <==> HeldBy(p, w, id) {}
    }
  }

  lemma {:induction false} RunKeepsPlaced(p: Pool, steps: seq<Step>)
    requires Agrees(p.t) && Fifo(p) && Placed(p)
    ensures Placed(Run(p, steps))
    decreases |steps|
  {
    if steps != [] {
      NextKeepsFifo(p, steps[0]);
      NextKeepsPlaced(p, steps[0]);
      RunKeepsPlaced(Next(p, steps[0]), steps[1..]);
    }
  }

  /** Every accepted task is queued, held by exactly one worker, finished or dropped: exactly one of the four. */
  lemma {:induction false} EveryTaskHasOnePlace(steps: seq<Step>, id: nat)
    requires id < Run(INITIAL, steps).t.accepted
    ensures var p := Run(INITIAL, steps);
            var queued, held := id in Ids(p.t.list), exists w :: HeldBy(p, w, id);
            && (queued || held || id in p.finished || id in p.dropped)
            && !(queued && held) && !(queued && id in p.finished) && !(queued && id in p.dropped)
            && !(held && id in p.finished) && !(held && id in p.dropped) && !(id in p.finished && id in p.dropped)
    ensures forall v, w :: HeldBy(Run(INITIAL, steps), v, id) && HeldBy(Run(INITIAL, steps), w, id) ==> v == w
  {
    RunKeepsFifo(INITIAL, steps);
    RunKeepsPlaced(INITIAL, steps);
    var p := Run(INITIAL, steps);
    DequeuedApart(p);
    KeptMembers(p.t.accepted, p.dropped);
    if id !in p.dropped {
      assert id in p.dequeued + Ids(p.t.list);
    }
  }

  // ---------- Shutdown ----------

  /** A worker already past its check of _run may still dequeue once. */
  function Credit(p: Pool, w: nat): nat {
    if w < |p.workers| && p.workers[w].Waiting? then 1 else 0
  }

  function Taken(takenBy: seq<nat>, w: nat): nat {
    multiset(takenBy)[w]
  }

  lemma {:induction false} WorkSpendsCredit(p: Pool, v: nat, w: nat)
    requires Agrees(p.t) && !p.run && v < |p.workers|
    ensures var r := WorkerStep(p, v);
            Taken(r.takenBy, w) + Credit(r, w) <= Taken(p.takenBy, w) + Credit(p, w)
  {
    hide Agrees, Take;
    assert multiset(p.takenBy + [v]) == multiset(p.takenBy) + multiset{v};
  }

  lemma {:induction false} NextSpendsCredit(p: Pool, step: Step, w: nat)
    requires Agrees(p.t) && !p.run
    ensures var r := Next(p, step);
            !r.run && Taken(r.takenBy, w) + Credit(r, w) <= Taken(p.takenBy, w) + Credit(p, w)
  {
    if step.Work? && step.worker < |p.workers| { WorkSpendsCredit(p, step.worker, w); }
  }

  lemma {:induction false} RunSpendsCredit(p: Pool, steps: seq<Step>, w: nat)
    requires Agrees(p.t) && !p.run
    ensures Taken(Run(p, steps).takenBy, w) + Credit(Run(p, steps), w) <= Taken(p.takenBy, w) + Credit(p, w)
    decreases |steps|
  {
    if steps != [] {
      NextSpendsCredit(p, steps[0], w);
      RunSpendsCredit(Next(p, steps[0]), steps[1..], w);
    }
  }

  /** After _run became false each worker dequeues at most one more task, and one started after that none. */
  lemma {:induction false} AtMostOneMoreAfterShutdown(before: seq<Step>, after: seq<Step>, w: nat)
    ensures var p := Next(Run(INITIAL, before), Shutdown);
            Taken(Run(p, after).takenBy, w) <= Taken(p.takenBy, w) + if w < |p.workers| then 1 else 0
  {
    RunSpendsCredit(Next(Run(INITIAL, before), Shutdown), after, w);
  }

  function Waiters(workers: seq<Pc>): nat {
    if workers == [] then 0 else (if workers[0].Waiting? then 1 else 0) + Waiters(workers[1..])
  }

  function Runners(workers: seq<Pc>): nat {
    if workers == [] then 0 else (if workers[0].Running? then 1 else 0) + Runners(workers[1..])
  }

  lemma {:induction false} CountsUpdate(workers: seq<Pc>, w: nat, pc: Pc)
    requires w < |workers|
    ensures Waiters(workers[w := pc]) + (if workers[w].Waiting? then 1 else 0)
            == Waiters(workers) + if pc.Waiting? then 1 else 0
    ensures Runners(workers[w := pc]) + (if workers[w].Running? then 1 else 0)
            == Runners(workers) + if pc.Running? then 1 else 0
  {
    if w == 0 {
      assert workers[0 := pc][1..] == workers[1..];
    } else {
      assert workers[w := pc][1..] == workers[1..][w - 1 := pc];
      CountsUpdate(workers[1..], w - 1, pc);
    }
  }

  lemma {:induction false} CountsSnoc(workers: seq<Pc>)
    ensures Waiters(workers + [AtLoop]) == Waiters(workers) <= |workers|
    ensures Runners(workers + [AtLoop]) == Runners(workers) <= |workers|
  {
    if workers == [] {
      assert (workers + [AtLoop])[1..] == [];
    } else {
      assert (workers + [AtLoop])[1..] == workers[1..] + [AtLoop];
      CountsSnoc(workers[1..]);
    }
  }

  lemma {:induction false} WorkSpendsWaiters(p: Pool, w: nat)
    requires Agrees(p.t) && !p.run && w < |p.workers|
    ensures var r := WorkerStep(p, w);
            !r.run && |r.dequeued| + Waiters(r.workers) <= |p.dequeued| + Waiters(p.workers)
  {
    hide Agrees, Take;
    CountsUpdate(p.workers, w, WorkerStep(p, w).workers[w]);
  }

  lemma {:induction false} NextSpendsWaiters(p: Pool, step: Step)
    requires Agrees(p.t) && !p.run
    ensures var r := Next(p, step);
            !r.run && |r.dequeued| + Waiters(r.workers) <= |p.dequeued| + Waiters(p.workers)
  {
    hide Agrees, Take, Enqueue, Cancel, WorkerStep;
    match step
    case Spawn => CountsSnoc(p.workers);
    case Work(w) => if w < |p.workers| { WorkSpendsWaiters(p, w); }
    case _ =>
  }

  lemma {:induction false} RunSpendsWaiters(p: Pool, steps: seq<Step>)
    requires Agrees(p.t) && !p.run
    ensures |Run(p, steps).dequeued| + Waiters(Run(p, steps).workers) <= |p.dequeued| + Waiters(p.workers)
    decreases |steps|
  {
    if steps != [] {
      NextSpendsWaiters(p, steps[0]);
      RunSpendsWaiters(Next(p, steps[0]), steps[1..]);
    }
  }

  // ---------- The idle count ----------

  ghost predicate IdleCounts(p: Pool) {
    && |p.workers| <= THREADPOOL_MAX_NUM
    && (p.spawning ==> p.workers != [])
    && p.idle == |p.workers| - (if p.spawning then 1 else 0) - Runners(p.workers)
  }

  lemma {:induction false} WorkKeepsIdle(p: Pool, w: nat)
    requires Agrees(p.t) && IdleCounts(p) && w < |p.workers|
    ensures IdleCounts(WorkerStep(p, w))
  {
    hide Agrees, Take;
    CountsUpdate(p.workers, w, WorkerStep(p, w).workers[w]);
  }

  lemma {:induction false} NextKeepsIdle(p: Pool, step: Step)
    requires Agrees(p.t) && IdleCounts(p)
    ensures IdleCounts(Next(p, step))
  {
    hide Agrees, Take, Enqueue, Cancel, WorkerStep;
    match step
    case Spawn => CountsSnoc(p.workers);
    case Work(w) => if w < |p.workers| { WorkKeepsIdle(p, w); }
    case _ =>
  }

  lemma {:induction false} RunKeepsIdle(p: Pool, steps: seq<Step>)
    requires Agrees(p.t) && IdleCounts(p)
    ensures IdleCounts(Run(p, steps))
    decreases |steps|
  {
    if steps != [] {
      NextKeepsIdle(p, steps[0]);
      RunKeepsIdle(Next(p, steps[0]), steps[1..]);
    }
  }

  /** `_idlThrNum` is the counted workers minus those between the two updates, so it stays in -1 .. 16. */
  lemma {:induction false} IdleCountInRange(steps: seq<Step>)
    ensures var p := Run(INITIAL, steps);
            && p.idle == |p.workers| - (if p.spawning then 1 else 0) - Runners(p.workers)
            && -1 <= p.idle <= 16 && |p.workers| <= 16
  {
    RunKeepsIdle(INITIAL, steps);
    CountsSnoc(Run(INITIAL, steps).workers);
  }

  /**
   A count of idle threads is negative exactly while addThread has started a worker that it has not counted yet and
   every worker is between its decrement and its increment.
   */
  lemma {:induction false} IdleCountNegativeIff(steps: seq<Step>)
    ensures var p := Run(INITIAL, steps);
            && (p.idle < 0 <==> p.spawning && Runners(p.workers) == |p.workers|)
            && (!p.spawning ==> p.idle >= 0)
  {
    RunKeepsIdle(INITIAL, steps);
    CountsSnoc(Run(INITIAL, steps).workers);
  }

  /** At most 16 tasks are dequeued after _run became false, whatever is queued. */
  lemma {:induction false} AtMostSixteenAfterShutdown(before: seq<Step>, after: seq<Step>)
    ensures var p := Next(Run(INITIAL, before), Shutdown);
            |Run(p, after).dequeued| <= |p.dequeued| + 16
  {
    var p := Next(Run(INITIAL, before), Shutdown);
    RunKeepsIdle(INITIAL, before);
    RunSpendsWaiters(p, after);
    CountsSnoc(p.workers);
  }

  lemma {:induction false} RunAppend(p: Pool, a: seq<Step>, b: seq<Step>)
    requires Agrees(p.t)
    ensures Run(p, a + b) == Run(Run(p, a), b)
    decreases |a|
  {
    if a == [] {
      assert a + b == b;
    } else {
      assert (a + b)[0] == a[0] && (a + b)[1..] == a[1..] + b;
      RunAppend(Next(p, a[0]), a[1..], b);
    }
  }

  lemma {:induction false} InitialAgrees()
    ensures Agrees(INITIAL.t)
  {
  }

  lemma {:induction false} Extend(steps: seq<Step>, step: Step) returns (longer: seq<Step>)
    requires Agrees(INITIAL.t)
    ensures longer == steps + [step] && Run(INITIAL, longer) == Next(Run(INITIAL, steps), step)
  {
    longer := steps + [step];
    RunAppend(INITIAL, steps, [step]);
    assert [step][1..] == [];
  }

  /** One task of descriptor 3 is queued, and nobody works yet. */
  ghost predicate OneTask(p: Pool) {
    p.workers == [] && p.t.list == [Node(0, 3)] && p.run && p.idle == 0 && !p.spawning
  }

  lemma {:induction false} SubmitOne()
    requires Agrees(INITIAL.t)
    ensures OneTask(Next(Next(INITIAL, CheckRun(3)), Submit(0)))
  {
    var checked := Next(INITIAL, CheckRun(3));
    assert checked.pending == [3] && checked.t == INITIAL.t;
    assert Enqueue(INITIAL.t, 3).list == [Node(0, 3)];
  }

  /** The worker took the task and counted itself out before addThread counted it in. */
  lemma {:induction false} SpawnedWorkerRuns(p: Pool)
    requires Agrees(p.t) && OneTask(p)
    ensures Next(Next(Next(Next(p, Spawn), Work(0)), Work(0)), Work(0)).idle == -1
  {
    var spawned := Next(p, Spawn);
    assert spawned.workers == [AtLoop];
    var waiting := Next(spawned, Work(0));
    assert waiting.workers == [Waiting];
    var holding := Next(waiting, Work(0));
    assert holding.workers == [Holding(0)] && holding.idle == 0;
  }

  /** The lower end is reached: a worker takes a task before addThread has counted it. */
  lemma {:induction false} IdleCountCanBeNegative()
    ensures exists steps :: Run(INITIAL, steps).idle == -1
  {
    hide Agrees, Next, OneTask;
    InitialAgrees();
    SubmitOne();
    var a := Extend([], CheckRun(3));
    var b := Extend(a, Submit(0));
    SpawnedWorkerRuns(Run(INITIAL, b));
    var c := Extend(b, Spawn);
    var d := Extend(c, Work(0));
    var e := Extend(d, Work(0));
    var f := Extend(e, Work(0));
    assert Run(INITIAL, f).idle == -1;
  }
}
