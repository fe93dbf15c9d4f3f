/** Every created timer is in the indexes, in the expired batch or deleted: exactly one of the three, over whole runs. */
module TimerOwnership {
  import opened TimerStamps
  import opened TimerSpec
  import opened TimerInvariant
  import opened TimerSystem

  ghost predicate Alive(q: Queue, id: int) {
    exists p :: p in q.store && q.store[p].sequence == id
  }

  /** The log tells the life of every timer: created once and first, deleted at most once and last. */
  ghost predicate History(q: Queue) {
    && (forall i :: 0 <= i < |q.log| ==> 0 <= q.log[i].id < q.numCreated)
    && (forall i :: 0 <= i < |q.log| && q.log[i].Deleted? ==> !Alive(q, q.log[i].id))
    && (forall i, j :: 0 <= i < j < |q.log| && q.log[i].Deleted? ==> q.log[j].id != q.log[i].id)
    && (forall i, j :: 0 <= i < j < |q.log| && q.log[j].Created? ==> q.log[j].id != q.log[i].id)
    && (forall id :: 0 <= id < q.numCreated ==> Created(id) in q.log && (Alive(q, id) || Deleted(id) in q.log))
  }

  lemma {:induction false} SameTimersKeepHistory(q: Queue, r: Queue)
    requires History(q)
    requires r.log == q.log && r.numCreated == q.numCreated && r.store.Keys == q.store.Keys
    requires forall p :: p in q.store ==> r.store[p].sequence == q.store[p].sequence
    ensures History(r)
  {
    forall id ensures Alive(r, id) <==> Alive(q, id) {
      if Alive(q, id) {
        var p :| p in q.store && q.store[p].sequence == id;
        assert p in r.store;
      }
      if Alive(r, id) {
        var p :| p in r.store && r.store[p].sequence == id;
        assert p in q.store;
      }
    }
  }

  lemma {:induction false} NewAlive(q: Queue, when: Stamp, interval: real, p: Address)
    requires p !in q.store
    ensures Alive(New(q, when, interval, p), q.numCreated)
    ensures forall id :: id != q.numCreated ==> (Alive(New(q, when, interval, p), id) <==> Alive(q, id))
  {
    var r := New(q, when, interval, p);
    forall id | id != q.numCreated ensures Alive(r, id) <==> Alive(q, id) {
      if Alive(q, id) {
        var x :| x in q.store && q.store[x].sequence == id;
        assert x in r.store && r.store[x].sequence == id;
      }
    }
    assert r.store[p].sequence == q.numCreated;
  }

  lemma {:induction false} NewKeepsHistory(q: Queue, when: Stamp, interval: real, p: Address)
    requires History(q) && p !in q.store && q.numCreated >= 0
    ensures History(New(q, when, interval, p))
  {
    NewAlive(q, when, interval, p);
    CreatedHistory(q, New(q, when, interval, p));
  }

  lemma {:induction false} CreatedHistory(q: Queue, r: Queue)
    requires History(q) && r.log == q.log + [Created(q.numCreated)] && r.numCreated == q.numCreated + 1 >= 1
    requires Alive(r, q.numCreated) && forall id :: id != q.numCreated ==> (Alive(r, id) <==> Alive(q, id))
    ensures History(r)
  {
    hide Alive;
    MoreTold(q.log, Created(q.numCreated));
    forall id | 0 <= id < r.numCreated ensures Created(id) in r.log && (Alive(r, id) || Deleted(id) in r.log) {
      if id < q.numCreated { assert Created(id) in q.log; }
    }
  }

  /** What the log tells it still tells when it goes on. */
  lemma {:induction false} MoreTold(log: seq<Event>, e: Event)
    ensures e in log + [e] && forall x :: x in log ==> x in log + [e]
  {
    assert (log + [e])[|log|] == e;
  }

  lemma {:induction false} DeleteAlive(q: Queue, p: Address)
    requires p in q.store
    requires forall r :: r in q.store && r != p ==> q.store[r].sequence != q.store[p].sequence
    ensures Alive(q, q.store[p].sequence) && !Alive(Delete(q, p), q.store[p].sequence)
    ensures forall id :: id != q.store[p].sequence ==> (Alive(Delete(q, p), id) <==> Alive(q, id))
  {
    var r := Delete(q, p);
    forall id | id != q.store[p].sequence ensures Alive(r, id) <==> Alive(q, id) {
      if Alive(q, id) {
        var x :| x in q.store && q.store[x].sequence == id;
        assert x in r.store && r.store[x].sequence == id;
      }
    }
  }

  lemma {:induction false} DeleteKeepsHistory(q: Queue, p: Address)
    requires History(q) && p in q.store && 0 <= q.store[p].sequence < q.numCreated
    requires forall r :: r in q.store && r != p ==> q.store[r].sequence != q.store[p].sequence
    ensures History(Delete(q, p))
  {
    hide Alive;
    DeleteAlive(q, p);
    MoreTold(q.log, Deleted(q.store[p].sequence));
  }

  lemma {:induction false} StartAlive(q: Queue, p: Address, now: Stamp)
    requires p in q.store
    ensures Alive(q, q.store[p].sequence) && forall id :: Alive(Start(q, p, now), id) <==> Alive(q, id)
  {
    forall id ensures Alive(Start(q, p, now), id) <==> Alive(q, id) {}
  }

  lemma {:induction false} StartKeepsHistory(q: Queue, p: Address, now: Stamp)
    requires History(q) && p in q.store && 0 <= q.store[p].sequence < q.numCreated
    ensures History(Start(q, p, now))
  {
    hide Alive;
    StartAlive(q, p, now);
    MoreTold(q.log, Started(q.store[p].sequence, q.store[p].interval, now));
  }

  lemma {:induction false} SettleKeepsHistory(q: Queue, batch: seq<Entry>, now: Stamp)
    requires Owned(q, batch) && batch != [] && History(q)
    ensures History(Settle(q, batch[0].timer, now))
  {
    var p := batch[0].timer;
    if q.store[p].RepeatTimer() && q.store[p].sequence !in q.canceling {
      SameTimersKeepHistory(q, Settle(q, p, now));
    } else {
      forall r | r in q.store && r != p ensures q.store[r].sequence != q.store[p].sequence {
        OneTimerPerId(q, batch, r, p);
      }
      DeleteKeepsHistory(q, p);
    }
  }

  lemma {:induction false} SettleAllKeepsHistory(q: Queue, batch: seq<Entry>, now: Stamp)
    requires Owned(q, batch) && History(q)
    ensures History(SettleAll(q, batch, now))
    decreases |batch|
  {
    if batch != [] {
      SettleKeepsOwned(q, batch, now);
      SettleKeepsHistory(q, batch, now);
      SettleAllKeepsHistory(Settle(q, batch[0].timer, now), batch[1..], now);
    }
  }

  lemma {:induction false} AddKeepsHistory(q: Queue, when: Stamp, interval: real, hint: Address, at: Stamp)
    requires History(q) && q.numCreated >= 0
    ensures History(AddTimer(q, when, interval, hint, at))
  {
    hide History, HowMuchTimeFromNow, InsertEntry;
    var p := Allocate(q.store.Keys, hint);
    NewKeepsHistory(q, when, interval, p);
    SameTimersKeepHistory(New(q, when, interval, p), AddTimer(q, when, interval, hint, at));
  }

  lemma {:induction false} StopKeepsHistory(q: Queue, batch: seq<Entry>, id: int)
    requires Owned(q, batch) && History(q)
    ensures History(StopTimer(q, id))
  {
    hide History, EraseEntry;
    if id in q.active {
      forall r | r in q.store && r != q.active[id] ensures q.store[r].sequence != id {
        OneTimerPerId(q, batch, r, q.active[id]);
      }
      DeleteKeepsHistory(q, q.active[id]);
      SameTimersKeepHistory(Delete(q, q.active[id]), StopTimer(q, id));
    } else {
      SameTimersKeepHistory(q, StopTimer(q, id));
    }
  }

  lemma {:induction false} ApplyKeepsHistory(q: Queue, batch: seq<Entry>, op: Op)
    requires Owned(q, batch) && History(q)
    ensures History(Apply(q, batch, op))
  {
    match op
    case Add(when, interval, hint, at) => AddKeepsHistory(q, when, interval, hint, at);
    case Stop(id) => StopKeepsHistory(q, batch, id);
  }

  lemma {:induction false} EndKeepsHistory(q: Queue, batch: seq<Entry>, now: Stamp, at: Stamp)
    requires Owned(q, batch) && History(q)
    ensures Live(SettleAll(q, batch, now), SettleAll(q, batch, now).timers)
    ensures History(Rearm(SettleAll(q, batch, now), at))
  {
    hide History, HowMuchTimeFromNow;
    SettleAllKeepsHistory(q, batch, now);
    var settled := SettleAll(q, batch, now);
    SameTimersKeepHistory(settled, Rearm(settled, at));
  }

  lemma {:induction false} NextKeepsHistory(s: System, step: Step)
    requires Inv(s) && History(s.q)
    ensures History(Next(s, step).q)
  {
    hide History, Owned, Rearm, SettleAll;
    if Enabled(s, step) {
      match step
      case Do(op) => ApplyKeepsHistory(s.q, InFlight(s), op);
      case Begin(now) =>
        BeginApplies(s, now);
        SameTimersKeepHistory(s.q, BeginPass(s.q, now));
      case StartNext =>
        StartIsOfBatch(s.q, s.phase.batch, s.phase.next);
        StartKeepsHistory(s.q, s.phase.batch[s.phase.next].timer, s.phase.now);
      case End(at) =>
        var q := s.q.(calling := false);
        NotCalling(s.q, s.phase.batch);
        SameTimersKeepHistory(s.q, q);
        EndKeepsHistory(q, s.phase.batch, s.phase.now, at);
    }
  }

  lemma {:induction false} StartIsOfBatch(q: Queue, batch: seq<Entry>, k: nat)
    requires Owned(q, batch) && k < |batch|
    ensures batch[k].timer in q.store && 0 <= q.store[batch[k].timer].sequence < q.numCreated
  {
  }

  lemma {:induction false} RunKeepsHistory(s: System, steps: seq<Step>)
    requires Inv(s) && History(s.q)
    ensures History(Run(s, steps).q)
    decreases |steps|
  {
    if steps != [] {
      NextKeepsHistory(s, steps[0]);
      RunKeepsHistory(Next(s, steps[0]), steps[1..]);
    }
  }

  /** The timer of that id is in the expired batch. */
  ghost predicate InFlightId(s: System, id: int)
    requires Inv(s)
  {
    exists k :: 0 <= k < |InFlight(s)| && s.q.store[InFlight(s)[k].timer].sequence == id
  }

  /**
   After every run, hence at every moment of every run and inside every callback: each created timer is in exactly
   one of the two indexes, the expired batch and the deleted ones; it was deleted at most once, and nothing
   happened to it after that.
   */
  lemma {:induction false} EveryTimerHasOneOwner(steps: seq<Step>, id: int)
    requires 0 <= id < Run(INITIAL, steps).q.numCreated
    ensures var s := Run(INITIAL, steps);
            var indexed := id in s.q.active;
            && (indexed || InFlightId(s, id) || Deleted(id) in s.q.log)
            && !(indexed && InFlightId(s, id))
            && !(indexed && Deleted(id) in s.q.log)
            && !(InFlightId(s, id) && Deleted(id) in s.q.log)
    ensures forall i, j :: 0 <= i < j < |Run(INITIAL, steps).q.log| && Run(INITIAL, steps).q.log[i] == Deleted(id)
              ==> Run(INITIAL, steps).q.log[j].id != id
  {
    hide Inv, History, Run, InFlightId;
    InitialInv();
    assert History(INITIAL.q) by { NothingHappened(); }
    RunKeepsHistory(INITIAL, steps);
    OneOwner(Run(INITIAL, steps), id);
  }

  lemma {:induction false} NothingHappened()
    ensures History(INITIAL.q)
  {
  }

  lemma {:induction false} OneOwner(s: System, id: int)
    requires Inv(s) && History(s.q) && 0 <= id < s.q.numCreated
    ensures var indexed := id in s.q.active;
            && (indexed || InFlightId(s, id) || Deleted(id) in s.q.log)
            && !(indexed && InFlightId(s, id))
            && !(indexed && Deleted(id) in s.q.log)
            && !(InFlightId(s, id) && Deleted(id) in s.q.log)
    ensures forall i, j :: 0 <= i < j < |s.q.log| && s.q.log[i] == Deleted(id) ==> s.q.log[j].id != id
  {
    assert id in s.q.active ==> s.q.store[s.q.active[id]].sequence == id;
    if Deleted(id) !in s.q.log {
      assert Alive(s.q, id);
      var p :| p in s.q.store && s.q.store[p].sequence == id;
      if id !in s.q.active {
        var k :| 0 <= k < |InFlight(s)| && InFlight(s)[k].timer == p;
        assert InFlightId(s, id);
      }
    } else {
      var i :| 0 <= i < |s.q.log| && s.q.log[i] == Deleted(id);
      assert !Alive(s.q, id);
    }
  }

  /**
   At every moment the two indexes have the same size and hold the same timers: each map key is the sequence number of
   its timer, whose entry under its present expiration is in the set, so the erase by reconstructed key finds it; and
   each entry of the set carries the present expiration of a timer that the map gives for its sequence number.
   */
  lemma {:induction false} IndexesAgree(steps: seq<Step>)
    ensures var q := Run(INITIAL, steps).q;
            && |q.timers| == |q.active|
            && (forall id :: id in q.active ==>
                  && q.active[id] in q.store
                  && q.store[q.active[id]].sequence == id
                  && Entry(q.store[q.active[id]].expiration, q.active[id]) in q.timers)
            && (forall e :: e in q.timers ==>
                  && e.timer in q.store
                  && q.store[e.timer].expiration == e.when
                  && q.store[e.timer].sequence in q.active
                  && q.active[q.store[e.timer].sequence] == e.timer)
  {
    var s := Run(INITIAL, steps);
    SizesAgree(s.q, InFlight(s));
  }

  // ---------- The destructor ----------

  /** Distinct live timers, so deleting them one after the other deletes none twice. */
  ghost predicate Deletable(q: Queue, es: seq<Entry>) {
    && Live(q, es)
    && forall i, j :: 0 <= i < j < |es| ==> es[i].timer != es[j].timer
  }

  lemma {:induction false} DeletableTail(q: Queue, es: seq<Entry>)
    requires Deletable(q, es) && es != []
    ensures Deletable(Delete(q, es[0].timer), es[1..])
  {
    assert forall k :: 0 <= k < |es[1..]| ==> es[1..][k] == es[k + 1];
  }

  ghost function DeleteAll(q: Queue, es: seq<Entry>): Queue
    requires Deletable(q, es)
    decreases |es|
  {
    if es == [] then
      q
    else
      DeletableTail(q, es);
      DeleteAll(Delete(q, es[0].timer), es[1..])
  }

  lemma {:induction false} DeleteAllEmpties(q: Queue, es: seq<Entry>)
    requires Deletable(q, es) && History(q)
    requires forall p :: p in q.store ==> 0 <= q.store[p].sequence < q.numCreated
    requires forall p, r :: p in q.store && r in q.store && p != r ==> q.store[p].sequence != q.store[r].sequence
    requires forall p :: p in q.store ==> exists k :: 0 <= k < |es| && es[k].timer == p
    ensures DeleteAll(q, es).store == map[] && History(DeleteAll(q, es)) && DeleteAll(q, es).numCreated == q.numCreated
    decreases |es|
  {
    if es != [] {
      var r := Delete(q, es[0].timer);
      DeleteKeepsHistory(q, es[0].timer);
      DeletableTail(q, es);
      assert forall k :: 0 <= k < |es[1..]| ==> es[1..][k] == es[k + 1];
      forall p | p in r.store ensures exists k :: 0 <= k < |es[1..]| && es[1..][k].timer == p {
        var k :| 0 <= k < |es| && es[k].timer == p;
        assert es[1..][k - 1].timer == p;
      }
      DeleteAllEmpties(r, es[1..]);
    }
  }

  lemma {:induction false} IndexedTimersAreAll(q: Queue)
    requires Owned(q, [])
    ensures Deletable(q, q.timers)
    ensures forall p :: p in q.store ==> exists k :: 0 <= k < |q.timers| && q.timers[k].timer == p
  {
    forall i, j | 0 <= i < j < |q.timers| ensures q.timers[i].timer != q.timers[j].timer {
      EntriesDiffer(q, [], i, j);
    }
    forall p | p in q.store ensures exists k :: 0 <= k < |q.timers| && q.timers[k].timer == p {
      assert q.store[p].sequence in q.active;
      var k :| 0 <= k < |q.timers| && q.timers[k] == Entry(q.store[p].expiration, p);
    }
  }

  /** The destructor, run between passes, deletes what is left: every timer ever created is deleted exactly once. */
  lemma {:induction false} DestructorDeletesEveryTimer(steps: seq<Step>)
    requires Run(INITIAL, steps).phase.Idle?
    ensures var q := Run(INITIAL, steps).q;
            && Deletable(q, q.timers)
            && DeleteAll(q, q.timers).store == map[]
            && (forall id :: 0 <= id < q.numCreated ==> Deleted(id) in DeleteAll(q, q.timers).log)
            && History(DeleteAll(q, q.timers))
  {
    RunKeepsHistory(INITIAL, steps);
    EmptiedByDestructor(Run(INITIAL, steps).q);
  }

  lemma {:induction false} EmptiedByDestructor(q: Queue)
    requires Owned(q, []) && History(q)
    ensures Deletable(q, q.timers) && DeleteAll(q, q.timers).store == map[] && History(DeleteAll(q, q.timers))
    ensures forall id :: 0 <= id < q.numCreated ==> Deleted(id) in DeleteAll(q, q.timers).log
  {
    IndexedTimersAreAll(q);
    forall p, r | p in q.store && r in q.store && p != r ensures q.store[p].sequence != q.store[r].sequence {
      OneTimerPerId(q, [], p, r);
    }
    DeleteAllEmpties(q, q.timers);
    assert forall id :: !Alive(DeleteAll(q, q.timers), id);
  }
}
