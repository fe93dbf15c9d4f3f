/** No timer is lost: what Reset does with each timer of the batch, and how long a timer stays that nobody stops. */
module TimerRetention {
  import opened TimerStamps
  import opened TimerSpec
  import opened TimerInvariant
  import opened TimerSystem
  import opened TimerOwnership
  import opened TimerFiring
  import opened TimerCancellation

  // ---------- What Reset does ----------

  /** The timer of that id is in the map, at p, with these fields. */
  ghost predicate IndexedAs(q: Queue, id: int, p: Address, t: Timer) {
    id in q.active && q.active[id] == p && p in q.store && q.store[p] == t && t.sequence == id
  }

  lemma {:induction false} SettleKeepsIndexed(q: Queue, batch: seq<Entry>, now: Stamp, id: int, p: Address, t: Timer)
    requires Owned(q, batch) && batch != [] && IndexedAs(q, id, p, t)
    ensures IndexedAs(Settle(q, batch[0].timer, now), id, p, t)
  {
  }

  lemma {:induction false} SettleAllKeepsIndexed(q: Queue, batch: seq<Entry>, now: Stamp, id: int, p: Address, t: Timer)
    requires Owned(q, batch) && IndexedAs(q, id, p, t)
    ensures IndexedAs(SettleAll(q, batch, now), id, p, t)
    decreases |batch|
  {
    if batch != [] {
      SettleKeepsOwned(q, batch, now);
      SettleKeepsIndexed(q, batch, now, id, p, t);
      SettleAllKeepsIndexed(Settle(q, batch[0].timer, now), batch[1..], now, id, p, t);
    }
  }

  lemma {:induction false} SettleAllKeepsLog(q: Queue, batch: seq<Entry>, now: Stamp, e: Event)
    requires Owned(q, batch) && e in q.log
    ensures e in SettleAll(q, batch, now).log
    decreases |batch|
  {
    if batch != [] {
      SettleKeepsOwned(q, batch, now);
      SettleAllKeepsLog(Settle(q, batch[0].timer, now), batch[1..], now, e);
    }
  }

  /** The timer that Reset is to put back: periodic and not cancelled during the pass. */
  predicate GoesOn(q: Queue, t: Timer) {
    t.RepeatTimer() && t.sequence !in q.canceling
  }

  ghost predicate Disposed(r: Queue, p: Address, t: Timer, goesOn: bool, now: Stamp) {
    if goesOn then IndexedAs(r, t.sequence, p, t.ReStart(now)) else Deleted(t.sequence) in r.log
  }

  lemma {:induction false} SettleDisposes(q: Queue, batch: seq<Entry>, now: Stamp)
    requires Owned(q, batch) && batch != []
    ensures var p := batch[0].timer;
            Disposed(Settle(q, p, now), p, q.store[p], GoesOn(q, q.store[p]), now)
  {
    var p := batch[0].timer;
    var r := Settle(q, p, now);
    if !GoesOn(q, q.store[p]) { assert r.log[|q.log|] == Deleted(q.store[p].sequence); }
  }

  lemma {:induction false} SettleKeepsRest(q: Queue, batch: seq<Entry>, now: Stamp, k: nat)
    requires Owned(q, batch) && 0 < k < |batch|
    ensures var r := Settle(q, batch[0].timer, now);
            && batch[k].timer in r.store && r.store[batch[k].timer] == q.store[batch[k].timer]
            && r.canceling == q.canceling
  {
    assert batch[0].timer != batch[k].timer;
  }

  lemma {:induction false} SettleAllDisposes(q: Queue, batch: seq<Entry>, now: Stamp, k: nat)
    requires Owned(q, batch) && k < |batch|
    ensures var p := batch[k].timer;
            Disposed(SettleAll(q, batch, now), p, q.store[p], GoesOn(q, q.store[p]), now)
    decreases |batch|
  {
    var r := Settle(q, batch[0].timer, now);
    SettleKeepsOwned(q, batch, now);
    if k > 0 {
      SettleKeepsRest(q, batch, now, k);
      assert batch[1..][k - 1] == batch[k];
      SettleAllDisposes(r, batch[1..], now, k - 1);
    } else {
      var p, t := batch[0].timer, q.store[batch[0].timer];
      SettleDisposes(q, batch, now);
      if GoesOn(q, t) {
        SettleAllKeepsIndexed(r, batch[1..], now, t.sequence, p, t.ReStart(now));
      } else {
        SettleAllKeepsLog(r, batch[1..], now, Deleted(t.sequence));
      }
    }
  }

  /** Due the interval after now, to the microsecond below. */
  ghost predicate DueIn(when: Stamp, now: Stamp, seconds: real) {
    (when - now) as real <= seconds * 1000000.0 < (when - now + 1) as real
  }

  /**
   When a pass ends, each timer of the batch that is periodic and was not cancelled during the pass is in both indexes
   again, the same as before but for its expiration, which is its interval after the clock of the pass, in whole
   microseconds; each other one is deleted.
   */
  lemma {:induction false} PassEndDisposes(steps: seq<Step>, at: Stamp, k: nat)
    requires Enabled(Run(INITIAL, steps), End(at)) && k < |Run(INITIAL, steps).phase.batch|
    ensures var s := Run(INITIAL, steps);
            var p := s.phase.batch[k].timer;
            var t := s.q.store[p];
            var r := Next(s, End(at)).q;
            if t.interval > 0.0 && t.sequence !in s.q.canceling then
              && t.sequence in r.active && r.active[t.sequence] == p && p in r.store
              && r.store[p] == t.(expiration := r.store[p].expiration)
              && Entry(r.store[p].expiration, p) in r.timers
              && (r.store[p].expiration - s.phase.now) as real <= t.interval * 1000000.0
              && t.interval * 1000000.0 < (r.store[p].expiration - s.phase.now + 1) as real
            else
              Deleted(t.sequence) in r.log && t.sequence !in r.active
  {
    hide Inv, Run, History, Owned;
    InitialInv();
    NothingHappened();
    RunKeepsHistory(INITIAL, steps);
    EndDisposes(Run(INITIAL, steps), at, k);
  }

  lemma {:induction false} EndDisposes(s: System, at: Stamp, k: nat)
    requires Inv(s) && History(s.q) && Enabled(s, End(at)) && k < |s.phase.batch|
    ensures var p := s.phase.batch[k].timer;
            p in s.q.store &&
            var t := s.q.store[p];
            var r := Next(s, End(at)).q;
            if t.interval > 0.0 && t.sequence !in s.q.canceling then
              && t.sequence in r.active && r.active[t.sequence] == p && p in r.store
              && r.store[p] == t.(expiration := r.store[p].expiration)
              && Entry(r.store[p].expiration, p) in r.timers
              && DueIn(r.store[p].expiration, s.phase.now, t.interval)
            else
              Deleted(t.sequence) in r.log && t.sequence !in r.active
  {
    hide Inv, Owned, History, Next, SettleAll, Rearm, AddTime, DueIn;
    OwnedInFlight(s);
    StartIsOfBatch(s.q, s.phase.batch, k);
    EndApplies(s, s.phase.batch, s.phase.now, at);
    var q := s.q.(calling := false);
    SettleAllDisposes(q, s.phase.batch, s.phase.now, k);
    NextKeepsHistory(s, End(at));
    var r := Next(s, End(at));
    var t := s.q.store[s.phase.batch[k].timer];
    RestartIsDue(t, s.phase.now);
    NotActiveWhenDeleted(r, t.sequence);
    TimersLive(SettleAll(q, s.phase.batch, s.phase.now), []);
    RearmKeeps(SettleAll(q, s.phase.batch, s.phase.now), at);
    OwnedInFlight(r);
    IndexedHasEntry(r.q, InFlight(r), t.sequence);
  }

  lemma {:induction false} RestartIsDue(t: Timer, now: Stamp)
    ensures t.interval > 0.0 ==> DueIn(t.ReStart(now).expiration, now, t.interval)
  {
  }

  lemma {:induction false} RearmKeeps(q: Queue, at: Stamp)
    requires Live(q, q.timers)
    ensures var r := Rearm(q, at); r.store == q.store && r.active == q.active && r.timers == q.timers && r.log == q.log
  {
  }

  lemma {:induction false} IndexedHasEntry(q: Queue, batch: seq<Entry>, id: int)
    requires Owned(q, batch)
    ensures id in q.active ==>
              q.active[id] in q.store && Entry(q.store[q.active[id]].expiration, q.active[id]) in q.timers
  {
  }

  lemma {:induction false} NotActiveWhenDeleted(s: System, id: int)
    requires Inv(s) && History(s.q)
    ensures Deleted(id) in s.q.log ==> id !in s.q.active
  {
    if id in s.q.active { assert Alive(s.q, id); }
  }

  // ---------- A timer that nobody stops ----------

  /** The k-th of the batch is that timer, not cancelled; if it was already called, it started. */
  ghost predicate AwaitsReset(s: System, k: nat, id: int, interval: real, before: nat)
    requires Inv(s)
  {
    && s.phase.Calling? && k < |s.phase.batch|
    && s.q.store[s.phase.batch[k].timer].sequence == id && s.q.store[s.phase.batch[k].timer].interval == interval
    && id !in s.q.canceling
    && (k < s.phase.next ==> Starts(s.q.log, id) > before)
  }

  ghost predicate Waits(q: Queue, id: int, interval: real) {
    id in q.active && q.active[id] in q.store && q.store[q.active[id]].interval == interval
  }

  /** Still indexed, or in the batch and not cancelled, or a one-shot timer that started. */
  ghost predicate Retained(s: System, id: int, interval: real, before: nat)
    requires Inv(s)
  {
    && Starts(s.q.log, id) >= before
    && (
    || Waits(s.q, id, interval)
    || (exists k: nat :: AwaitsReset(s, k, id, interval, before))
    || (interval <= 0.0 && Starts(s.q.log, id) > before))
  }

  lemma {:induction false} AddKeepsWaiting(q: Queue, when: Stamp, interval: real, hint: Address, at: Stamp, id: int, i: real)
    requires Waits(q, id, i)
    ensures Waits(AddTimer(q, when, interval, hint, at), id, i)
  {
    hide HowMuchTimeFromNow, InsertEntry;
  }

  lemma {:induction false} StopKeepsWaiting(q: Queue, batch: seq<Entry>, other: int, id: int, i: real)
    requires Owned(q, batch) && Waits(q, id, i) && other != id
    ensures Waits(StopTimer(q, other), id, i)
  {
    hide EraseEntry;
    if other in q.active {
      assert q.store[q.active[other]].sequence == other && q.store[q.active[id]].sequence == id;
    }
  }

  lemma {:induction false} ApplyKeepsWaiting(q: Queue, batch: seq<Entry>, op: Op, id: int, interval: real)
    requires Owned(q, batch) && Waits(q, id, interval) && op != Stop(id)
    ensures Waits(Apply(q, batch, op), id, interval)
  {
    match op
    case Add(when, i, hint, at) => AddKeepsWaiting(q, when, i, hint, at, id, interval);
    case Stop(other) => StopKeepsWaiting(q, batch, other, id, interval);
  }

  lemma {:induction false} ApplyKeepsRetained(s: System, op: Op, id: int, interval: real, before: nat)
    requires Inv(s) && Retained(s, id, interval, before) && op != Stop(id)
    ensures Retained(Next(s, Do(op)), id, interval, before)
  {
    hide Inv, Owned, Next, Apply, Waits, AwaitsReset;
    OwnedInFlight(s);
    NextApplies(s, op);
    ApplyStartsNothing(s.q, InFlight(s), op);
    if Waits(s.q, id, interval) {
      ApplyKeepsWaiting(s.q, InFlight(s), op, id, interval);
    } else if k: nat :| AwaitsReset(s, k, id, interval, before) {
      ApplyKeepsAwaiting(s, Next(s, Do(op)), op, k, id, interval, before);
    }
  }

  lemma {:induction false} OwnedInFlight(s: System)
    requires Inv(s)
    ensures Owned(s.q, InFlight(s))
  {
  }

  lemma {:induction false} CancelsNoOther(q: Queue, batch: seq<Entry>, op: Op, id: int)
    requires Owned(q, batch) && op != Stop(id)
    ensures id in Apply(q, batch, op).canceling ==> id in q.canceling
  {
  }

  lemma {:induction false} ApplyKeepsAwaiting(s: System, r: System, op: Op, k: nat, id: int, interval: real, before: nat)
    requires Inv(s) && AwaitsReset(s, k, id, interval, before) && op != Stop(id)
    requires r == s.(q := Apply(s.q, InFlight(s), op)) && Inv(r)
    ensures AwaitsReset(r, k, id, interval, before)
  {
    hide Apply, Owned;
    CancelsNoOther(s.q, InFlight(s), op, id);
    ApplyStartsNothing(s.q, InFlight(s), op);
    BatchKept(s.q, InFlight(s), op);
    assert s.phase.batch[k] in s.phase.batch;
    BatchLive(s.q, s.phase.batch);
  }

  lemma {:induction false} BeginKeepsRetained(s: System, now: Stamp, id: int, interval: real, before: nat)
    requires Inv(s) && s.phase.Idle? && Retained(s, id, interval, before)
    ensures Retained(Next(s, Begin(now)), id, interval, before)
  {
    BeginFacts(s, now);
    var r := Next(s, Begin(now));
    if Waits(s.q, id, interval) && id !in r.q.active {
      var k := UpperBound(s.q.timers, now);
      var p := s.q.active[id];
      assert id in Sequences(s.q.store, s.q.timers[..k]);
      ExpiredInBatch(s.q, k, p);
      var i :| 0 <= i < |r.phase.batch| && r.phase.batch[i].timer == p;
      assert AwaitsReset(r, i, id, interval, before);
    }
  }

  lemma {:induction false} StartCounts(q: Queue, p: Address, now: Stamp, id: int)
    requires p in q.store
    ensures Starts(Start(q, p, now).log, id) == Starts(q.log, id) + if q.store[p].sequence == id then 1 else 0
  {
    StartedIdsSnoc(q.log, Started(q.store[p].sequence, q.store[p].interval, now));
  }

  lemma {:induction false} StartFacts(s: System)
    requires Inv(s) && Enabled(s, StartNext)
    ensures var r := Next(s, StartNext);
            && r.q == Start(s.q, s.phase.batch[s.phase.next].timer, s.phase.now)
            && r.phase == s.phase.(next := s.phase.next + 1)
  {
  }

  lemma {:induction false} StartKeepsAwaiting(s: System, r: System, k: nat, id: int, interval: real, before: nat)
    requires Inv(s) && Enabled(s, StartNext) && AwaitsReset(s, k, id, interval, before)
    requires Inv(r) && s.phase.batch[s.phase.next].timer in s.q.store
    requires r.q == Start(s.q, s.phase.batch[s.phase.next].timer, s.phase.now)
    requires r.phase == s.phase.(next := s.phase.next + 1) && Starts(s.q.log, id) >= before
    ensures AwaitsReset(r, k, id, interval, before)
  {
    hide Inv, Owned, Next, Starts;
    StartCounts(s.q, s.phase.batch[s.phase.next].timer, s.phase.now, id);
  }

  lemma {:induction false} StartKeepsRetained(s: System, id: int, interval: real, before: nat)
    requires Inv(s) && Enabled(s, StartNext) && Retained(s, id, interval, before)
    ensures Retained(Next(s, StartNext), id, interval, before)
  {
    if k: nat :| AwaitsReset(s, k, id, interval, before) {
      StartFacts(s);
      StartKeepsAwaiting(s, Next(s, StartNext), k, id, interval, before);
    } else {
      StartCounts(s.q, s.phase.batch[s.phase.next].timer, s.phase.now, id);
    }
  }

  lemma {:induction false} EndKeepsWaiting(s: System, at: Stamp, id: int, interval: real)
    requires Inv(s) && Enabled(s, End(at)) && Waits(s.q, id, interval)
    ensures Waits(Next(s, End(at)).q, id, interval)
  {
    var q := s.q.(calling := false);
    SettleAllKeepsIndexed(q, s.phase.batch, s.phase.now, id, q.active[id], q.store[q.active[id]]);
  }

  lemma {:induction false} EndPutsBack(s: System, at: Stamp, k: nat, id: int, interval: real, before: nat)
    requires Inv(s) && Enabled(s, End(at)) && AwaitsReset(s, k, id, interval, before) && interval > 0.0
    ensures Waits(Next(s, End(at)).q, id, interval)
  {
    hide Inv, Owned, Next, SettleAll, Rearm;
    EndApplies(s, s.phase.batch, s.phase.now, at);
    var q := s.q.(calling := false);
    OwnedInFlight(s);
    StartIsOfBatch(s.q, s.phase.batch, k);
    SettleAllDisposes(q, s.phase.batch, s.phase.now, k);
    TimersLive(SettleAll(q, s.phase.batch, s.phase.now), []);
    RearmKeeps(SettleAll(q, s.phase.batch, s.phase.now), at);
  }

  lemma {:induction false} EndStartsNothing(s: System, at: Stamp, id: int)
    requires Inv(s) && Enabled(s, End(at))
    ensures Starts(Next(s, End(at)).q.log, id) == Starts(s.q.log, id)
  {
    EndKeepsBudget(s, at, id);
  }

  lemma {:induction false} EndKeepsRetained(s: System, r: System, at: Stamp, id: int, interval: real, before: nat)
    requires Inv(s) && Enabled(s, End(at)) && Retained(s, id, interval, before) && r == Next(s, End(at))
    ensures Inv(r) && Retained(r, id, interval, before)
  {
    EndStartsNothing(s, at, id);
    if Waits(s.q, id, interval) {
      EndKeepsWaiting(s, at, id, interval);
    } else if k: nat :| AwaitsReset(s, k, id, interval, before) {
      if interval > 0.0 { EndPutsBack(s, at, k, id, interval, before); }
    }
  }

  lemma {:induction false} NextKeepsRetained(s: System, step: Step, id: int, interval: real, before: nat)
    requires Inv(s) && Retained(s, id, interval, before) && step != Do(Stop(id))
    ensures Retained(Next(s, step), id, interval, before)
  {
    if Enabled(s, step) {
      match step
      case Do(op) => ApplyKeepsRetained(s, op, id, interval, before);
      case Begin(now) => BeginKeepsRetained(s, now, id, interval, before);
      case StartNext => StartKeepsRetained(s, id, interval, before);
      case End(at) => EndKeepsRetained(s, Next(s, step), at, id, interval, before);
    }
  }

  lemma {:induction false} RunKeepsRetained(s: System, steps: seq<Step>, id: int, interval: real, before: nat)
    requires Inv(s) && Retained(s, id, interval, before) && Do(Stop(id)) !in steps
    ensures Retained(Run(s, steps), id, interval, before)
    decreases |steps|
  {
    if steps != [] {
      NextKeepsRetained(s, steps[0], id, interval, before);
      RunKeepsRetained(Next(s, steps[0]), steps[1..], id, interval, before);
    }
  }

  /**
   No timer is lost. A timer that waits in the indexes and is never stopped by its own id is, after any run, still in
   the indexes or in the batch of a pass if it is periodic; if it is one-shot, it is still there or has started since.
   */
  lemma {:induction false} UnstoppedTimerStays(earlier: seq<Step>, id: int, later: seq<Step>)
    requires id in Run(INITIAL, earlier).q.active && Do(Stop(id)) !in later
    ensures var s := Run(INITIAL, earlier);
            var r := Run(s, later);
            || id in r.q.active
            || InFlightId(r, id)
            || (s.q.store[s.q.active[id]].interval <= 0.0 && Starts(r.q.log, id) > Starts(s.q.log, id))
  {
    var s := Run(INITIAL, earlier);
    var interval, before := s.q.store[s.q.active[id]].interval, Starts(s.q.log, id);
    RunKeepsRetained(s, later, id, interval, before);
    var r := Run(s, later);
    if k: nat :| AwaitsReset(r, k, id, interval, before) {
      assert InFlight(r)[k] == r.phase.batch[k];
    }
  }
}
