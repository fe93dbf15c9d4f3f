/** StopTimer over whole runs: what a cancelled timer may still do. */
module TimerCancellation {
  import opened TimerStamps
  import opened TimerSpec
  import opened TimerInvariant
  import opened TimerSystem
  import opened TimerFiring

  /** How often the timer was started. */
  function Starts(log: seq<Event>, id: int): nat {
    multiset(StartedIds(log))[id]
  }

  /** The timer is still to be started in the present pass. */
  ghost predicate PendingId(s: System, id: int)
    requires Inv(s)
  {
    BatchLive(s.q, InFlight(s));
    assert forall e :: e in Pending(s) ==> e in InFlight(s);
    id in Sequences(s.q.store, Pending(s))
  }

  /** An issued id that is in no index, and that Reset will not put back. */
  ghost predicate Stopped(q: Queue, batch: seq<Entry>, id: int)
    requires Live(q, batch)
  {
    && 0 <= id < q.numCreated
    && id !in q.active
    && (forall e :: e in batch && q.store[e.timer].sequence == id ==> !q.store[e.timer].RepeatTimer() || id in q.canceling)
  }

  lemma {:induction false} BatchLive(q: Queue, batch: seq<Entry>)
    requires Owned(q, batch)
    ensures Live(q, batch)
  {
    forall e | e in batch ensures e.timer in q.store {
      var k :| 0 <= k < |batch| && batch[k] == e;
    }
  }

  lemma {:induction false} ApplyKeepsStopped(q: Queue, batch: seq<Entry>, op: Op, id: int)
    requires Owned(q, batch) && Live(q, batch) && Stopped(q, batch, id)
    ensures Live(Apply(q, batch, op), batch) && Stopped(Apply(q, batch, op), batch, id)
  {
    IdsKept(q, batch, op);
    BatchKept(q, batch, op);
  }

  lemma {:induction false} SettleAllKeepsStopped(q: Queue, batch: seq<Entry>, now: Stamp, id: int)
    requires Owned(q, batch) && Live(q, batch) && Stopped(q, batch, id)
    ensures Stopped(SettleAll(q, batch, now), [], id)
    decreases |batch|
  {
    if batch != [] {
      var r := Settle(q, batch[0].timer, now);
      SettleKeepsOwned(q, batch, now);
      BatchLive(r, batch[1..]);
      SettleKeepsStopped(q, batch, now, id);
      SettleAllKeepsStopped(r, batch[1..], now, id);
    }
  }

  lemma {:induction false} SettleKeepsStopped(q: Queue, batch: seq<Entry>, now: Stamp, id: int)
    requires Owned(q, batch) && Live(q, batch) && Stopped(q, batch, id) && batch != []
    requires Live(Settle(q, batch[0].timer, now), batch[1..])
    ensures Stopped(Settle(q, batch[0].timer, now), batch[1..], id)
  {
    assert batch[0] in batch;
    forall e | e in batch[1..] ensures e in batch && e.timer != batch[0].timer {
      var k :| 0 <= k < |batch[1..]| && batch[1..][k] == e;
      assert batch[k + 1] == e;
    }
  }

  lemma {:induction false} BeginKeepsStopped(s: System, now: Stamp, id: int)
    requires Inv(s) && s.phase.Idle? && Stopped(s.q, [], id)
    ensures var r := Next(s, Begin(now)); Live(r.q, r.phase.batch) && Stopped(r.q, r.phase.batch, id)
  {
    var r := Next(s, Begin(now));
    BeginFacts(s, now);
    BatchLive(r.q, r.phase.batch);
    assert forall e :: e in r.phase.batch ==> s.q.store[e.timer].sequence in s.q.active;
  }

  lemma {:induction false} NextKeepsStopped(s: System, step: Step, id: int)
    requires Inv(s) && Live(s.q, InFlight(s)) && Stopped(s.q, InFlight(s), id)
    ensures var r := Next(s, step); Live(r.q, InFlight(r)) && Stopped(r.q, InFlight(r), id)
  {
    if Enabled(s, step) {
      match step
      case Do(op) => ApplyKeepsStopped(s.q, InFlight(s), op, id);
      case Begin(now) => BeginKeepsStopped(s, now, id);
      case StartNext =>
      case End(at) => SettleAllKeepsStopped(s.q.(calling := false), s.phase.batch, s.phase.now, id);
    }
  }

  // ---------- Counting starts ----------

  /** Starts so far, plus the one the present pass may still owe. */
  ghost function Budget(s: System, id: int): nat
    requires Inv(s)
  {
    Starts(s.q.log, id) + if PendingId(s, id) then 1 else 0
  }

  lemma {:induction false} ApplyKeepsPending(q: Queue, batch: seq<Entry>, op: Op, pending: seq<Entry>)
    requires Owned(q, batch) && forall e :: e in pending ==> e in batch
    ensures Live(q, pending) && Live(Apply(q, batch, op), pending)
    ensures Sequences(Apply(q, batch, op).store, pending) == Sequences(q.store, pending)
  {
    IdsKept(q, batch, op);
    BatchKept(q, batch, op);
  }

  lemma {:induction false} ApplyKeepsBudget(s: System, op: Op, id: int)
    requires Inv(s)
    ensures Starts(Next(s, Do(op)).q.log, id) == Starts(s.q.log, id)
    ensures PendingId(Next(s, Do(op)), id) <==> PendingId(s, id)
  {
    assert forall e :: e in Pending(s) ==> e in InFlight(s);
    ApplyStartsNothing(s.q, InFlight(s), op);
    ApplyKeepsPending(s.q, InFlight(s), op, Pending(s));
    assert Pending(Next(s, Do(op))) == Pending(s);
  }

  /** Starting moves one id from the pending ones to the started ones. */
  lemma {:induction false} StartMovesOne(q: Queue, batch: seq<Entry>, k: nat, now: Stamp, id: int)
    requires Owned(q, batch) && k < |batch| && Live(q, batch[k..]) && Live(q, batch[k + 1..])
    ensures var before, after := id in Sequences(q.store, batch[k..]), id in Sequences(q.store, batch[k + 1..]);
            Starts(Start(q, batch[k].timer, now).log, id) + (if after then 1 else 0)
            == Starts(q.log, id) + (if before then 1 else 0)
    ensures Starts(Start(q, batch[k].timer, now).log, id) >= Starts(q.log, id)
  {
    var t := q.store[batch[k].timer];
    StartedIdsSnoc(q.log, Started(t.sequence, t.interval, now));
    assert batch[k..] == [batch[k]] + batch[k + 1..];
    assert Sequences(q.store, batch[k..]) == {t.sequence} + Sequences(q.store, batch[k + 1..]);
    forall e | e in batch[k + 1..] ensures q.store[e.timer].sequence != t.sequence {
      var i :| k + 1 <= i < |batch| && batch[i] == e;
    }
  }

  lemma {:induction false} BeginKeepsBudget(s: System, now: Stamp, id: int)
    requires Inv(s) && s.phase.Idle? && id !in s.q.active
    ensures Starts(Next(s, Begin(now)).q.log, id) == Starts(s.q.log, id)
    ensures !PendingId(Next(s, Begin(now)), id)
  {
    BeginFacts(s, now);
    var r := Next(s, Begin(now));
    assert forall e :: e in r.phase.batch ==> s.q.store[e.timer].sequence in s.q.active;
  }

  lemma {:induction false} EndKeepsBudget(s: System, at: Stamp, id: int)
    requires Inv(s) && Enabled(s, End(at))
    ensures Starts(Next(s, End(at)).q.log, id) == Starts(s.q.log, id)
    ensures !PendingId(Next(s, End(at)), id)
  {
    SettleAllStartsNothing(s.q.(calling := false), s.phase.batch, s.phase.now);
  }

  lemma {:induction false} StartKeepsBudget(s: System, id: int)
    requires Inv(s) && Enabled(s, StartNext)
    ensures Starts(Next(s, StartNext).q.log, id) >= Starts(s.q.log, id)
    ensures Budget(Next(s, StartNext), id) == Budget(s, id)
  {
    BatchLive(s.q, s.phase.batch);
    StartMovesOne(s.q, s.phase.batch, s.phase.next, s.phase.now, id);
  }

  lemma {:induction false} NextKeepsBudget(s: System, step: Step, id: int)
    requires Inv(s) && id !in s.q.active
    ensures Starts(Next(s, step).q.log, id) >= Starts(s.q.log, id)
    ensures Budget(Next(s, step), id) <= Budget(s, id)
  {
    if Enabled(s, step) {
      match step
      case Do(op) => ApplyKeepsBudget(s, op, id);
      case Begin(now) => BeginKeepsBudget(s, now, id);
      case StartNext => StartKeepsBudget(s, id);
      case End(at) => EndKeepsBudget(s, at, id);
    }
  }

  lemma {:induction false} RunKeepsStopped(s: System, steps: seq<Step>, id: int)
    requires Inv(s) && Live(s.q, InFlight(s)) && Stopped(s.q, InFlight(s), id)
    ensures var r := Run(s, steps);
            && Live(r.q, InFlight(r)) && Stopped(r.q, InFlight(r), id)
            && Starts(s.q.log, id) <= Starts(r.q.log, id) && Budget(r, id) <= Budget(s, id)
    decreases |steps|
  {
    if steps != [] {
      NextKeepsStopped(s, steps[0], id);
      NextKeepsBudget(s, steps[0], id);
      RunKeepsStopped(Next(s, steps[0]), steps[1..], id);
    }
  }

  lemma {:induction false} StopMakesStopped(s: System, id: int)
    requires Inv(s) && 0 <= id < s.q.numCreated
    ensures var t := Next(s, Do(Stop(id)));
            && Live(t.q, InFlight(t)) && Stopped(t.q, InFlight(t), id)
            && Starts(t.q.log, id) == Starts(s.q.log, id)
            && (PendingId(t, id) <==> PendingId(s, id))
  {
    var t := Next(s, Do(Stop(id)));
    BatchLive(t.q, InFlight(t));
    ApplyKeepsBudget(s, Stop(id), id);
    forall e | e in InFlight(s) ensures e.timer in s.q.store && s.q.store[e.timer].sequence !in s.q.active {
      var k :| 0 <= k < |InFlight(s)| && InFlight(s)[k] == e;
    }
    IdsKept(s.q, InFlight(s), Stop(id));
    BatchKept(s.q, InFlight(s), Stop(id));
  }

  /** After StopTimer(id) outside a pass, the timer never starts again, however long the run goes on. */
  lemma {:induction false} StoppedBetweenPassesNeverStarts(before: seq<Step>, id: int, after: seq<Step>)
    requires Run(INITIAL, before).phase.Idle?
    requires 0 <= id < Run(INITIAL, before).q.numCreated
    ensures var t := Next(Run(INITIAL, before), Do(Stop(id)));
            Starts(Run(t, after).q.log, id) == Starts(Run(INITIAL, before).q.log, id)
  {
    var s := Run(INITIAL, before);
    StopMakesStopped(s, id);
    RunKeepsStopped(Next(s, Do(Stop(id))), after, id);
  }

  /**
   After StopTimer(id) inside a pass, the timer starts at most once more, and only if it is later in the present
   batch; from the first moment outside that pass on it never starts again, even if it is periodic.
   */
  lemma {:induction false} StoppedDuringPassStartsAtMostOnce(before: seq<Step>, id: int, during: seq<Step>, after: seq<Step>)
    requires 0 <= id < Run(INITIAL, before).q.numCreated
    ensures var s := Run(INITIAL, before);
            var t := Next(s, Do(Stop(id)));
            var u := Run(t, during);
            && Starts(u.q.log, id) <= Starts(s.q.log, id) + (if PendingId(s, id) then 1 else 0)
            && (u.phase.Idle? ==> Starts(Run(u, after).q.log, id) == Starts(u.q.log, id))
  {
    var s := Run(INITIAL, before);
    var t := Next(s, Do(Stop(id)));
    StopMakesStopped(s, id);
    RunKeepsStopped(t, during, id);
    RunKeepsStopped(Run(t, during), after, id);
  }
}
