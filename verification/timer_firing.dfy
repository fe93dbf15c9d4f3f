/** When timers start: exactly the expired ones, in order, and never earlier than their interval allows. */
module TimerFiring {
  import opened TimerStamps
  import opened TimerSpec
  import opened TimerInvariant
  import opened TimerSystem

  // ---------- One pass ----------

  function StartedIds(log: seq<Event>): seq<int> {
    if log == [] then []
    else StartedIds(log[..|log| - 1]) + if log[|log| - 1].Started? then [log[|log| - 1].id] else []
  }

  ghost function Ids(store: map<Address, Timer>, es: seq<Entry>): seq<int>
    requires forall e :: e in es ==> e.timer in store
  {
    seq(|es|, i requires 0 <= i < |es| => store[es[i].timer].sequence)
  }

  lemma {:induction false} StartedIdsSnoc(log: seq<Event>, e: Event)
    ensures StartedIds(log + [e]) == StartedIds(log) + if e.Started? then [e.id] else []
  {
    assert (log + [e])[..|log|] == log;
  }

  lemma {:induction false} SettleAllStartsNothing(q: Queue, batch: seq<Entry>, now: Stamp)
    requires Owned(q, batch)
    ensures StartedIds(SettleAll(q, batch, now).log) == StartedIds(q.log)
    decreases |batch|
  {
    if batch != [] {
      SettleKeepsOwned(q, batch, now);
      StartedIdsSnoc(q.log, Deleted(q.store[batch[0].timer].sequence));
      SettleAllStartsNothing(Settle(q, batch[0].timer, now), batch[1..], now);
    }
  }

  lemma {:induction false} ApplyStartsNothing(q: Queue, batch: seq<Entry>, op: Op)
    requires Owned(q, batch)
    ensures StartedIds(Apply(q, batch, op).log) == StartedIds(q.log)
  {
    match op
    case Add(_, _, _, _) => StartedIdsSnoc(q.log, Created(q.numCreated));
    case Stop(id) =>
      if id in q.active { StartedIdsSnoc(q.log, Deleted(q.store[q.active[id]].sequence)); }
  }

  /** Timers of the batch keep their fields until Reset. */
  lemma {:induction false} BatchKept(q: Queue, batch: seq<Entry>, op: Op)
    requires Owned(q, batch)
    ensures forall e :: e in batch ==> Apply(q, batch, op).store[e.timer] == q.store[e.timer]
  {
    forall e | e in batch ensures e.timer in q.store && q.store[e.timer].sequence !in q.active {
      var k :| 0 <= k < |batch| && batch[k] == e;
    }
  }

  lemma {:induction false} IdsKept(q: Queue, batch: seq<Entry>, op: Op)
    requires Owned(q, batch)
    ensures forall e :: e in batch ==> e.timer in q.store && e.timer in Apply(q, batch, op).store
    ensures Ids(Apply(q, batch, op).store, batch) == Ids(q.store, batch)
  {
    BatchKept(q, batch, op);
    forall e | e in batch ensures e.timer in q.store && e.timer in Apply(q, batch, op).store {
      var k :| 0 <= k < |batch| && batch[k] == e;
    }
  }

  lemma {:induction false} StartAddsOne(q: Queue, batch: seq<Entry>, k: nat, now: Stamp, earlier: seq<int>, ids: seq<int>)
    requires k < |batch| && Live(q, batch) && ids == Ids(q.store, batch)
    requires StartedIds(q.log) == earlier + ids[..k]
    ensures batch[k].timer in q.store
    ensures StartedIds(Start(q, batch[k].timer, now).log) == earlier + ids[..k + 1]
  {
    assert batch[k] in batch;
    var t := q.store[batch[k].timer];
    StartedIdsSnoc(q.log, Started(t.sequence, t.interval, now));
    assert ids[..k + 1] == ids[..k] + [t.sequence];
  }

  /** One step of a pass: started so far are the first `next` of the batch. */
  lemma {:induction false} PassStep(s: System, step: Step, earlier: seq<int>, ids: seq<int>)
    requires Inv(s) && s.phase.Calling? && Live(s.q, s.phase.batch) && ids == Ids(s.q.store, s.phase.batch)
    requires StartedIds(s.q.log) == earlier + ids[..s.phase.next] && !step.End?
    ensures var n := Next(s, step);
            && n.phase.Calling? && n.phase.batch == s.phase.batch
            && Live(n.q, n.phase.batch) && ids == Ids(n.q.store, n.phase.batch)
            && StartedIds(n.q.log) == earlier + ids[..n.phase.next]
  {
    if Enabled(s, step) {
      match step
      case Do(op) =>
        ApplyStartsNothing(s.q, s.phase.batch, op);
        IdsKept(s.q, s.phase.batch, op);
      case StartNext =>
        StartAddsOne(s.q, s.phase.batch, s.phase.next, s.phase.now, earlier, ids);
    }
  }

  lemma {:induction false} PassStarts(s: System, steps: seq<Step>, earlier: seq<int>, ids: seq<int>)
    requires Inv(s) && s.phase.Calling? && Live(s.q, s.phase.batch) && ids == Ids(s.q.store, s.phase.batch)
    requires StartedIds(s.q.log) == earlier + ids[..s.phase.next]
    requires forall i :: 0 <= i < |steps| ==> !steps[i].End?
    ensures var r := Run(s, steps);
            && r.phase.Calling? && r.phase.batch == s.phase.batch
            && StartedIds(r.q.log) == earlier + ids[..r.phase.next]
    decreases |steps|
  {
    if steps != [] {
      PassStep(s, steps[0], earlier, ids);
      PassStarts(Next(s, steps[0]), steps[1..], earlier, ids);
    }
  }

  /** The expired entries are those up to `now`, in the order of the set. */
  lemma {:induction false} ExpiredUpToNow(timers: seq<Entry>, now: Stamp)
    requires Sorted(timers)
    ensures forall e :: e in timers[..UpperBound(timers, now)] <==> e in timers && e.when <= now
    ensures Sorted(timers[..UpperBound(timers, now)])
  {
    var k := UpperBound(timers, now);
    assert timers == timers[..k] + timers[k..];
  }

  lemma {:induction false} BeginFacts(s: System, now: Stamp)
    requires Inv(s) && s.phase.Idle?
    ensures var b := Next(s, Begin(now));
            && b.q.store == s.q.store && b.q.log == s.q.log && b.q.numCreated == s.q.numCreated
            && b.phase == Calling(now, s.q.timers[..UpperBound(s.q.timers, now)], 0)
  {
  }

  lemma {:induction false} ExpiredIdsDistinct(q: Queue, k: nat)
    requires Owned(q, []) && k <= |q.timers|
    ensures Live(q, q.timers[..k])
    ensures var ids := Ids(q.store, q.timers[..k]); forall i, j :: 0 <= i < j < |ids| ==> ids[i] != ids[j]
  {
    assert forall e :: e in q.timers[..k] ==> e in q.timers;
    forall i, j | 0 <= i < j < k
      ensures q.store[q.timers[i].timer].sequence != q.store[q.timers[j].timer].sequence
    {
      EntriesDiffer(q, [], i, j);
    }
  }

  lemma {:induction false} InvFacts(s: System)
    requires Inv(s)
    ensures Sorted(s.q.timers) && (s.phase.Idle? ==> Owned(s.q, []))
    ensures s.phase.Calling? ==> s.phase.next <= |s.phase.batch|
  {
  }

  lemma {:induction false} PassStartsFrom(b: System, during: seq<Step>)
    requires Inv(b) && b.phase.Calling? && b.phase.next == 0 && Live(b.q, b.phase.batch)
    requires forall i :: 0 <= i < |during| ==> !during[i].End?
    ensures var r := Run(b, during);
            && r.phase.Calling? && r.phase.batch == b.phase.batch
            && StartedIds(r.q.log) == StartedIds(b.q.log) + Ids(b.q.store, b.phase.batch)[..r.phase.next]
  {
    PassStarts(b, during, StartedIds(b.q.log), Ids(b.q.store, b.phase.batch));
  }

  /**
   Exact firing. A pass begun at clock `now` starts, in the order of (expiration, pointer), exactly the timers that
   the ordered set held at entry with expiration <= now, each once; nothing that callbacks do meanwhile changes that:
   before the pass ends the started timers are a prefix of them, and it can end only when all were started.
   */
  lemma {:induction false} PassStartsExactlyTheExpired(before: seq<Step>, now: Stamp, during: seq<Step>)
    requires Run(INITIAL, before).phase.Idle?
    requires forall i :: 0 <= i < |during| ==> !during[i].End?
    ensures var s := Run(INITIAL, before);
            var expired := s.q.timers[..UpperBound(s.q.timers, now)];
            var r := Run(INITIAL, before + ([Begin(now)] + during));
            && (forall e :: e in expired <==> e in s.q.timers && e.when <= now)
            && Sorted(expired)
            && Live(s.q, expired)
            && (var ids := Ids(s.q.store, expired); forall i, j :: 0 <= i < j < |ids| ==> ids[i] != ids[j])
            && r.phase.Calling? && r.phase.next <= |expired|
            && StartedIds(r.q.log) == StartedIds(s.q.log) + Ids(s.q.store, expired)[..r.phase.next]
            && (forall at :: Enabled(r, End(at)) <==> r.phase.next == |expired|)
  {
    hide Inv, Run, Next, Owned, Ids, StartedIds, UpperBound;
    InitialInv();
    var s := Run(INITIAL, before);
    InvFacts(s);
    RunAppend(INITIAL, before, [Begin(now)] + during);
    RunAppend(s, [Begin(now)], during);
    RunOne(s, Begin(now));
    InvFacts(Run(Next(s, Begin(now)), during));
    ExpiredUpToNow(s.q.timers, now);
    ExpiredIdsDistinct(s.q, UpperBound(s.q.timers, now));
    BeginFacts(s, now);
    PassStartsFrom(Next(s, Begin(now)), during);
  }

  // ---------- Spacing over whole runs ----------

  /** Two starts of one id: the timer repeats, and its interval lies between them. */
  ghost predicate Spaced(log: seq<Event>) {
    forall i, j :: 0 <= i < j < |log| && log[i].Started? && log[j].Started? && log[i].id == log[j].id ==>
      && log[i].interval == log[j].interval > 0.0
      && log[j].now >= log[i].now + Delta(log[i].interval)
  }

  /** The timer may start again only when its interval has passed since each earlier start. */
  ghost predicate Due(log: seq<Event>, t: Timer) {
    forall i :: 0 <= i < |log| && log[i].Started? && log[i].id == t.sequence ==>
      log[i].interval == t.interval > 0.0 && log[i].now + Delta(t.interval) <= t.expiration
  }

  /** The timer was started in the pass at `now`, or before. */
  ghost predicate Ran(log: seq<Event>, t: Timer, now: Stamp) {
    forall i :: 0 <= i < |log| && log[i].Started? && log[i].id == t.sequence ==>
      log[i].interval == t.interval && log[i].now <= now
  }

  /** Indexed and pending timers are due; every timer out of the indexes ran, if at all, up to this pass. */
  ghost predicate Firing(q: Queue, pending: seq<Entry>, now: Stamp) {
    && Spaced(q.log)
    && (forall i :: 0 <= i < |q.log| ==> q.log[i].id < q.numCreated)
    && (forall p :: p in q.store ==>
          if q.store[p].sequence in q.active then Due(q.log, q.store[p]) else Ran(q.log, q.store[p], now))
    && (forall k :: 0 <= k < |pending| ==> pending[k].timer in q.store && Due(q.log, q.store[pending[k].timer]))
  }

  ghost function Pending(s: System): seq<Entry>
    requires Inv(s)
  {
    if s.phase.Calling? then s.phase.batch[s.phase.next..] else []
  }

  ghost predicate FiringSystem(s: System)
    requires Inv(s)
  {
    Firing(s.q, Pending(s), if s.phase.Calling? then s.phase.now else 0)
  }

  /** Nothing starts, kept timers keep their fields and their place, and a new timer has a new id. */
  ghost predicate Quiet(q: Queue, r: Queue) {
    && r.numCreated >= q.numCreated
    && (forall p :: p in r.store ==>
          || (p in q.store && r.store[p] == q.store[p] && (r.store[p].sequence in r.active <==> q.store[p].sequence in q.active))
          || r.store[p].sequence >= q.numCreated)
    && (r.log == q.log || exists e: Event :: r.log == q.log + [e] && !e.Started? && e.id < r.numCreated)
  }

  lemma {:induction false} QuietKeepsFiring(q: Queue, r: Queue, pending: seq<Entry>, now: Stamp)
    requires Firing(q, pending, now) && Quiet(q, r)
    requires forall k :: 0 <= k < |pending| ==>
               pending[k].timer in r.store && r.store[pending[k].timer] == q.store[pending[k].timer]
    ensures Firing(r, pending, now)
  {
    forall p | p in r.store
      ensures if r.store[p].sequence in r.active then Due(r.log, r.store[p]) else Ran(r.log, r.store[p], now)
    {
      if p in q.store && r.store[p] == q.store[p] && (r.store[p].sequence in r.active <==> q.store[p].sequence in q.active) {
        assert if q.store[p].sequence in q.active then Due(q.log, q.store[p]) else Ran(q.log, q.store[p], now);
      }
    }
    forall k | 0 <= k < |pending| ensures Due(r.log, r.store[pending[k].timer]) {
      assert Due(q.log, q.store[pending[k].timer]);
    }
  }

  lemma {:induction false} AddTimerIsQuiet(q: Queue, batch: seq<Entry>, when: Stamp, interval: real, hint: Address, at: Stamp)
    requires Owned(q, batch)
    ensures Quiet(q, AddTimer(q, when, interval, hint, at))
  {
    var r := AddTimer(q, when, interval, hint, at);
    assert r.log == q.log + [Created(q.numCreated)];
  }

  lemma {:induction false} StopTimerIsQuiet(q: Queue, batch: seq<Entry>, id: int)
    requires Owned(q, batch)
    ensures Quiet(q, StopTimer(q, id))
  {
    var r := StopTimer(q, id);
    if id in q.active {
      assert r.log == q.log + [Deleted(q.store[q.active[id]].sequence)];
      forall p | p in r.store ensures q.store[p].sequence != id {
        OneTimerPerId(q, batch, p, q.active[id]);
      }
    }
  }

  lemma {:induction false} ApplyIsQuiet(q: Queue, batch: seq<Entry>, op: Op)
    requires Owned(q, batch)
    ensures Quiet(q, Apply(q, batch, op))
  {
    match op
    case Add(when, interval, hint, at) => AddTimerIsQuiet(q, batch, when, interval, hint, at);
    case Stop(id) => StopTimerIsQuiet(q, batch, id);
  }

  /** The batch stays allocated whatever the callbacks do. */
  lemma {:induction false} ApplyKeepsBatch(q: Queue, batch: seq<Entry>, op: Op)
    requires Owned(q, batch)
    ensures forall e :: e in batch ==> e.timer in q.store && e.timer in Apply(q, batch, op).store
  {
    forall e | e in batch ensures e.timer in q.store && e.timer in Apply(q, batch, op).store {
      var k :| 0 <= k < |batch| && batch[k] == e;
    }
  }

  lemma {:induction false} ApplyKeepsFiring(q: Queue, batch: seq<Entry>, op: Op, pending: seq<Entry>, now: Stamp)
    requires Owned(q, batch) && Firing(q, pending, now)
    requires forall k :: 0 <= k < |pending| ==> pending[k] in batch
    ensures Firing(Apply(q, batch, op), pending, now)
  {
    BatchKept(q, batch, op);
    ApplyIsQuiet(q, batch, op);
    ApplyKeepsBatch(q, batch, op);
    QuietKeepsFiring(q, Apply(q, batch, op), pending, now);
  }

  /** A timer that is due keeps the spacing when it starts. */
  lemma {:induction false} StartIsSpaced(log: seq<Event>, t: Timer, now: Stamp)
    requires Spaced(log) && Due(log, t) && t.expiration <= now
    ensures var more := log + [Started(t.sequence, t.interval, now)]; Spaced(more) && Ran(more, t, now)
  {
  }

  lemma {:induction false} OthersStart(log: seq<Event>, e: Event, t: Timer, now: Stamp)
    requires e.id != t.sequence
    ensures Due(log, t) ==> Due(log + [e], t)
    ensures Ran(log, t, now) ==> Ran(log + [e], t, now)
  {
  }

  /** The batch holds its timers apart from the indexes and from each other. */
  lemma {:induction false} BatchFacts(q: Queue, batch: seq<Entry>, k: nat)
    requires Owned(q, batch) && k < |batch|
    ensures var p := batch[k].timer;
            && p in q.store && q.store[p].expiration == batch[k].when
            && q.store[p].sequence !in q.active && q.store[p].sequence < q.numCreated
            && forall i :: k < i < |batch| ==> batch[i].timer in q.store && q.store[batch[i].timer].sequence != q.store[p].sequence
  {
  }

  lemma {:induction false} StartKeepsFiring(q: Queue, batch: seq<Entry>, k: nat, now: Stamp)
    requires Owned(q, batch) && k < |batch| && batch[k].when <= now
    requires Firing(q, batch[k..], now)
    ensures Firing(Start(q, batch[k].timer, now), batch[k + 1..], now)
  {
    BatchFacts(q, batch, k);
    hide Owned, Due, Ran, Spaced;
    var p := batch[k].timer;
    var t := q.store[p];
    var e := Started(t.sequence, t.interval, now);
    var log := q.log + [e];
    assert batch[k..][0] == batch[k];
    StartIsSpaced(q.log, t, now);
    forall x | x in q.store
      ensures if q.store[x].sequence in q.active then Due(log, q.store[x]) else Ran(log, q.store[x], now)
    {
      if x != p {
        OneTimerPerId(q, batch, x, p);
        assert if q.store[x].sequence in q.active then Due(q.log, q.store[x]) else Ran(q.log, q.store[x], now);
        OthersStart(q.log, e, q.store[x], now);
      }
    }
    var rest := batch[k + 1..];
    forall i | 0 <= i < |rest| ensures rest[i].timer in q.store && Due(log, q.store[rest[i].timer]) {
      assert rest[i] == batch[k..][i + 1] == batch[k + 1 + i];
      OthersStart(q.log, e, q.store[rest[i].timer], now);
    }
  }

  /** A timer that leaves the indexes was due, and the pass is not before its expiration. */
  lemma {:induction false} BeginKeepsTimer(q: Queue, now: Stamp, r: Queue, batch: seq<Entry>, p: Address)
    requires Owned(q, []) && Firing(q, [], 0) && p in q.store
    requires batch == q.timers[..UpperBound(q.timers, now)] && Accounted(r, batch)
    requires r.store == q.store && forall id :: id in r.active ==> id in q.active
    ensures Due(q.log, q.store[p])
    ensures if q.store[p].sequence in r.active then Due(q.log, q.store[p]) else Ran(q.log, q.store[p], now)
  {
    assert q.store[p].sequence in q.active;
    if q.store[p].sequence !in r.active {
      var k :| 0 <= k < |batch| && batch[k].timer == p;
      assert q.timers[k] in q.timers;
      assert q.store[p].expiration == q.timers[k].when <= now;
    }
  }

  lemma {:induction false} BeginKeepsFiring(q: Queue, now: Stamp)
    requires Owned(q, []) && Firing(q, [], 0)
    requires Owned(BeginPass(q, now), q.timers[..UpperBound(q.timers, now)])
    ensures Firing(BeginPass(q, now), q.timers[..UpperBound(q.timers, now)], now)
  {
    var batch := q.timers[..UpperBound(q.timers, now)];
    var r := BeginPass(q, now);
    forall p | p in q.store
      ensures Due(q.log, q.store[p])
      ensures if q.store[p].sequence in r.active then Due(q.log, q.store[p]) else Ran(q.log, q.store[p], now)
    {
      BeginKeepsTimer(q, now, r, batch, p);
    }
  }

  /** Reset touches only the timer it settles. */
  lemma {:induction false} SettleOthers(q: Queue, batch: seq<Entry>, now: Stamp, x: Address)
    requires Owned(q, batch) && batch != []
    requires x in Settle(q, batch[0].timer, now).store && x != batch[0].timer
    ensures var r := Settle(q, batch[0].timer, now);
            && x in q.store && r.store[x] == q.store[x]
            && (q.store[x].sequence in r.active <==> q.store[x].sequence in q.active)
  {
    OneTimerPerId(q, batch, x, batch[0].timer);
  }

  lemma {:induction false} SettleLog(q: Queue, p: Address, now: Stamp)
    requires p in q.store
    ensures var r := Settle(q, p, now);
            && r.numCreated == q.numCreated
            && (r.log == q.log || r.log == q.log + [Deleted(q.store[p].sequence)])
  {
  }

  /** Nothing that the log tells of starts changes when it tells of a deletion. */
  lemma {:induction false} SameStarts(log: seq<Event>, more: seq<Event>, id: int)
    requires more == log || more == log + [Deleted(id)]
    ensures Spaced(log) ==> Spaced(more)
    ensures forall t :: Due(log, t) ==> Due(more, t)
    ensures forall t, now :: Ran(log, t, now) ==> Ran(more, t, now)
  {
  }

  /** A timer that goes back into the indexes is due its interval after this pass. */
  lemma {:induction false} SettledIsDue(q: Queue, p: Address, now: Stamp)
    requires p in q.store && Ran(q.log, q.store[p], now)
    ensures var r := Settle(q, p, now); p in r.store ==> r.store[p].sequence in r.active && Due(q.log, r.store[p])
  {
  }

  lemma {:induction false} HeadRan(q: Queue, batch: seq<Entry>, now: Stamp)
    requires Owned(q, batch) && batch != [] && Firing(q, [], now)
    ensures batch[0].timer in q.store && Ran(q.log, q.store[batch[0].timer], now)
    ensures q.store[batch[0].timer].sequence < q.numCreated
  {
  }

  lemma {:induction false} SettleKeepsFiring(q: Queue, batch: seq<Entry>, now: Stamp)
    requires Owned(q, batch) && batch != [] && Firing(q, [], now)
    ensures Firing(Settle(q, batch[0].timer, now), [], now)
  {
    hide Owned, Settle, Due, Ran, Spaced;
    var p := batch[0].timer;
    HeadRan(q, batch, now);
    var r := Settle(q, p, now);
    SettleLog(q, p, now);
    SettledIsDue(q, p, now);
    SameStarts(q.log, r.log, q.store[p].sequence);
    forall x | x in r.store
      ensures if r.store[x].sequence in r.active then Due(r.log, r.store[x]) else Ran(r.log, r.store[x], now)
    {
      if x != p {
        SettleOthers(q, batch, now, x);
        assert if q.store[x].sequence in q.active then Due(q.log, q.store[x]) else Ran(q.log, q.store[x], now);
      }
    }
  }

  lemma {:induction false} SettleAllKeepsFiring(q: Queue, batch: seq<Entry>, now: Stamp)
    requires Owned(q, batch) && Firing(q, [], now)
    ensures Firing(SettleAll(q, batch, now), [], now)
    decreases |batch|
  {
    if batch != [] {
      SettleKeepsOwned(q, batch, now);
      SettleKeepsFiring(q, batch, now);
      SettleAllKeepsFiring(Settle(q, batch[0].timer, now), batch[1..], now);
    }
  }

  /** After Reset nothing is in flight, so the time of the pass no longer matters. */
  lemma {:induction false} EndKeepsFiring(q: Queue, batch: seq<Entry>, now: Stamp, at: Stamp)
    requires Owned(q, batch) && Firing(q, [], now)
    ensures Firing(Rearm(SettleAll(q, batch, now), at), [], 0)
  {
    SettleAllKeepsFiring(q, batch, now);
    var settled := SettleAll(q, batch, now);
    forall p | p in settled.store ensures settled.store[p].sequence in settled.active {
      assert !InBatch(p, []);
    }
  }

  lemma {:induction false} BeginStepKeepsFiring(s: System, now: Stamp)
    requires Inv(s) && FiringSystem(s) && s.phase.Idle?
    ensures FiringSystem(Next(s, Begin(now)))
  {
    var r := Next(s, Begin(now));
    BeginKeepsFiring(s.q, now);
    assert Pending(r) == r.phase.batch;
  }

  lemma {:induction false} StartStepKeepsFiring(s: System)
    requires Inv(s) && FiringSystem(s) && Enabled(s, StartNext)
    ensures FiringSystem(Next(s, StartNext))
  {
    assert s.phase.batch[s.phase.next] in s.phase.batch;
    StartKeepsFiring(s.q, s.phase.batch, s.phase.next, s.phase.now);
  }

  lemma {:induction false} EndStepKeepsFiring(s: System, at: Stamp)
    requires Inv(s) && FiringSystem(s) && Enabled(s, End(at))
    ensures FiringSystem(Next(s, End(at)))
  {
    EndKeepsFiring(s.q.(calling := false), s.phase.batch, s.phase.now, at);
  }

  lemma {:induction false} NextKeepsFiring(s: System, step: Step)
    requires Inv(s) && FiringSystem(s) && Enabled(s, step)
    ensures FiringSystem(Next(s, step))
  {
    match step
    case Do(op) =>
      ApplyKeepsFiring(s.q, InFlight(s), op, Pending(s), if s.phase.Calling? then s.phase.now else 0);
    case Begin(now) => BeginStepKeepsFiring(s, now);
    case StartNext => StartStepKeepsFiring(s);
    case End(at) => EndStepKeepsFiring(s, at);
  }

  lemma {:induction false} RunKeepsFiring(s: System, steps: seq<Step>)
    requires Inv(s) && FiringSystem(s)
    ensures FiringSystem(Run(s, steps))
    decreases |steps|
  {
    if steps != [] {
      if Enabled(s, steps[0]) { NextKeepsFiring(s, steps[0]); }
      RunKeepsFiring(Next(s, steps[0]), steps[1..]);
    }
  }

  /**
   Over every run: a one-shot timer starts at most once, and two starts of a periodic timer are at least its interval
   (in whole microseconds) apart, whatever callbacks do and wherever the clock goes between passes.
   */
  lemma {:induction false} StartsAreSpaced(steps: seq<Step>)
    ensures Spaced(Run(INITIAL, steps).q.log)
  {
    RunKeepsFiring(INITIAL, steps);
  }
}
