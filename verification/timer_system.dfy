/**
 Whole runs of the timer queue. A run is any sequence of steps: additions and cancellations at any moment, also
 while a pass is calling expired timers, which is what a callback (or another thread between two callbacks) does.
 A step that the code cannot take in the present phase changes nothing, so every sequence of steps is a run.
 */
module TimerSystem {
  import opened Options
  import opened TimerStamps
  import opened TimerSpec
  import opened TimerInvariant

  datatype Op =
    | Add(when: Stamp, interval: real, hint: Address, at: Stamp)
    | Stop(id: int)

  datatype Step =
    | Do(op: Op)
    | Begin(now: Stamp)  // HandleRead up to the first callback
    | StartNext          // the callback of the next expired timer is entered
    | End(at: Stamp)     // Reset, once every expired timer was started

  datatype Phase =
    | Idle
    | Calling(now: Stamp, batch: seq<Entry>, next: nat)

  datatype System = System(q: Queue, phase: Phase)

  const INITIAL := System(Queue(map[], [], map[], {}, false, None, 0, []), Idle)

  ghost function InFlight(s: System): seq<Entry> {
    if s.phase.Idle? then [] else s.phase.batch
  }

  ghost predicate Inv(s: System) {
    && Owned(s.q, InFlight(s))
    && (s.q.calling <==> s.phase.Calling?)
    && (s.phase.Calling? ==> s.phase.next <= |s.phase.batch| && forall e :: e in s.phase.batch ==> e.when <= s.phase.now)
  }

  lemma {:induction false} InitialInv()
    ensures Inv(INITIAL)
  {
  }

  ghost function SettleAll(q: Queue, batch: seq<Entry>, now: Stamp): (r: Queue)
    requires Owned(q, batch)
    ensures Owned(r, [])
    ensures r.calling == q.calling && r.alarm == q.alarm && r.canceling == q.canceling
    ensures r.numCreated == q.numCreated
    decreases |batch|
  {
    if batch == [] then
      q
    else
      SettleKeepsOwned(q, batch, now);
      SettleAll(Settle(q, batch[0].timer, now), batch[1..], now)
  }

  ghost function Apply(q: Queue, batch: seq<Entry>, op: Op): (r: Queue)
    requires Owned(q, batch)
    ensures Owned(r, batch) && r.calling == q.calling && r.numCreated >= q.numCreated
  {
    match op
    case Add(when, interval, hint, at) =>
      AddTimerKeepsOwned(q, batch, when, interval, hint, at);
      AddTimer(q, when, interval, hint, at)
    case Stop(id) =>
      StopTimerKeepsOwned(q, batch, id);
      StopTimer(q, id)
  }

  lemma {:induction false} TimersLive(q: Queue, batch: seq<Entry>)
    requires Owned(q, batch)
    ensures Live(q, q.timers)
  {
  }

  /** Owned says nothing about the alarm, the flag and the cancelled ids. */
  lemma {:induction false} Flags(q: Queue, batch: seq<Entry>, alarm: Option<Alarm>, calling: bool, canceling: set<int>)
    requires Owned(q, batch)
    ensures Owned(q.(alarm := alarm, calling := calling, canceling := canceling), batch)
  {
  }

  lemma {:induction false} NotCalling(q: Queue, batch: seq<Entry>)
    requires Owned(q, batch)
    ensures Owned(q.(calling := false), batch)
  {
  }

  /** What the first part of a pass leaves, and what Reset leaves. */
  lemma {:induction false} BeginIsInv(q: Queue, now: Stamp)
    requires Owned(q, [])
    ensures Live(q, q.timers)
    ensures Inv(System(BeginPass(q, now), Calling(now, q.timers[..UpperBound(q.timers, now)], 0)))
  {
    hide Owned, GetExpired;
    TimersLive(q, []);
    var armed := q.(alarm := ReadTimerfd(q.alarm, now));
    Flags(q, [], armed.alarm, q.calling, q.canceling);
    assert armed == q.(alarm := armed.alarm, calling := q.calling, canceling := q.canceling);
    GetExpiredKeepsOwned(armed, now);
    var r := GetExpired(armed, now);
    var batch := q.timers[..UpperBound(q.timers, now)];
    Flags(r, batch, r.alarm, true, {});
    assert BeginPass(q, now) == r.(alarm := r.alarm, calling := true, canceling := {});
    assert forall e :: e in batch ==> e.when <= now;
  }

  lemma {:induction false} EndIsInv(q: Queue, at: Stamp)
    requires Owned(q, []) && !q.calling
    ensures Inv(System(Rearm(q, at), Idle))
  {
    hide HowMuchTimeFromNow;
  }

  ghost predicate Enabled(s: System, step: Step) {
    match step
    case Do(_) => true
    case Begin(_) => s.phase.Idle?
    case StartNext => s.phase.Calling? && s.phase.next < |s.phase.batch|
    case End(_) => s.phase.Calling? && s.phase.next == |s.phase.batch|
  }

  ghost function Next(s: System, step: Step): (r: System)
    requires Inv(s)
    ensures Inv(r)
  {
    if !Enabled(s, step) then s else
    match step
    case Do(op) =>
      s.(q := Apply(s.q, InFlight(s), op))
    case Begin(now) =>
      BeginIsInv(s.q, now);
      System(BeginPass(s.q, now), Calling(now, s.q.timers[..UpperBound(s.q.timers, now)], 0))
    case StartNext =>
      var e := s.phase.batch[s.phase.next];
      System(Start(s.q, e.timer, s.phase.now), s.phase.(next := s.phase.next + 1))
    case End(at) =>
      NotCalling(s.q, s.phase.batch);
      var settled := SettleAll(s.q.(calling := false), s.phase.batch, s.phase.now);
      EndIsInv(settled, at);
      System(Rearm(settled, at), Idle)
  }

  lemma {:induction false} SettleAllStep(q: Queue, batch: seq<Entry>, now: Stamp)
    requires Owned(q, batch) && batch != []
    ensures batch[0].timer in q.store && Owned(Settle(q, batch[0].timer, now), batch[1..])
    ensures SettleAll(q, batch, now) == SettleAll(Settle(q, batch[0].timer, now), batch[1..], now)
  {
    SettleKeepsOwned(q, batch, now);
  }

  lemma {:induction false} SettleNone(q: Queue, now: Stamp)
    requires Owned(q, [])
    ensures SettleAll(q, [], now) == q
  {
  }

  lemma {:induction false} BeginApplies(s: System, now: Stamp)
    requires Inv(s) && s.phase.Idle?
    ensures Live(s.q, s.q.timers)
    ensures Next(s, Begin(now)) ==
            System(BeginPass(s.q, now), Calling(now, s.q.timers[..UpperBound(s.q.timers, now)], 0))
  {
  }

  lemma {:induction false} EndApplies(s: System, batch: seq<Entry>, now: Stamp, at: Stamp)
    requires Inv(s) && s.phase == Calling(now, batch, |batch|)
    ensures Owned(s.q.(calling := false), batch)
    ensures Next(s, End(at)) == System(Rearm(SettleAll(s.q.(calling := false), batch, now), at), Idle)
  {
    hide Owned, SettleAll, Rearm;
    NotCalling(s.q, batch);
  }

  lemma {:induction false} NextApplies(s: System, op: Op)
    requires Inv(s)
    ensures Next(s, Do(op)) == s.(q := Apply(s.q, InFlight(s), op))
  {
  }

  ghost function Run(s: System, steps: seq<Step>): (r: System)
    requires Inv(s)
    ensures Inv(r)
    decreases |steps|
  {
    if steps == [] then s else Run(Next(s, steps[0]), steps[1..])
  }

  lemma {:induction false} RunAppend(s: System, a: seq<Step>, b: seq<Step>)
    requires Inv(s)
    ensures Run(s, a + b) == Run(Run(s, a), b)
    decreases |a|
  {
    if a == [] {
      assert a + b == b;
    } else {
      assert (a + b)[0] == a[0] && (a + b)[1..] == a[1..] + b;
      RunAppend(Next(s, a[0]), a[1..], b);
    }
  }

  lemma {:induction false} RunNone(s: System)
    requires Inv(s)
    ensures Run(s, []) == s
  {
  }

  lemma {:induction false} RunOne(s: System, step: Step)
    requires Inv(s)
    ensures Run(s, [step]) == Next(s, step)
  {
    assert [step][1..] == [];
  }

  lemma {:induction false} RunSnoc(s: System, steps: seq<Step>, step: Step)
    requires Inv(s)
    ensures Run(s, steps + [step]) == Next(Run(s, steps), step)
  {
    RunAppend(s, steps, [step]);
    assert [step][1..] == [];
  }

  /** The callback of the i-th expired timer, as the operations it performs; beyond the given ones, an empty one. */
  function Callback(callbacks: seq<seq<Op>>, i: nat): (ops: seq<Op>)
    ensures i < |callbacks| ==> ops == callbacks[i]
    ensures i >= |callbacks| ==> ops == []
  {
    if i < |callbacks| then callbacks[i] else []
  }

  function Body(ops: seq<Op>): (steps: seq<Step>)
    ensures |steps| == |ops| && forall i :: 0 <= i < |ops| ==> steps[i] == Do(ops[i])
  {
    seq(|ops|, i requires 0 <= i < |ops| => Do(ops[i]))
  }

  lemma {:induction false} BodyNone(ops: seq<Op>)
    ensures Body(ops[..0]) == []
  {
  }

  lemma {:induction false} BodySnoc(ops: seq<Op>, i: nat)
    requires i < |ops|
    ensures Body(ops[..i + 1]) == Body(ops[..i]) + [Do(ops[i])]
  {
  }

  /** The steps of the first n callbacks of a pass. */
  function CallSteps(callbacks: seq<seq<Op>>, n: nat): seq<Step> {
    if n == 0 then [] else CallSteps(callbacks, n - 1) + ([StartNext] + Body(Callback(callbacks, n - 1)))
  }

  lemma {:induction false} RunOneMoreCall(s: System, callbacks: seq<seq<Op>>, n: nat)
    requires Inv(s)
    ensures Run(s, CallSteps(callbacks, n + 1)) ==
            Run(Run(s, CallSteps(callbacks, n)), [StartNext] + Body(Callback(callbacks, n)))
  {
    RunAppend(s, CallSteps(callbacks, n), [StartNext] + Body(Callback(callbacks, n)));
  }

  /** The steps of a whole HandleRead that finds n timers expired. */
  function PassSteps(now: Stamp, callbacks: seq<seq<Op>>, n: nat, at: Stamp): seq<Step> {
    [Begin(now)] + CallSteps(callbacks, n) + [End(at)]
  }
}
