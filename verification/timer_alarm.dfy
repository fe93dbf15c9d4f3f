/** The single one-shot alarm is never later than the earliest timer needs. */
module TimerAlarm {
  import opened Options
  import opened TimerStamps
  import opened TimerSpec
  import opened TimerInvariant
  import opened TimerSystem

  /** Armed, with a deadline no later than the earliest expiration or 100 microseconds after the arming. */
  ghost predicate ArmedInTime(q: Queue)
    requires q.timers != []
  {
    && q.alarm.Some?
    && var soonest := q.alarm.value.armedAt + 100;
       q.alarm.value.deadline <= if q.timers[0].when < soonest then soonest else q.timers[0].when
  }

  /** What holds between passes. */
  ghost predicate Sound(q: Queue) {
    q.timers != [] ==> ArmedInTime(q)
  }

  /** What holds also inside a pass: Reset will arm the alarm, except for an earliest timer with an invalid stamp. */
  ghost predicate SoundInPass(q: Queue) {
    q.timers != [] && !Valid(q.timers[0].when) ==> ArmedInTime(q)
  }

  ghost predicate AlarmInv(s: System) {
    if s.phase.Idle? then Sound(s.q) else SoundInPass(s.q) && s.phase.now > 0
  }

  lemma {:induction false} AddTimerKeepsSound(q: Queue, when: Stamp, interval: real, hint: Address, at: Stamp)
    ensures Sound(q) ==> Sound(AddTimer(q, when, interval, hint, at))
    ensures SoundInPass(q) ==> SoundInPass(AddTimer(q, when, interval, hint, at))
  {
    var p := Allocate(q.store.Keys, hint);
    assert AddTimer(q, when, interval, hint, at).timers == InsertEntry(q.timers, Entry(when, p));
  }

  lemma {:induction false} StopTimerKeepsSound(q: Queue, batch: seq<Entry>, id: int)
    requires Owned(q, batch)
    ensures Sound(q) ==> Sound(StopTimer(q, id))
    ensures SoundInPass(q) ==> SoundInPass(StopTimer(q, id))
  {
    var r := StopTimer(q, id);
    if r.timers != [] {
      assert r.timers[0] in r.timers;
      assert r.timers[0] in q.timers;
      var i :| 0 <= i < |q.timers| && q.timers[i] == r.timers[0];
      assert q.timers[0].when <= r.timers[0].when;
    }
  }

  lemma {:induction false} ApplyKeepsSound(q: Queue, batch: seq<Entry>, op: Op)
    requires Owned(q, batch)
    ensures Sound(q) ==> Sound(Apply(q, batch, op))
    ensures SoundInPass(q) ==> SoundInPass(Apply(q, batch, op))
  {
    match op
    case Add(when, interval, hint, at) => AddTimerKeepsSound(q, when, interval, hint, at);
    case Stop(id) => StopTimerKeepsSound(q, batch, id);
  }

  lemma {:induction false} SettleKeepsSound(q: Queue, p: Address, now: Stamp)
    requires p in q.store && SoundInPass(q) && now > 0
    ensures SoundInPass(Settle(q, p, now))
  {
  }

  lemma {:induction false} SettleAllKeepsSound(q: Queue, batch: seq<Entry>, now: Stamp)
    requires Owned(q, batch) && SoundInPass(q) && now > 0
    ensures SoundInPass(SettleAll(q, batch, now))
    decreases |batch|
  {
    if batch != [] {
      SettleKeepsOwned(q, batch, now);
      SettleKeepsSound(q, batch[0].timer, now);
      SettleAllKeepsSound(Settle(q, batch[0].timer, now), batch[1..], now);
    }
  }

  lemma {:induction false} RearmMakesSound(q: Queue, at: Stamp)
    requires Owned(q, []) && SoundInPass(q)
    ensures Sound(Rearm(q, at))
  {
    if q.timers != [] { assert q.timers[0] in q.timers; }
  }

  lemma {:induction false} EndMakesSound(q: Queue, batch: seq<Entry>, now: Stamp, at: Stamp)
    requires Owned(q, batch) && SoundInPass(q) && now > 0
    ensures Sound(Rearm(SettleAll(q, batch, now), at))
  {
    SettleAllKeepsSound(q, batch, now);
    RearmMakesSound(SettleAll(q, batch, now), at);
  }

  lemma {:induction false} BeginMakesSoundInPass(q: Queue, now: Stamp)
    requires Owned(q, []) && now > 0
    ensures SoundInPass(BeginPass(q, now))
  {
  }

  lemma {:induction false} NextKeepsAlarm(s: System, step: Step)
    requires Inv(s) && AlarmInv(s) && (step.Begin? ==> step.now > 0)
    ensures AlarmInv(Next(s, step))
  {
    if Enabled(s, step) {
      match step
      case Do(op) => ApplyKeepsSound(s.q, InFlight(s), op);
      case Begin(now) => BeginMakesSoundInPass(s.q, now);
      case StartNext =>
      case End(at) => EndMakesSound(s.q.(calling := false), s.phase.batch, s.phase.now, at);
    }
  }

  lemma {:induction false} RunKeepsAlarm(s: System, steps: seq<Step>)
    requires Inv(s) && AlarmInv(s)
    requires forall i :: 0 <= i < |steps| && steps[i].Begin? ==> steps[i].now > 0
    ensures AlarmInv(Run(s, steps))
    decreases |steps|
  {
    if steps != [] {
      NextKeepsAlarm(s, steps[0]);
      RunKeepsAlarm(Next(s, steps[0]), steps[1..]);
    }
  }

  /**
   Between passes, whenever a timer waits, the alarm is armed in time for the earliest one: after cancelling the
   earliest timer, after early wakeups that start nothing, and after additions made by callbacks. The expirations
   themselves may be invalid and the clock may jump between readings; only HandleRead must see a clock after the epoch.
   */
  lemma {:induction false} AlarmIsInTime(steps: seq<Step>)
    requires forall i :: 0 <= i < |steps| && steps[i].Begin? ==> steps[i].now > 0
    requires Run(INITIAL, steps).phase.Idle? && Run(INITIAL, steps).q.timers != []
    ensures ArmedInTime(Run(INITIAL, steps).q)
  {
    RunKeepsAlarm(INITIAL, steps);
  }

  lemma {:induction false} BeginRestoresAlarm(s: System, now: Stamp)
    requires Inv(s) && s.phase.Idle? && now > 0
    ensures AlarmInv(Next(s, Begin(now)))
  {
    TimersLive(s.q, []);
    hide Inv, Owned, Next, BeginPass, SoundInPass;
    OwnedWhenIdle(s);
    BeginApplies(s, now);
    BeginMakesSoundInPass(s.q, now);
  }

  lemma {:induction false} OwnedWhenIdle(s: System)
    requires Inv(s) && s.phase.Idle?
    ensures Owned(s.q, [])
  {
  }

  /**
   Passes before the last one with a clock after the epoch do not matter: a single such pass restores the alarm, also
   when it was lost, and it stays in time as long as the later passes see such a clock too.
   */
  lemma {:induction false} OnePassRestoresTheAlarm(before: seq<Step>, now: Stamp, after: seq<Step>)
    requires Run(INITIAL, before).phase.Idle? && now > 0
    requires forall i :: 0 <= i < |after| && after[i].Begin? ==> after[i].now > 0
    ensures var r := Run(INITIAL, before + ([Begin(now)] + after));
            r.phase.Idle? && r.q.timers != [] ==> ArmedInTime(r.q)
  {
    hide Inv, Run, Next;
    InitialInv();
    var s := Run(INITIAL, before);
    RunAppend(INITIAL, before, [Begin(now)] + after);
    RunAppend(s, [Begin(now)], after);
    RunOne(s, Begin(now));
    BeginRestoresAlarm(s, now);
    RunKeepsAlarm(Next(s, Begin(now)), after);
  }

  // ---------- The assumption on the clock is exact ----------

  ghost predicate PassesAt(steps: seq<Step>, now: Stamp) {
    forall i :: 0 <= i < |steps| && steps[i].Begin? ==> steps[i].now == now
  }

  lemma {:induction false} Extend(steps: seq<Step>, step: Step) returns (longer: seq<Step>)
    ensures longer == steps + [step] && Run(INITIAL, longer) == Next(Run(INITIAL, steps), step)
  {
    longer := steps + [step];
    RunSnoc(INITIAL, steps, step);
  }

  lemma {:induction false} AddFirst(when: Stamp, interval: real)
    ensures var q := AddTimer(INITIAL.q, when, interval, 0, when - 100);
            && q.store == map[0 := Timer(when, interval, 0)] && q.active == map[0 := 0] && q.numCreated == 1
            && q.timers == [Entry(when, 0)] && q.alarm == Some(Alarm(when, when - 100)) && !q.calling
  {
  }

  /** The run that only adds that timer. */
  lemma {:induction false} FirstAdded(when: Stamp, interval: real)
    ensures var s := Run(INITIAL, [] + [Do(Add(when, interval, 0, when - 100))]);
            s.phase.Idle? && s.q == AddTimer(INITIAL.q, when, interval, 0, when - 100)
  {
    var add := Add(when, interval, 0, when - 100);
    assert [] + [Do(add)] == [Do(add)];
    RunOne(INITIAL, Do(add));
    NextApplies(INITIAL, add);
  }

  lemma {:induction false} AddSecond(q: Queue, now: Stamp)
    requires q.store == map[0 := Timer(now, 0.0, 0)] && q.active == map[0 := 0] && q.numCreated == 1
    requires q.timers == [Entry(now, 0)] && now < 0
    ensures var r := AddTimer(q, 0, 0.0, 1, now);
            && r.store == map[0 := Timer(now, 0.0, 0), 1 := Timer(0, 0.0, 1)] && r.active == map[0 := 0, 1 := 1]
            && r.timers == [Entry(now, 0), Entry(0, 1)] && r.alarm == q.alarm
  {
    assert q.timers[1..] == [];
    assert InsertEntry(q.timers, Entry(0, 1)) == [Entry(now, 0), Entry(0, 1)];
  }

  lemma {:induction false} StopFirst(q: Queue, now: Stamp)
    requires q.store == map[0 := Timer(now, 0.0, 0), 1 := Timer(0, 0.0, 1)] && q.active == map[0 := 0, 1 := 1]
    requires q.timers == [Entry(now, 0), Entry(0, 1)]
    ensures var r := StopTimer(q, 0);
            && r.timers == [Entry(0, 1)] && r.alarm == q.alarm && r.store == map[1 := Timer(0, 0.0, 1)]
  {
  }

  lemma {:induction false} BeginWithoutWork(q: Queue, now: Stamp)
    requires Live(q, q.timers) && now < 0
    requires q.timers == [Entry(0, 1)] && q.alarm == Some(Alarm(now, now - 100))
    ensures UpperBound(q.timers, now) == 0
    ensures var b := BeginPass(q, now); b.timers == q.timers && b.alarm == None && b.store == q.store
  {
    assert q.timers[0..] == q.timers;
  }

  /** Reset passes over an earliest timer with an invalid stamp. */
  lemma {:induction false} RearmNothing(q: Queue, at: Stamp)
    requires Live(q, q.timers) && q.timers != [] && !Valid(q.store[q.timers[0].timer].expiration) && q.alarm == None
    ensures Rearm(q, at) == q && !Sound(q)
  {
  }

  lemma {:induction false} FirstStamp(q: Queue, batch: seq<Entry>)
    requires Owned(q, batch) && q.timers != []
    ensures Live(q, q.timers) && q.store[q.timers[0].timer].expiration == q.timers[0].when
  {
    assert q.timers[0] in q.timers;
  }

  lemma {:induction false} PassWithoutWork(s: System, now: Stamp)
    requires Inv(s) && s.phase.Idle? && now < 0
    requires s.q.timers == [Entry(0, 1)] && s.q.alarm == Some(Alarm(now, now - 100))
    ensures var r := Next(Next(s, Begin(now)), End(now)); r.phase.Idle? && !Sound(r.q)
  {
    hide Inv, Owned, Next, BeginPass, Rearm, SettleAll, Sound;
    BeginApplies(s, now);
    BeginWithoutWork(s.q, now);
    var b := Next(s, Begin(now));
    EndApplies(b, [], now, now);
    var q := b.q.(calling := false);
    SettleNone(q, now);
    FirstStamp(q, []);
    RearmNothing(q, now);
  }

  lemma {:induction false} ReachTwo(now: Stamp) returns (steps: seq<Step>)
    requires now < 0
    ensures |steps| == 2 && steps[0].Do? && steps[1].Do?
    ensures var s := Run(INITIAL, steps);
            && s.q.store == map[0 := Timer(now, 0.0, 0), 1 := Timer(0, 0.0, 1)] && s.q.active == map[0 := 0, 1 := 1]
            && s.q.timers == [Entry(now, 0), Entry(0, 1)]
            && s.q.alarm == Some(Alarm(now, now - 100)) && s.phase.Idle?
  {
    hide Inv, Run, Next, AddTimer;
    InitialInv();
    var a, b := Add(now, 0.0, 0, now - 100), Add(0, 0.0, 1, now);
    AddFirst(now, 0.0);
    FirstAdded(now, 0.0);
    var one := Extend([], Do(a));
    AddSecond(Run(INITIAL, one).q, now);
    NextApplies(Run(INITIAL, one), b);
    steps := Extend(one, Do(b));
  }

  lemma {:induction false} ReachThree(now: Stamp) returns (steps: seq<Step>)
    requires now < 0
    ensures |steps| == 3 && steps[0].Do? && steps[1].Do? && steps[2].Do?
    ensures var s := Run(INITIAL, steps);
            s.q.timers == [Entry(0, 1)] && s.q.alarm == Some(Alarm(now, now - 100)) && s.phase.Idle?
  {
    hide Inv, Run, Next, StopTimer;
    InitialInv();
    var two := ReachTwo(now);
    StopFirst(Run(INITIAL, two).q, now);
    NextApplies(Run(INITIAL, two), Stop(0));
    steps := Extend(two, Do(Stop(0)));
  }

  /** Before the epoch: the alarm of a cancelled timer wakes a pass that leaves a later, invalid stamp waiting. */
  lemma {:induction false} AlarmLostBeforeTheEpoch(now: Stamp) returns (steps: seq<Step>)
    requires now < 0
    ensures PassesAt(steps, now) && Run(INITIAL, steps).phase.Idle? && !Sound(Run(INITIAL, steps).q)
  {
    hide Inv, Run, Next, Sound;
    InitialInv();
    var three := ReachThree(now);
    PassWithoutWork(Run(INITIAL, three), now);
    var four := Extend(three, Begin(now));
    steps := Extend(four, End(now));
  }

  /** The queue of one timer with an interval below a microsecond. */
  predicate Tiny(q: Queue) {
    q.store == map[0 := Timer(0, 0.0000001, 0)] && q.canceling == {}
  }

  lemma {:induction false} TinyBegin(q: Queue)
    requires q.store == map[0 := Timer(0, 0.0000001, 0)] && q.active == map[0 := 0]
    requires q.timers == [Entry(0, 0)] && q.alarm == Some(Alarm(0, -100))
    ensures UpperBound(q.timers, 0) == 1 && q.timers[..1] == q.timers
    ensures Live(q, q.timers)
    ensures var b := BeginPass(q, 0); Tiny(b) && b.timers == [] && b.alarm == None && b.active == map[]
  {
    hide HowMuchTimeFromNow, Delta, AddTime;
    assert q.timers[1..] == [];
    assert UpperBound(q.timers, 0) == 1 + UpperBound(q.timers[1..], 0);
    assert Sequences(q.store, q.timers[..1]) == {0};
    assert q.active - {0} == map[];
  }

  lemma {:induction false} TinyPass(s: System)
    requires Inv(s) && s.phase.Idle?
    requires s.q.store == map[0 := Timer(0, 0.0000001, 0)] && s.q.active == map[0 := 0]
    requires s.q.timers == [Entry(0, 0)] && s.q.alarm == Some(Alarm(0, -100))
    ensures var b := Next(s, Begin(0));
            && b.phase == Calling(0, [Entry(0, 0)], 0) && Tiny(b.q)
            && b.q.timers == [] && b.q.alarm == None && b.q.active == map[]
  {
    hide Inv, Next, BeginPass, Tiny, UpperBound;
    TinyBegin(s.q);
    BeginApplies(s, 0);
  }

  lemma {:induction false} TinyDelta()
    ensures Delta(0.0000001) == 0
  {
  }

  lemma {:induction false} TinySettle(q: Queue)
    requires Tiny(q) && q.active == map[] && q.timers == []
    ensures var r := Settle(q, 0, 0);
            r.timers == [Entry(0, 0)] && r.alarm == q.alarm && r.store == q.store
  {
    TinyDelta();
    hide HowMuchTimeFromNow, Delta;
  }

  lemma {:induction false} TinyEnd(s: System)
    requires Inv(s) && s.phase == Calling(0, [Entry(0, 0)], 1)
    requires Tiny(s.q) && s.q.active == map[] && s.q.timers == [] && s.q.alarm == None
    ensures var r := Next(s, End(0)); r.phase.Idle? && !Sound(r.q)
  {
    hide Inv, Owned, Next, Rearm, SettleAll, Settle, Sound;
    var q := s.q.(calling := false);
    EndApplies(s, [Entry(0, 0)], 0, 0);
    TinySettle(q);
    SettleAllStep(q, [Entry(0, 0)], 0);
    assert [Entry(0, 0)][1..] == [];
    var r := Settle(q, 0, 0);
    SettleNone(r, 0);
    FirstStamp(r, []);
    RearmNothing(r, 0);
  }

  /** The pass of such a timer, before and after its callback. */
  ghost predicate TinyCalling(s: System, next: nat) {
    && s.phase == Calling(0, [Entry(0, 0)], next)
    && Tiny(s.q) && s.q.active == map[] && s.q.timers == [] && s.q.alarm == None
  }

  lemma {:induction false} ReachTinyPass() returns (steps: seq<Step>)
    ensures PassesAt(steps, 0) && TinyCalling(Run(INITIAL, steps), 0)
  {
    hide Inv, Run, Next, Tiny, AddTimer;
    InitialInv();
    AddFirst(0, 0.0000001);
    var add := Do(Add(0, 0.0000001, 0, -100));
    var one := Extend([], add);
    FirstAdded(0, 0.0000001);
    TinyPass(Run(INITIAL, one));
    steps := Extend(one, Begin(0));
  }

  lemma {:induction false} TinyStart(s: System)
    requires Inv(s) && TinyCalling(s, 0)
    ensures TinyCalling(Next(s, StartNext), 1)
  {
  }

  lemma {:induction false} ReachTinyStart() returns (steps: seq<Step>)
    ensures PassesAt(steps, 0) && TinyCalling(Run(INITIAL, steps), 1)
  {
    hide Inv, Run, Next, TinyCalling;
    InitialInv();
    var two := ReachTinyPass();
    TinyStart(Run(INITIAL, two));
    steps := Extend(two, StartNext);
  }

  /** At the epoch: a timer with an interval below a microsecond goes back under stamp 0, which is invalid. */
  lemma {:induction false} AlarmLostAtTheEpoch() returns (steps: seq<Step>)
    ensures PassesAt(steps, 0) && Run(INITIAL, steps).phase.Idle? && !Sound(Run(INITIAL, steps).q)
  {
    hide Inv, Run, Next, Sound, Tiny;
    InitialInv();
    var three := ReachTinyStart();
    TinyEnd(Run(INITIAL, three));
    steps := Extend(three, End(0));
  }

  /** The alarm stays in time over all runs whose passes see the clock at `now` exactly when `now` is after the epoch. */
  lemma {:induction false} AlarmInTimeIffClockAfterEpoch(now: Stamp)
    ensures (forall steps :: PassesAt(steps, now) && Run(INITIAL, steps).phase.Idle? ==> Sound(Run(INITIAL, steps).q))
            <==> now > 0
  {
    if now > 0 {
      forall steps | PassesAt(steps, now) && Run(INITIAL, steps).phase.Idle? ensures Sound(Run(INITIAL, steps).q) {
        RunKeepsAlarm(INITIAL, steps);
      }
    } else if now == 0 {
      var steps := AlarmLostAtTheEpoch();
    } else {
      var steps := AlarmLostBeforeTheEpoch(now);
    }
  }
}
