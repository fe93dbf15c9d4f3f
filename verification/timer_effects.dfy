/** What one step does, said without the functions that compute it: the alarm, an added timer, a stopped one, a start. */
module TimerEffects {
  import opened Options
  import opened TimerStamps
  import opened TimerSpec
  import opened TimerInvariant
  import opened TimerSystem

  // ---------- The alarm ----------

  /** The deadline that an arming at `at` for `when` gives: not before it, and at least 100 microseconds away. */
  predicate Armed(alarm: Option<Alarm>, when: Stamp, at: Stamp) {
    alarm == Some(Alarm(if when < at + 100 then at + 100 else when, at))
  }

  lemma {:induction false} AddArms(q: Queue, when: Stamp, interval: real, hint: Address, at: Stamp)
    requires Sorted(q.timers)
    ensures var r := AddTimer(q, when, interval, hint, at);
            if forall e :: e in q.timers ==> when < e.when then Armed(r.alarm, when, at) else r.alarm == q.alarm
  {
    hide HowMuchTimeFromNow, InsertEntry;
    if q.timers != [] { assert q.timers[0] in q.timers; }
  }

  lemma {:induction false} RearmArms(q: Queue, batch: seq<Entry>, at: Stamp)
    requires Owned(q, batch)
    ensures Live(q, q.timers)
    ensures var r := Rearm(q, at);
            && r.timers == q.timers
            && if q.timers != [] && q.timers[0].when > 0 then Armed(r.alarm, q.timers[0].when, at) else r.alarm == q.alarm
  {
    hide HowMuchTimeFromNow;
    if q.timers != [] { assert q.timers[0] in q.timers; }
  }

  /**
   The alarm after a step. An addition that is earlier than all the waiting timers arms it for that timer, and the end
   of a pass for the earliest timer, if its stamp is valid: the deadline is exactly that timer's expiration, but never
   less than 100 microseconds away. The begin of a pass acknowledges an alarm that went off. Nothing else changes it.
   */
  lemma {:induction false} AlarmAfterStep(s: System, step: Step)
    requires Inv(s) && Enabled(s, step)
    ensures var before, q := s.q, Next(s, step).q;
            match step
            case Do(Add(when, _, _, at)) =>
              if forall e :: e in before.timers ==> when < e.when then Armed(q.alarm, when, at) else q.alarm == before.alarm
            case Do(Stop(_)) => q.alarm == before.alarm
            case Begin(now) =>
              q.alarm == if before.alarm.Some? && before.alarm.value.deadline <= now then None else before.alarm
            case StartNext => q.alarm == before.alarm
            case End(at) =>
              if q.timers != [] && q.timers[0].when > 0 then Armed(q.alarm, q.timers[0].when, at)
              else q.alarm == before.alarm
  {
    hide Owned, HowMuchTimeFromNow, SettleAll, Rearm, Armed;
    match step
    case Do(Add(when, interval, hint, at)) =>
      NextApplies(s, step.op);
      SortedTimers(s);
      AddArms(s.q, when, interval, hint, at);
    case Do(Stop(id)) => NextApplies(s, step.op);
    case Begin(now) => BeginApplies(s, now);
    case StartNext =>
    case End(at) =>
      EndApplies(s, s.phase.batch, s.phase.now, at);
      RearmArms(SettleAll(s.q.(calling := false), s.phase.batch, s.phase.now), [], at);
  }

  lemma {:induction false} SortedTimers(s: System)
    requires Inv(s)
    ensures Sorted(s.q.timers) && Owned(s.q, InFlight(s))
  {
  }

  // ---------- Adding and stopping ----------

  lemma {:induction false} AddTimerAdds(q: Queue, when: Stamp, interval: real, hint: Address, at: Stamp)
    requires q.numCreated !in q.active
    ensures var r, id := AddTimer(q, when, interval, hint, at), q.numCreated;
            && id in r.active && r.active[id] !in q.store && (hint !in q.store ==> r.active[id] == hint)
            && r.store == q.store[r.active[id] := Timer(when, interval, id)]
            && r.active == q.active[id := r.active[id]]
            && (forall e :: e in r.timers <==> e in q.timers || e == Entry(when, r.active[id]))
            && r.log == q.log + [Created(id)] && r.numCreated == id + 1
  {
    hide HowMuchTimeFromNow, InsertEntry;
  }

  lemma {:induction false} NextIdIsFree(q: Queue, batch: seq<Entry>)
    requires Owned(q, batch)
    ensures q.numCreated !in q.active
  {
  }

  /**
   An addition, at any moment of any run: the new timer has the expiration and the interval asked for and the next id, it
   is in both indexes, at an address that was free, and every other timer stays as it was.
   */
  lemma {:induction false} AddAddsOneTimer(s: System, when: Stamp, interval: real, hint: Address, at: Stamp)
    requires Inv(s)
    ensures var q, r, id := s.q, Next(s, Do(Add(when, interval, hint, at))).q, s.q.numCreated;
            && id !in q.active && id in r.active
            && r.active[id] !in q.store && (hint !in q.store ==> r.active[id] == hint)
            && r.store == q.store[r.active[id] := Timer(when, interval, id)]
            && r.active == q.active[id := r.active[id]]
            && (forall e :: e in r.timers <==> e in q.timers || e == Entry(when, r.active[id]))
            && r.log == q.log + [Created(id)] && r.numCreated == id + 1
  {
    hide Owned, AddTimer;
    SortedTimers(s);
    NextIdIsFree(s.q, InFlight(s));
    NextApplies(s, Add(when, interval, hint, at));
    AddTimerAdds(s.q, when, interval, hint, at);
  }

  lemma {:induction false} StopTimerStops(q: Queue, batch: seq<Entry>, id: int)
    requires Owned(q, batch)
    ensures var r := StopTimer(q, id);
            if id in q.active then
              && r.store == q.store - {q.active[id]} && r.active == q.active - {id}
              && (forall e :: e in r.timers <==> e in q.timers && e.timer != q.active[id])
              && r.log == q.log + [Deleted(id)] && r.canceling == q.canceling
            else
              && r.store == q.store && r.active == q.active && r.timers == q.timers && r.log == q.log
              && r.canceling == if q.calling then q.canceling + {id} else q.canceling
  {
    if id in q.active { EraseRemovesTimer(q, batch, id); }
  }

  /**
   A cancellation, at any moment of any run: an indexed timer leaves both indexes and is deleted, and every other timer
   stays as it was; for any other id only the note is taken, during a pass, that it is not to be put back.
   */
  lemma {:induction false} StopRemovesOneTimer(s: System, id: int)
    requires Inv(s)
    ensures var q, r := s.q, Next(s, Do(Stop(id))).q;
            if id in q.active then
              && r.store == q.store - {q.active[id]} && r.active == q.active - {id}
              && (forall e :: e in r.timers <==> e in q.timers && e.timer != q.active[id])
              && r.log == q.log + [Deleted(id)] && r.canceling == q.canceling
            else
              && r.store == q.store && r.active == q.active && r.timers == q.timers && r.log == q.log
              && r.canceling == if s.phase.Calling? then q.canceling + {id} else q.canceling
  {
    hide Owned, StopTimer;
    SortedTimers(s);
    NextApplies(s, Stop(id));
    StopTimerStops(s.q, InFlight(s), id);
  }

  // ---------- Starting ----------

  /** A start is logged with the id and the interval of the next timer of the batch and the clock of the pass. */
  lemma {:induction false} StartIsLogged(s: System)
    requires Inv(s) && Enabled(s, StartNext)
    ensures var p := s.phase.batch[s.phase.next].timer;
            && p in s.q.store
            && Next(s, StartNext) ==
               System(s.q.(log := s.q.log + [Started(s.q.store[p].sequence, s.q.store[p].interval, s.phase.now)]),
                      Calling(s.phase.now, s.phase.batch, s.phase.next + 1))
  {
  }
}
