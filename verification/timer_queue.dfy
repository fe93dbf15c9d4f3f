/** The timer queue itself: each method changes the fields as the steps of the state machine say. */
module TimerQueues {
  import opened Options
  import opened TimerStamps
  import opened TimerSpec
  import opened TimerInvariant
  import opened TimerSystem
  import opened TimerOwnership

  lemma {:induction false} RemoveOneMore(m: map<int, Address>, ids: set<int>, id: int)
    ensures m - ids - {id} == m - (ids + {id})
  {
  }

  class TimerQueue {
    var store: map<Address, Timer>
    var timers: seq<Entry>
    var active: map<int, Address>
    var canceling: set<int>
    var calling: bool
    var alarm: Option<Alarm>
    var numCreated: int
    ghost var log: seq<Event>
    ghost var phase: Phase

    ghost function Contents(): Queue
      reads this
    {
      Queue(store, timers, active, canceling, calling, alarm, numCreated, log)
    }

    ghost function State(): System
      reads this
    {
      System(Contents(), phase)
    }

    constructor ()
      ensures State() == INITIAL
    {
      store, timers, active, canceling := map[], [], map[], {};
      calling, alarm, numCreated := false, None, 0;
      log, phase := [], Idle;
    }

    method ResetTimerfd(when: Stamp, at: Stamp)
      modifies this`alarm
      ensures Contents() == Arm(old(Contents()), when, at)
      ensures alarm == Some(Alarm(if when < at + 100 then at + 100 else when, at))
    {
      var delay := HowMuchTimeFromNow(when, at);
      alarm := Some(Alarm(at + delay.Microseconds(), at));
    }

    method InsertTimer(p: Address) returns (earliestChanged: bool)
      requires p in store
      modifies this`timers, this`active
      ensures Contents() == Insert(old(Contents()), p)
      ensures earliestChanged == EarliestChanged(old(Contents()), store[p].expiration)
      ensures Sorted(old(timers)) ==>
                (earliestChanged <==> forall e :: e in old(timers) ==> store[p].expiration < e.when)
    {
      var when := store[p].expiration;
      earliestChanged := timers == [] || when < timers[0].when;
      timers := InsertEntry(timers, Entry(when, p));
      if store[p].sequence !in active {
        active := active[store[p].sequence := p];
      }
    }

    method AddTimerInLoop(p: Address, at: Stamp)
      requires p in store
      modifies this`timers, this`active, this`alarm
      ensures var inserted := Insert(old(Contents()), p);
              Contents() ==
              if EarliestChanged(old(Contents()), store[p].expiration)
                then Arm(inserted, store[p].expiration, at) else inserted
    {
      var earliestChanged := InsertTimer(p);
      if earliestChanged {
        ResetTimerfd(store[p].expiration, at);
      }
    }

    method CancelInLoop(id: int)
      requires id in active ==> active[id] in store
      modifies this`store, this`timers, this`active, this`canceling, this`log
      ensures Contents() == TimerSpec.StopTimer(old(Contents()), id)
    {
      if id in active {
        var p := active[id];
        timers := EraseEntry(timers, Entry(store[p].expiration, p));
        log := log + [Deleted(store[p].sequence)];
        store := store - {p};
        active := active - {id};
      } else if calling {
        canceling := canceling + {id};
      }
    }

    /** The Timer constructor; `hint` is the address the allocator hands out, if it is free. */
    method NewTimer(when: Stamp, interval: real, hint: Address) returns (p: Address)
      modifies this`store, this`numCreated, this`log
      ensures p == Allocate(old(store.Keys), hint)
      ensures Contents() == New(old(Contents()), when, interval, p)
    {
      p := Allocate(store.Keys, hint);
      store := store[p := Timer(when, interval, numCreated)];
      log := log + [Created(numCreated)];
      numCreated := numCreated + 1;
    }

    /** The new timer is created, inserted, and then asked for its id. */
    method AddNewTimer(when: Stamp, interval: real, hint: Address, at: Stamp) returns (id: int)
      modifies this`store, this`timers, this`active, this`alarm, this`numCreated, this`log
      ensures Contents() == TimerSpec.AddTimer(old(Contents()), when, interval, hint, at)
      ensures id == old(numCreated)
    {
      var p := NewTimer(when, interval, hint);
      AddTimerInLoop(p, at);
      id := store[p].sequence;
    }

    /** Returns the id of the new timer. */
    method AddTimer(when: Stamp, interval: real, hint: Address, at: Stamp) returns (id: int)
      requires Inv(State())
      modifies this
      ensures State() == Next(old(State()), Do(Add(when, interval, hint, at)))
      ensures phase == old(phase) && id == old(numCreated)
    {
      NextApplies(State(), Add(when, interval, hint, at));
      id := AddNewTimer(when, interval, hint, at);
    }

    /** The sizes agree after every cancellation, as the code asserts. */
    method StopTimer(id: int)
      requires Inv(State())
      modifies this
      ensures State() == Next(old(State()), Do(Stop(id)))
      ensures phase == old(phase) && |timers| == |active|
    {
      NextApplies(State(), Stop(id));
      CancelInLoop(id);
      SizesAgree(Contents(), InFlight(State()));
    }

    method EraseActive(expired: seq<Entry>)
      requires forall e :: e in expired ==> e.timer in store
      modifies this`active
      ensures active == old(active) - Sequences(store, expired)
    {
      var i := 0;
      while i < |expired|
        invariant 0 <= i <= |expired|
        invariant active == old(active) - Sequences(store, expired[..i])
      {
        assert expired[..i + 1] == expired[..i] + [expired[i]];
        var id := store[expired[i].timer].sequence;
        assert Sequences(store, expired[..i + 1]) == Sequences(store, expired[..i]) + {id};
        RemoveOneMore(old(active), Sequences(store, expired[..i]), id);
        active := active - {id};
        i := i + 1;
      }
      assert expired[..i] == expired;
    }

    method GetExpired(now: Stamp) returns (expired: seq<Entry>)
      requires Live(Contents(), timers)
      modifies this`timers, this`active
      ensures expired == old(timers)[..UpperBound(old(timers), now)]
      ensures Contents() == TimerSpec.GetExpired(old(Contents()), now)
    {
      var k := UpperBound(timers, now);
      expired := timers[..k];
      assert forall e :: e in expired ==> e in timers;
      timers := timers[k..];
      EraseActive(expired);
    }

    /** One iteration of Reset. */
    method SettleTimer(p: Address, now: Stamp)
      requires p in store
      modifies this`store, this`timers, this`active, this`log
      ensures Contents() == Settle(old(Contents()), p, now)
    {
      if store[p].RepeatTimer() && store[p].sequence !in canceling {
        store := store[p := store[p].ReStart(now)];
        var _ := InsertTimer(p);
      } else {
        log := log + [Deleted(store[p].sequence)];
        store := store - {p};
      }
    }

    /** The loop of Reset. */
    method SettleTimers(expired: seq<Entry>, now: Stamp)
      requires Owned(Contents(), expired)
      modifies this`store, this`timers, this`active, this`log
      ensures Contents() == SettleAll(old(Contents()), expired, now) && Owned(Contents(), [])
    {
      hide Owned, SettleAll, Settle;
      ghost var settled := SettleAll(Contents(), expired, now);
      var i := 0;
      assert expired[0..] == expired;
      while i < |expired|
        invariant 0 <= i <= |expired|
        invariant Owned(Contents(), expired[i..])
        invariant SettleAll(Contents(), expired[i..], now) == settled
      {
        assert expired[i..][0] == expired[i] && expired[i..][1..] == expired[i + 1..];
        SettleAllStep(Contents(), expired[i..], now);
        SettleTimer(expired[i].timer, now);
        i := i + 1;
      }
      assert expired[i..] == [];
      SettleNone(Contents(), now);
    }

    method Reset(expired: seq<Entry>, now: Stamp, at: Stamp)
      requires Owned(Contents(), expired)
      modifies this`store, this`timers, this`active, this`alarm, this`log
      ensures Contents() == Rearm(SettleAll(old(Contents()), expired, now), at)
    {
      hide SettleAll, Settle, HowMuchTimeFromNow;
      SettleTimers(expired, now);
      if timers != [] {
        assert timers[0] in timers;
        var nextExpire := store[timers[0].timer].expiration;
        if Valid(nextExpire) {
          ResetTimerfd(nextExpire, at);
        }
      }
    }

    method RunOp(op: Op)
      requires Inv(State())
      modifies this
      ensures State() == Next(old(State()), Do(op)) && phase == old(phase)
    {
      match op
      case Add(when, interval, hint, at) => var _ := AddTimer(when, interval, hint, at);
      case Stop(id) => StopTimer(id);
    }

    method RunCallback(ops: seq<Op>)
      requires Inv(State())
      modifies this
      ensures State() == Run(old(State()), Body(ops)) && phase == old(phase)
    {
      hide Inv, Next, Run, Body;
      ghost var s := State();
      var i := 0;
      BodyNone(ops);
      RunNone(s);
      while i < |ops|
        invariant 0 <= i <= |ops|
        invariant State() == Run(s, Body(ops[..i])) && phase == old(phase)
      {
        BodySnoc(ops, i);
        RunSnoc(s, Body(ops[..i]), Do(ops[i]));
        RunOp(ops[i]);
        i := i + 1;
      }
      assert ops[..i] == ops;
    }

    /** The part of HandleRead before the callbacks. */
    method BeginReading(now: Stamp) returns (expired: seq<Entry>)
      requires Inv(State()) && phase.Idle?
      modifies this
      ensures State() == Next(old(State()), Begin(now))
      ensures expired == old(timers)[..UpperBound(old(timers), now)] && phase == Calling(now, expired, 0)
    {
      alarm := ReadTimerfd(alarm, now);
      expired := GetExpired(now);
      calling := true;
      canceling := {};
      phase := Calling(now, expired, 0);
    }

    /** The entry into the next callback. */
    ghost method Start(p: Address)
      requires Inv(State()) && phase.Calling? && phase.next < |phase.batch| && p == phase.batch[phase.next].timer
      modifies this`log, this`phase
      ensures State() == Next(old(State()), StartNext)
      ensures phase == old(phase).(next := old(phase.next) + 1)
    {
      log := log + [Started(store[p].sequence, store[p].interval, phase.now)];
      phase := phase.(next := phase.next + 1);
    }

    /** Timer::Start: the callback runs. */
    method CallTimer(p: Address, callback: seq<Op>)
      requires Inv(State()) && phase.Calling? && phase.next < |phase.batch| && p == phase.batch[phase.next].timer
      modifies this
      ensures State() == Run(old(State()), [StartNext] + Body(callback))
      ensures phase == old(phase).(next := old(phase.next) + 1)
    {
      hide Run, Next, Body;
      RunAppend(State(), [StartNext], Body(callback));
      RunOne(State(), StartNext);
      Start(p);
      RunCallback(callback);
    }

    /** The part of HandleRead after the callbacks. */
    method EndReading(expired: seq<Entry>, now: Stamp, at: Stamp)
      requires Inv(State()) && phase == Calling(now, expired, |expired|)
      modifies this
      ensures State() == Next(old(State()), End(at)) && phase.Idle?
    {
      hide Inv, Owned, Next, SettleAll, Rearm;
      EndApplies(State(), expired, now, at);
      calling := false;
      assert Contents() == old(Contents()).(calling := false);
      Reset(expired, now, at);
      phase := Idle;
    }

    /** One iteration of the loop over the expired timers: the callback of the next one runs. */
    method CallNext(ghost s: System, expired: seq<Entry>, callbacks: seq<seq<Op>>, i: nat)
      requires Inv(s) && State() == Run(s, CallSteps(callbacks, i))
      requires phase.Calling? && phase.batch == expired && phase.next == i < |expired|
      modifies this
      ensures State() == Run(s, CallSteps(callbacks, i + 1)) && phase == old(phase).(next := i + 1)
    {
      hide Run, Next, Body, Callback, CallSteps;
      RunOneMoreCall(s, callbacks, i);
      CallTimer(expired[i].timer, Callback(callbacks, i));
    }

    /** The loop over the expired timers; the i-th one runs callbacks[i]. */
    method CallTimers(expired: seq<Entry>, callbacks: seq<seq<Op>>)
      requires Inv(State()) && phase.Calling? && phase.batch == expired && phase.next == 0
      modifies this
      ensures State() == Run(old(State()), CallSteps(callbacks, |expired|))
      ensures phase == old(phase).(next := |expired|)
    {
      ghost var s := State();
      var i := 0;
      while i < |expired|
        invariant 0 <= i <= |expired|
        invariant State() == Run(s, CallSteps(callbacks, i)) && phase == old(phase).(next := i)
      {
        CallNext(s, expired, callbacks, i);
        i := i + 1;
      }
    }

    /** A pass at clock `now`; the i-th expired timer runs callbacks[i], and Reset reads the clock at `at`. */
    method HandleRead(now: Stamp, at: Stamp, callbacks: seq<seq<Op>>)
      requires Inv(State()) && phase.Idle?
      modifies this
      ensures phase.Idle?
      ensures var begun := Next(old(State()), Begin(now));
              State() == Next(Run(begun, CallSteps(callbacks, |InFlight(begun)|)), End(at))
      ensures State() == Run(old(State()), PassSteps(now, callbacks, UpperBound(old(timers), now), at))
    {
      ghost var calls := CallSteps(callbacks, UpperBound(timers, now));
      RunOne(State(), Begin(now));
      RunAppend(State(), [Begin(now)], calls);
      RunSnoc(State(), [Begin(now)] + calls, End(at));
      var expired := BeginReading(now);
      CallTimers(expired, callbacks);
      EndReading(expired, now, at);
    }

    /** The destructor. */
    method Destroy()
      requires Deletable(Contents(), timers)
      modifies this`store, this`log
      ensures Contents() == DeleteAll(old(Contents()), timers)
    {
      var i := 0;
      while i < |timers|
        invariant 0 <= i <= |timers|
        invariant Deletable(Contents(), timers[i..])
        invariant DeleteAll(Contents(), timers[i..]) == DeleteAll(old(Contents()), timers)
      {
        var p := timers[i].timer;
        assert timers[i..][0] == timers[i] && timers[i..][1..] == timers[i + 1..];
        DeletableTail(Contents(), timers[i..]);
        log := log + [Deleted(store[p].sequence)];
        store := store - {p};
        i := i + 1;
      }
    }
  }
}
