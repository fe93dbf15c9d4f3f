/**
 The timer queue as a state machine.

 Memory is explicit: `store` maps the address of every live Timer to its fields, `delete` removes the address
 and the allocator may hand the same address out again. An access to a deleted timer is an access outside `store`,
 which Dafny refuses; so every function below also says that the code reads live timers only.
 */
module TimerSpec {
  import opened Options
  import opened TimerStamps

  type Address = nat

  datatype Timer = Timer(expiration: Stamp, interval: real, sequence: int) {
    predicate RepeatTimer() {
      interval > 0.0
    }

    function ReStart(now: Stamp): Timer {
      this.(expiration := if RepeatTimer() then AddTime(now, interval) else 0)
    }
  }

  /** An element of the ordered set: compared by expiration, then by pointer. */
  datatype Entry = Entry(when: Stamp, timer: Address)

  predicate Before(a: Entry, b: Entry) {
    a.when < b.when || (a.when == b.when && a.timer < b.timer)
  }

  datatype Alarm = Alarm(deadline: Stamp, armedAt: Stamp)

  /** What happened to the timers, oldest first. */
  datatype Event =
    | Created(id: int)
    | Started(id: int, interval: real, now: Stamp)
    | Deleted(id: int)

  datatype Queue = Queue(
    store: map<Address, Timer>,
    timers: seq<Entry>,
    active: map<int, Address>,
    canceling: set<int>,
    calling: bool,
    alarm: Option<Alarm>,
    numCreated: int,
    log: seq<Event>)

  // ---------- The ordered set ----------

  ghost predicate Sorted(es: seq<Entry>) {
    forall i, j :: 0 <= i < j < |es| ==> Before(es[i], es[j])
  }

  function InsertEntry(es: seq<Entry>, e: Entry): (r: seq<Entry>)
    ensures forall x :: x in r <==> x in es || x == e
    ensures r != [] && (Sorted(es) ==> Sorted(r))
    ensures es != [] && !(e.when < es[0].when) ==> r[0].when == es[0].when
    ensures es == [] || e.when < es[0].when ==> r[0] == e
  {
    if es == [] || Before(e, es[0]) then
      [e] + es
    else if e == es[0] then
      es
    else
      [es[0]] + InsertEntry(es[1..], e)
  }

  function EraseEntry(es: seq<Entry>, e: Entry): (r: seq<Entry>)
    ensures forall x :: x in r ==> x in es
    ensures Sorted(es) ==> Sorted(r) && forall x :: x in r <==> x in es && x != e
  {
    if es == [] then
      []
    else if es[0] == e then
      es[1..]
    else
      var rest := EraseEntry(es[1..], e);
      assert Sorted(es) ==> forall i :: 0 <= i < |rest| ==> rest[i] in es[1..] && Before(es[0], rest[i]);
      [es[0]] + rest
  }

  /** The position of the first entry after every (now, pointer) pair. */
  function UpperBound(es: seq<Entry>, now: Stamp): (k: nat)
    ensures k <= |es|
    ensures forall i :: 0 <= i < k ==> es[i].when <= now
    ensures Sorted(es) ==> forall i :: k <= i < |es| ==> es[i].when > now
  {
    if es == [] || es[0].when > now then 0 else 1 + UpperBound(es[1..], now)
  }

  // ---------- Memory ----------

  /** A free address: any free address the allocator may choose is the result for the hint equal to it. */
  function Allocate(live: set<Address>, hint: Address): (p: Address)
    ensures p !in live && p >= hint
    ensures hint !in live ==> p == hint
  {
    if hint !in live then hint else Allocate(live - {hint}, hint + 1)
  }

  ghost predicate Live(q: Queue, es: seq<Entry>) {
    forall e :: e in es ==> e.timer in q.store
  }

  function Sequences(store: map<Address, Timer>, es: seq<Entry>): set<int>
    requires forall e :: e in es ==> e.timer in store
  {
    set e | e in es :: store[e.timer].sequence
  }

  // ---------- The operations ----------

  function Arm(q: Queue, when: Stamp, at: Stamp): Queue {
    q.(alarm := Some(Alarm(at + HowMuchTimeFromNow(when, at).Microseconds(), at)))
  }

  /** Reading the descriptor acknowledges an alarm that went off, and does nothing to one that did not. */
  function ReadTimerfd(alarm: Option<Alarm>, now: Stamp): Option<Alarm> {
    if alarm.Some? && alarm.value.deadline <= now then None else alarm
  }

  predicate EarliestChanged(q: Queue, when: Stamp) {
    q.timers == [] || when < q.timers[0].when
  }

  function Insert(q: Queue, p: Address): Queue
    requires p in q.store
  {
    var t := q.store[p];
    q.(timers := InsertEntry(q.timers, Entry(t.expiration, p)),
       active := if t.sequence in q.active then q.active else q.active[t.sequence := p])
  }

  function New(q: Queue, when: Stamp, interval: real, p: Address): Queue {
    q.(store := q.store[p := Timer(when, interval, q.numCreated)],
       numCreated := q.numCreated + 1,
       log := q.log + [Created(q.numCreated)])
  }

  function Delete(q: Queue, p: Address): Queue
    requires p in q.store
  {
    q.(store := q.store - {p}, log := q.log + [Deleted(q.store[p].sequence)])
  }

  function AddTimer(q: Queue, when: Stamp, interval: real, hint: Address, at: Stamp): Queue {
    var p := Allocate(q.store.Keys, hint);
    var inserted := Insert(New(q, when, interval, p), p);
    if EarliestChanged(q, when) then Arm(inserted, when, at) else inserted
  }

  function StopTimer(q: Queue, id: int): Queue
    requires id in q.active ==> q.active[id] in q.store
  {
    if id in q.active then
      var p := q.active[id];
      var erased := EraseEntry(q.timers, Entry(q.store[p].expiration, p));
      Delete(q, p).(timers := erased, active := q.active - {id})
    else if q.calling then
      q.(canceling := q.canceling + {id})
    else
      q
  }

  function GetExpired(q: Queue, now: Stamp): Queue
    requires Live(q, q.timers)
  {
    var k := UpperBound(q.timers, now);
    q.(timers := q.timers[k..], active := q.active - Sequences(q.store, q.timers[..k]))
  }

  /** The part of HandleRead before the callbacks. */
  function BeginPass(q: Queue, now: Stamp): Queue
    requires Live(q, q.timers)
  {
    GetExpired(q.(alarm := ReadTimerfd(q.alarm, now)), now).(calling := true, canceling := {})
  }

  function Start(q: Queue, p: Address, now: Stamp): Queue
    requires p in q.store
  {
    q.(log := q.log + [Started(q.store[p].sequence, q.store[p].interval, now)])
  }

  /** One iteration of Reset: the timer goes back into both indexes, or is deleted. */
  function Settle(q: Queue, p: Address, now: Stamp): Queue
    requires p in q.store
  {
    var t := q.store[p];
    if t.RepeatTimer() && t.sequence !in q.canceling then
      Insert(q.(store := q.store[p := t.ReStart(now)]), p)
    else
      Delete(q, p)
  }

  function Rearm(q: Queue, at: Stamp): Queue
    requires Live(q, q.timers)
  {
    if q.timers != [] && Valid(q.store[q.timers[0].timer].expiration) then
      Arm(q, q.store[q.timers[0].timer].expiration, at)
    else
      q
  }
}
