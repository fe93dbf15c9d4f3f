/**
 What every operation of the timer queue keeps: the two indexes hold the same timers, and every live timer is in
 them or in the expired batch, never in both.
 */
module TimerInvariant {
  import opened TimerStamps
  import opened TimerSpec

  /** Every entry of the ordered set is a live timer, listed under its present expiration and its own sequence. */
  ghost predicate EntriesListed(q: Queue) {
    forall e :: e in q.timers ==>
      && e.timer in q.store
      && q.store[e.timer].expiration == e.when
      && q.store[e.timer].sequence in q.active
      && q.active[q.store[e.timer].sequence] == e.timer
  }

  /** Every mapped id belongs to a live timer with that sequence, present in the ordered set. */
  ghost predicate IdsListed(q: Queue) {
    forall id :: id in q.active ==>
      && q.active[id] in q.store
      && q.store[q.active[id]].sequence == id
      && Entry(q.store[q.active[id]].expiration, q.active[id]) in q.timers
  }

  ghost predicate InBatch(p: Address, batch: seq<Entry>) {
    exists k :: 0 <= k < |batch| && batch[k].timer == p
  }

  /** The expired batch holds distinct live timers that are in neither index. */
  ghost predicate BatchApart(q: Queue, batch: seq<Entry>) {
    && (forall k :: 0 <= k < |batch| ==>
          && batch[k].timer in q.store
          && q.store[batch[k].timer].expiration == batch[k].when
          && q.store[batch[k].timer].sequence !in q.active)
    && (forall i, j :: 0 <= i < j < |batch| ==>
          q.store[batch[i].timer].sequence != q.store[batch[j].timer].sequence)
  }

  /** Every live timer is the one its id stands for, in the map or in the batch. */
  ghost predicate Accounted(q: Queue, batch: seq<Entry>) {
    forall p :: p in q.store ==>
      && 0 <= q.store[p].sequence < q.numCreated
      && if q.store[p].sequence in q.active then q.active[q.store[p].sequence] == p else InBatch(p, batch)
  }

  ghost predicate Owned(q: Queue, batch: seq<Entry>) {
    && Sorted(q.timers)
    && EntriesListed(q)
    && IdsListed(q)
    && BatchApart(q, batch)
    && Accounted(q, batch)
    && q.numCreated >= 0
  }

  /** Two live timers never share an id. */
  lemma {:induction false} OneTimerPerId(q: Queue, batch: seq<Entry>, p: Address, r: Address)
    requires Owned(q, batch) && p in q.store && r in q.store && p != r
    ensures q.store[p].sequence != q.store[r].sequence
  {
    if q.store[p].sequence !in q.active && q.store[r].sequence !in q.active {
      var i :| 0 <= i < |batch| && batch[i].timer == p;
      var j :| 0 <= j < |batch| && batch[j].timer == r;
      assert i < j || j < i;
    }
  }

  /** The assertion the code makes after every operation. */
  lemma {:induction false} SizesAgree(q: Queue, batch: seq<Entry>)
    requires Owned(q, batch)
    ensures |q.timers| == |q.active|
  {
    SequencesCount(q.store, q.timers);
    assert Sequences(q.store, q.timers) == q.active.Keys by {
      forall id | id in q.active ensures id in Sequences(q.store, q.timers) {
        assert Entry(q.store[q.active[id]].expiration, q.active[id]) in q.timers;
      }
    }
  }

  lemma {:induction false} SequencesCount(store: map<Address, Timer>, es: seq<Entry>)
    requires forall e :: e in es ==> e.timer in store
    requires forall i, j :: 0 <= i < j < |es| ==> store[es[i].timer].sequence != store[es[j].timer].sequence
    ensures |Sequences(store, es)| == |es|
  {
    if es != [] {
      var first := store[es[0].timer].sequence;
      SequencesCount(store, es[1..]);
      assert first !in Sequences(store, es[1..]);
      assert es == [es[0]] + es[1..];
      assert Sequences(store, es) == {first} + Sequences(store, es[1..]);
    }
  }

  /** Inserting a timer that is in no index and not in the batch. */
  lemma {:induction false} InsertKeepsOwned(q: Queue, p: Address, batch: seq<Entry>)
    requires p in q.store
    requires q.store[p].sequence !in q.active && 0 <= q.store[p].sequence < q.numCreated
    requires Owned(q.(store := q.store - {p}), batch)
    requires forall k :: 0 <= k < |batch| ==>
               batch[k].timer in q.store && q.store[batch[k].timer].sequence != q.store[p].sequence
    ensures Owned(Insert(q, p), batch)
  {
    var r := Insert(q, p);
    var o := q.(store := q.store - {p});
    assert forall x :: x in o.store <==> x in q.store && x != p;
    assert EntriesListed(r) by {
      assert forall e :: e in q.timers ==> e.timer in o.store;
    }
    assert IdsListed(r) by {
      assert forall id :: id in q.active ==> o.active[id] in o.store;
    }
    assert BatchApart(r, batch) by {
      assert forall k :: 0 <= k < |batch| ==> batch[k].timer in o.store;
    }
    forall x | x in r.store
      ensures if r.store[x].sequence in r.active then r.active[r.store[x].sequence] == x else InBatch(x, batch)
    {
      if x != p { assert x in o.store; }
    }
  }

  lemma {:induction false} AddTimerKeepsOwned(q: Queue, batch: seq<Entry>, when: Stamp, interval: real, hint: Address, at: Stamp)
    requires Owned(q, batch)
    ensures Owned(AddTimer(q, when, interval, hint, at), batch)
  {
    var p := Allocate(q.store.Keys, hint);
    var n := New(q, when, interval, p);
    assert n.store - {p} == q.store;
    assert Owned(n.(store := n.store - {p}), batch);
    assert forall k :: 0 <= k < |batch| ==> batch[k].timer in q.store;
    InsertKeepsOwned(n, p, batch);
  }

  /** The erase by reconstructed key always hits, and removes the one entry of that timer. */
  lemma {:induction false} EraseRemovesTimer(q: Queue, batch: seq<Entry>, id: int)
    requires Owned(q, batch) && id in q.active
    ensures var p := q.active[id];
            && Entry(q.store[p].expiration, p) in q.timers
            && forall e :: e in EraseEntry(q.timers, Entry(q.store[p].expiration, p)) <==> e in q.timers && e.timer != p
  {
  }

  lemma {:induction false} StopKeepsIndexes(q: Queue, batch: seq<Entry>, id: int)
    requires Owned(q, batch) && id in q.active
    ensures EntriesListed(StopTimer(q, id)) && IdsListed(StopTimer(q, id)) && Sorted(StopTimer(q, id).timers)
  {
    EraseRemovesTimer(q, batch, id);
    assert forall i :: i in q.active && i != id ==> q.active[i] != q.active[id];
  }

  lemma {:induction false} StopTimerKeepsOwned(q: Queue, batch: seq<Entry>, id: int)
    requires Owned(q, batch)
    ensures Owned(StopTimer(q, id), batch)
  {
    if id in q.active {
      StopKeepsIndexes(q, batch, id);
      var r := StopTimer(q, id);
      assert BatchApart(r, batch);
      assert Accounted(r, batch);
    }
  }

  lemma {:induction false} EntriesDiffer(q: Queue, batch: seq<Entry>, i: nat, j: nat)
    requires Owned(q, batch) && i < j < |q.timers|
    ensures q.store[q.timers[i].timer].sequence != q.store[q.timers[j].timer].sequence
  {
    assert q.timers[i] in q.timers && q.timers[j] in q.timers;
    assert Before(q.timers[i], q.timers[j]);
  }

  lemma {:induction false} ExpiredStayActive(q: Queue, k: nat)
    requires Owned(q, []) && k <= |q.timers|
    ensures forall e :: e in q.timers[k..] ==> q.store[e.timer].sequence !in Sequences(q.store, q.timers[..k])
    ensures forall id :: id in q.active && id !in Sequences(q.store, q.timers[..k]) ==>
              Entry(q.store[q.active[id]].expiration, q.active[id]) in q.timers[k..]
  {
    assert q.timers == q.timers[..k] + q.timers[k..];
    forall e, b | e in q.timers[k..] && b in q.timers[..k]
      ensures q.store[b.timer].sequence != q.store[e.timer].sequence
    {
      var i :| 0 <= i < k && q.timers[i] == b;
      var j :| k <= j < |q.timers| && q.timers[j] == e;
      EntriesDiffer(q, [], i, j);
    }
  }

  lemma {:induction false} ExpiredApart(q: Queue, k: nat)
    requires Owned(q, []) && k <= |q.timers|
    ensures BatchApart(q.(active := q.active - Sequences(q.store, q.timers[..k])), q.timers[..k])
  {
    var batch := q.timers[..k];
    assert forall i :: 0 <= i < k ==> batch[i] in batch && batch[i] in q.timers;
    forall i, j | 0 <= i < j < k ensures batch[i].timer != batch[j].timer {
      EntriesDiffer(q, [], i, j);
    }
  }

  lemma {:induction false} ExpiredInBatch(q: Queue, k: nat, p: Address)
    requires Owned(q, []) && k <= |q.timers|
    requires p in q.store && q.store[p].sequence in Sequences(q.store, q.timers[..k])
    ensures InBatch(p, q.timers[..k])
  {
    var b :| b in q.timers[..k] && q.store[b.timer].sequence == q.store[p].sequence;
    var i :| 0 <= i < k && q.timers[..k][i] == b;
    assert q.timers[i] in q.timers;
  }

  lemma {:induction false} GetExpiredKeepsOwned(q: Queue, now: Stamp)
    requires Owned(q, [])
    ensures Owned(GetExpired(q, now), q.timers[..UpperBound(q.timers, now)])
  {
    var k := UpperBound(q.timers, now);
    var r := GetExpired(q, now);
    ExpiredStayActive(q, k);
    ExpiredApart(q, k);
    assert Sorted(r.timers);
    assert EntriesListed(r) by {
      assert forall e :: e in r.timers ==> e in q.timers;
    }
    assert IdsListed(r);
    forall p | p in r.store ensures r.store[p].sequence in r.active || InBatch(p, q.timers[..k]) {
      if r.store[p].sequence !in r.active {
        ExpiredInBatch(q, k, p);
      }
    }
  }

  lemma {:induction false} DropHead(q: Queue, batch: seq<Entry>)
    requires Owned(q, batch) && batch != []
    ensures Owned(q.(store := q.store - {batch[0].timer}), batch[1..])
  {
    var p := batch[0].timer;
    var gone := q.(store := q.store - {p});
    assert forall k :: 0 <= k < |batch[1..]| ==> batch[1..][k] == batch[k + 1];
    assert BatchApart(gone, batch[1..]);
    forall e | e in q.timers ensures e.timer != p {}
    forall id | id in q.active ensures q.active[id] != p {}
    forall x | x in gone.store ensures gone.store[x].sequence in gone.active || InBatch(x, batch[1..]) {
      if q.store[x].sequence !in q.active {
        var k :| 0 <= k < |batch| && batch[k].timer == x;
        assert batch[1..][k - 1].timer == x;
      }
    }
  }

  /** Reset takes the batch from the front: the timer at its head returns to the indexes or is deleted. */
  lemma {:induction false} SettleKeepsOwned(q: Queue, batch: seq<Entry>, now: Stamp)
    requires Owned(q, batch) && batch != []
    ensures Owned(Settle(q, batch[0].timer, now), batch[1..])
  {
    var p := batch[0].timer;
    var gone := q.(store := q.store - {p});
    DropHead(q, batch);
    assert Owned(gone.(log := q.log + [Deleted(q.store[p].sequence)]), batch[1..]);
    var again := q.(store := q.store[p := q.store[p].ReStart(now)]);
    assert again.store - {p} == gone.store;
    assert again.(store := again.store - {p}) == gone;
    InsertKeepsOwned(again, p, batch[1..]);
  }
}
