/**
 The same bucket counted in time instead of permits: the credit is the time the stored permits are worth. Everything
 here is linear, so this is where the bounds over whole runs are proved; TokenBuckets shows that it is the same bucket.
 */
module TimeBuckets {

  datatype TimeBucket = TimeBucket(cap: real, credit: real, nextFree: nat) {
    /** A negative cost may raise the credit above the cap. */
    ghost predicate Valid() {
      0.0 <= credit && 0.0 <= cap
    }
  }

  datatype TimeCall = TimeCall(cost: real, now: nat)

  function Min(a: real, b: real): (m: real)
    ensures m <= a && m <= b && (m == a || m == b)
  {
    if b < a then b else a
  }

  function Sync(b: TimeBucket, now: nat): TimeBucket {
    if now > b.nextFree then
      b.(credit := Min(b.cap, b.credit + (now - b.nextFree) as real), nextFree := now)
    else
      b
  }

  function Claim(b: TimeBucket, cost: real): TimeBucket
    requires b.Valid()
  {
    var taken := Min(cost, b.credit);
    b.(credit := b.credit - taken, nextFree := b.nextFree + (cost - taken).Floor)
  }

  function AfterCall(b: TimeBucket, c: TimeCall): (r: TimeBucket)
    requires b.Valid()
    ensures r.Valid() && r.cap == b.cap && r.nextFree >= b.nextFree
  {
    Claim(Sync(b, c.now), c.cost)
  }

  predicate Allowed(b: TimeBucket, c: TimeCall) {
    Sync(b, c.now).nextFree == c.now
  }

  function Run(b: TimeBucket, calls: seq<TimeCall>): (r: TimeBucket)
    requires b.Valid()
    ensures r.Valid() && r.cap == b.cap && r.nextFree >= b.nextFree
    decreases |calls|
  {
    if calls == [] then b else Run(AfterCall(b, calls[0]), calls[1..])
  }

  function Cost(calls: seq<TimeCall>): real {
    if calls == [] then 0.0 else calls[0].cost + Cost(calls[1..])
  }

  /** The credit less the time already given away: a claim pays for itself, up to the unit that truncation drops. */
  ghost function Potential(b: TimeBucket): real {
    b.credit - b.nextFree as real
  }

  lemma {:induction false} RunPays(b: TimeBucket, calls: seq<TimeCall>)
    requires b.Valid()
    ensures Potential(Run(b, calls)) <= Potential(b) - Cost(calls) + |calls| as real
    decreases |calls|
  {
    if calls != [] { RunPays(AfterCall(b, calls[0]), calls[1..]); }
  }

  /** Between two allowed calls the cost of all calls from the first on is at most the credit then + t2 - t1 + n. */
  lemma {:induction false} TimeBound(b: TimeBucket, calls: seq<TimeCall>, last: TimeCall)
    requires b.Valid() && calls != []
    requires Allowed(b, calls[0]) && Allowed(Run(b, calls), last)
    ensures Cost(calls) <= Sync(b, calls[0].now).credit + (last.now - calls[0].now + |calls|) as real
    ensures calls[0].now <= last.now
  {
    var s := Sync(b, calls[0].now);
    assert Sync(s, calls[0].now) == s;
    RunPays(s, calls);
  }

  ghost predicate NonNegative(calls: seq<TimeCall>) {
    forall i :: 0 <= i < |calls| ==> calls[i].cost >= 0.0
  }

  ghost predicate AllAt(calls: seq<TimeCall>, now: nat) {
    forall i :: 0 <= i < |calls| ==> calls[i].now == now
  }

  /** Calls at one moment that the credit covers give no time away. */
  lemma {:induction false} CoveredCallsGiveNoTime(b: TimeBucket, calls: seq<TimeCall>)
    requires b.Valid() && NonNegative(calls) && AllAt(calls, b.nextFree) && Cost(calls) <= b.credit
    ensures Run(b, calls) == b.(credit := b.credit - Cost(calls))
    decreases |calls|
  {
    if calls != [] {
      CostIsNotNegative(calls[1..]);
      var rest := AfterCall(b, calls[0]);
      assert rest == b.(credit := b.credit - calls[0].cost);
      CoveredCallsGiveNoTime(rest, calls[1..]);
    }
  }

  lemma {:induction false} CostIsNotNegative(calls: seq<TimeCall>)
    requires NonNegative(calls)
    ensures Cost(calls) >= 0.0
  {
    if calls != [] { CostIsNotNegative(calls[1..]); }
  }

  /** After being idle for its whole capacity, the bucket allows calls at one moment as long as that covers them. */
  lemma {:induction false} BurstAfterIdle(b: TimeBucket, calls: seq<TimeCall>, last: TimeCall)
    requires b.Valid() && NonNegative(calls) && AllAt(calls, last.now)
    requires last.now as real >= b.nextFree as real + b.cap && Cost(calls) <= b.cap
    ensures Allowed(Run(b, calls), last)
  {
    if calls != [] {
      var s := Sync(b, last.now);
      assert s.credit >= b.cap && s.nextFree == last.now;
      assert AfterCall(b, calls[0]) == AfterCall(s, calls[0]);
      CoveredCallsGiveNoTime(s, calls);
    }
  }

  ghost predicate Spaced(calls: seq<TimeCall>, cost: real) {
    && (forall i :: 0 <= i < |calls| ==> calls[i].cost == cost)
    && (forall i :: 0 < i < |calls| ==> (calls[i].now - calls[i - 1].now) as real >= cost)
  }

  /** Calls spaced by their cost, the first one allowed, are all allowed. */
  lemma {:induction false} SpacedCallsAreAllowed(b: TimeBucket, calls: seq<TimeCall>, cost: real, i: nat)
    requires b.Valid() && cost >= 0.0 && i < |calls| && Spaced(calls, cost) && Allowed(b, calls[0])
    ensures Allowed(Run(b, calls[..i]), calls[i])
    decreases i
  {
    if i > 0 {
      var rest := calls[1..];
      assert forall j :: 0 < j < |rest| ==> rest[j] == calls[j + 1] && rest[j - 1] == calls[j];
      SpacedCallsAreAllowed(AfterCall(b, calls[0]), rest, cost, i - 1);
      assert calls[..i][1..] == rest[..i - 1];
    }
  }
}

/**
 The token bucket. Permits are real numbers, time is a whole number; the conversion to an unsigned integer in
 ClaimNext truncates, so each call may owe up to one unit of time less than it should. A claim may be negative: the
 source lets it through, and it adds to the stored permits without looking at the limit.
 */
module TokenBuckets {
  import T = TimeBuckets

  datatype Bucket = Bucket(interval: real, maxPermits: real, stored: real, nextFree: nat) {
    /** What every call keeps. */
    ghost predicate Running() {
      interval >= 0.0 && maxPermits > 0.0 && stored >= 0.0
    }

    /** Permits cost time. */
    ghost predicate Valid() {
      Running() && interval > 0.0
    }

    /** What holds from Init on as long as no claim is negative. */
    predicate WithinLimit() {
      stored <= maxPermits
    }
  }

  datatype Call = Call(permits: real, now: nat)

  /** A limit that is not positive is replaced by 1, but the interval is still computed from what was asked for. */
  function Init(timewindow: int, maxPermits: real, nextFree: nat): Bucket
    requires maxPermits != 0.0
  {
    var limit := if maxPermits <= 0.0 then 1.0 else maxPermits;
    Bucket((timewindow * 1000) as real / maxPermits, limit, limit, nextFree)
  }

  /** Any time at all divided by an interval of 0 is infinite, so the bucket is then filled up. */
  function Sync(b: Bucket, now: nat): Bucket
    requires b.Running()
  {
    if now <= b.nextFree then b
    else if b.interval == 0.0 then b.(stored := b.maxPermits, nextFree := now)
    else b.(stored := T.Min(b.maxPermits, b.stored + (now - b.nextFree) as real / b.interval), nextFree := now)
  }

  function Claim(b: Bucket, permits: real): Bucket
    requires b.Running()
  {
    var taken := T.Min(permits, b.stored);
    var extra := permits - taken;
    Product(extra, b.interval);
    b.(stored := b.stored - taken, nextFree := b.nextFree + (extra * b.interval).Floor)
  }

  function AfterCall(b: Bucket, c: Call): Bucket
    requires b.Running()
  {
    SyncRuns(b, c.now);
    Claim(Sync(b, c.now), c.permits)
  }

  lemma {:induction false} SyncRuns(b: Bucket, now: nat)
    requires b.Running()
    ensures Sync(b, now).Running() && Sync(b, now).interval == b.interval && Sync(b, now).maxPermits == b.maxPermits
    ensures Sync(b, now).nextFree == if now > b.nextFree then now else b.nextFree
  {
    if now > b.nextFree && b.interval > 0.0 {
      var step := (now - b.nextFree) as real / b.interval;
      assert step * b.interval == (now - b.nextFree) as real;
      assert step >= 0.0;
    }
  }

  lemma {:induction false} CallRuns(b: Bucket, c: Call)
    requires b.Running()
    ensures var r := AfterCall(b, c); r.Running() && r.interval == b.interval && r.maxPermits == b.maxPermits
  {
    hide Sync;
    SyncRuns(b, c.now);
  }

  /** Aquire answers true exactly when there is nothing to wait for. */
  predicate Allowed(b: Bucket, c: Call)
    requires b.Running()
  {
    Sync(b, c.now).nextFree == c.now
  }

  // ---------- Products ----------

  lemma {:induction false} Product(a: real, b: real)
    requires a >= 0.0 && b >= 0.0
    ensures a * b >= 0.0
  {
  }

  lemma {:induction false} PositiveProduct(a: real, b: real)
    requires a > 0.0 && b > 0.0
    ensures a * b > 0.0
  {
  }

  lemma {:induction false} QuotientSign(a: real, b: real, q: real)
    requires a != 0.0 && b != 0.0 && q * b == a
    ensures q > 0.0 <==> (a > 0.0 && b > 0.0) || (a < 0.0 && b < 0.0)
  {
  }

  lemma {:induction false} Distribute(x: real, y: real, z: real)
    ensures (x + y) * z == x * z + y * z && (x - y) * z == x * z - y * z
  {
  }

  lemma {:induction false} ScaleBound(x: real, y: real, z: real)
    requires z > 0.0
    ensures x <= y <==> x * z <= y * z
  {
    if x <= y { Product(y - x, z); } else { PositiveProduct(x - y, z); }
    Distribute(y, x, z);
    Distribute(x, y, z);
  }

  lemma {:induction false} MinScales(a: real, b: real, z: real)
    requires z > 0.0
    ensures T.Min(a, b) * z == T.Min(a * z, b * z)
  {
    ScaleBound(a, b, z);
  }

  lemma {:induction false} DivideBound(x: real, y: real, dt: real, interval: real)
    requires interval > 0.0 && x * interval <= y * interval + dt
    ensures x <= y + dt / interval
  {
    var q := dt / interval;
    assert q * interval == dt;
    Distribute(y, q, interval);
    ScaleBound(x, y + q, interval);
  }

  // ---------- The bucket counted in time ----------

  function ToTime(b: Bucket): T.TimeBucket {
    T.TimeBucket(b.maxPermits * b.interval, b.stored * b.interval, b.nextFree)
  }

  function CallToTime(c: Call, interval: real): T.TimeCall {
    T.TimeCall(c.permits * interval, c.now)
  }

  function CallsToTime(calls: seq<Call>, interval: real): (r: seq<T.TimeCall>)
    ensures |r| == |calls|
    ensures forall i :: 0 <= i < |calls| ==> r[i] == CallToTime(calls[i], interval)
  {
    if calls == [] then [] else [CallToTime(calls[0], interval)] + CallsToTime(calls[1..], interval)
  }

  lemma {:induction false} ValidInTime(b: Bucket)
    requires b.Valid()
    ensures ToTime(b).Valid()
  {
    Product(b.stored, b.interval);
    Product(b.maxPermits, b.interval);
  }

  lemma {:induction false} StoredInTime(b: Bucket, t: T.TimeBucket, elapsed: real, step: real, stored: real)
    requires b.Valid() && t.cap == b.maxPermits * b.interval && t.credit == b.stored * b.interval
    requires elapsed >= 0.0 && step == elapsed / b.interval && stored == T.Min(b.maxPermits, b.stored + step)
    ensures stored >= 0.0 && stored * b.interval == T.Min(t.cap, t.credit + elapsed)
  {
    assert step * b.interval == elapsed;
    assert step >= 0.0;
    Distribute(b.stored, step, b.interval);
    MinScales(b.maxPermits, b.stored + step, b.interval);
  }

  lemma {:induction false} SyncInTime(b: Bucket, now: nat)
    requires b.Valid()
    ensures Sync(b, now).Valid() && Sync(b, now).interval == b.interval && Sync(b, now).maxPermits == b.maxPermits
    ensures ToTime(Sync(b, now)) == T.Sync(ToTime(b), now)
  {
    hide T.Min;
    if now > b.nextFree {
      var elapsed, s := (now - b.nextFree) as real, Sync(b, now);
      StoredInTime(b, ToTime(b), elapsed, elapsed / b.interval, s.stored);
      assert ToTime(s).credit == s.stored * b.interval == T.Sync(ToTime(b), now).credit;
    }
  }

  lemma {:induction false} ClaimInTime(b: Bucket, permits: real)
    requires b.Valid()
    ensures ToTime(b).Valid()
    ensures Claim(b, permits).Valid() && Claim(b, permits).interval == b.interval
    ensures Claim(b, permits).maxPermits == b.maxPermits
    ensures ToTime(Claim(b, permits)) == T.Claim(ToTime(b), permits * b.interval)
  {
    ValidInTime(b);
    if b.stored < permits { OwingInTime(b, permits); } else { CoveredInTime(b, permits); }
  }

  /** The store does not cover the claim: it is emptied, and the rest is given away in time. */
  lemma {:induction false} OwingInTime(b: Bucket, permits: real)
    requires b.Valid() && b.stored < permits && ToTime(b).Valid()
    ensures Claim(b, permits).Valid()
    ensures ToTime(Claim(b, permits)) == T.Claim(ToTime(b), permits * b.interval)
  {
    var extra := permits - b.stored;
    PositiveProduct(extra, b.interval);
    Distribute(permits, b.stored, b.interval);
    assert Claim(b, permits) == b.(stored := 0.0, nextFree := b.nextFree + (extra * b.interval).Floor);
    assert T.Claim(ToTime(b), permits * b.interval)
        == T.TimeBucket(ToTime(b).cap, 0.0, b.nextFree + (permits * b.interval - b.stored * b.interval).Floor);
  }

  /** The store covers the claim, as it does every negative one: no time is given away. */
  lemma {:induction false} CoveredInTime(b: Bucket, permits: real)
    requires b.Valid() && permits <= b.stored && ToTime(b).Valid()
    ensures Claim(b, permits).Valid()
    ensures ToTime(Claim(b, permits)) == T.Claim(ToTime(b), permits * b.interval)
  {
    ScaleBound(permits, b.stored, b.interval);
    Distribute(b.stored, permits, b.interval);
    assert Claim(b, permits) == b.(stored := b.stored - permits, nextFree := b.nextFree + (0.0 * b.interval).Floor);
    assert Claim(b, permits) == b.(stored := b.stored - permits);
    assert T.Claim(ToTime(b), permits * b.interval)
        == T.TimeBucket(ToTime(b).cap, b.stored * b.interval - permits * b.interval, b.nextFree);
  }

  lemma {:induction false} ClaimGlue(s: Bucket, t: T.TimeBucket, c: Call)
    requires s.Valid() && ToTime(s) == t
    ensures t.Valid()
    ensures Claim(s, c.permits).Valid() && Claim(s, c.permits).interval == s.interval
    ensures Claim(s, c.permits).maxPermits == s.maxPermits
    ensures ToTime(Claim(s, c.permits)) == T.Claim(t, CallToTime(c, s.interval).cost)
  {
    ClaimInTime(s, c.permits);
  }

  lemma {:induction false} AllowedInTime(b: Bucket, c: Call)
    requires b.Valid()
    ensures Allowed(b, c) <==> T.Allowed(ToTime(b), CallToTime(c, b.interval))
  {
  }

  /** One call in permits is the same call in time. */
  lemma {:induction false} CallInTime(b: Bucket, c: Call)
    requires b.Valid()
    ensures ToTime(b).Valid()
    ensures AfterCall(b, c).Valid() && AfterCall(b, c).interval == b.interval
    ensures AfterCall(b, c).maxPermits == b.maxPermits
    ensures ToTime(AfterCall(b, c)) == T.AfterCall(ToTime(b), CallToTime(c, b.interval))
  {
    ValidInTime(b);
    SyncInTime(b, c.now);
    ClaimGlue(Sync(b, c.now), T.Sync(ToTime(b), c.now), c);
  }

  // ---------- Whole runs ----------

  function Run(b: Bucket, calls: seq<Call>): (r: Bucket)
    requires b.Running()
    ensures r.Running() && r.interval == b.interval && r.maxPermits == b.maxPermits
    decreases |calls|
  {
    if calls == [] then b
    else
      CallRuns(b, calls[0]);
      Run(AfterCall(b, calls[0]), calls[1..])
  }

  lemma {:induction false} RunInTime(b: Bucket, calls: seq<Call>)
    requires b.Valid()
    ensures ToTime(b).Valid()
    ensures ToTime(Run(b, calls)) == T.Run(ToTime(b), CallsToTime(calls, b.interval))
    decreases |calls|
  {
    ValidInTime(b);
    if calls != [] {
      CallInTime(b, calls[0]);
      RunInTime(AfterCall(b, calls[0]), calls[1..]);
      assert CallsToTime(calls, b.interval)[1..] == CallsToTime(calls[1..], b.interval);
    }
  }

  function Claimed(calls: seq<Call>): real {
    if calls == [] then 0.0 else calls[0].permits + Claimed(calls[1..])
  }

  lemma {:induction false} CostOfClaimed(calls: seq<Call>, interval: real)
    ensures T.Cost(CallsToTime(calls, interval)) == Claimed(calls) * interval
  {
    if calls != [] {
      CostOfClaimed(calls[1..], interval);
      Distribute(calls[0].permits, Claimed(calls[1..]), interval);
      assert CallsToTime(calls, interval)[1..] == CallsToTime(calls[1..], interval);
    }
  }

  /** The calls run from one allowed call up to another. */
  ghost predicate Measured(b: Bucket, calls: seq<Call>, last: Call)
    requires b.Running()
  {
    calls != [] && Allowed(b, calls[0]) && Allowed(Run(b, calls), last)
  }

  /** The time from the first to the last call, and one unit for each truncation. */
  function TimeAllowed(calls: seq<Call>, last: Call): real
    requires calls != []
  {
    (last.now - calls[0].now + |calls|) as real
  }

  lemma {:induction false} CostInTime(b: Bucket, calls: seq<Call>, last: Call, timed: seq<T.TimeCall>)
    requires b.Valid() && Measured(b, calls, last) && timed == CallsToTime(calls, b.interval)
    ensures T.Cost(timed) <= ToTime(Sync(b, calls[0].now)).credit + TimeAllowed(calls, last)
    ensures calls[0].now <= last.now
  {
    RunInTime(b, calls);
    AllowedInTime(b, calls[0]);
    AllowedInTime(Run(b, calls), last);
    SyncInTime(b, calls[0].now);
    T.TimeBound(ToTime(b), timed, CallToTime(last, b.interval));
  }

  lemma {:induction false} CreditInTime(b: Bucket, now: nat, stored: real, credit: real)
    requires b.Valid() && stored == Sync(b, now).stored && credit == ToTime(Sync(b, now)).credit
    ensures credit == stored * b.interval
  {
    SyncInTime(b, now);
  }

  lemma {:induction false} BoundInTime(b: Bucket, calls: seq<Call>, last: Call, stored: real, claimed: real, time: real)
    requires b.Valid() && Measured(b, calls, last)
    requires stored == Sync(b, calls[0].now).stored && claimed == Claimed(calls) && time == TimeAllowed(calls, last)
    ensures claimed * b.interval <= stored * b.interval + time
    ensures calls[0].now <= last.now
  {
    hide ToTime, Sync, TimeAllowed, Claimed, CallsToTime, T.Cost;
    var timed := CallsToTime(calls, b.interval);
    var cost, credit := T.Cost(timed), ToTime(Sync(b, calls[0].now)).credit;
    CostInTime(b, calls, last, timed);
    CostOfClaimed(calls, b.interval);
    CreditInTime(b, calls[0].now, stored, credit);
    InTime(cost, credit, time, claimed * b.interval, stored * b.interval);
  }

  lemma {:induction false} InTime(cost: real, credit: real, time: real, claimed: real, stored: real)
    requires cost == claimed && credit == stored && cost <= credit + time
    ensures claimed <= stored + time
  {
  }

  /**
   The rate bound for any claims, negative ones too, and from any bucket: between two allowed calls, at t1 and t2, all
   the calls from the first up to the second claimed at most what was stored then + (t2 - t1 + n) / interval permits.
   */
  lemma {:induction false} RateBoundFromStore(b: Bucket, calls: seq<Call>, last: Call)
    requires b.Valid() && Measured(b, calls, last)
    ensures Claimed(calls) <= Sync(b, calls[0].now).stored + TimeAllowed(calls, last) / b.interval
    ensures calls[0].now <= last.now
  {
    hide Sync, Claimed, TimeAllowed, Allowed;
    var stored, claimed, time := Sync(b, calls[0].now).stored, Claimed(calls), TimeAllowed(calls, last);
    BoundInTime(b, calls, last, stored, claimed, time);
    DivideBound(claimed, stored, time, b.interval);
  }

  /** The rate bound: at most max + (t2 - t1 + n) / interval. */
  ghost predicate Bounded(b: Bucket, calls: seq<Call>, last: Call)
    requires b.Valid() && calls != []
  {
    Claimed(calls) <= b.maxPermits + TimeAllowed(calls, last) / b.interval
  }

  lemma {:induction false} SyncWithinLimit(b: Bucket, now: nat)
    requires b.Valid() && b.WithinLimit()
    ensures Sync(b, now).stored <= b.maxPermits
  {
  }

  /**
   The rate bound. Between two allowed calls, at t1 and t2, all the calls from the first up to the second, allowed or
   denied, claimed at most max + (t2 - t1 + n) / interval permits, n being their number; and t1 <= t2.
   */
  lemma {:induction false} RateBound(b: Bucket, calls: seq<Call>, last: Call)
    requires b.Valid() && b.WithinLimit() && Measured(b, calls, last)
    ensures Claimed(calls) <= b.maxPermits + (last.now - calls[0].now + |calls|) as real / b.interval
    ensures calls[0].now <= last.now
  {
    var time := TimeAllowed(calls, last) / b.interval;
    RateBoundFromStore(b, calls, last);
    SyncWithinLimit(b, calls[0].now);
  }

  /** What Init gives: a full bucket, in which the permits of the limit take the window, given in milliseconds. */
  ghost predicate Configured(b: Bucket, window: int, limit: real) {
    b.maxPermits == limit && b.interval * limit == 1000.0 * window as real
  }

  lemma {:induction false} InitConfigures(window: int, limit: real, nextFree: nat)
    requires limit > 0.0
    ensures Configured(Init(window, limit, nextFree), window, limit)
    ensures Init(window, limit, nextFree).stored == limit && Init(window, limit, nextFree).nextFree == nextFree
  {
  }

  lemma {:induction false} InWindow(time: real, interval: real, limit: real, span: real)
    requires interval > 0.0 && limit > 0.0 && span > 0.0 && interval * limit == span
    ensures time / interval == time * limit / span
  {
    var q := time / interval;
    assert q * interval == time;
    assert q * (interval * limit) == (q * interval) * limit;
    assert q * span == time * limit;
  }

  /**
   The rate bound in the terms of the configuration: at most limit + (t2 - t1 + n) * limit / (1000 * window) permits are
   claimed from one allowed call up to another, with a window in milliseconds and times in microseconds.
   */
  lemma {:induction false} ConfiguredRateBound(b: Bucket, window: int, limit: real, calls: seq<Call>, last: Call)
    requires b.Valid() && b.WithinLimit() && window > 0 && Configured(b, window, limit) && Measured(b, calls, last)
    ensures Claimed(calls) <=
            limit + (last.now - calls[0].now + |calls|) as real * limit / (1000.0 * window as real)
  {
    hide Claimed, Allowed, Sync;
    RateBound(b, calls, last);
    InWindow((last.now - calls[0].now + |calls|) as real, b.interval, limit, 1000.0 * window as real);
  }

  /** It holds from Init on, after any earlier calls whose claims were not negative. */
  lemma {:induction false} RateBoundFromInit(window: int, limit: real, nextFree: nat, earlier: seq<Call>,
                                             calls: seq<Call>, last: Call)
    requires window > 0 && limit > 0.0 && NonNegative(earlier)
    ensures var b := Init(window, limit, nextFree);
            b.Valid() && (Measured(Run(b, earlier), calls, last) ==>
            Claimed(calls) <= limit + (last.now - calls[0].now + |calls|) as real * limit / (1000.0 * window as real))
  {
    hide Claimed, Allowed, Sync, Measured;
    var b := Init(window, limit, nextFree);
    InitConfigures(window, limit, nextFree);
    QuotientSign(1000.0 * window as real, limit, b.interval);
    StaysWithinLimit(b, earlier);
    var r := Run(b, earlier);
    if Measured(r, calls, last) { ConfiguredRateBound(r, window, limit, calls, last); }
  }

  // ---------- When the rate bound holds ----------

  ghost predicate NonNegative(calls: seq<Call>) {
    forall i :: 0 <= i < |calls| ==> calls[i].permits >= 0.0
  }

  /** As long as no claim is negative, no more than the limit is stored. */
  lemma {:induction false} StaysWithinLimit(b: Bucket, calls: seq<Call>)
    requires b.Valid() && b.WithinLimit() && NonNegative(calls)
    ensures Run(b, calls).WithinLimit()
    decreases |calls|
  {
    if calls != [] {
      CallInTime(b, calls[0]);
      ClaimWithinLimitIff(Sync(b, calls[0].now), calls[0].permits);
      StaysWithinLimit(AfterCall(b, calls[0]), calls[1..]);
    }
  }

  /** A claim lifts the store above the limit exactly if it is negative by more than there is room. */
  lemma {:induction false} ClaimWithinLimitIff(b: Bucket, permits: real)
    requires b.Valid() && b.WithinLimit()
    ensures Claim(b, permits).WithinLimit() <==> permits >= b.stored - b.maxPermits
  {
  }

  /** Nearly one unit of time, in permits. */
  lemma {:induction false} NearlyOneUnit(room: real, unit: real, interval: real) returns (extra: real, time: real)
    requires interval > 0.0 && room > 0.0 && unit * interval == 1.0
    ensures extra >= 0.0 && extra >= unit - room && time == extra * interval && 0.0 <= time < 1.0
  {
    if unit > room {
      var spared := room * interval;
      PositiveProduct(room, interval);
      Distribute(unit, room, interval);
      extra, time := unit - room, 1.0 - spared;
      Product(extra, interval);
    } else {
      extra, time := 0.0, 0.0;
    }
  }

  lemma {:induction false} SameProduct(x: real, y: real, z: real, product: real)
    requires x == y && product == y * z && 0.0 <= product < 1.0
    ensures (x * z).Floor == 0
  {
  }

  lemma {:induction false} NoTimeGiven(b: Bucket, extra: real, time: real)
    requires b.Valid() && extra >= 0.0 && time == extra * b.interval && 0.0 <= time < 1.0
    ensures Claim(b, b.stored + extra).nextFree == b.nextFree
  {
    var owed := b.stored + extra - T.Min(b.stored + extra, b.stored);
    assert owed == extra;
    SameProduct(owed, extra, b.interval, time);
  }

  lemma {:induction false} OneCall(b: Bucket, extra: real, time: real)
    requires b.Valid() && extra >= 0.0 && time == extra * b.interval && 0.0 <= time < 1.0
    ensures var calls, last := [Call(b.stored + extra, b.nextFree)], Call(0.0, b.nextFree);
            Measured(b, calls, last) && Claimed(calls) == b.stored + extra && TimeAllowed(calls, last) == 1.0
  {
    var c := Call(b.stored + extra, b.nextFree);
    CallInTime(b, c);
    NoTimeGiven(b, extra, time);
    assert [c][1..] == [];
    assert Run(b, [c]) == Run(AfterCall(b, c), []);
    assert Claimed([c]) == c.permits + Claimed([]);
  }

  /** A bucket with more than the limit in store: one call that the rate bound would not let through. */
  lemma {:induction false} OverfullBreaksRateBound(b: Bucket) returns (calls: seq<Call>, last: Call)
    requires b.Valid() && !b.WithinLimit()
    ensures Measured(b, calls, last) && !Bounded(b, calls, last)
  {
    var room, unit := (b.stored - b.maxPermits) / 2.0, 1.0 / b.interval;
    assert unit * b.interval == 1.0;
    var extra, time := NearlyOneUnit(room, unit, b.interval);
    OneCall(b, extra, time);
    calls, last := [Call(b.stored + extra, b.nextFree)], Call(0.0, b.nextFree);
  }

  ghost predicate AlwaysBounded(b: Bucket)
    requires b.Valid()
  {
    forall calls, last :: Measured(b, calls, last) ==> Bounded(b, calls, last)
  }

  /** The rate bound holds for all calls from here on exactly if no more than the limit is stored. */
  lemma {:induction false} RateBoundIff(b: Bucket)
    requires b.Valid()
    ensures AlwaysBounded(b) <==> b.WithinLimit()
  {
    if b.WithinLimit() {
      forall calls, last | Measured(b, calls, last) ensures Bounded(b, calls, last) {
        RateBound(b, calls, last);
      }
    } else {
      var calls, last := OverfullBreaksRateBound(b);
    }
  }

  /**
   A claim made at any time keeps the rate bound exactly if it is not negative by more than the room that is left in the
   store when the time until then has been counted; so any negative claim breaks it that finds the store full.
   */
  lemma {:induction false} ClaimKeepsRateBoundIff(b: Bucket, permits: real, now: nat)
    requires b.Valid() && b.WithinLimit()
    ensures Sync(b, now).Valid()
    ensures var r := AfterCall(b, Call(permits, now));
            r.Valid() && (AlwaysBounded(r) <==> permits >= Sync(b, now).stored - b.maxPermits)
  {
    var c := Call(permits, now);
    SyncInTime(b, now);
    SyncWithinLimit(b, now);
    CallInTime(b, c);
    RateBoundIff(AfterCall(b, c));
    ClaimWithinLimitIff(Sync(b, now), permits);
  }

  // ---------- Limiters that do not limit ----------

  /** With an interval of 0 no claim takes time. */
  lemma {:induction false} FreeCall(b: Bucket, c: Call)
    requires b.Running() && b.interval == 0.0
    ensures AfterCall(b, c).nextFree == if c.now > b.nextFree then c.now else b.nextFree
  {
    hide Sync;
    SyncRuns(b, c.now);
    assert (c.permits - T.Min(c.permits, Sync(b, c.now).stored)) * 0.0 == 0.0;
  }

  /** So every call is allowed, whatever it claims, that does not come before an earlier one. */
  lemma {:induction false} ZeroWindowAllowsEverything(b: Bucket, calls: seq<Call>, last: Call)
    requires b.Running() && b.interval == 0.0 && last.now >= b.nextFree
    requires forall i :: 0 <= i < |calls| ==> calls[i].now <= last.now
    ensures Allowed(Run(b, calls), last)
    decreases |calls|
  {
    hide Sync, AfterCall;
    SyncRuns(b, last.now);
    if calls != [] {
      CallRuns(b, calls[0]);
      FreeCall(b, calls[0]);
      ZeroWindowAllowsEverything(AfterCall(b, calls[0]), calls[1..], last);
    }
  }

  ghost predicate Limits(b: Bucket, burst: real, rate: real)
    requires b.Running()
  {
    forall calls, last :: Measured(b, calls, last) ==> Claimed(calls) <= burst + rate * TimeAllowed(calls, last)
  }

  lemma {:induction false} PerTime(time: real, unit: real, interval: real)
    requires interval > 0.0 && unit == 1.0 / interval
    ensures time / interval == unit * time
  {
    assert unit * interval == 1.0;
    assert (unit * time) * interval == time * (unit * interval);
  }

  lemma {:induction false} MeasuredLimits(b: Bucket, calls: seq<Call>, last: Call, burst: real, rate: real)
    requires b.Valid() && Measured(b, calls, last)
    requires burst >= b.stored && burst >= b.maxPermits && rate == 1.0 / b.interval
    ensures Claimed(calls) <= burst + rate * TimeAllowed(calls, last)
  {
    hide Sync, Claimed, TimeAllowed, Allowed;
    var time := TimeAllowed(calls, last);
    RateBoundFromStore(b, calls, last);
    StoredAtMost(b, calls[0].now, burst);
    PerTime(time, rate, b.interval);
  }

  lemma {:induction false} ValidLimits(b: Bucket, burst: real, rate: real)
    requires b.Valid() && burst >= b.stored && burst >= b.maxPermits && rate == 1.0 / b.interval
    ensures Limits(b, burst, rate)
  {
    hide Allowed, Claimed, TimeAllowed;
    forall calls, last | Measured(b, calls, last) ensures Claimed(calls) <= burst + rate * TimeAllowed(calls, last) {
      MeasuredLimits(b, calls, last, burst, rate);
    }
  }

  lemma {:induction false} StoredAtMost(b: Bucket, now: nat, burst: real)
    requires b.Running() && burst >= b.stored && burst >= b.maxPermits
    ensures Sync(b, now).stored <= burst
  {
  }

  lemma {:induction false} OneFreeCall(b: Bucket, permits: real)
    requires b.Running() && b.interval == 0.0
    ensures var calls, last := [Call(permits, b.nextFree)], Call(0.0, b.nextFree);
            Measured(b, calls, last) && Claimed(calls) == permits && TimeAllowed(calls, last) == 1.0
  {
    var c: Call, last: Call := Call(permits, b.nextFree), Call(0.0, b.nextFree);
    ZeroWindowAllowsEverything(b, [], c);
    ZeroWindowAllowsEverything(b, [c], last);
    assert Claimed([c]) == c.permits + Claimed([]);
  }

  /** There is a bound on what calls can claim in a given time, whatever its burst and its rate, exactly if permits cost time. */
  lemma {:induction false} LimitsIff(b: Bucket)
    requires b.Running()
    ensures (exists burst, rate :: Limits(b, burst, rate)) <==> b.Valid()
  {
    if b.Valid() {
      ValidLimits(b, if b.stored > b.maxPermits then b.stored else b.maxPermits, 1.0 / b.interval);
    } else {
      forall burst, rate ensures !Limits(b, burst, rate) {
        OneFreeCall(b, burst + rate + 1.0);
        assert Measured(b, [Call(burst + rate + 1.0, b.nextFree)], Call(0.0, b.nextFree));
      }
    }
  }

  /**
   With an interval below 0 the time of a claim beyond the store is negative. Its conversion to an unsigned number has no
   value exactly if it is a whole unit or more.
   */
  lemma {:induction false} NegativeTimeIff(stored: real, permits: real, interval: real)
    requires interval < 0.0 && stored >= 0.0
    ensures (permits - T.Min(permits, stored)) * interval <= -1.0 <==> permits > stored && (permits - stored) * -interval >= 1.0
  {
    if permits > stored {
      assert T.Min(permits, stored) == stored;
      assert (permits - stored) * -interval == -((permits - stored) * interval);
    } else {
      assert (permits - T.Min(permits, stored)) * interval == 0.0 * interval == 0.0;
    }
  }

  // ---------- Calls that are allowed ----------

  lemma {:induction false} NonNegativeInTime(calls: seq<Call>, interval: real)
    requires interval > 0.0 && NonNegative(calls)
    ensures T.NonNegative(CallsToTime(calls, interval))
  {
    var timed := CallsToTime(calls, interval);
    forall i | 0 <= i < |calls| ensures timed[i].cost >= 0.0 {
      assert timed[i] == CallToTime(calls[i], interval);
      Product(calls[i].permits, interval);
    }
  }

  lemma {:induction false} ClaimedCost(b: Bucket, calls: seq<Call>)
    requires b.Valid() && Claimed(calls) <= b.maxPermits
    ensures T.Cost(CallsToTime(calls, b.interval)) <= ToTime(b).cap
  {
    CostOfClaimed(calls, b.interval);
    ScaleBound(Claimed(calls), b.maxPermits, b.interval);
  }

  lemma {:induction false} AllAtInTime(calls: seq<Call>, interval: real, now: nat)
    requires forall i :: 0 <= i < |calls| ==> calls[i].now == now
    ensures T.AllAt(CallsToTime(calls, interval), now)
  {
  }

  lemma {:induction false} BurstInTime(b: Bucket, calls: seq<Call>, timed: seq<T.TimeCall>, last: Call, cap: real)
    requires b.Valid() && timed == CallsToTime(calls, b.interval) && T.NonNegative(timed) && T.AllAt(timed, last.now)
    requires ToTime(b).cap == cap && last.now as real >= b.nextFree as real + cap && T.Cost(timed) <= cap
    ensures T.Allowed(ToTime(Run(b, calls)), CallToTime(last, b.interval))
  {
    RunInTime(b, calls);
    T.BurstAfterIdle(ToTime(b), timed, CallToTime(last, b.interval));
  }

  /**
   A bucket left alone for long enough to fill up allows a burst: of calls at one moment, each one is allowed before
   which no more than the limit was claimed.
   */
  lemma {:induction false} BurstAfterIdle(b: Bucket, calls: seq<Call>, last: Call)
    requires b.Valid() && NonNegative(calls) && forall i :: 0 <= i < |calls| ==> calls[i].now == last.now
    requires last.now as real >= b.nextFree as real + b.maxPermits * b.interval && Claimed(calls) <= b.maxPermits
    ensures Allowed(Run(b, calls), last)
  {
    ClaimedCost(b, calls);
    AllAtInTime(calls, b.interval, last.now);
    NonNegativeInTime(calls, b.interval);
    BurstInTime(b, calls, CallsToTime(calls, b.interval), last, b.maxPermits * b.interval);
    AllowedInTime(Run(b, calls), last);
  }

  /** Each call asks for p permits, at least p * interval after the one before. */
  ghost predicate Spaced(calls: seq<Call>, p: real, interval: real) {
    && (forall i :: 0 <= i < |calls| ==> calls[i].permits == p)
    && (forall i :: 0 < i < |calls| ==> (calls[i].now - calls[i - 1].now) as real >= p * interval)
  }

  lemma {:induction false} SpacedInTime(calls: seq<Call>, p: real, interval: real, cost: real)
    requires Spaced(calls, p, interval) && cost == p * interval
    ensures T.Spaced(CallsToTime(calls, interval), cost)
  {
    var timed := CallsToTime(calls, interval);
    assert forall i :: 0 <= i < |timed| ==> timed[i] == T.TimeCall(cost, calls[i].now) by {
      forall i | 0 <= i < |timed| ensures timed[i] == T.TimeCall(cost, calls[i].now) {
        assert calls[i].permits == p;
        assert timed[i] == CallToTime(calls[i], interval);
      }
    }
    SpacedByNow(calls, timed, p, interval, cost);
  }

  lemma {:induction false} SpacedByNow(calls: seq<Call>, timed: seq<T.TimeCall>, p: real, interval: real, cost: real)
    requires Spaced(calls, p, interval) && cost == p * interval && |timed| == |calls|
    requires forall i :: 0 <= i < |timed| ==> timed[i] == T.TimeCall(cost, calls[i].now)
    ensures T.Spaced(timed, cost)
  {
  }

  lemma {:induction false} PrefixInTime(calls: seq<Call>, interval: real, i: nat)
    requires i <= |calls|
    ensures CallsToTime(calls[..i], interval) == CallsToTime(calls, interval)[..i]
  {
  }

  lemma {:induction false} PoliteInTime(b: Bucket, calls: seq<Call>, timed: seq<T.TimeCall>, cost: real, i: nat)
    requires b.Valid() && timed == CallsToTime(calls, b.interval) && i < |timed| && cost >= 0.0
    requires T.Spaced(timed, cost) && ToTime(b).Valid() && T.Allowed(ToTime(b), timed[0])
    ensures T.Allowed(ToTime(Run(b, calls[..i])), timed[i])
  {
    hide ToTime, CallToTime;
    T.SpacedCallsAreAllowed(ToTime(b), timed, cost, i);
    RunInTime(b, calls[..i]);
    PrefixInTime(calls, b.interval, i);
  }

  /** Once allowed, a caller who spaces calls for p permits p * interval apart is always allowed. */
  lemma {:induction false} PoliteCallerIsAllowed(b: Bucket, calls: seq<Call>, p: real, i: nat)
    requires b.Valid() && p >= 0.0 && i < |calls| && Spaced(calls, p, b.interval) && Allowed(b, calls[0])
    ensures Allowed(Run(b, calls[..i]), calls[i])
  {
    hide ToTime, CallToTime, Spaced, T.Spaced, T.Allowed, Allowed;
    var timed, cost := CallsToTime(calls, b.interval), p * b.interval;
    ValidInTime(b);
    Product(p, b.interval);
    AllowedInTime(b, calls[0]);
    SpacedInTime(calls, p, b.interval, cost);
    PoliteInTime(b, calls, timed, cost, i);
    AllowedInTime(Run(b, calls[..i]), calls[i]);
  }

  // ---------- The run of the program ----------

  /** The answers to a list of calls. */
  function Answers(b: Bucket, calls: seq<Call>): seq<bool>
    requires b.Running()
    decreases |calls|
  {
    if calls == [] then []
    else
      CallRuns(b, calls[0]);
      [Allowed(b, calls[0])] + Answers(AfterCall(b, calls[0]), calls[1..])
  }

  /** The requests of the program, one permit each, at the given milliseconds. */
  function Requests(times: seq<nat>): seq<Call> {
    if times == [] then [] else [Call(1.0, times[0] * 1000)] + Requests(times[1..])
  }

  function Denials(n: nat): seq<bool> {
    if n == 0 then [] else [false] + Denials(n - 1)
  }

  /** An empty bucket of one permit in three milliseconds denies a call before nextFree, and moves it on by the interval. */
  lemma {:induction false} EmptyDenies(nextFree: nat, now: nat)
    requires now < nextFree
    ensures var b, c := Bucket(3000.0, 1.0, 0.0, nextFree), Call(1.0, now);
            !Allowed(b, c) && AfterCall(b, c) == Bucket(3000.0, 1.0, 0.0, nextFree + 3000)
  {
    assert (1.0 - T.Min(1.0, 0.0)) * 3000.0 == 3000.0;
  }

  lemma {:induction false} EmptyDeniesAll(nextFree: nat, times: seq<nat>)
    requires forall i :: 0 <= i < |times| ==> times[i] * 1000 < nextFree + 3000 * i
    ensures Answers(Bucket(3000.0, 1.0, 0.0, nextFree), Requests(times)) == Denials(|times|)
    decreases |times|
  {
    hide AfterCall, Allowed;
    if times != [] {
      EmptyDenies(nextFree, times[0] * 1000);
      assert Requests(times)[1..] == Requests(times[1..]);
      EmptyDeniesAll(nextFree + 3000, times[1..]);
    }
  }

  /** A call at least three milliseconds after the last one is allowed and empties the bucket. */
  lemma {:induction false} RefilledAllows(stored: real, nextFree: nat, now: nat)
    requires 0.0 <= stored <= 1.0 && now > nextFree && (stored == 1.0 || now >= nextFree + 3000)
    ensures var b, c := Bucket(3000.0, 1.0, stored, nextFree), Call(1.0, now);
            Allowed(b, c) && AfterCall(b, c) == Bucket(3000.0, 1.0, 0.0, now)
  {
    var b := Bucket(3000.0, 1.0, stored, nextFree);
    var step := (now - nextFree) as real / 3000.0;
    assert T.Min(1.0, stored + step) == 1.0;
    assert Sync(b, now) == Bucket(3000.0, 1.0, 1.0, now);
    assert (1.0 - T.Min(1.0, 1.0)) * 3000.0 == 0.0;
  }

  lemma {:induction false} FirstAnswer(b: Bucket, times: seq<nat>, r: Bucket)
    requires b.Running() && r.Running() && times != [] && Allowed(b, Call(1.0, times[0] * 1000))
    requires r == AfterCall(b, Call(1.0, times[0] * 1000))
    ensures Answers(b, Requests(times)) == [true] + Answers(r, Requests(times[1..]))
  {
    hide AfterCall, Allowed;
    assert Requests(times)[1..] == Requests(times[1..]);
  }

  lemma {:induction false} ProgramInit()
    ensures Init(3, 1.0, 0) == Bucket(3000.0, 1.0, 1.0, 0)
  {
  }

  /**
   The program sets one permit in three milliseconds and asks eleven times; as its comments say, the requests at 1 and at
   4 milliseconds are allowed and all later ones denied, since each denied request also takes its time.
   */
  lemma {:induction false} ProgramAnswers()
    ensures Init(3, 1.0, 0).Running()
    ensures Answers(Init(3, 1.0, 0), Requests([1, 4, 1, 3, 5, 6, 7, 8, 9, 10, 1])) == [true, true] + Denials(9)
  {
    hide AfterCall, Allowed, Denials, Answers, Requests, Init;
    ProgramInit();
    var times, later, rest :=
      [1, 4, 1, 3, 5, 6, 7, 8, 9, 10, 1], [4, 1, 3, 5, 6, 7, 8, 9, 10, 1], [1, 3, 5, 6, 7, 8, 9, 10, 1];
    assert times[1..] == later && later[1..] == rest;
    RefilledAllows(1.0, 0, 1000);
    RefilledAllows(0.0, 1000, 4000);
    EmptyDeniesAll(4000, rest);
    var first, second, third :=
      Bucket(3000.0, 1.0, 1.0, 0), Bucket(3000.0, 1.0, 0.0, 1000), Bucket(3000.0, 1.0, 0.0, 4000);
    FirstAnswer(first, times, second);
    FirstAnswer(second, later, third);
    assert [true] + ([true] + Denials(9)) == [true, true] + Denials(9);
  }

  // ---------- The limiter ----------

  class TokenBucketRateLimiter {
    var interval: real
    var maxPermits: real
    var storedPermits: real
    var nextFree: nat

    ghost function Contents(): Bucket
      reads this
    {
      Bucket(interval, maxPermits, storedPermits, nextFree)
    }

    constructor ()
      ensures Contents() == Bucket(1000000.0, 1.0, 1.0, 0)
    {
      maxPermits, storedPermits, nextFree := 1.0, 1.0, 0;
      interval := 1000000.0 / 1.0;
    }

    /**
     Permits cost time exactly if window and limit have the same sign. With a window of 0 they are free (LimitsIff); with
     signs that differ time is negative (NegativeTimeIff).
     */
    method Configure(timewindow: int, permits: real)
      requires permits != 0.0
      modifies this`interval, this`maxPermits, this`storedPermits
      ensures Contents() == Init(timewindow, permits, nextFree)
      ensures interval * permits == 1000.0 * timewindow as real
      ensures storedPermits == maxPermits == if permits <= 0.0 then 1.0 else permits
      ensures timewindow == 0 && permits > 0.0 ==> Contents().Running() && interval == 0.0
      ensures Contents().Valid() <==> (timewindow > 0 && permits > 0.0) || (timewindow < 0 && permits < 0.0)
    {
      if permits <= 0.0 {
        maxPermits := 1.0;
      } else {
        maxPermits := permits;
      }
      storedPermits := maxPermits;
      interval := (timewindow * 1000) as real / permits;
      assert interval * permits == (timewindow * 1000) as real;
      if timewindow > 0 || timewindow < 0 { QuotientSign((timewindow * 1000) as real, permits, interval); }
    }

    method SyncTo(now: nat)
      requires Contents().Running()
      modifies this`storedPermits, this`nextFree
      ensures Contents() == Sync(old(Contents()), now)
      ensures now > old(nextFree) && interval == 0.0 ==> storedPermits == maxPermits
      ensures now > old(nextFree) && interval > 0.0 ==>
                var gained := (now - old(nextFree)) as real / interval;
                storedPermits == if old(storedPermits) + gained < maxPermits then old(storedPermits) + gained else maxPermits
    {
      if now > nextFree {
        if interval == 0.0 {
          storedPermits := maxPermits;  // the minimum of the limit and an infinite quotient
        } else {
          var step := (now - nextFree) as real / interval;
          storedPermits := T.Min(maxPermits, storedPermits + step);
        }
        nextFree := now;
      }
    }

    /** The wait is never negative: the subtraction of the two unsigned times does not wrap. */
    method ClaimNext(permits: real, now: nat) returns (wait: nat)
      requires Contents().Running()
      modifies this`storedPermits, this`nextFree
      ensures Contents() == AfterCall(old(Contents()), Call(permits, now)) && Contents().Running()
      ensures wait == Sync(old(Contents()), now).nextFree - now
    {
      SyncRuns(Contents(), now);
      CallRuns(Contents(), Call(permits, now));
      SyncTo(now);
      wait := nextFree - now;
      var stored := T.Min(permits, storedPermits);
      var extra := permits - stored;
      Product(extra, interval);
      nextFree := nextFree + (extra * interval).Floor;
      storedPermits := storedPermits - stored;
    }

    method Aquire(permits: real, now: nat) returns (allowed: bool)
      requires Contents().Running()
      modifies this`storedPermits, this`nextFree
      ensures Contents() == AfterCall(old(Contents()), Call(permits, now)) && Contents().Running()
      ensures allowed == Allowed(old(Contents()), Call(permits, now)) == (old(nextFree) <= now)
    {
      var wait := ClaimNext(permits, now);
      allowed := !(wait as real / 1000.0 != 0.0);
    }
  }
}
