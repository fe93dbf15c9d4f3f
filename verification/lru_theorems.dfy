/** What the cache promises over whole traces of get and put. */
module LruTheorems {
  import opened LruSpec

  // ---------- Lists of keys ----------

  /** The list without the first occurrence of x. */
  function Without(s: seq<int>, x: int): (r: seq<int>)
    ensures x !in s ==> r == s
    ensures x in s ==> |r| == |s| - 1
    ensures forall y :: y != x ==> (y in r <==> y in s)
    ensures Distinct(s) ==> Distinct(r) && x !in r
  {
    if s == [] then
      []
    else if s[0] == x then
      assert s == [x] + s[1..];
      assert Distinct(s) ==> forall i :: 1 <= i < |s| ==> s[i] != s[0];
      s[1..]
    else
      var r := Without(s[1..], x);
      assert s == [s[0]] + s[1..];
      assert Distinct(s) ==> s[0] !in s[1..] && s[0] !in r;
      [s[0]] + r
  }

  lemma {:induction false} WithoutCommutes(s: seq<int>, x: int, y: int)
    ensures Without(Without(s, x), y) == Without(Without(s, y), x)
  {
    if s != [] && s[0] != x && s[0] != y { WithoutCommutes(s[1..], x, y); }
  }

  lemma {:induction false} WithoutCons(k: int, s: seq<int>, x: int)
    ensures Without([k] + s, x) == if k == x then s else [k] + Without(s, x)
  {
    assert ([k] + s)[1..] == s;
  }

  lemma {:induction false} WithoutLast(s: seq<int>)
    requires Distinct(s) && s != []
    ensures Without(s, s[|s| - 1]) == s[..|s| - 1]
  {
    if |s| > 1 {
      WithoutLast(s[1..]);
      assert s[..|s| - 1] == [s[0]] + s[1..][..|s| - 2];
    }
  }

  /** Removing x before or after cutting the list off at m. */
  lemma {:induction false} WithoutPrefix(s: seq<int>, x: int, m: nat)
    requires m <= |s|
    ensures x in s[..m] ==> Without(s, x)[..m - 1] == Without(s[..m], x)
    ensures x !in s[..m] && m <= |Without(s, x)| ==> Without(s, x)[..m] == s[..m]
  {
    if m > 0 && s[0] != x {
      WithoutPrefix(s[1..], x, m - 1);
      assert s[..m] == [s[0]] + s[1..][..m - 1];
      assert s[..m][1..] == s[1..][..m - 1];
    } else if m > 0 {
      assert s[..m][0] == x && s[..m][1..] == s[1..m];
    }
  }

  // ---------- The cache on keys ----------

  function TouchKey(keys: seq<int>, k: int): seq<int> {
    [k] + Without(keys, k)
  }

  function GetKeys(keys: seq<int>, k: int): seq<int> {
    if k in keys then TouchKey(keys, k) else keys
  }

  function PutKeys(keys: seq<int>, capacity: nat, k: int): seq<int>
    requires capacity >= 1
  {
    if k in keys then TouchKey(keys, k)
    else if |keys| >= capacity && keys != [] then [k] + keys[..|keys| - 1]
    else [k] + keys
  }

  function ApplyKeys(keys: seq<int>, capacity: nat, op: Op): seq<int>
    requires capacity >= 1
  {
    match op
    case Get(k) => GetKeys(keys, k)
    case Put(k, _) => PutKeys(keys, capacity, k)
  }

  lemma {:induction false} HasKey(items: seq<Item>, k: int)
    ensures Has(items, k) <==> k in Keys(items)
  {
    if Has(items, k) { assert Keys(items)[Find(items, k)] == k; }
  }

  lemma {:induction false} KeysConcat(a: seq<Item>, b: seq<Item>)
    ensures Keys(a + b) == Keys(a) + Keys(b)
  {
  }

  lemma {:induction false} WithoutAt(keys: seq<int>, i: nat)
    requires i < |keys| && keys[i] !in keys[..i]
    ensures Without(keys, keys[i]) == keys[..i] + keys[i + 1..]
  {
    if i > 0 {
      assert keys[0] in keys[..i];
      assert keys[1..][..i - 1] == keys[..i][1..];
      WithoutAt(keys[1..], i - 1);
      assert keys[1..][i..] == keys[i + 1..];
    }
  }

  lemma {:induction false} KeysSlices(items: seq<Item>, i: nat)
    requires i < |items|
    ensures Keys(items[..i]) == Keys(items)[..i] && Keys(items[i + 1..]) == Keys(items)[i + 1..]
  {
  }

  lemma {:induction false} KeyIsFirst(items: seq<Item>, k: int)
    requires Has(items, k)
    ensures var i := Find(items, k); |Keys(items)| == |items| && Keys(items)[i] == k && k !in Keys(items)[..i]
  {
  }

  lemma {:induction false} KeysWithout(items: seq<Item>, k: int)
    requires Has(items, k)
    ensures var i := Find(items, k); Keys(items[..i] + items[i + 1..]) == Without(Keys(items), k)
  {
    hide Keys, Without;
    var i := Find(items, k);
    KeyIsFirst(items, k);
    KeysSlices(items, i);
    KeysConcat(items[..i], items[i + 1..]);
    WithoutAt(Keys(items), i);
  }

  lemma {:induction false} KeysOfOne(item: Item)
    ensures Keys([item]) == [item.key]
  {
  }

  lemma {:induction false} KeysToFront(items: seq<Item>, k: int)
    requires Has(items, k)
    ensures Keys(ToFront(items, Find(items, k))) == TouchKey(Keys(items), k)
  {
    hide Keys, Without;
    var i := Find(items, k);
    KeysWithout(items, k);
    KeysOfOne(items[i]);
    KeysConcat([items[i]], items[..i] + items[i + 1..]);
  }

  lemma {:induction false} KeysInserted(items: seq<Item>, capacity: nat, k: int, v: int)
    requires capacity >= 1 && !Has(items, k)
    ensures Keys(PutItems(items, capacity, k, v)) == PutKeys(Keys(items), capacity, k)
  {
    HasKey(items, k);
    KeysOfOne(Item(k, v));
    KeysConcat([Item(k, v)], items);
    if items != [] {
      KeysSlices(items, |items| - 1);
      KeysConcat([Item(k, v)], items[..|items| - 1]);
    }
    assert |Keys(items)| == |items|;
    hide Keys, Find, Without;
  }

  lemma {:induction false} ApplyOnKeys(items: seq<Item>, capacity: nat, op: Op)
    requires capacity >= 1
    ensures Keys(Apply(items, capacity, op)) == ApplyKeys(Keys(items), capacity, op)
  {
    hide Keys, Has, Without, TouchKey;
    HasKey(items, op.key);
    if Has(items, op.key) {
      KeysToFront(items, op.key);
    } else if op.Put? {
      KeysInserted(items, capacity, op.key, op.val);
    }
  }

  /** In every reachable state the keys are distinct and no more than the capacity. */
  lemma {:induction false} RunBounded(capacity: nat, ops: seq<Op>)
    requires capacity >= 1
    ensures Distinct(Keys(Run(capacity, ops))) && |Run(capacity, ops)| <= capacity
  {
    if ops != [] {
      var before := Run(capacity, ops[..|ops| - 1]);
      RunBounded(capacity, ops[..|ops| - 1]);
      ApplyOnKeys(before, capacity, ops[|ops| - 1]);
      ApplyBounded(Keys(before), capacity, ops[|ops| - 1]);
    }
  }

  lemma {:induction false} ApplyBounded(keys: seq<int>, capacity: nat, op: Op)
    requires capacity >= 1 && Distinct(keys) && |keys| <= capacity
    ensures Distinct(ApplyKeys(keys, capacity, op)) && |ApplyKeys(keys, capacity, op)| <= capacity
  {
  }

  // ---------- Inclusion: two capacities, one trace ----------

  /** `small` is `large` with at most one key removed. */
  ghost predicate AtMostOneRemoved(small: seq<int>, large: seq<int>) {
    small == large || exists x :: x in large && small == Without(large, x)
  }

  lemma {:induction false} TouchKeepsRemoved(large: seq<int>, x: int, k: int)
    requires Distinct(large) && x in large && k in large && k != x
    ensures x in TouchKey(large, k) && TouchKey(Without(large, x), k) == Without(TouchKey(large, k), x)
  {
    WithoutCommutes(large, x, k);
    WithoutCons(k, Without(large, k), x);
  }

  lemma {:induction false} EvictMakesRemoved(k: int, s: seq<int>)
    requires Distinct(s) && s != [] && k !in s
    ensures AtMostOneRemoved([k] + s[..|s| - 1], [k] + s)
  {
    var x := s[|s| - 1];
    WithoutLast(s);
    WithoutCons(k, s, x);
    assert x in [k] + s;
  }

  lemma {:induction false} EvictKeepsRemoved(large: seq<int>, x: int, k: int)
    requires Distinct(large) && x in large && k !in large && x != large[|large| - 1]
    ensures var small := Without(large, x);
            small != [] && AtMostOneRemoved([k] + small[..|small| - 1], [k] + large[..|large| - 1])
  {
    var last := |large| - 1;
    assert large == large[..last] + [large[last]];
    assert x in large[..last];
    WithoutPrefix(large, x, last);
    WithoutCons(k, large[..last], x);
    assert x in [k] + large[..last];
  }

  lemma {:induction false} ConsKeepsRemoved(large: seq<int>, x: int, k: int)
    requires x in large && k != x
    ensures AtMostOneRemoved([k] + Without(large, x), [k] + large)
  {
    WithoutCons(k, large, x);
    assert x in [k] + large;
  }

  lemma {:induction false} PutAbsentKeepsRemoved(large: seq<int>, x: int, k: int, c: nat)
    requires c >= 1 && Distinct(large) && x in large && k !in large && |large| <= c + 1
    ensures AtMostOneRemoved(PutKeys(Without(large, x), c, k), PutKeys(large, c + 1, k))
  {
    var small := Without(large, x);
    assert k !in small && |small| == |large| - 1;
    if |large| <= c {
      assert PutKeys(small, c, k) == [k] + small && PutKeys(large, c + 1, k) == [k] + large;
      ConsKeepsRemoved(large, x, k);
    } else {
      assert PutKeys(small, c, k) == [k] + small[..|small| - 1];
      assert PutKeys(large, c + 1, k) == [k] + large[..|large| - 1];
      if x == large[|large| - 1] {
        WithoutLast(large);
        EvictMakesRemoved(k, small);
      } else {
        EvictKeepsRemoved(large, x, k);
      }
    }
  }

  lemma {:induction false} PutRemovedKey(large: seq<int>, k: int, c: nat)
    requires c >= 1 && Distinct(large) && k in large && |large| <= c + 1
    ensures AtMostOneRemoved(PutKeys(Without(large, k), c, k), PutKeys(large, c + 1, k))
  {
    var small := Without(large, k);
    if |small| >= c { EvictMakesRemoved(k, small); }
  }

  lemma {:induction false} ApplyKeepsInclusion(small: seq<int>, large: seq<int>, c: nat, op: Op)
    requires c >= 1 && Distinct(large) && |large| <= c + 1 && |small| <= c && AtMostOneRemoved(small, large)
    ensures AtMostOneRemoved(ApplyKeys(small, c, op), ApplyKeys(large, c + 1, op))
  {
    var k := op.key;
    if small == large {
      if op.Put? && k !in large && |large| == c { EvictMakesRemoved(k, large); }
    } else {
      var x :| x in large && small == Without(large, x);
      if k in small {
        TouchKeepsRemoved(large, x, k);
      } else if k == x {
        if op.Get? {
          WithoutCons(k, Without(large, k), k);
          assert k in TouchKey(large, k);
        } else {
          PutRemovedKey(large, k, c);
        }
      } else if op.Put? {
        PutAbsentKeepsRemoved(large, x, k, c);
      }
    }
  }

  lemma {:induction false} InclusionStep(c: nat, small: seq<Item>, large: seq<Item>, op: Op, small': seq<Item>, large': seq<Item>)
    requires c >= 1 && Distinct(Keys(large)) && |large| <= c + 1 && |small| <= c
    requires AtMostOneRemoved(Keys(small), Keys(large))
    requires small' == Apply(small, c, op) && large' == Apply(large, c + 1, op)
    ensures AtMostOneRemoved(Keys(small'), Keys(large'))
  {
    ApplyOnKeys(small, c, op);
    ApplyOnKeys(large, c + 1, op);
    ApplyKeepsInclusion(Keys(small), Keys(large), c, op);
  }

  lemma {:induction false} RunNothing(capacity: nat)
    requires capacity >= 1
    ensures Run(capacity, []) == []
  {
  }

  lemma {:induction false} RunLast(capacity: nat, ops: seq<Op>)
    requires capacity >= 1 && ops != []
    ensures Run(capacity, ops) == Apply(Run(capacity, ops[..|ops| - 1]), capacity, ops[|ops| - 1])
  {
  }

  lemma {:induction false} NoneRemoved(keys: seq<int>)
    ensures AtMostOneRemoved(keys, keys)
  {
  }

  /** The recency list of capacity c is that of capacity c + 1 with at most one key removed, on every trace. */
  lemma {:induction false} Inclusion(c: nat, ops: seq<Op>)
    requires c >= 1
    ensures AtMostOneRemoved(Keys(Run(c, ops)), Keys(Run(c + 1, ops)))
  {
    hide AtMostOneRemoved, Apply, Distinct, Keys, Run;
    if ops == [] {
      RunNothing(c);
      RunNothing(c + 1);
      NoneRemoved(Keys([]));
    } else {
      var prefix := ops[..|ops| - 1];
      Inclusion(c, prefix);
      RunBounded(c, prefix);
      RunBounded(c + 1, prefix);
      RunLast(c, ops);
      RunLast(c + 1, ops);
      InclusionStep(c, Run(c, prefix), Run(c + 1, prefix), ops[|ops| - 1], Run(c, ops), Run(c + 1, ops));
    }
  }

  lemma {:induction false} RemovedIsIncluded(small: seq<int>, large: seq<int>, k: int)
    requires AtMostOneRemoved(small, large) && k in small
    ensures k in large
  {
  }

  /** A larger cache never misses where a smaller one hits. */
  lemma {:induction false} LargerNeverMisses(c: nat, d: nat, ops: seq<Op>, k: int)
    requires 1 <= c <= d && Has(Run(c, ops), k)
    ensures Has(Run(d, ops), k)
    decreases d
  {
    hide Run, Has, Keys, AtMostOneRemoved;
    if c < d {
      LargerNeverMisses(c, d - 1, ops, k);
      Inclusion(d - 1, ops);
      HasKey(Run(d - 1, ops), k);
      HasKey(Run(d, ops), k);
      RemovedIsIncluded(Keys(Run(d - 1, ops)), Keys(Run(d, ops)), k);
    }
  }

  /** `a` is `b` with some elements left out. */
  predicate IsSubsequence(a: seq<int>, b: seq<int>) {
    if a == [] then true
    else if b == [] then false
    else if a[0] == b[0] then IsSubsequence(a[1..], b[1..])
    else IsSubsequence(a, b[1..])
  }

  lemma {:induction false} IsSubsequenceOfItself(a: seq<int>)
    ensures IsSubsequence(a, a)
  {
    if a != [] { IsSubsequenceOfItself(a[1..]); }
  }

  lemma {:induction false} WithoutIsSubsequence(s: seq<int>, x: int)
    ensures IsSubsequence(Without(s, x), s)
  {
    if s != [] {
      if s[0] == x {
        IsSubsequenceOfItself(s[1..]);
        SubsequenceOfLonger(s[1..], s);
      } else {
        WithoutIsSubsequence(s[1..], x);
        assert Without(s, x)[1..] == Without(s[1..], x);
      }
    }
  }

  lemma {:induction false} SubsequenceOfLonger(a: seq<int>, b: seq<int>)
    requires b != [] && IsSubsequence(a, b[1..])
    ensures IsSubsequence(a, b)
    decreases |b|, 0
  {
    if a != [] && a[0] == b[0] { ShorterSubsequence(a, b[1..]); }
  }

  lemma {:induction false} ShorterSubsequence(a: seq<int>, b: seq<int>)
    requires a != [] && IsSubsequence(a, b)
    ensures IsSubsequence(a[1..], b)
    decreases |b|, 1
  {
    if a[0] == b[0] {
      SubsequenceOfLonger(a[1..], b);
    } else {
      ShorterSubsequence(a, b[1..]);
      SubsequenceOfLonger(a[1..], b);
    }
  }

  lemma {:induction false} SubsequenceComposes(a: seq<int>, b: seq<int>, c: seq<int>)
    requires IsSubsequence(a, b) && IsSubsequence(b, c)
    ensures IsSubsequence(a, c)
    decreases |c|
  {
    if a != [] && b != [] {
      if b[0] != c[0] {
        SubsequenceComposes(a, b, c[1..]);
        SubsequenceOfLonger(a, c);
      } else if a[0] == b[0] {
        SubsequenceComposes(a[1..], b[1..], c[1..]);
      } else {
        SubsequenceComposes(a, b[1..], c[1..]);
      }
    }
  }

  lemma {:induction false} RemovedIsSubsequence(small: seq<int>, large: seq<int>)
    requires AtMostOneRemoved(small, large)
    ensures IsSubsequence(small, large)
  {
    if small == large {
      IsSubsequenceOfItself(small);
    } else {
      var x :| x in large && small == Without(large, x);
      WithoutIsSubsequence(large, x);
    }
  }

  /** For any two capacities the smaller cache holds keys of the larger one, in the same order of recency. */
  lemma {:induction false} SmallerIsSubsequence(c: nat, d: nat, ops: seq<Op>)
    requires 1 <= c <= d
    ensures IsSubsequence(Keys(Run(c, ops)), Keys(Run(d, ops)))
    decreases d
  {
    hide Run, Keys, AtMostOneRemoved, IsSubsequence;
    if c == d {
      IsSubsequenceOfItself(Keys(Run(c, ops)));
    } else {
      SmallerIsSubsequence(c, d - 1, ops);
      Inclusion(d - 1, ops);
      RemovedIsSubsequence(Keys(Run(d - 1, ops)), Keys(Run(d, ops)));
      SubsequenceComposes(Keys(Run(c, ops)), Keys(Run(d - 1, ops)), Keys(Run(d, ops)));
    }
  }

  // ---------- Recency: the cache holds the most recently touched keys ----------

  /** The last operation of the trace touches k: a put of k, or a get of k that hits. */
  predicate TouchesLast(capacity: nat, ops: seq<Op>, k: int)
    requires capacity >= 1 && ops != []
  {
    var op := ops[|ops| - 1];
    op.key == k && (op.Put? || k in Keys(Run(capacity, ops[..|ops| - 1])))
  }

  /** The index of the last operation that touched k, or -1. */
  function LastTouch(capacity: nat, ops: seq<Op>, k: int): (i: int)
    requires capacity >= 1
    ensures -1 <= i < |ops|
  {
    if ops == [] then -1
    else if TouchesLast(capacity, ops, k) then |ops| - 1
    else LastTouch(capacity, ops[..|ops| - 1], k)
  }

  /** All keys ever touched, most recently touched first: the cache without a bound. */
  function Recency(capacity: nat, ops: seq<Op>): seq<int>
    requires capacity >= 1
  {
    if ops == [] then []
    else
      var r := Recency(capacity, ops[..|ops| - 1]);
      if TouchesLast(capacity, ops, ops[|ops| - 1].key) then TouchKey(r, ops[|ops| - 1].key) else r
  }

  ghost predicate Ordered(capacity: nat, ops: seq<Op>, keys: seq<int>)
    requires capacity >= 1
  {
    forall i, j :: 0 <= i < j < |keys| ==> LastTouch(capacity, ops, keys[i]) > LastTouch(capacity, ops, keys[j])
  }

  lemma {:induction false} WithoutKeepsOrder(capacity: nat, ops: seq<Op>, r: seq<int>, k: int)
    requires capacity >= 1 && Ordered(capacity, ops, r)
    ensures Ordered(capacity, ops, Without(r, k))
  {
    hide LastTouch;
    if r != [] {
      var t := Without(r[1..], k);
      WithoutKeepsOrder(capacity, ops, r[1..], k);
      forall j | 0 <= j < |t| ensures LastTouch(capacity, ops, r[0]) > LastTouch(capacity, ops, t[j]) {
        assert t[j] in t && t[j] in r[1..];
        var i :| 0 <= i < |r[1..]| && r[1..][i] == t[j];
        assert r[i + 1] == t[j];
      }
      assert Ordered(capacity, ops, [r[0]] + t);
    }
  }

  /** Other keys keep their rank when k is touched, and k comes first. */
  lemma {:induction false} TouchKeepsOrder(capacity: nat, ops: seq<Op>, k: int, t: seq<int>)
    requires capacity >= 1 && ops != [] && TouchesLast(capacity, ops, k) && k !in t
    requires Ordered(capacity, ops[..|ops| - 1], t)
    ensures Ordered(capacity, ops, [k] + t)
  {
    var prefix := ops[..|ops| - 1];
    forall i | 0 <= i < |t| ensures LastTouch(capacity, ops, t[i]) == LastTouch(capacity, prefix, t[i]) {
      assert t[i] in t;
    }
  }

  /** The list holds exactly the touched keys, strictly ordered by last touch. */
  lemma {:induction false} RecencyOrdered(capacity: nat, ops: seq<Op>)
    requires capacity >= 1
    ensures forall k :: k in Recency(capacity, ops) <==> LastTouch(capacity, ops, k) >= 0
    ensures Distinct(Recency(capacity, ops))
    ensures Ordered(capacity, ops, Recency(capacity, ops))
  {
    if ops != [] {
      var prefix, k := ops[..|ops| - 1], ops[|ops| - 1].key;
      var r := Recency(capacity, prefix);
      RecencyOrdered(capacity, prefix);
      if TouchesLast(capacity, ops, k) {
        WithoutKeepsOrder(capacity, prefix, r, k);
        TouchKeepsOrder(capacity, ops, k, Without(r, k));
      } else {
        assert forall x :: LastTouch(capacity, ops, x) == LastTouch(capacity, prefix, x);
      }
    }
  }

  function First(s: seq<int>, m: nat): seq<int> {
    if |s| <= m then s else s[..m]
  }

  lemma {:induction false} TouchFirst(r: seq<int>, capacity: nat, k: int)
    requires capacity >= 1 && Distinct(r)
    ensures First(TouchKey(r, k), capacity) == PutKeys(First(r, capacity), capacity, k)
  {
    var m := |First(r, capacity)|;
    assert First(r, capacity) == r[..m] && r[..|r|] == r;
    WithoutPrefix(r, k, m);
    if k !in r[..m] && m == capacity {
      WithoutPrefix(r, k, m - 1);
      assert r[..m - 1] == r[..m][..m - 1];
      assert First(TouchKey(r, k), capacity) == [k] + Without(r, k)[..m - 1];
    }
  }

  /** The cache is the unbounded recency list cut off at the capacity. */
  lemma {:induction false} CacheIsFirstOfRecency(capacity: nat, ops: seq<Op>)
    requires capacity >= 1
    ensures Keys(Run(capacity, ops)) == First(Recency(capacity, ops), capacity)
  {
    if ops != [] {
      var prefix, op := ops[..|ops| - 1], ops[|ops| - 1];
      CacheIsFirstOfRecency(capacity, prefix);
      RecencyOrdered(capacity, prefix);
      ApplyOnKeys(Run(capacity, prefix), capacity, op);
      TouchFirst(Recency(capacity, prefix), capacity, op.key);
    }
  }

  /**
   The cached keys are strictly ordered by their last touch, and a touched key that is not cached (evicted) was last
   touched before every cached key, when the cache is full; while it is not full, every touched key is cached.
   */
  lemma {:induction false} CachedAreMostRecent(capacity: nat, ops: seq<Op>)
    requires capacity >= 1
    ensures var keys := Keys(Run(capacity, ops));
            && Ordered(capacity, ops, keys)
            && (forall k :: k in keys ==> LastTouch(capacity, ops, k) >= 0)
            && (forall k, gone :: k in keys && gone !in keys ==>
                  LastTouch(capacity, ops, gone) < LastTouch(capacity, ops, k))
            && (|keys| < capacity ==> forall k :: k in keys <==> LastTouch(capacity, ops, k) >= 0)
  {
    CacheIsFirstOfRecency(capacity, ops);
    RecencyOrdered(capacity, ops);
    PrefixIsMostRecent(capacity, ops, Recency(capacity, ops), |Keys(Run(capacity, ops))|);
  }

  lemma {:induction false} PrefixIsMostRecent(capacity: nat, ops: seq<Op>, r: seq<int>, m: nat)
    requires capacity >= 1 && m <= |r| && Ordered(capacity, ops, r)
    requires forall k :: k in r <==> LastTouch(capacity, ops, k) >= 0
    ensures Ordered(capacity, ops, r[..m]) && forall k :: k in r[..m] ==> k in r
    ensures forall k, gone :: k in r[..m] && gone !in r[..m] ==>
              LastTouch(capacity, ops, gone) < LastTouch(capacity, ops, k)
  {
    assert forall k :: k in r[..m] ==> k in r;
    assert forall x :: 0 <= x < m ==> r[x] in r[..m];
    forall k, gone | k in r[..m] && gone !in r[..m]
      ensures LastTouch(capacity, ops, gone) < LastTouch(capacity, ops, k)
    {
      var i :| 0 <= i < m && r[i] == k;
      if gone in r {
        var j :| 0 <= j < |r| && r[j] == gone;
      }
    }
  }

  // ---------- Values ----------

  lemma {:induction false} PutOnPresentKeyKeepsTheOldValue()
    ensures GetValue(Run(2, [Put(1, 10), Put(1, 20)]), 1) == 10
  {
    var ops := [Put(1, 10), Put(1, 20)];
    assert ops[..1] == [Put(1, 10)] && ops[..1][..0] == [];
    assert Run(2, ops[..1]) == [Item(1, 10)];
  }

  /** What the code does promise: a hit returns the value of the put that last brought the key in. */
  function Inserted(capacity: nat, ops: seq<Op>, k: int): int
    requires capacity >= 1
  {
    if ops == [] then -1
    else
      var prefix, op := ops[..|ops| - 1], ops[|ops| - 1];
      if op.Put? && op.key == k && !Has(Run(capacity, prefix), k) then op.val
      else Inserted(capacity, prefix, k)
  }

  lemma {:induction false} HitReturnsInsertedValue(capacity: nat, ops: seq<Op>, k: int)
    requires capacity >= 1 && Has(Run(capacity, ops), k)
    ensures GetValue(Run(capacity, ops), k) == Inserted(capacity, ops, k)
  {
    var prefix, op := ops[..|ops| - 1], ops[|ops| - 1];
    RunBounded(capacity, prefix);
    ValueKept(Run(capacity, prefix), capacity, op, k);
    if Has(Run(capacity, prefix), k) { HitReturnsInsertedValue(capacity, prefix, k); }
  }

  lemma {:induction false} ValueIsMember(items: seq<Item>, k: int, v: int)
    requires Distinct(Keys(items)) && Item(k, v) in items
    ensures Has(items, k) && GetValue(items, k) == v
  {
    var i :| 0 <= i < |items| && items[i] == Item(k, v);
    assert Keys(items)[i] == k;
    HasKey(items, k);
    assert Keys(items)[Find(items, k)] == k;
  }

  lemma {:induction false} ApplyAddsNoOtherItem(items: seq<Item>, capacity: nat, op: Op, item: Item)
    requires capacity >= 1 && item in Apply(items, capacity, op)
    ensures item in items || (op == Put(item.key, item.val) && !Has(items, item.key))
  {
    if Has(items, op.key) { ToFrontMembers(items, Find(items, op.key)); }
  }

  lemma {:induction false} ValueKept(items: seq<Item>, capacity: nat, op: Op, k: int)
    requires capacity >= 1 && Has(Apply(items, capacity, op), k)
    requires Distinct(Keys(items))
    ensures if Has(items, k) then GetValue(Apply(items, capacity, op), k) == GetValue(items, k)
            else op == Put(k, GetValue(Apply(items, capacity, op), k))
  {
    var after := Apply(items, capacity, op);
    var item := after[Find(after, k)];
    ApplyAddsNoOtherItem(items, capacity, op, item);
    if item in items { ValueIsMember(items, k, item.val); }
  }

  /**
   The comment above the class promises that a put on a present key changes the value. The code only moves the node:
   after any trace, a get right after put(k, v) returns v exactly when k was absent, or the put that last brought k in
   had the value v.
   */
  lemma {:induction false} GetAfterPut(capacity: nat, ops: seq<Op>, k: int, v: int)
    requires capacity >= 1
    ensures GetValue(Run(capacity, ops + [Put(k, v)]), k) == v
        <==> (Has(Run(capacity, ops), k) ==> Inserted(capacity, ops, k) == v)
  {
    var longer := ops + [Put(k, v)];
    assert longer[..|longer| - 1] == ops;
    RunBounded(capacity, ops);
    ValueKept(Run(capacity, ops), capacity, Put(k, v), k);
    if Has(Run(capacity, ops), k) { HitReturnsInsertedValue(capacity, ops, k); }
  }

  // ---------- What a get answers ----------

  /** A hit answers with the value of the put that last brought the key in, and a miss with -1. */
  lemma {:induction false} GetAnswers(capacity: nat, ops: seq<Op>, k: int)
    requires capacity >= 1
    ensures GetValue(Run(capacity, ops), k) ==
            if k in Keys(Run(capacity, ops)) then Inserted(capacity, ops, k) else -1
  {
    hide Run, Keys, Inserted;
    HasKey(Run(capacity, ops), k);
    if Has(Run(capacity, ops), k) { HitReturnsInsertedValue(capacity, ops, k); }
  }

  /** A get of a key that was never touched answers -1, and so does a get of one that `capacity` others were touched after. */
  lemma {:induction false} GetOfOldKeyMisses(capacity: nat, ops: seq<Op>, k: int, others: seq<int>)
    requires capacity >= 1
    requires LastTouch(capacity, ops, k) < 0 ||
             (|others| == capacity && Distinct(others) &&
              forall i :: 0 <= i < |others| ==> LastTouch(capacity, ops, others[i]) > LastTouch(capacity, ops, k))
    ensures GetValue(Run(capacity, ops), k) == -1
  {
    var keys := Keys(Run(capacity, ops));
    CachedAreMostRecent(capacity, ops);
    GetAnswers(capacity, ops, k);
    if k in keys && LastTouch(capacity, ops, k) >= 0 {
      RunBounded(capacity, ops);
      forall x | x in others ensures x in keys && x != k {
        var i :| 0 <= i < |others| && others[i] == x;
      }
      TooManyKeys(others, keys, k);
    }
  }

  lemma {:induction false} DistinctCount(s: seq<int>)
    requires Distinct(s)
    ensures |set x | x in s| == |s|
  {
    if s != [] {
      var rest := s[..|s| - 1];
      assert s == rest + [s[|s| - 1]];
      DistinctCount(rest);
      assert (set x | x in s) == (set x | x in rest) + {s[|s| - 1]};
    } else {
      assert (set x | x in s) == {};
    }
  }

  lemma {:induction false} FewerElements(a: set<int>, b: set<int>)
    requires a <= b
    ensures |a| <= |b|
  {
    assert b == a + (b - a);
  }

  /** Other keys in the list leave a place for k only in a longer one. */
  lemma {:induction false} TooManyKeys(others: seq<int>, keys: seq<int>, k: int)
    requires Distinct(others) && Distinct(keys) && k in keys
    requires forall x :: x in others ==> x in keys && x != k
    ensures |others| < |keys|
  {
    var a, b := set x | x in others, set x | x in keys;
    DistinctCount(others);
    DistinctCount(keys);
    FewerElements(a + {k}, b);
  }
}
