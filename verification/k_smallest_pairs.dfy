/**
 The k pairs with the smallest sums of two sorted lists. The priority queue holds at most one pair of each row; which
 of several pairs with the least sum it gives first is not fixed.
 */
module KSmallestPairs {

  datatype Pair = Pair(row: nat, col: nat)

  ghost predicate Sorted(s: seq<int>) {
    forall i, j :: 0 <= i < j < |s| ==> s[i] <= s[j]
  }

  predicate InRange(nums1: seq<int>, nums2: seq<int>, p: Pair) {
    p.row < |nums1| && p.col < |nums2|
  }

  function PairSum(nums1: seq<int>, nums2: seq<int>, p: Pair): int
    requires InRange(nums1, nums2, p)
  {
    nums1[p.row] + nums2[p.col]
  }

  ghost predicate Distinct<T>(s: seq<T>) {
    forall i, j :: 0 <= i < j < |s| ==> s[i] != s[j]
  }

  ghost predicate AllInRange(nums1: seq<int>, nums2: seq<int>, picks: seq<Pair>) {
    forall i :: 0 <= i < |picks| ==> InRange(nums1, nums2, picks[i])
  }

  ghost predicate Ordered(nums1: seq<int>, nums2: seq<int>, picks: seq<Pair>)
    requires AllInRange(nums1, nums2, picks)
  {
    forall i, j :: 0 <= i < j < |picks| ==> PairSum(nums1, nums2, picks[i]) <= PairSum(nums1, nums2, picks[j])
  }

  ghost predicate NoneSmaller(nums1: seq<int>, nums2: seq<int>, picks: seq<Pair>, p: Pair)
    requires AllInRange(nums1, nums2, picks) && InRange(nums1, nums2, p)
  {
    forall i :: 0 <= i < |picks| ==> PairSum(nums1, nums2, picks[i]) <= PairSum(nums1, nums2, p)
  }

  /** Distinct pairs in ascending order of their sums, such that no pair left out has a smaller sum than one of them. */
  ghost predicate Smallest(nums1: seq<int>, nums2: seq<int>, picks: seq<Pair>) {
    && AllInRange(nums1, nums2, picks)
    && Distinct(picks)
    && Ordered(nums1, nums2, picks)
    && forall p :: InRange(nums1, nums2, p) && p !in picks ==> NoneSmaller(nums1, nums2, picks, p)
  }

  function Min(a: int, b: int): (m: int)
    ensures m <= a && m <= b && (m == a || m == b)
  {
    if b < a then b else a
  }

  // ---------- The choice among equal sums does not show ----------

  ghost function Elements<T>(s: seq<T>): set<T> {
    set x | x in s
  }

  lemma {:induction false} ElementsSnoc<T>(s: seq<T>)
    requires Distinct(s) && s != []
    ensures var last := |s| - 1;
            Elements(s) == Elements(s[..last]) + {s[last]} && s[last] !in Elements(s[..last]) && Distinct(s[..last])
  {
    assert s == s[..|s| - 1] + [s[|s| - 1]];
  }

  lemma {:induction false} DistinctCount<T>(s: seq<T>)
    requires Distinct(s)
    ensures |Elements(s)| == |s|
  {
    if s != [] {
      ElementsSnoc(s);
      hide Elements, Distinct;
      DistinctCount(s[..|s| - 1]);
    } else {
      assert Elements(s) == {};
    }
  }

  /** A list of smallest pairs has no greater sum at any place than another of the same length. */
  lemma {:induction false} NoGreaterSum(nums1: seq<int>, nums2: seq<int>, a: seq<Pair>, b: seq<Pair>, t: nat)
    requires Smallest(nums1, nums2, a) && Smallest(nums1, nums2, b) && t < |a| && t < |b|
    ensures PairSum(nums1, nums2, b[t]) <= PairSum(nums1, nums2, a[t])
  {
    if PairSum(nums1, nums2, a[t]) < PairSum(nums1, nums2, b[t]) {
      forall i | 0 <= i <= t ensures a[i] in b[..t] {
        assert PairSum(nums1, nums2, a[i]) < PairSum(nums1, nums2, b[t]);
        assert !NoneSmaller(nums1, nums2, b, a[i]);
        var j :| 0 <= j < |b| && b[j] == a[i];
      }
      assert Elements(a[..t + 1]) <= Elements(b[..t]);
      Subset(Elements(a[..t + 1]), Elements(b[..t]));
      DistinctCount(a[..t + 1]);
      DistinctCount(b[..t]);
      assert false;
    }
  }

  lemma {:induction false} Subset<T>(a: set<T>, b: set<T>)
    requires a <= b
    ensures |a| <= |b|
  {
    assert b == a + (b - a);
  }

  /** The sums are those of the k smallest pairs, whatever the queue does with equal sums. */
  lemma {:induction false} SmallestSumsAreUnique(nums1: seq<int>, nums2: seq<int>, a: seq<Pair>, b: seq<Pair>, t: nat)
    requires Smallest(nums1, nums2, a) && Smallest(nums1, nums2, b) && t < |a| && t < |b|
    ensures PairSum(nums1, nums2, a[t]) == PairSum(nums1, nums2, b[t])
  {
    NoGreaterSum(nums1, nums2, a, b, t);
    NoGreaterSum(nums1, nums2, b, a, t);
  }

  // ---------- How much of each row is taken ----------

  function Total(taken: seq<nat>): nat {
    if taken == [] then 0 else taken[0] + Total(taken[1..])
  }

  lemma {:induction false} TotalOfUpdate(taken: seq<nat>, i: nat)
    requires i < |taken|
    ensures Total(taken[i := taken[i] + 1]) == Total(taken) + 1
  {
    var more := taken[i := taken[i] + 1];
    if i == 0 {
      assert more[1..] == taken[1..];
    } else {
      assert more[1..] == taken[1..][i - 1 := taken[1..][i - 1] + 1];
      TotalOfUpdate(taken[1..], i - 1);
    }
  }

  lemma {:induction false} TotalOfMore(taken: seq<nat>)
    requires forall i :: 0 <= i < |taken| ==> taken[i] == 0
    ensures Total(taken) == 0
  {
    if taken != [] { TotalOfMore(taken[1..]); }
  }

  lemma {:induction false} TotalAtMost(taken: seq<nat>, m: nat)
    requires forall i :: 0 <= i < |taken| ==> taken[i] <= m
    ensures Total(taken) <= |taken| * m
  {
    if taken != [] { TotalAtMost(taken[1..], m); }
  }

  lemma {:induction false} TotalOfFull(taken: seq<nat>, m: nat)
    requires forall i :: 0 <= i < |taken| ==> taken[i] == m
    ensures Total(taken) == |taken| * m
  {
    if taken != [] { TotalOfFull(taken[1..], m); }
  }

  /** The pigeonhole: as many pairs as rows and none of the rows untouched means one pair of each row. */
  lemma {:induction false} OneOfEach(taken: seq<nat>)
    requires forall i :: 0 <= i < |taken| ==> taken[i] >= 1
    ensures Total(taken) >= |taken|
    ensures Total(taken) == |taken| ==> forall i :: 0 <= i < |taken| ==> taken[i] == 1
  {
    if taken != [] { OneOfEach(taken[1..]); }
  }

  // ---------- The queue ----------

  /** The queue holds the first pair not taken of each row that has one. */
  ghost predicate Frontier(heap: set<Pair>, taken: seq<nat>, m: nat) {
    forall p :: p in heap <==> p.row < |taken| && p.col == taken[p.row] < m
  }

  /** The taken pairs are the first of each row. */
  ghost predicate TakenAre(picks: seq<Pair>, taken: seq<nat>) {
    forall p :: p in picks <==> p.row < |taken| && p.col < taken[p.row]
  }

  ghost predicate NoneSmallerThan(nums1: seq<int>, nums2: seq<int>, picks: seq<Pair>, heap: set<Pair>)
    requires AllInRange(nums1, nums2, picks)
  {
    forall p :: p in heap ==> InRange(nums1, nums2, p) && NoneSmaller(nums1, nums2, picks, p)
  }

  lemma {:induction false} SomeLeast(nums1: seq<int>, nums2: seq<int>, heap: set<Pair>)
    requires heap != {} && forall p :: p in heap ==> InRange(nums1, nums2, p)
    ensures exists p :: p in heap && IsLeast(nums1, nums2, heap, p)
    decreases |heap|
  {
    var p :| p in heap;
    if heap != {p} {
      SomeLeast(nums1, nums2, heap - {p});
      var q :| q in heap - {p} && IsLeast(nums1, nums2, heap - {p}, q);
      assert if PairSum(nums1, nums2, p) <= PairSum(nums1, nums2, q) then IsLeast(nums1, nums2, heap, p)
        else IsLeast(nums1, nums2, heap, q);
    } else {
      assert IsLeast(nums1, nums2, heap, p);
    }
  }

  predicate IsLeast(nums1: seq<int>, nums2: seq<int>, heap: set<Pair>, p: Pair)
    requires InRange(nums1, nums2, p) && forall q :: q in heap ==> InRange(nums1, nums2, q)
  {
    forall q :: q in heap ==> PairSum(nums1, nums2, p) <= PairSum(nums1, nums2, q)
  }

  /** All that holds between two turns of the loop. */
  ghost predicate Inv(nums1: seq<int>, nums2: seq<int>, heap: set<Pair>, taken: seq<nat>, picks: seq<Pair>) {
    && |taken| <= |nums1|
    && (forall i :: 0 <= i < |taken| ==> taken[i] <= |nums2|)
    && Frontier(heap, taken, |nums2|) && TakenAre(picks, taken) && Total(taken) == |picks|
    && AllInRange(nums1, nums2, picks) && Distinct(picks) && Ordered(nums1, nums2, picks)
    && NoneSmallerThan(nums1, nums2, picks, heap)
  }

  /** The queue without p, and with the next pair of its row if there is one. */
  function Popped(heap: set<Pair>, p: Pair, m: nat): set<Pair> {
    if p.col + 1 < m then heap - {p} + {Pair(p.row, p.col + 1)} else heap - {p}
  }

  lemma {:induction false} PopKeepsFrontier(heap: set<Pair>, taken: seq<nat>, m: nat, p: Pair)
    requires Frontier(heap, taken, m) && p in heap
    ensures Pair(p.row, p.col + 1) !in heap && Frontier(Popped(heap, p, m), taken[p.row := p.col + 1], m)
  {
  }

  lemma {:induction false} PopKeepsTaken(picks: seq<Pair>, taken: seq<nat>, p: Pair)
    requires TakenAre(picks, taken) && p.row < |taken| && p.col == taken[p.row]
    ensures p !in picks && TakenAre(picks + [p], taken[p.row := p.col + 1])
  {
  }

  lemma {:induction false} PopKeepsOrder(nums1: seq<int>, nums2: seq<int>, picks: seq<Pair>, p: Pair)
    requires AllInRange(nums1, nums2, picks) && InRange(nums1, nums2, p) && NoneSmaller(nums1, nums2, picks, p)
    requires Distinct(picks) && Ordered(nums1, nums2, picks) && p !in picks
    ensures AllInRange(nums1, nums2, picks + [p]) && Distinct(picks + [p]) && Ordered(nums1, nums2, picks + [p])
  {
  }

  lemma {:induction false} PopKeepsLeast(nums1: seq<int>, nums2: seq<int>, picks: seq<Pair>, heap: set<Pair>, p: Pair)
    requires Sorted(nums2) && AllInRange(nums1, nums2, picks + [p]) && AllInRange(nums1, nums2, picks)
    requires NoneSmallerThan(nums1, nums2, picks, heap) && p in heap && IsLeast(nums1, nums2, heap, p)
    ensures NoneSmallerThan(nums1, nums2, picks + [p], Popped(heap, p, |nums2|))
  {
  }

  /** Taking a least pair of the queue and putting in the next of its row keeps the invariant. */
  lemma {:induction false} PopKeepsInv(nums1: seq<int>, nums2: seq<int>, heap: set<Pair>, taken: seq<nat>,
                                       picks: seq<Pair>, p: Pair)
    requires Sorted(nums2) && Inv(nums1, nums2, heap, taken, picks) && p in heap && IsLeast(nums1, nums2, heap, p)
    ensures Pair(p.row, p.col + 1) !in heap
    ensures Inv(nums1, nums2, Popped(heap, p, |nums2|), taken[p.row := p.col + 1], picks + [p])
  {
    assert p.row < |taken| && p.col == taken[p.row] < |nums2| && NoneSmaller(nums1, nums2, picks, p);
    hide Frontier, TakenAre, Distinct, AllInRange, Ordered, NoneSmaller, NoneSmallerThan, Sorted, Popped, IsLeast;
    TotalOfUpdate(taken, p.row);
    PopKeepsFrontier(heap, taken, |nums2|, p);
    PopKeepsTaken(picks, taken, p);
    PopKeepsOrder(nums1, nums2, picks, p);
    PopKeepsLeast(nums1, nums2, picks, heap, p);
  }

  /** A pair not taken is no smaller, in the rows that were in the queue. */
  lemma {:induction false} RestOfRow(nums1: seq<int>, nums2: seq<int>, heap: set<Pair>, taken: seq<nat>,
                                     picks: seq<Pair>, p: Pair)
    requires Sorted(nums2) && Inv(nums1, nums2, heap, taken, picks)
    requires InRange(nums1, nums2, p) && p.row < |taken| && p !in picks
    ensures NoneSmaller(nums1, nums2, picks, p)
  {
    assert Pair(p.row, taken[p.row]) in heap;
  }

  /** Nor in the rows that never were: then as many rows were in the queue as pairs were wanted. */
  lemma {:induction false} RowsNeverSeen(nums1: seq<int>, nums2: seq<int>, heap: set<Pair>, taken: seq<nat>,
                                         picks: seq<Pair>, p: Pair)
    requires Sorted(nums1) && Sorted(nums2) && Inv(nums1, nums2, heap, taken, picks)
    requires |picks| <= |taken| && InRange(nums1, nums2, p) && |taken| <= p.row
    ensures NoneSmaller(nums1, nums2, picks, p)
  {
    if i :| 0 <= i < |taken| && taken[i] == 0 {
      assert Pair(i, 0) in heap;
    } else {
      OneOfEach(taken);
      forall i | 0 <= i < |picks| ensures PairSum(nums1, nums2, picks[i]) <= PairSum(nums1, nums2, p) {
        assert picks[i] in picks;
      }
    }
  }

  /** min(k, n) rows were put into the queue, and the loop ended after k pairs or with an empty queue. */
  lemma {:induction false} LoopEnds(nums1: seq<int>, nums2: seq<int>, heap: set<Pair>, taken: seq<nat>,
                                    picks: seq<Pair>, k: nat)
    requires (nums2 != [] || nums1 == []) && Sorted(nums1) && Sorted(nums2) && Inv(nums1, nums2, heap, taken, picks)
    requires |taken| == Min(k, |nums1|) && |picks| <= k && (|picks| == k || heap == {})
    ensures |picks| == Min(k, |nums1| * |nums2|) && Smallest(nums1, nums2, picks)
  {
    TotalAtMost(taken, |nums2|);
    if heap == {} {
      forall i | 0 <= i < |taken| ensures taken[i] == |nums2| {
        assert Pair(i, taken[i]) !in heap;
      }
      TotalOfFull(taken, |nums2|);
    }
    Counts(|nums1|, |nums2|, k, |taken|, |picks|);
    forall p | InRange(nums1, nums2, p) && p !in picks ensures NoneSmaller(nums1, nums2, picks, p) {
      if p.row < |taken| {
        RestOfRow(nums1, nums2, heap, taken, picks, p);
      } else {
        RowsNeverSeen(nums1, nums2, heap, taken, picks, p);
      }
    }
  }

  lemma {:induction false} Counts(n: nat, m: nat, k: nat, rows: nat, picked: nat)
    requires (m >= 1 || n == 0) && rows == Min(k, n) && picked <= k && picked <= rows * m && (picked == k || picked == rows * m)
    ensures picked == Min(k, n * m)
  {
    assert rows * m <= n * m;
    assert rows <= rows * m;
  }

  ghost predicate Values(nums1: seq<int>, nums2: seq<int>, picks: seq<Pair>, res: seq<seq<int>>)
    requires AllInRange(nums1, nums2, picks)
  {
    |res| == |picks| && forall i :: 0 <= i < |picks| ==> res[i] == [nums1[picks[i].row], nums2[picks[i].col]]
  }

  /** The first pair of each of the first min(k, n) rows. */
  method SeedRows(n: nat, k: int) returns (heap: set<Pair>)
    ensures forall p :: p in heap <==> p.row < Min(k, n) && p.col == 0
  {
    heap := {};
    var i := 0;
    while i < Min(k, n)
      invariant 0 <= i && (k > 0 ==> i <= Min(k, n)) && (k <= 0 ==> i == 0)
      invariant forall p :: p in heap <==> p.row < i && p.col == 0
    {
      heap := heap + {Pair(i, 0)};
      i := i + 1;
    }
  }

  function NoneTaken(rows: nat): (taken: seq<nat>)
    ensures |taken| == rows && forall i :: 0 <= i < rows ==> taken[i] == 0
  {
    seq(rows, _ => 0)
  }

  lemma {:induction false} SeedsInv(nums1: seq<int>, nums2: seq<int>, heap: set<Pair>, rows: nat)
    requires rows <= |nums1| && (rows > 0 ==> nums2 != []) && forall p :: p in heap <==> p.row < rows && p.col == 0
    ensures Inv(nums1, nums2, heap, NoneTaken(rows), [])
  {
    TotalOfMore(NoneTaken(rows));
  }

  lemma {:induction false} HeapInRange(nums1: seq<int>, nums2: seq<int>, heap: set<Pair>, taken: seq<nat>,
                                       picks: seq<Pair>)
    requires Inv(nums1, nums2, heap, taken, picks)
    ensures AllInRange(nums1, nums2, picks) && forall p :: p in heap ==> InRange(nums1, nums2, p) && p.row < |taken|
  {
  }

  lemma {:induction false} ValuesSnoc(nums1: seq<int>, nums2: seq<int>, picks: seq<Pair>, res: seq<seq<int>>, p: Pair)
    requires AllInRange(nums1, nums2, picks) && Values(nums1, nums2, picks, res) && InRange(nums1, nums2, p)
    ensures AllInRange(nums1, nums2, picks + [p])
    ensures Values(nums1, nums2, picks + [p], res + [[nums1[p.row], nums2[p.col]]])
  {
  }

  lemma {:induction false} NothingIsSmallest(nums1: seq<int>, nums2: seq<int>, k: int)
    ensures Smallest(nums1, nums2, [])
  {
  }

  /** `picks` are the indexes of the pairs in the result. */
  method KSmallestPairs(nums1: seq<int>, nums2: seq<int>, k: int) returns (res: seq<seq<int>>, ghost picks: seq<Pair>)
    requires Sorted(nums1) && Sorted(nums2) && (nums2 != [] || nums1 == [] || k <= 0)
    ensures |res| == if k <= 0 then 0 else Min(k, |nums1| * |nums2|)
    ensures Smallest(nums1, nums2, picks) && Values(nums1, nums2, picks, res)
  {
    hide Sorted, Frontier, Inv, Smallest, IsLeast, InRange;
    res, picks := [], [];
    NothingIsSmallest(nums1, nums2, k);
    var n, m := |nums1|, |nums2|;
    var heap := SeedRows(n, k);
    ghost var rows: nat := if k <= 0 then 0 else Min(k, n);
    ghost var taken: seq<nat> := NoneTaken(rows);
    SeedsInv(nums1, nums2, heap, rows);
    var left := k;
    while left > 0 && heap != {}
      invariant Inv(nums1, nums2, heap, taken, picks) && AllInRange(nums1, nums2, picks)
      invariant Values(nums1, nums2, picks, res)
      invariant |picks| == if k <= 0 then 0 else k - left
      invariant |taken| == rows && (k > 0 ==> left >= 0) && (k <= 0 ==> left == k)
    {
      left := left - 1;
      HeapInRange(nums1, nums2, heap, taken, picks);
      SomeLeast(nums1, nums2, heap);
      var item :| item in heap && IsLeast(nums1, nums2, heap, item);
      PopKeepsInv(nums1, nums2, heap, taken, picks, item);
      ItemInBounds(nums1, nums2, item);
      ValuesSnoc(nums1, nums2, picks, res, item);
      heap := heap - {item};
      res := res + [[nums1[item.row], nums2[item.col]]];
      if item.col + 1 < m {
        heap := heap + {Pair(item.row, item.col + 1)};
      }
      picks, taken := picks + [item], taken[item.row := item.col + 1];
    }
    if k > 0 { LoopEnds(nums1, nums2, heap, taken, picks, k); }
  }

  lemma {:induction false} ItemInBounds(nums1: seq<int>, nums2: seq<int>, p: Pair)
    requires InRange(nums1, nums2, p)
    ensures p.row < |nums1| && p.col < |nums2|
  {
  }
}
