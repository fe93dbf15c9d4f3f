/**
 Heapsort. The functions say what the array becomes; the methods do it in place. HeapSort indexes from 0 whatever its
 start is, so it sorts the range it is given only when that range starts at 0 or has fewer than two places.
 */
module HeapSorting {
  import opened Sorting

  function Parent(i: int): int
    requires i >= 1
  {
    (i - 1) / 2
  }

  /** The greater child of a node that has one, the first child if they are equal. */
  function Son(s: seq<int>, head: nat, end: int): (son: nat)
    requires 2 * head + 1 <= end < |s|
    ensures 1 <= son <= end && Parent(son) == head
    ensures forall i :: 1 <= i <= end && Parent(i) == head ==> s[i] <= s[son]
  {
    if 2 * head + 2 <= end && s[2 * head + 1] < s[2 * head + 2] then 2 * head + 2 else 2 * head + 1
  }

  /** What Heap makes of the array. The value sinks past equal sons too. */
  function Sift(s: seq<int>, head: nat, end: int): (r: seq<int>)
    requires end < |s|
    ensures |r| == |s|
    decreases end - head
  {
    if end < 2 * head + 1 then s
    else
      var son := Son(s, head, end);
      if s[son] < s[head] then s else Sift(Swap(s, head, son), son, end)
  }

  // ---------- Sifting down restores the heap ----------

  /** No node of the set has a child, up to end, that is greater. */
  ghost predicate HeapOn(s: seq<int>, nodes: iset<int>, end: int)
    requires end < |s|
  {
    forall i :: 1 <= i <= end && Parent(i) in nodes ==> s[i] <= s[Parent(i)]
  }

  /** The set has the children of its nodes. */
  ghost predicate ChildClosed(nodes: iset<int>, end: int) {
    forall i :: 1 <= i <= end && Parent(i) in nodes ==> i in nodes
  }

  /** The children of head are no greater than its parent, when that is one of the nodes. */
  ghost predicate ParentCovers(s: seq<int>, nodes: iset<int>, head: nat, end: int)
    requires head <= end < |s|
  {
    head >= 1 && Parent(head) in nodes ==> forall i :: 1 <= i <= end && Parent(i) == head ==> s[i] <= s[Parent(head)]
  }

  lemma {:induction false} SwapHeap(s: seq<int>, nodes: iset<int>, head: nat, end: int)
    requires 2 * head + 1 <= end < |s| && head in nodes && ChildClosed(nodes, end)
    requires HeapOn(s, nodes - iset{head}, end) && ParentCovers(s, nodes, head, end)
    requires s[head] <= s[Son(s, head, end)]
    ensures var son := Son(s, head, end);
            var t := Swap(s, head, son);
            son in nodes && HeapOn(t, nodes - iset{son}, end) && ParentCovers(t, nodes, son, end)
  {
    var son := Son(s, head, end);
    var t := Swap(s, head, son);
    forall i | 1 <= i <= end && Parent(i) in nodes - iset{son} ensures t[i] <= t[Parent(i)] {
      if i != head && Parent(i) != head { assert s[i] <= s[Parent(i)]; }
    }
  }

  /** Only head may be less than its children; sifting it down leaves no such node. */
  lemma {:induction false} SiftRestores(s: seq<int>, nodes: iset<int>, head: nat, end: int)
    requires head <= end < |s| && head in nodes && ChildClosed(nodes, end)
    requires HeapOn(s, nodes - iset{head}, end) && ParentCovers(s, nodes, head, end)
    ensures HeapOn(Sift(s, head, end), nodes, end)
    decreases end - head
  {
    if 2 * head + 1 <= end {
      var son := Son(s, head, end);
      if s[son] >= s[head] {
        SwapHeap(s, nodes, head, end);
        SiftRestores(Swap(s, head, son), nodes, son, end);
      }
    }
  }

  /** A node of the tree below head, or head itself. */
  predicate Below(head: int, i: int)
    decreases i
  {
    i == head || (i > head && i >= 1 && Below(head, Parent(i)))
  }

  ghost function Subtree(head: int): iset<int> {
    iset i | Below(head, i)
  }

  /** Sifting permutes the subtree and touches nothing else. */
  lemma {:induction false} SiftPermutes(s: seq<int>, head: nat, end: int, root: nat)
    requires end < |s| && Below(root, head)
    ensures PermutedOn(s, Sift(s, head, end), root, end)
    ensures forall i :: 0 <= i < |s| && !Below(root, i) ==> Sift(s, head, end)[i] == s[i]
    decreases end - head
  {
    if 2 * head + 1 <= end {
      var son := Son(s, head, end);
      BelowIsLater(root, head);
      SwapPermutes(s, head, son, root, end);
      if s[son] >= s[head] { SiftPermutes(Swap(s, head, son), son, end, root); }
    }
  }

  lemma {:induction false} BelowIsLater(head: nat, i: int)
    requires Below(head, i)
    ensures i >= head
  {
  }

  /** When both subtrees below head are heaps, sifting head down makes one heap of them, of the same values. */
  lemma {:induction false} HeapRestored(s: seq<int>, head: nat, end: int)
    requires head <= end < |s| && HeapOn(s, Subtree(2 * head + 1), end) && HeapOn(s, Subtree(2 * head + 2), end)
    ensures HeapOn(Sift(s, head, end), Subtree(head), end)
    ensures PermutedOn(s, Sift(s, head, end), head, end)
    ensures forall i :: 0 <= i < |s| && !Below(head, i) ==> Sift(s, head, end)[i] == s[i]
  {
    forall i | Below(head, i) && i != head ensures Below(2 * head + 1, i) || Below(2 * head + 2, i) {
      BelowAChild(head, i);
    }
    SiftRestores(s, Subtree(head), head, end);
    SiftPermutes(s, head, end, head);
  }

  lemma {:induction false} BelowAChild(head: nat, i: int)
    requires Below(head, i) && i != head
    ensures Below(2 * head + 1, i) || Below(2 * head + 2, i)
    decreases i
  {
    if Parent(i) != head {
      BelowAChild(head, Parent(i));
      BelowIsLater(head, Parent(i));
    }
  }

  // ---------- The two loops ----------

  /** The first loop: sift down the nodes from i to 0. */
  function Build(s: seq<int>, i: int, end: int): (r: seq<int>)
    requires end < |s|
    ensures |r| == |s|
    decreases i
  {
    if i < 0 then s else Build(Sift(s, i, end), i - 1, end)
  }

  /** The second loop: from place i down to 0, put the root there and sift the new root down. */
  function Extract(s: seq<int>, i: int): (r: seq<int>)
    requires i < |s|
    ensures |r| == |s|
    decreases i
  {
    if i < 0 then s else Extract(Sift(Swap(s, 0, i), 0, i - 1), i - 1)
  }

  function HeapSorted(s: seq<int>, start: nat, end: int): (r: seq<int>)
    requires end < |s|
    ensures |r| == |s|
  {
    var len := end - start + 1;
    Extract(Build(s, len / 2 - 1, end), len - 1)
  }

  predicate AtLeast(lo: int, i: int) {
    lo <= i
  }

  ghost function From(lo: int): iset<int> {
    iset i | AtLeast(lo, i)
  }

  lemma {:induction false} BuildMakesHeap(s: seq<int>, i: int, end: int)
    requires -1 <= i <= end < |s| && HeapOn(s, From(i + 1), end)
    ensures HeapOn(Build(s, i, end), From(0), end) && PermutedOn(s, Build(s, i, end), 0, end)
    decreases i
  {
    if i >= 0 {
      assert From(i + 1) == From(i) - iset{i};
      SiftRestores(s, From(i), i, end);
      SiftPermutes(s, i, end, i);
      BuildMakesHeap(Sift(s, i, end), i - 1, end);
    }
  }

  lemma {:induction false} RootIsGreatest(s: seq<int>, end: int, i: int)
    requires 0 <= i <= end < |s| && HeapOn(s, From(0), end)
    ensures s[i] <= s[0]
    decreases i
  {
    if i > 0 { RootIsGreatest(s, end, Parent(i)); }
  }

  /** The places after i are sorted and none of them is less than a value up to i. */
  ghost predicate SortedAfter(s: seq<int>, i: int, last: int)
    requires -1 <= i <= last < |s|
  {
    && SortedOn(s, i + 1, last)
    && forall j, k :: 0 <= j <= i < k <= last ==> s[j] <= s[k]
  }

  lemma {:induction false} StaysSortedAfter(s: seq<int>, t: seq<int>, i: int, last: int)
    requires -1 <= i <= last < |s| && PermutedOn(s, t, 0, i) && SortedAfter(s, i, last)
    ensures SortedAfter(t, i, last)
  {
    forall j, k | 0 <= j <= i < k <= last ensures t[j] <= t[k] {
      CameFromRange(s, t, 0, i, j);
    }
  }

  /** Swapping the root, the greatest, to place i makes the sorted part one longer. */
  lemma {:induction false} SwapSortsOne(s: seq<int>, i: int, last: int)
    requires 0 <= i <= last < |s| && HeapOn(s, From(0), i) && SortedAfter(s, i, last)
    ensures SortedAfter(Swap(s, 0, i), i - 1, last)
    ensures HeapOn(Swap(s, 0, i), From(0) - iset{0}, i - 1)
  {
    forall j | 0 <= j <= i ensures s[j] <= s[0] { RootIsGreatest(s, i, j); }
  }

  lemma {:induction false} SiftRootRestores(s: seq<int>, end: int)
    requires -1 <= end < |s| && HeapOn(s, From(0) - iset{0}, end)
    ensures HeapOn(Sift(s, 0, end), From(0), end) && PermutedOn(s, Sift(s, 0, end), 0, end)
  {
    if end >= 0 {
      assert ChildClosed(From(0), end);
      SiftRestores(s, From(0), 0, end);
      SiftPermutes(s, 0, end, 0);
    }
  }

  lemma {:induction false} PermutedTwice(s: seq<int>, t: seq<int>, u: seq<int>, lo: int, mid: int, hi: int)
    requires PermutedOn(s, t, lo, hi) && PermutedOn(t, u, lo, mid) && mid <= hi
    ensures PermutedOn(s, u, lo, hi)
  {
  }

  /** One turn of the second loop moves one more value to where it belongs. */
  lemma {:induction false} TurnSorts(s: seq<int>, t: seq<int>, i: int, last: int)
    requires 0 <= i <= last < |s| && HeapOn(s, From(0), i) && SortedAfter(s, i, last)
    requires t == Sift(Swap(s, 0, i), 0, i - 1)
    ensures HeapOn(t, From(0), i - 1) && SortedAfter(t, i - 1, last) && PermutedOn(s, t, 0, last)
  {
    var u := Swap(s, 0, i);
    SwapSortsOne(s, i, last);
    SiftRootRestores(u, i - 1);
    StaysSortedAfter(u, t, i - 1, last);
    SwapPermutes(s, 0, i, 0, last);
    PermutedTwice(s, u, t, 0, i - 1, last);
  }

  lemma {:induction false} ExtractSorts(s: seq<int>, i: int, last: int)
    requires -1 <= i <= last < |s| && HeapOn(s, From(0), i) && SortedAfter(s, i, last)
    ensures SortsRange(s, Extract(s, i), 0, last)
    decreases i
  {
    if i >= 0 {
      var t := Sift(Swap(s, 0, i), 0, i - 1);
      TurnSorts(s, t, i, last);
      ExtractSorts(t, i - 1, last);
      PermutedTwice(s, t, Extract(t, i - 1), 0, last, last);
    }
  }

  /** From 0, heapsort sorts. */
  lemma {:induction false} SortsFromZero(s: seq<int>, end: int)
    requires -1 <= end < |s|
    ensures SortsRange(s, HeapSorted(s, 0, end), 0, end)
  {
    var mid := (end + 1) / 2 - 1;
    BuildMakesHeap(s, mid, end);
    ExtractSorts(Build(s, mid, end), end, end);
  }

  /** So it gives the array that quicksort gives. */
  lemma {:induction false} AgreesWithAnySort(s: seq<int>, sorted: seq<int>, end: int)
    requires -1 <= end < |s| && SortsRange(s, sorted, 0, end)
    ensures HeapSorted(s, 0, end) == sorted
  {
    SortsFromZero(s, end);
    SortsAgree(s, HeapSorted(s, 0, end), sorted, 0, end);
  }

  // ---------- From anywhere else it does not ----------

  /** One value 1 and otherwise 0. */
  function OneHot(n: nat, at: nat): (s: seq<int>)
    requires at < n
    ensures |s| == n && forall i :: 0 <= i < n ==> s[i] == if i == at then 1 else 0
  {
    seq(n, i => if i == at then 1 else 0)
  }

  lemma {:induction false} SiftKeepsOneHot(s: seq<int>, at: nat, head: nat, end: int)
    requires end < |s| && at < |s| && s == OneHot(|s|, at) && (end < at || at == 0)
    ensures Sift(s, head, end) == s
    decreases end - head
  {
    if 2 * head + 1 <= end {
      var son := Son(s, head, end);
      if s[son] >= s[head] {
        assert Swap(s, head, son) == s;
        SiftKeepsOneHot(s, at, son, end);
      }
    }
  }

  lemma {:induction false} BuildKeepsOneHot(s: seq<int>, i: int, end: int)
    requires end < |s| && |s| > 0 && s == OneHot(|s|, 0)
    ensures Build(s, i, end) == s
    decreases i
  {
    if i >= 0 {
      SiftKeepsOneHot(s, 0, i, end);
      BuildKeepsOneHot(s, i - 1, end);
    }
  }

  lemma {:induction false} ExtractKeepsOneHot(s: seq<int>, at: nat, i: int)
    requires i < at < |s| && s == OneHot(|s|, at)
    ensures Extract(s, i) == s
    decreases i
  {
    if i >= 0 {
      assert Swap(s, 0, i) == s;
      SiftKeepsOneHot(s, at, 0, i - 1);
      ExtractKeepsOneHot(s, at, i - 1);
    }
  }

  lemma {:induction false} SwapMovesOne(n: nat, at: nat)
    requires at < n
    ensures Swap(OneHot(n, 0), 0, at) == OneHot(n, at)
  {
  }

  /** A 1 at place 0, outside the range, is carried to place end - start. */
  lemma {:induction false} OneIsCarriedOff(n: nat, start: nat, end: nat)
    requires 1 <= start < end < n
    ensures HeapSorted(OneHot(n, 0), start, end) == OneHot(n, end - start)
  {
    hide Swap, OneHot, Sift, Build;
    var s, t := OneHot(n, 0), OneHot(n, end - start);
    var len := end - start + 1;
    BuildKeepsOneHot(s, len / 2 - 1, end);
    SwapMovesOne(n, end - start);
    SiftKeepsOneHot(t, end - start, 0, len - 2);
    ExtractKeepsOneHot(t, end - start, len - 2);
    assert Extract(s, len - 1) == Extract(Sift(Swap(s, 0, len - 1), 0, len - 2), len - 2);
  }

  /** A range of fewer than two places is left alone. */
  lemma {:induction false} ShortRangeStays(s: seq<int>, start: nat, end: int)
    requires end < |s| && start >= end
    ensures HeapSorted(s, start, end) == s
  {
    if start == end { assert Swap(s, 0, 0) == s; }
  }

  lemma {:induction false} SortsFromZeroOrShort(s: seq<int>, start: nat, end: int)
    requires end < |s| && (start == 0 || start >= end)
    ensures SortsRange(s, HeapSorted(s, start, end), start, end)
  {
    if start >= end { ShortRangeStays(s, start, end); } else { SortsFromZero(s, end); }
  }

  lemma {:induction false} MissesRange(n: nat, start: nat, end: nat)
    requires 1 <= start < end < n
    ensures !SortsRange(OneHot(n, 0), HeapSorted(OneHot(n, 0), start, end), start, end)
  {
    OneIsCarriedOff(n, start, end);
    assert OneHot(n, end - start)[0] != OneHot(n, 0)[0];
  }

  /** HeapSort sorts the range from start to end of every array of n values. */
  ghost predicate SortsEvery(n: nat, start: nat, end: int)
    requires end < n
  {
    forall s: seq<int> :: |s| == n ==> SortsRange(s, HeapSorted(s, start, end), start, end)
  }

  /** That is so exactly if the range starts at 0 or has fewer than two places. */
  lemma {:induction false} SortsEveryIff(n: nat, start: nat, end: int)
    requires end < n
    ensures SortsEvery(n, start, end) <==> start == 0 || start >= end
  {
    if start == 0 || start >= end {
      forall s: seq<int> | |s| == n ensures SortsRange(s, HeapSorted(s, start, end), start, end) {
        SortsFromZeroOrShort(s, start, end);
      }
    } else {
      MissesRange(n, start, end);
    }
  }

  // ---------- In place ----------

  method Heap(a: array<int>, start: nat, end: int)
    requires end < a.Length
    modifies a
    ensures a[..] == Sift(old(a[..]), start, end)
  {
    ghost var was := a[..];
    var head, son := start, 2 * start + 1;
    while son <= end
      invariant son == 2 * head + 1 && Sift(a[..], head, end) == Sift(was, start, end)
      decreases end - head
    {
      ghost var s := a[..];
      if son + 1 <= end && a[son] < a[son + 1] { son := son + 1; }
      assert son == Son(s, head, end);
      if a[son] < a[head] { return; }
      a[head], a[son] := a[son], a[head];
      assert a[..] == Swap(s, head, son);
      head := son;
      son := 2 * head + 1;
    }
  }

  /** Sorts from 0, and the range it is given under the condition that SortsEveryIff shows to be the weakest. */
  method HeapSort(a: array<int>, start: nat, end: int)
    requires end < a.Length
    modifies a
    ensures a[..] == HeapSorted(old(a[..]), start, end)
    ensures start == 0 || start >= end ==> SortsRange(old(a[..]), a[..], start, end)
  {
    ghost var was := a[..];
    if start == 0 || start >= end { SortsFromZeroOrShort(was, start, end); }
    var len := end - start + 1;
    var i := len / 2 - 1;
    while i >= 0
      invariant i < a.Length && Build(a[..], i, end) == Build(was, len / 2 - 1, end)
    {
      Heap(a, i, end);
      i := i - 1;
    }
    i := len - 1;
    while i >= 0
      invariant i < a.Length && Extract(a[..], i) == HeapSorted(was, start, end)
    {
      ghost var s := a[..];
      a[0], a[i] := a[i], a[0];
      assert a[..] == Swap(s, 0, i);
      Heap(a, 0, i - 1);
      i := i - 1;
    }
  }
}
