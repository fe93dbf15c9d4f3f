/** Quicksort with a moving hole: the pivot is lifted out, and the hole it leaves wanders between the two ends. */
module QuickSorting {
  import opened Sorting

  /** The values are those of before when the hole is filled with the pivot, and nothing outside the range changed. */
  ghost predicate HoleKeeps(was: seq<int>, now: seq<int>, lo: int, hi: int, hole: int, pivot: int) {
    && |now| == |was| && 0 <= hole < |now|
    && multiset(now[hole := pivot]) == multiset(was)
    && forall i :: 0 <= i < |was| && !(lo <= i <= hi) ==> now[i] == was[i]
  }

  /** What lies before start is at most the pivot, what lies after end is at least the pivot. */
  ghost predicate Around(now: seq<int>, lo: nat, start: int, end: int, hi: nat, pivot: int)
    requires hi < |now|
  {
    && lo <= start <= end <= hi
    && (forall i :: lo <= i < start ==> now[i] <= pivot)
    && (forall i :: end < i <= hi ==> pivot <= now[i])
  }

  /** Filling the hole from another place moves the hole there. */
  lemma {:induction false} HoleMoves(was: seq<int>, now: seq<int>, lo: int, hi: int, hole: int, from: int, pivot: int)
    requires HoleKeeps(was, now, lo, hi, hole, pivot) && 0 <= from < |now| && lo <= hole <= hi
    ensures HoleKeeps(was, now[hole := now[from]], lo, hi, from, pivot)
  {
    var moved := now[hole := now[from]];
    assert multiset(moved[from := pivot]) == multiset(now[hole := pivot]);
  }

  /** Where a scan for something below the pivot stops, coming down from end. */
  ghost predicate DownTo(s: seq<int>, start: int, end: int, stop: int, pivot: int)
    requires 0 <= start && end < |s|
  {
    && start <= stop <= end
    && (forall i :: stop < i <= end ==> pivot <= s[i])
    && (stop == start || s[stop] < pivot)
  }

  /** Where a scan for something above the pivot stops, going up from start. */
  ghost predicate UpTo(s: seq<int>, start: int, end: int, stop: int, pivot: int)
    requires 0 <= start && end < |s|
  {
    && start <= stop <= end
    && (forall i :: start <= i < stop ==> s[i] <= pivot)
    && (stop == end || s[stop] > pivot)
  }

  /** Both scans of a round, each followed by a move of the hole, narrow the gap. */
  lemma {:induction false} RoundNarrows(s: seq<int>, lo: nat, start: int, end: int, hi: nat, down: int, up: int, pivot: int)
    requires hi < |s| && start < end && Around(s, lo, start, end, hi, pivot) && DownTo(s, start, end, down, pivot)
    requires UpTo(s[start := s[down]], start, down, up, pivot)
    ensures var moved := s[start := s[down]]; Around(moved[down := moved[up]], lo, up, down, hi, pivot)
    ensures down - up < end - start
  {
    var moved := s[start := s[down]];
    assert down == end ==> moved[start] < pivot;
  }

  method ScanDown(a: array<int>, start: int, end: int, pivot: int) returns (stop: int)
    requires 0 <= start <= end < a.Length
    ensures DownTo(a[..], start, end, stop, pivot)
  {
    stop := end;
    while start < stop && pivot <= a[stop]
      invariant start <= stop <= end && forall i :: stop < i <= end ==> pivot <= a[i]
    {
      stop := stop - 1;
    }
  }

  method ScanUp(a: array<int>, start: int, end: int, pivot: int) returns (stop: int)
    requires 0 <= start <= end < a.Length
    ensures UpTo(a[..], start, end, stop, pivot)
  {
    stop := start;
    while stop < end && pivot >= a[stop]
      invariant start <= stop <= end && forall i :: start <= i < stop ==> a[i] <= pivot
    {
      stop := stop + 1;
    }
  }

  method PartitionSort(a: array<int>, lo: nat, hi: nat) returns (idx: nat)
    requires lo <= hi < a.Length
    modifies a
    ensures lo <= idx <= hi && PermutedOn(old(a[..]), a[..], lo, hi)
    ensures a[idx] == old(a[lo])
    ensures forall i :: lo <= i < idx ==> a[i] <= a[idx]
    ensures forall i :: idx < i <= hi ==> a[idx] <= a[i]
  {
    ghost var was := a[..];
    var start: int, end: int := lo, hi;
    var tmp := a[start];
    assert a[..][start := tmp] == a[..];
    while start < end
      invariant Around(a[..], lo, start, end, hi, tmp) && HoleKeeps(was, a[..], lo, hi, start, tmp)
      decreases end - start
    {
      ghost var s := a[..];
      var down := ScanDown(a, start, end, tmp);
      HoleMoves(was, s, lo, hi, start, down, tmp);
      a[start] := a[down];
      ghost var moved := a[..];
      assert moved == s[start := s[down]];
      var up := ScanUp(a, start, down, tmp);
      HoleMoves(was, moved, lo, hi, down, up, tmp);
      a[down] := a[up];
      assert a[..] == moved[down := moved[up]];
      RoundNarrows(s, lo, start, end, hi, down, up, tmp);
      start, end := up, down;
    }
    ghost var s := a[..];
    a[start] := tmp;
    assert a[..] == s[start := tmp];
    idx := start;
  }

  /** A bound on the values of a range is not lost when the range is permuted. */
  lemma {:induction false} BoundsStay(s: seq<int>, t: seq<int>, lo: nat, hi: int, x: int)
    requires PermutedOn(s, t, lo, hi) && hi < |s|
    ensures (forall i :: lo <= i <= hi ==> s[i] <= x) ==> forall i :: lo <= i <= hi ==> t[i] <= x
    ensures (forall i :: lo <= i <= hi ==> x <= s[i]) ==> forall i :: lo <= i <= hi ==> x <= t[i]
  {
    forall i | lo <= i <= hi ensures exists j :: lo <= j <= hi && s[j] == t[i] {
      CameFromRange(s, t, lo, hi, i);
    }
  }

  /** Sorting both sides of the pivot sorts the range. */
  lemma {:induction false} SidesSorted(s: seq<int>, l: seq<int>, r: seq<int>, lo: nat, idx: nat, hi: nat)
    requires lo <= idx <= hi < |s|
    requires forall i :: lo <= i < idx ==> s[i] <= s[idx]
    requires forall i :: idx < i <= hi ==> s[idx] <= s[i]
    requires SortsRange(s, l, lo, idx - 1) && SortsRange(l, r, idx + 1, hi)
    ensures SortsRange(s, r, lo, hi)
  {
    BoundsStay(s, l, lo, idx - 1, s[idx]);
    BoundsStay(l, r, idx + 1, hi, s[idx]);
  }

  method QuickSort(a: array<int>, start: int, end: int)
    requires start < end ==> 0 <= start && end < a.Length
    modifies a
    ensures SortsRange(old(a[..]), a[..], start, end)
    decreases end - start
  {
    if start < end {
      var idx: int := PartitionSort(a, start, end);
      ghost var parted := a[..];
      QuickSort(a, start, idx - 1);
      ghost var left := a[..];
      QuickSort(a, idx + 1, end);
      SidesSorted(parted, left, a[..], start, idx, end);
    }
  }
}
