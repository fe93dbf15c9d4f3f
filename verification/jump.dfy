/** The least number of jumps to the last index: at most nums[i] forward from index i. */
module Jumping {

  ghost predicate NonNegative(nums: seq<int>) {
    forall i :: 0 <= i < |nums| ==> nums[i] >= 0
  }

  predicate CanJump(nums: seq<int>, i: nat, j: nat) {
    i < |nums| && j < |nums| && i <= j <= i + nums[i]
  }

  /** A path of |p| - 1 jumps from the first index to index t. */
  ghost predicate PathTo(nums: seq<int>, p: seq<nat>, t: nat) {
    && p != [] && p[0] == 0 && p[|p| - 1] == t < |nums|
    && forall k :: 0 <= k < |p| - 1 ==> CanJump(nums, p[k], p[k + 1])
  }

  ghost predicate PathToEnd(nums: seq<int>, p: seq<nat>) {
    nums != [] && PathTo(nums, p, |nums| - 1)
  }

  ghost predicate Reachable(nums: seq<int>) {
    exists p :: PathToEnd(nums, p)
  }

  function Max(a: int, b: int): (m: int)
    ensures m >= a && m >= b && (m == a || m == b)
  {
    if a < b then b else a
  }

  /** The farthest one jump leads to from an index up to i. */
  function Reach(nums: seq<int>, i: int): (r: nat)
    requires i < |nums| && NonNegative(nums)
    ensures i <= r
    decreases i
  {
    if i < 0 then 0 else Max(Reach(nums, i - 1), i + nums[i])
  }

  lemma {:induction false} ReachCovers(nums: seq<int>, i: int, k: int)
    requires 0 <= k <= i < |nums| && NonNegative(nums)
    ensures k + nums[k] <= Reach(nums, i)
    decreases i
  {
    if k < i { ReachCovers(nums, i - 1, k); }
  }

  lemma {:induction false} ReachFrom(nums: seq<int>, i: nat) returns (k: nat)
    requires i < |nums| && NonNegative(nums)
    ensures k <= i && k + nums[k] == Reach(nums, i)
    decreases i
  {
    if i == 0 || Reach(nums, i) == i + nums[i] { k := i; } else { k := ReachFrom(nums, i - 1); }
  }

  /** How far d jumps lead: an upper bound of the indexes, possibly past the end. */
  function Far(nums: seq<int>, d: nat): nat
    requires nums != [] && NonNegative(nums)
    decreases d
  {
    if d == 0 then 0 else Reach(nums, Inside(nums, Far(nums, d - 1)))
  }

  function Inside(nums: seq<int>, i: nat): (r: nat)
    requires nums != []
    ensures r < |nums| && r <= i && (i < |nums| ==> r == i)
  {
    if i < |nums| then i else |nums| - 1
  }

  /** No path of d jumps leads farther than Far. */
  lemma {:induction false} PathsAreWithinFar(nums: seq<int>, p: seq<nat>, t: nat)
    requires NonNegative(nums) && nums != [] && PathTo(nums, p, t)
    ensures t <= Far(nums, |p| - 1)
    decreases |p|
  {
    if |p| > 1 {
      var q := p[..|p| - 1];
      assert CanJump(nums, p[|p| - 2], p[|p| - 1]);
      PathsAreWithinFar(nums, q, q[|q| - 1]);
      ReachCovers(nums, Inside(nums, Far(nums, |q| - 1)), q[|q| - 1]);
    }
  }

  /** Every index up to Far is the end of a path of d jumps. */
  lemma {:induction false} PathWithinFar(nums: seq<int>, d: nat, t: nat) returns (p: seq<nat>)
    requires NonNegative(nums) && t < |nums| && t <= Far(nums, d)
    ensures PathTo(nums, p, t) && |p| == d + 1
    decreases d
  {
    if d == 0 {
      p := [0];
    } else {
      var last := Inside(nums, Far(nums, d - 1));
      var k := ReachFrom(nums, last);
      var from: nat := if k <= t then k else t;
      var q := PathWithinFar(nums, d - 1, from);
      assert CanJump(nums, from, t);
      p := q + [t];
    }
  }

  /** The least number of jumps: there is a path of so many, and none of fewer. */
  ghost predicate Shortest(nums: seq<int>, jumps: nat) {
    && (exists p :: PathToEnd(nums, p) && |p| == jumps + 1)
    && forall p :: PathToEnd(nums, p) ==> jumps <= |p| - 1
  }

  lemma {:induction false} FarGrows(nums: seq<int>, c: nat, d: nat)
    requires nums != [] && NonNegative(nums) && c <= d && Far(nums, d) < |nums| - 1
    ensures Far(nums, c) <= Far(nums, d)
    decreases d
  {
    if c < d {
      assert Far(nums, d) == Reach(nums, Inside(nums, Far(nums, d - 1)));
      assert Far(nums, d - 1) <= Far(nums, d);
      FarGrows(nums, c, d - 1);
    }
  }

  /** The first number of jumps that leads to the last index is the shortest. */
  lemma {:induction false} FirstToReachIsShortest(nums: seq<int>, jumps: nat)
    requires nums != [] && NonNegative(nums) && |nums| - 1 <= Far(nums, jumps)
    requires jumps > 0 ==> Far(nums, jumps - 1) < |nums| - 1
    ensures Shortest(nums, jumps)
  {
    var q := PathWithinFar(nums, jumps, |nums| - 1);
    assert PathToEnd(nums, q);
    forall p | PathToEnd(nums, p) ensures jumps <= |p| - 1 {
      PathsAreWithinFar(nums, p, |nums| - 1);
      if |p| - 1 < jumps { FarGrows(nums, |p| - 1, jumps - 1); }
    }
  }

  /** A path to the last index jumps over every index before it. */
  lemma {:induction false} PathCrosses(nums: seq<int>, p: seq<nat>, t: nat, i: nat)
    requires NonNegative(nums) && PathTo(nums, p, t) && i < t
    ensures Reach(nums, i) > i
    decreases |p|
  {
    var q := p[..|p| - 1];
    assert CanJump(nums, p[|p| - 2], p[|p| - 1]);
    if q[|q| - 1] > i { PathCrosses(nums, q, q[|q| - 1], i); } else { ReachCovers(nums, i, q[|q| - 1]); }
  }

  lemma {:induction false} NeverStuck(nums: seq<int>, i: nat)
    requires NonNegative(nums) && Reachable(nums) && i < |nums| - 1
    ensures Reach(nums, i) > i
  {
    var p :| PathToEnd(nums, p);
    PathCrosses(nums, p, |nums| - 1, i);
  }

  /** The number returned is that of a path exactly if the last index can be reached; then it is the least. */
  method Jump(nums: seq<int>) returns (res: nat)
    requires nums != [] && NonNegative(nums)
    ensures Shortest(nums, res) <==> Reachable(nums)
  {
    res := 0;
    ghost var reachable := Reachable(nums);
    var end, maxpos := 0, 0;
    var i := 0;
    while i < |nums| - 1
      invariant 0 <= i <= |nums| - 1
      invariant end == Far(nums, res) && maxpos == Reach(nums, i - 1)
      invariant res > 0 ==> Far(nums, res - 1) < i
      invariant reachable ==> i <= end
    {
      maxpos := Max(maxpos, i + nums[i]);
      if reachable { NeverStuck(nums, i); }
      if i == end {
        res := res + 1;
        end := maxpos;
      }
      i := i + 1;
    }
    if reachable { FirstToReachIsShortest(nums, res); }
  }
}
