/** What it means to sort a range of an array, and that there is only one way to do it. */
module Sorting {

  ghost predicate SortedOn(s: seq<int>, lo: int, hi: int)
    requires lo < hi ==> 0 <= lo && hi < |s|
  {
    forall i, j :: lo <= i < j <= hi ==> s[i] <= s[j]
  }

  /** Only the places from lo to hi changed, and the values are the same in another order. */
  ghost predicate PermutedOn(s: seq<int>, t: seq<int>, lo: int, hi: int) {
    && |t| == |s|
    && multiset(t) == multiset(s)
    && forall i :: 0 <= i < |s| && !(lo <= i <= hi) ==> t[i] == s[i]
  }

  ghost predicate SortsRange(s: seq<int>, t: seq<int>, lo: int, hi: int)
    requires lo < hi ==> 0 <= lo && hi < |s|
  {
    PermutedOn(s, t, lo, hi) && SortedOn(t, lo, hi)
  }

  function Swap(s: seq<int>, i: nat, j: nat): seq<int>
    requires i < |s| && j < |s|
  {
    s[i := s[j]][j := s[i]]
  }

  lemma {:induction false} SwapPermutes(s: seq<int>, i: nat, j: nat, lo: int, hi: int)
    requires i < |s| && j < |s| && lo <= i <= hi && lo <= j <= hi
    ensures PermutedOn(s, Swap(s, i, j), lo, hi)
  {
  }

  /** The values of the range itself are the same in another order. */
  lemma {:induction false} PermutedSlice(s: seq<int>, t: seq<int>, lo: nat, hi: int)
    requires PermutedOn(s, t, lo, hi) && lo <= hi + 1 && hi < |s|
    ensures multiset(s[lo..hi + 1]) == multiset(t[lo..hi + 1])
  {
    Cut(s, lo, hi + 1);
    Cut(t, lo, hi + 1);
    assert s[..lo] == t[..lo] && s[hi + 1..] == t[hi + 1..];
    Cancel(multiset(s[lo..hi + 1]), multiset(t[lo..hi + 1]), multiset(s[..lo]), multiset(s[hi + 1..]));
  }

  lemma {:induction false} Cut(s: seq<int>, i: nat, j: nat)
    requires i <= j <= |s|
    ensures multiset(s) == multiset(s[..i]) + multiset(s[i..j]) + multiset(s[j..])
  {
    assert s == s[..i] + s[i..j] + s[j..];
  }

  lemma {:induction false} Cancel(x: multiset<int>, y: multiset<int>, a: multiset<int>, b: multiset<int>)
    requires a + x + b == a + y + b
    ensures x == y
  {
    forall v ensures x[v] == y[v] {
      assert (a + x + b)[v] == a[v] + x[v] + b[v];
      assert (a + y + b)[v] == a[v] + y[v] + b[v];
    }
  }

  /** Every value of the range was in the range before. */
  lemma {:induction false} CameFromRange(s: seq<int>, t: seq<int>, lo: nat, hi: int, i: int)
    requires PermutedOn(s, t, lo, hi) && hi < |s| && lo <= i <= hi
    ensures exists j :: lo <= j <= hi && s[j] == t[i]
  {
    PermutedSlice(s, t, lo, hi);
    assert t[lo..hi + 1][i - lo] == t[i];
    assert t[i] in multiset(s[lo..hi + 1]);
    var j :| 0 <= j < |s[lo..hi + 1]| && s[lo..hi + 1][j] == t[i];
    assert s[lo + j] == t[i];
  }

  // ---------- Sorting has one result ----------

  lemma {:induction false} SameFront(s: seq<int>, t: seq<int>)
    requires multiset(s) == multiset(t) && s != [] && SortedOn(s, 0, |s| - 1) && SortedOn(t, 0, |t| - 1) && |t| == |s|
    ensures s[0] == t[0]
  {
    assert s[0] in multiset(t) && t[0] in multiset(s);
    var i :| 0 <= i < |t| && t[i] == s[0];
    var j :| 0 <= j < |s| && s[j] == t[0];
  }

  lemma {:induction false} SameRest(s: seq<int>, t: seq<int>)
    requires multiset(s) == multiset(t) && s != [] && t != [] && s[0] == t[0]
    ensures multiset(s[1..]) == multiset(t[1..])
  {
    Cut(s, 1, |s|);
    Cut(t, 1, |t|);
    assert s[..1] == [s[0]] && t[..1] == [s[0]];
    assert s[1..|s|] == s[1..] && t[1..|t|] == t[1..] && s[|s|..] == t[|t|..] == [];
    Cancel(multiset(s[1..]), multiset(t[1..]), multiset(s[..1]), multiset(s[|s|..]));
  }

  lemma {:induction false} SortedIsUnique(s: seq<int>, t: seq<int>)
    requires multiset(s) == multiset(t) && |t| == |s| && SortedOn(s, 0, |s| - 1) && SortedOn(t, 0, |t| - 1)
    ensures s == t
    decreases |s|
  {
    if s != [] {
      SameFront(s, t);
      SameRest(s, t);
      SortedIsUnique(s[1..], t[1..]);
      assert s == [s[0]] + s[1..] && t == [t[0]] + t[1..];
    }
  }

  /** Two sorts of the same range of the same array give the same array. */
  lemma {:induction false} SortsAgree(s: seq<int>, t: seq<int>, u: seq<int>, lo: nat, hi: int)
    requires lo <= hi + 1 && hi < |s| && SortsRange(s, t, lo, hi) && SortsRange(s, u, lo, hi)
    ensures t == u
  {
    PermutedSlice(s, t, lo, hi);
    PermutedSlice(s, u, lo, hi);
    SortedIsUnique(t[lo..hi + 1], u[lo..hi + 1]);
    forall i | lo <= i <= hi ensures t[i] == u[i] {
      assert t[lo..hi + 1][i - lo] == t[i] && u[lo..hi + 1][i - lo] == u[i];
    }
    assert forall i :: 0 <= i < |s| ==> t[i] == u[i];
  }
}
