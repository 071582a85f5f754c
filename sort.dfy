/** simplesrt: a straight insertion sort, which nothing in the C file calls
    (its one call is commented out), on the 1-based range arr[1 .. n] of a C
    array.  Position 0 and everything past n are never touched. */
module Sorting {

  /** s[lo .. hi) is in non-decreasing order. */
  predicate SortedBetween(s: seq<real>, lo: int, hi: int)
    requires 0 <= lo && hi <= |s|
  {
    forall p, q :: lo <= p < q < hi ==> s[p] <= s[q]
  }

  /** s with its element at j moved down to position h; the elements from h
      up to j - 1 move one place up. */
  function Inserted(s: seq<real>, h: int, j: int): (r: seq<real>)
    requires 0 <= h <= j < |s|
    ensures |r| == |s|
  {
    seq(|s|, k requires 0 <= k < |s| => if k < h || j < k then s[k] else if k == h then s[j] else s[k - 1])
  }

  lemma InsertedAt(s: seq<real>, h: int, j: int, k: int)
    requires 0 <= h <= j < |s| && 0 <= k < |s|
    ensures Inserted(s, h, j)[k] == if k < h || j < k then s[k] else if k == h then s[j] else s[k - 1]
  {
  }

  /** An array that agrees with s below h and above j, holds s[j] at h and
      s[k - 1] at every k in (h, j] is s with s[j] moved down to h. */
  lemma ShiftedIsInserted(s: seq<real>, t: seq<real>, h: int, j: int)
    requires 0 <= h <= j < |s| && |t| == |s|
    requires forall k :: 0 <= k < h ==> t[k] == s[k]
    requires t[h] == s[j]
    requires forall k :: h < k <= j ==> t[k] == s[k - 1]
    requires forall k :: j < k < |s| ==> t[k] == s[k]
    ensures t == Inserted(s, h, j)
  {
    forall k | 0 <= k < |s|
      ensures t[k] == Inserted(s, h, j)[k]
    {
      InsertedAt(s, h, j, k);
    }
  }

  /** Moving one element keeps the multiset of the array. */
  lemma InsertedMultiset(s: seq<real>, h: int, j: int)
    requires 0 <= h <= j < |s|
    ensures multiset(Inserted(s, h, j)) == multiset(s)
  {
    var r := Inserted(s, h, j);
    assert r == s[..h] + [s[j]] + s[h..j] + s[j + 1..];
    assert s == s[..h] + s[h..j] + [s[j]] + s[j + 1..];
  }

  /** Moving s[j] below exactly the larger elements of the sorted s[1 .. j) sorts s[1 .. j]. */
  lemma InsertedSorted(s: seq<real>, h: int, j: int)
    requires 1 <= h <= j < |s|
    requires SortedBetween(s, 1, j)
    requires 1 < h ==> s[h - 1] <= s[j]
    requires forall k :: h <= k < j ==> s[j] < s[k]
    ensures SortedBetween(Inserted(s, h, j), 1, j + 1)
  {
    var r := Inserted(s, h, j);
    forall p, q | 1 <= p < q < j + 1
      ensures r[p] <= r[q]
    {
      InsertedAt(s, h, j, p);
      InsertedAt(s, h, j, q);
    }
  }

  /** Sorts arr[1 .. n] in place into non-decreasing order, keeping its
      elements; arr[0] and the entries past n stay as they were. */
  method SimpleSort(n: int, arr: array<real>)
    requires n <= 1 || n < arr.Length
    modifies arr
    ensures n <= 1 ==> arr[..] == old(arr[..])
    ensures 1 <= n < arr.Length ==> SortedBetween(arr[..], 1, n + 1)
    ensures multiset(arr[..]) == multiset(old(arr[..]))
    ensures forall k :: 0 <= k < arr.Length && (k == 0 || n < k) ==> arr[k] == old(arr[k])
  {
    var j := 2;
    while j <= n
      invariant 2 <= j && (2 <= n ==> j <= n + 1)
      invariant n <= 1 ==> arr[..] == old(arr[..])
      invariant 2 <= n ==> SortedBetween(arr[..], 1, j)
      invariant multiset(arr[..]) == multiset(old(arr[..]))
      invariant forall k :: 0 <= k < arr.Length && (k == 0 || j <= k) ==> arr[k] == old(arr[k])
    {
      InsertNext(arr, j);
      j := j + 1;
    }
  }

  /** One pass of the outer loop: arr[j] is moved down into the sorted
      arr[1 .. j-1] past every larger element, so arr[1 .. j] is sorted. */
  method InsertNext(arr: array<real>, j: int)
    requires 2 <= j < arr.Length
    requires SortedBetween(arr[..], 1, j)
    modifies arr
    ensures SortedBetween(arr[..], 1, j + 1)
    ensures multiset(arr[..]) == multiset(old(arr[..]))
    ensures forall k :: 0 <= k < arr.Length && (k == 0 || j < k) ==> arr[k] == old(arr[k])
  {
    ghost var s := arr[..];
    var a := arr[j];
    var i := ShiftLarger(arr, j, a);
    arr[i + 1] := a;
    InsertedMultiset(s, i + 1, j);
    InsertedSorted(s, i + 1, j);
  }

  /** The inner while loop of simplesrt: moves every element of arr[1 .. j-1]
      greater than a, from the top down, one place up, and stops at the first
      i whose arr[i] is at most a (or at 0).  Slot i + 1 is then free. */
  method ShiftLarger(arr: array<real>, j: int, a: real) returns (i: int)
    requires 2 <= j < arr.Length && arr[j] == a
    modifies arr
    ensures 0 <= i < j
    ensures arr[..][i + 1 := a] == Inserted(old(arr[..]), i + 1, j)
    ensures forall k :: 0 <= k < arr.Length && (k == 0 || j < k) ==> arr[k] == old(arr[k])
    ensures 0 < i ==> old(arr[i]) <= a
    ensures forall k :: i + 1 <= k < j ==> a < old(arr[k])
  {
    i := j - 1;
    while i > 0 && arr[i] > a
      invariant 0 <= i < j
      invariant forall k :: 0 <= k <= i + 1 ==> arr[k] == old(arr[k])
      invariant forall k :: i + 2 <= k <= j ==> arr[k] == old(arr[k - 1])
      invariant forall k :: j < k < arr.Length ==> arr[k] == old(arr[k])
      invariant forall k :: i + 1 <= k < j ==> a < old(arr[k])
    {
      arr[i + 1] := arr[i];
      i := i - 1;
    }
    ShiftedIsInserted(old(arr[..]), arr[..][i + 1 := a], i + 1, j);
  }
}
