/**
  The sort of fp_tree.cpp: a quicksort into descending order that carries a
  second array along and falls back to insertion sort on short ranges.  Its
  partition may read, and for a moment swap, the slot just left of its range.
 */
module DescendingSort {

  const SORTHRESH := 9

  // The two arrays seen as one sequence of pairs.
  ghost function Pairs(key: array<int>, tag: array<int>): (r: seq<(int, int)>)
    requires key.Length == tag.Length
    reads key, tag
    ensures |r| == key.Length
  {
    seq(key.Length, k requires 0 <= k < key.Length == tag.Length reads key, tag => (key[k], tag[k]))
  }

  ghost function Swapped(s: seq<(int, int)>, i: nat, j: nat): seq<(int, int)>
    requires i < |s| && j < |s|
  {
    s[i := s[j]][j := s[i]]
  }

  // s' differs from s only by a rearrangement of the slots lo..hi.
  ghost predicate Rearranged(s: seq<(int, int)>, s': seq<(int, int)>, lo: int, hi: int)
  {
    && |s'| == |s| && 0 <= lo <= hi <= |s|
    && (forall k :: 0 <= k < |s| && !(lo <= k < hi) ==> s'[k] == s[k])
    && multiset(s'[lo..hi]) == multiset(s[lo..hi])
  }

  ghost predicate Descending(s: seq<(int, int)>, lo: int, hi: int) {
    forall i, j :: 0 <= lo <= i < j < hi <= |s| ==> s[i].0 >= s[j].0
  }

  // Everything left of lo is at least as large as anything in lo..hi.
  ghost predicate LeftDominates(s: seq<(int, int)>, lo: int, hi: int) {
    forall i, j :: 0 <= i < lo <= j < hi <= |s| ==> s[i].0 >= s[j].0
  }

  lemma SwapRearranges(s: seq<(int, int)>, lo: nat, hi: nat, i: nat, j: nat)
    requires lo <= i < hi <= |s| && lo <= j < hi
    ensures Rearranged(s, Swapped(s, i, j), lo, hi)
  {
    var t := s[lo..hi];
    assert Swapped(s, i, j)[lo..hi] == Swapped(t, i - lo, j - lo);
  }

  lemma RearrangedTransitive(s: seq<(int, int)>, t: seq<(int, int)>, u: seq<(int, int)>, lo: int, hi: int)
    requires Rearranged(s, t, lo, hi) && Rearranged(t, u, lo, hi)
    ensures Rearranged(s, u, lo, hi)
  {
  }

  lemma RearrangedWider(s: seq<(int, int)>, t: seq<(int, int)>, lo: int, hi: int, lo': int, hi': int)
    requires Rearranged(s, t, lo, hi) && 0 <= lo' <= lo && hi <= hi' <= |s|
    ensures Rearranged(s, t, lo', hi')
  {
    assert s[lo'..hi'] == s[lo'..lo] + s[lo..hi] + s[hi..hi'];
    assert t[lo'..hi'] == t[lo'..lo] + t[lo..hi] + t[hi..hi'];
    assert s[lo'..lo] == t[lo'..lo] && s[hi..hi'] == t[hi..hi'];
  }

  // A bound on the old contents of the range is a bound on the new ones.
  lemma RearrangedMember(s: seq<(int, int)>, t: seq<(int, int)>, lo: int, hi: int, k: int) returns (k': int)
    requires Rearranged(s, t, lo, hi) && lo <= k < hi
    ensures lo <= k' < hi && s[k'] == t[k]
  {
    assert t[lo..hi][k - lo] == t[k];
    assert t[k] in multiset(t[lo..hi]);
    assert t[k] in s[lo..hi];
    var m :| 0 <= m < hi - lo && s[lo..hi][m] == t[k];
    k' := lo + m;
  }

  method Swap(key: array<int>, tag: array<int>, i: nat, j: nat)
    requires key != tag && key.Length == tag.Length && i < key.Length && j < key.Length
    modifies key, tag
    ensures Pairs(key, tag) == Swapped(old(Pairs(key, tag)), i, j)
  {
    key[i], key[j] := key[j], key[i];
    tag[i], tag[j] := tag[j], tag[i];
  }

  lemma KeepSwapping(s: seq<(int, int)>, p: seq<(int, int)>, lo: nat, hi: nat, i: nat, j: nat)
    requires Rearranged(s, p, lo, hi) && lo <= i < hi && lo <= j < hi
    ensures Rearranged(s, Swapped(p, i, j), lo, hi)
  {
    SwapRearranges(p, lo, hi, i, j);
    RearrangedTransitive(s, p, Swapped(p, i, j), lo, hi);
  }

  // Moves slot k up to where it belongs among the sorted slots i..k.
  method SiftUp(key: array<int>, tag: array<int>, i: int, k: int, j: int)
    requires key != tag && key.Length == tag.Length && 0 <= i <= k <= j < key.Length
    requires Descending(Pairs(key, tag), i, k)
    modifies key, tag
    ensures Rearranged(old(Pairs(key, tag)), Pairs(key, tag), i, j + 1)
    ensures Descending(Pairs(key, tag), i, k + 1)
  {
    hide Rearranged;
    ghost var s0 := Pairs(key, tag);
    var m := k;
    ghost var p := s0;
    assert Rearranged(s0, p, i, j + 1) by { RearrangedRefl(s0, i, j + 1); }
    while m > i && key[m] > key[m - 1]
      invariant i <= m <= k && p == Pairs(key, tag)
      invariant Rearranged(s0, p, i, j + 1)
      invariant forall a, b :: i <= a < b <= k && a != m && b != m ==> p[a].0 >= p[b].0
      invariant forall b :: m < b <= k ==> p[m].0 >= p[b].0
    {
      KeepSwapping(s0, p, i, j + 1, m, m - 1);
      Swap(key, tag, m, m - 1);
      p := Pairs(key, tag);
      m := m - 1;
    }
    assert forall a :: i <= a < m ==> p[a].0 >= p[m - 1].0 >= p[m].0;
  }

  lemma RearrangedRefl(s: seq<(int, int)>, lo: int, hi: int)
    requires 0 <= lo <= hi <= |s|
    ensures Rearranged(s, s, lo, hi)
  {
  }

  method InsertionSort(key: array<int>, tag: array<int>, i: int, j: int)
    requires key != tag && key.Length == tag.Length && 0 <= i <= j + 1 <= key.Length
    modifies key, tag
    ensures Rearranged(old(Pairs(key, tag)), Pairs(key, tag), i, j + 1)
    ensures Descending(Pairs(key, tag), i, j + 1)
  {
    hide Rearranged;
    ghost var s0 := Pairs(key, tag);
    RearrangedRefl(s0, i, j + 1);
    var k := i + 1;
    while k <= j
      invariant i + 1 <= k && (k <= j + 1 || k == i + 1)
      invariant Rearranged(s0, Pairs(key, tag), i, j + 1)
      invariant k <= j + 1 ==> Descending(Pairs(key, tag), i, k)
    {
      ghost var p := Pairs(key, tag);
      SiftUp(key, tag, i, k, j);
      RearrangedTransitive(s0, p, Pairs(key, tag), i, j + 1);
      k := k + 1;
    }
  }

  /* ---------- partition ---------- */

  // The first loop: up to a slot that does not exceed the pivot.
  method ScanUp(key: array<int>, pivot: int, l: int, r: int) returns (l': int)
    requires -1 <= l < r < key.Length && key[r] <= pivot
    ensures l < l' <= r && key[l'] <= pivot
    ensures forall k :: l < k < l' ==> key[k] > pivot
  {
    l' := l + 1;
    while key[l'] > pivot
      invariant l < l' <= r
      invariant forall k :: l < k < l' ==> key[k] > pivot
      decreases r - l'
    {
      l' := l' + 1;
    }
  }

  // The second loop: down to a slot that reaches the pivot, or to slot 0; `stop` is a slot that ends it.
  method ScanDown(key: array<int>, pivot: int, r: int, ghost stop: int) returns (r': int)
    requires -1 <= stop < r < key.Length && r > 0 && (stop >= 0 ==> key[stop] >= pivot)
    ensures stop <= r' < r && 0 <= r'
    ensures forall k :: r' < k < r ==> key[k] < pivot
    ensures key[r'] >= pivot || (r' == 0 && stop == -1)
  {
    r' := r;
    while r' != 0
      invariant stop <= r' <= r && 0 <= r'
      invariant r' < r ==> r' != stop && key[r'] < pivot
      invariant forall k :: r' < k < r ==> key[k] < pivot
    {
      r' := r' - 1;
      if !(key[r'] < pivot) {
        break;
      }
    }
  }

  // All of i..l reaches the pivot, nothing in r..j exceeds it, and `stop` will stop the second loop.
  ghost predicate Split(p: seq<(int, int)>, i: int, j: int, l: int, r: int, pivot: int, stop: int) {
    && 0 <= i <= j < |p| && i - 1 <= l < r <= j && r > 0 && p[j].0 == pivot
    && i - 1 <= stop <= l && (stop >= 0 ==> p[stop].0 >= pivot)
    && (forall k :: i <= k <= l ==> p[k].0 >= pivot)
    && (forall k :: r <= k <= j ==> p[k].0 <= pivot)
  }

  // l stands on a slot to move right, r on one to move left, or they have met.
  ghost predicate Stuck(p: seq<(int, int)>, i: int, j: int, l: int, r: int, pivot: int) {
    && 0 <= i <= l <= j < |p| && i - 1 <= r < j && 0 <= r && p[j].0 == pivot
    && p[l].0 <= pivot && (l < r ==> p[r].0 >= pivot)
    && (forall k :: i <= k < l ==> p[k].0 >= pivot)
    && (forall k :: r < k <= j ==> p[k].0 <= pivot)
  }

  method Scan(key: array<int>, tag: array<int>, i: int, j: int, pivot: int, l0: int, r0: int, ghost stop: int)
    returns (l: int, r: int)
    requires key.Length == tag.Length && Split(Pairs(key, tag), i, j, l0, r0, pivot, stop)
    ensures Stuck(Pairs(key, tag), i, j, l, r, pivot)
    ensures l > l0 && r < r0
  {
    ghost var p := Pairs(key, tag);
    assert p[r0].0 == key[r0] && (stop >= 0 ==> p[stop].0 == key[stop]);
    l := ScanUp(key, pivot, l0, r0);
    r := ScanDown(key, pivot, r0, stop);
  }

  lemma ExchangeKeepsSplit(p: seq<(int, int)>, i: int, j: int, l: int, r: int, pivot: int)
    requires Stuck(p, i, j, l, r, pivot) && l < r
    ensures Split(Swapped(p, l, r), i, j, l, r, pivot, l)
  {
  }

  method Partition(key: array<int>, tag: array<int>, i: int, j: int, pivot: int) returns (l: int)
    requires key != tag && key.Length == tag.Length && 0 <= i < j < key.Length && key[j] == pivot
    requires LeftDominates(Pairs(key, tag), i, j + 1)
    modifies key, tag
    ensures i <= l <= j && Pairs(key, tag)[j].0 == pivot
    ensures Rearranged(old(Pairs(key, tag)), Pairs(key, tag), i, j + 1)
    ensures forall k :: i <= k < l ==> Pairs(key, tag)[k].0 >= pivot
    ensures forall k :: l <= k < j ==> Pairs(key, tag)[k].0 <= pivot
  {
    hide Rearranged;
    l := i - 1;
    var r := j;
    ghost var s0 := Pairs(key, tag);
    RearrangedRefl(s0, i, j + 1);
    ghost var stop := i - 1;
    while true
      invariant Split(Pairs(key, tag), i, j, l, r, pivot, stop)
      invariant Rearranged(s0, Pairs(key, tag), i, j + 1)
      decreases r - l
    {
      l, r := Scan(key, tag, i, j, pivot, l, r, stop);
      ghost var p := Pairs(key, tag);
      Swap(key, tag, l, r);
      if !(l < r) {
        Swap(key, tag, l, r);
        assert Pairs(key, tag) == p;
        return;
      }
      KeepSwapping(s0, p, i, j + 1, l, r);
      ExchangeKeepsSplit(p, i, j, l, r, pivot);
      stop := l;
    }
  }

  /* ---------- quicksort ---------- */

  lemma PivotInPlace(p: seq<(int, int)>, i: nat, j: nat, k: nat, q: seq<(int, int)>)
    requires i <= k <= j < |p| && q == Swapped(p, k, j)
    requires forall m :: i <= m < k ==> p[m].0 >= p[j].0
    requires forall m :: k <= m < j ==> p[m].0 <= p[j].0
    requires LeftDominates(p, i, j + 1)
    ensures LeftDominates(q, i, k) && LeftDominates(q, k + 1, j + 1)
    ensures forall m :: i <= m < k ==> q[m].0 >= q[k].0
    ensures forall m :: k < m <= j ==> q[m].0 <= q[k].0
  {
  }

  lemma RearrangedKeepsDomination(s: seq<(int, int)>, t: seq<(int, int)>, lo: int, hi: int, lo': int, hi': int)
    requires Rearranged(s, t, lo, hi) && LeftDominates(s, lo', hi') && 0 <= lo' <= hi' <= |s|
    requires hi <= lo' || (lo == lo' && hi == hi')
    ensures LeftDominates(t, lo', hi')
  {
    forall a, b | 0 <= a < lo' <= b < hi' <= |t| ensures t[a].0 >= t[b].0 {
      var a' := a;
      if lo <= a < hi {
        a' := RearrangedMember(s, t, lo, hi, a);
      }
      var b' := b;
      if lo <= b < hi {
        b' := RearrangedMember(s, t, lo, hi, b);
      }
      assert s[a'].0 >= s[b'].0;
    }
  }

  lemma RearrangedOutside(s: seq<(int, int)>, t: seq<(int, int)>, lo: int, hi: int, k: int)
    requires Rearranged(s, t, lo, hi)
    ensures |t| == |s| && (0 <= k < |s| && !(lo <= k < hi) ==> t[k] == s[k])
  {
  }

  // What both sides of the pivot hold once they are sorted.
  lemma SidesKeepBounds(q: seq<(int, int)>, t: seq<(int, int)>, u: seq<(int, int)>, i: nat, k: nat, j: nat, m: nat)
    requires i <= k <= j < |q| && Rearranged(q, t, i, k) && Rearranged(t, u, k + 1, j + 1)
    requires forall m :: i <= m < k ==> q[m].0 >= q[k].0
    requires forall m :: k < m <= j ==> q[m].0 <= q[k].0
    ensures |u| == |q| && u[k] == q[k]
    ensures i <= m < k ==> |t| == |q| && u[m] == t[m] && u[m].0 >= q[k].0
    ensures k < m <= j ==> u[m].0 <= q[k].0
  {
    hide Rearranged;
    RearrangedOutside(q, t, i, k, k);
    RearrangedOutside(t, u, k + 1, j + 1, k);
    RearrangedOutside(t, u, k + 1, j + 1, m);
    if i <= m < k {
      var m' := RearrangedMember(q, t, i, k, m);
    } else if k < m <= j {
      var m' := RearrangedMember(t, u, k + 1, j + 1, m);
      RearrangedOutside(q, t, i, k, m');
    }
  }

  // Sorting both sides of a placed pivot sorts the range.
  lemma BothSidesSorted(q: seq<(int, int)>, t: seq<(int, int)>, u: seq<(int, int)>, i: nat, k: nat, j: nat)
    requires i <= k <= j < |q| && Rearranged(q, t, i, k) && Rearranged(t, u, k + 1, j + 1)
    requires Descending(t, i, k) && Descending(u, k + 1, j + 1)
    requires forall m :: i <= m < k ==> q[m].0 >= q[k].0
    requires forall m :: k < m <= j ==> q[m].0 <= q[k].0
    ensures Rearranged(q, u, i, j + 1) && Descending(u, i, j + 1)
  {
    hide Rearranged;
    RearrangedOutside(q, t, i, k, k);
    RearrangedWider(q, t, i, k, i, j + 1);
    RearrangedWider(t, u, k + 1, j + 1, i, j + 1);
    RearrangedTransitive(q, t, u, i, j + 1);
    forall a, b | 0 <= i <= a < b < j + 1 <= |u| ensures u[a].0 >= u[b].0 {
      SidesKeepBounds(q, t, u, i, k, j, a);
      SidesKeepBounds(q, t, u, i, k, j, b);
    }
  }

  lemma OneIsSorted(s: seq<(int, int)>, lo: int, hi: int)
    requires hi <= lo + 1
    ensures Descending(s, lo, hi)
  {
  }

  // Sorts the slots i..j; whatever lies to their left must be at least as large.
  method Sort(key: array<int>, tag: array<int>, i: int, j: int)
    requires key != tag && key.Length == tag.Length && 0 <= i <= j + 1 <= key.Length
    requires LeftDominates(Pairs(key, tag), i, j + 1)
    modifies key, tag
    ensures Rearranged(old(Pairs(key, tag)), Pairs(key, tag), i, j + 1)
    ensures Descending(Pairs(key, tag), i, j + 1)
    decreases j - i + 1
  {
    hide Rearranged, LeftDominates, Descending;
    if j - i < SORTHRESH {
      InsertionSort(key, tag, i, j);
    } else {
      ghost var s0 := Pairs(key, tag);
      var k, q := PlacePivot(key, tag, i, j);
      if k - i > 1 {
        Sort(key, tag, i, k - 1);
      } else {
        RearrangedRefl(q, i, k);
        OneIsSorted(q, i, k);
      }
      ghost var t := Pairs(key, tag);
      assert LeftDominates(t, k + 1, j + 1) by { RearrangedKeepsDomination(q, t, i, k, k + 1, j + 1); }
      if j - k > 1 {
        Sort(key, tag, k + 1, j);
      } else {
        RearrangedRefl(t, k + 1, j + 1);
        OneIsSorted(t, k + 1, j + 1);
      }
      BothSidesSorted(q, t, Pairs(key, tag), i, k, j);
      RearrangedTransitive(s0, q, Pairs(key, tag), i, j + 1);
    }
  }

  method PlacePivot(key: array<int>, tag: array<int>, i: int, j: int) returns (k: int, ghost q: seq<(int, int)>)
    requires key != tag && key.Length == tag.Length && 0 <= i < j < key.Length
    requires LeftDominates(Pairs(key, tag), i, j + 1)
    modifies key, tag
    ensures i <= k <= j && q == Pairs(key, tag)
    ensures Rearranged(old(Pairs(key, tag)), q, i, j + 1)
    ensures LeftDominates(q, i, k) && LeftDominates(q, k + 1, j + 1)
    ensures forall m :: i <= m < k ==> q[m].0 >= q[k].0
    ensures forall m :: k < m <= j ==> q[m].0 <= q[k].0
  {
    hide Rearranged, LeftDominates;
    ghost var s0 := Pairs(key, tag);
    PivotToEnd(key, tag, i, j);
    ghost var s1 := Pairs(key, tag);
    k := Partition(key, tag, i, j, key[j]);
    ghost var s2 := Pairs(key, tag);
    RearrangedKeepsDomination(s1, s2, i, j + 1, i, j + 1);
    RearrangedTransitive(s0, s1, s2, i, j + 1);
    KeepSwapping(s0, s2, i, j + 1, k, j);
    Swap(key, tag, k, j);
    q := Pairs(key, tag);
    PivotInPlace(s2, i, j, k, q);
  }

  method PivotToEnd(key: array<int>, tag: array<int>, i: int, j: int)
    requires key != tag && key.Length == tag.Length && 0 <= i < j < key.Length
    requires LeftDominates(Pairs(key, tag), i, j + 1)
    modifies key, tag
    ensures Rearranged(old(Pairs(key, tag)), Pairs(key, tag), i, j + 1) && LeftDominates(Pairs(key, tag), i, j + 1)
  {
    hide Rearranged, LeftDominates;
    ghost var s0 := Pairs(key, tag);
    RearrangedRefl(s0, i, j + 1);
    var pivotindex := (i + j) / 2;
    KeepSwapping(s0, s0, i, j + 1, pivotindex, j);
    Swap(key, tag, pivotindex, j);
    RearrangedKeepsDomination(s0, Pairs(key, tag), i, j + 1, i, j + 1);
  }
}
