/** Lists without repetitions, and counting facts about finite sets. */
module FiniteSets {

  ghost predicate Distinct<T(!new)>(s: seq<T>) {
    forall i, j :: 0 <= i < j < |s| ==> s[i] != s[j]
  }

  // A subset is no larger, and if it is as large it is everything.
  lemma {:induction false} SubsetSize<T>(a: set<T>, b: set<T>)
    requires a <= b
    ensures |a| <= |b| && (|a| == |b| ==> a == b)
    decreases |a|
  {
    if x :| x in a {
      SubsetSize(a - {x}, b - {x});
      assert a == a - {x} + {x} && b == b - {x} + {x};
    }
  }

  // There are n numbers below n.
  lemma {:induction false} NumbersBelow(s: set<nat>, n: nat)
    requires forall k :: k in s ==> k < n
    ensures |s| <= n
    ensures |s| == n <==> forall k :: 0 <= k < n ==> k in s
  {
    if n == 0 {
      assert s == {};
    } else if n - 1 in s {
      NumbersBelow(s - {n - 1}, n - 1);
    } else {
      NumbersBelow(s, n - 1);
    }
  }
}
