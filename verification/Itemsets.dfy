/**
  The specification side of freqmine: weighted transaction databases, the
  support of an itemset, and the conditional pattern base of an item.

  Items are numbered; a transaction lists its items in increasing order, which
  is the order in which the prefix tree of fp_tree.cpp stores them.
 */
module Itemsets {
  import opened FiniteSets

  datatype Transaction = Transaction(items: seq<nat>, weight: nat)

  ghost predicate Increasing(s: seq<nat>) {
    forall i, j :: 0 <= i < j < |s| ==> s[i] < s[j]
  }

  ghost predicate Below(s: seq<nat>, n: nat) {
    forall i :: 0 <= i < |s| ==> s[i] < n
  }

  ghost function Items(s: seq<nat>): set<nat> {
    set x | x in s
  }

  // Every transaction is nonempty, sorted, uses items below n and has a positive weight.
  ghost predicate WellFormed(db: seq<Transaction>, n: nat) {
    forall k :: 0 <= k < |db| ==> WellFormedTransaction(db[k], n)
  }

  ghost predicate WellFormedTransaction(t: Transaction, n: nat) {
    t.items != [] && Increasing(t.items) && Below(t.items, n) && t.weight > 0
  }

  // The total weight of the transactions that contain every item of X.
  ghost function Support(db: seq<Transaction>, X: set<nat>): nat {
    if db == [] then 0
    else
      var t := db[|db| - 1];
      Support(db[..|db| - 1], X) + if X <= Items(t.items) then t.weight else 0
  }

  // The total weight of the transactions that begin with p.
  ghost function PrefixWeight(db: seq<Transaction>, p: seq<nat>): nat {
    if db == [] then 0
    else
      var t := db[|db| - 1];
      PrefixWeight(db[..|db| - 1], p) + if p <= t.items then t.weight else 0
  }

  lemma SupportAppend(db: seq<Transaction>, t: Transaction, X: set<nat>)
    ensures Support(db + [t], X) == Support(db, X) + if X <= Items(t.items) then t.weight else 0
  {
    assert (db + [t])[..|db + [t]| - 1] == db;
  }

  lemma PrefixWeightAppend(db: seq<Transaction>, t: Transaction, p: seq<nat>)
    ensures PrefixWeight(db + [t], p) == PrefixWeight(db, p) + if p <= t.items then t.weight else 0
  {
    assert (db + [t])[..|db + [t]| - 1] == db;
  }

  // A larger itemset is never supported more.
  lemma {:induction false} SupportAntimonotone(db: seq<Transaction>, X: set<nat>, Y: set<nat>)
    requires X <= Y
    ensures Support(db, Y) <= Support(db, X)
  {
    if db != [] {
      SupportAntimonotone(db[..|db| - 1], X, Y);
    }
  }

  lemma {:induction false} SupportWithoutWeight(db: seq<Transaction>, X: set<nat>)
    requires forall k :: 0 <= k < |db| ==> db[k].weight == 0
    ensures Support(db, X) == 0
  {
    if db != [] {
      SupportWithoutWeight(db[..|db| - 1], X);
    }
  }

  lemma {:induction false} SupportReweigh(db: seq<Transaction>, k: nat, w: nat, X: set<nat>)
    requires k < |db|
    ensures Support(db[k := Transaction(db[k].items, db[k].weight + w)], X)
         == Support(db, X) + if X <= Items(db[k].items) then w else 0
  {
    var db' := db[k := Transaction(db[k].items, db[k].weight + w)];
    var n := |db| - 1;
    if k == n {
      assert db'[..n] == db[..n];
    } else {
      SupportReweigh(db[..n], k, w, X);
      assert db'[..n] == db[..n][k := db'[k]];
    }
  }

  /* ---------- conditional pattern bases ---------- */

  // The paths of a prefix tree that end in `item`, each once, and no such prefix of a transaction missing.
  ghost predicate CoversItem(db: seq<Transaction>, paths: seq<seq<nat>>, item: nat) {
    && Distinct(paths)
    && AllEndIn(paths, item)
    && (forall k, m :: 0 <= k < |db| && 0 <= m < |db[k].items| && db[k].items[m] == item ==>
          db[k].items[..m + 1] in paths)
  }

  ghost predicate AllEndIn(paths: seq<seq<nat>>, item: nat) {
    forall k :: 0 <= k < |paths| ==> |paths[k]| > 0 && paths[k][|paths[k]| - 1] == item
  }

  // What remains of each path once its last item is cut off, weighted by the transactions below it.
  ghost function Base(db: seq<Transaction>, paths: seq<seq<nat>>): (r: seq<Transaction>)
    requires forall k :: 0 <= k < |paths| ==> |paths[k]| > 0
    ensures |r| == |paths|
  {
    seq(|paths|, k requires 0 <= k < |paths| =>
      Transaction(paths[k][..|paths[k]| - 1], PrefixWeight(db, paths[k])))
  }

  // Mining the base of `item` for X is mining the database for X + {item}.
  lemma {:induction false} BaseSupport(db: seq<Transaction>, n: nat, paths: seq<seq<nat>>, item: nat, X: set<nat>)
    requires WellFormed(db, n) && CoversItem(db, paths, item)
    requires forall x :: x in X ==> x < item
    ensures Support(Base(db, paths), X) == Support(db, X + {item})
  {
    if db == [] {
      SupportWithoutWeight(Base(db, paths), X);
    } else {
      var init, t := db[..|db| - 1], db[|db| - 1];
      assert db == init + [t];
      forall k, m | 0 <= k < |init| && 0 <= m < |init[k].items| && init[k].items[m] == item
        ensures init[k].items[..m + 1] in paths
      {
        assert init[k] == db[k];
      }
      BaseSupport(init, n, paths, item, X);
      SupportAppend(init, t, X + {item});
      BaseGrows(init, t, paths, item, X);
    }
  }

  lemma BaseWeights(db: seq<Transaction>, t: Transaction, paths: seq<seq<nat>>, item: nat, k: nat)
    requires AllEndIn(paths, item) && k < |paths|
    ensures Base(db + [t], paths)[k]
         == Transaction(Base(db, paths)[k].items,
                        Base(db, paths)[k].weight + if paths[k] <= t.items then t.weight else 0)
  {
    PrefixWeightAppend(db, t, paths[k]);
  }

  // A nonempty prefix of s ends in an item of s, and that item fixes it.
  lemma PrefixEnds(p: seq<nat>, s: seq<nat>)
    requires Increasing(s) && |p| > 0
    ensures p <= s ==> p[|p| - 1] in s
    ensures p <= s ==> forall m :: 0 <= m < |s| && s[m] == p[|p| - 1] ==> p == s[..m + 1]
  {
    if p <= s {
      assert s[|p| - 1] == p[|p| - 1];
    }
  }

  // One more transaction raises at most one path of the base: the one that reaches `item`.
  lemma BaseGrows(db: seq<Transaction>, t: Transaction, paths: seq<seq<nat>>, item: nat, X: set<nat>)
    requires Increasing(t.items) && Distinct(paths) && AllEndIn(paths, item)
    requires forall m :: 0 <= m < |t.items| && t.items[m] == item ==> t.items[..m + 1] in paths
    requires forall x :: x in X ==> x < item
    ensures Support(Base(db + [t], paths), X)
         == Support(Base(db, paths), X) + if X + {item} <= Items(t.items) then t.weight else 0
  {
    if m :| 0 <= m < |t.items| && t.items[m] == item {
      BaseGrowsAt(db, t, paths, item, X, m);
    } else {
      var B, B' := Base(db, paths), Base(db + [t], paths);
      forall k | 0 <= k < |paths| ensures B'[k] == B[k] {
        PrefixEnds(paths[k], t.items);
        BaseWeights(db, t, paths, item, k);
      }
      assert B' == B;
      assert item !in Items(t.items);
    }
  }

  // Among distinct paths only the one that t follows down to `item` gains weight.
  lemma OnlyPathGrows(db: seq<Transaction>, t: Transaction, paths: seq<seq<nat>>, item: nat, m: nat, k: nat, k': nat)
    requires Increasing(t.items) && Distinct(paths) && AllEndIn(paths, item)
    requires m < |t.items| && t.items[m] == item && k < |paths| && paths[k] == t.items[..m + 1] && k' < |paths|
    ensures Base(db + [t], paths)[k'].items == Base(db, paths)[k'].items == paths[k'][..|paths[k']| - 1]
    ensures Base(db + [t], paths)[k'].weight == Base(db, paths)[k'].weight + if k' == k then t.weight else 0
  {
    if paths[k'] <= t.items {
      PrefixEnds(paths[k'], t.items);
    }
    BaseWeights(db, t, paths, item, k');
  }

  lemma BaseGrowsAt(db: seq<Transaction>, t: Transaction, paths: seq<seq<nat>>, item: nat, X: set<nat>, m: nat)
    requires Increasing(t.items) && Distinct(paths) && AllEndIn(paths, item)
    requires m < |t.items| && t.items[m] == item && t.items[..m + 1] in paths
    requires forall x :: x in X ==> x < item
    ensures Support(Base(db + [t], paths), X)
         == Support(Base(db, paths), X) + if X + {item} <= Items(t.items) then t.weight else 0
  {
    hide Base, Support, Distinct, Increasing;
    var B, B' := Base(db, paths), Base(db + [t], paths);
    var k :| 0 <= k < |paths| && paths[k] == t.items[..m + 1];
    forall k' | 0 <= k' < |paths|
      ensures B'[k'].items == B[k'].items && B'[k'].weight == B[k'].weight + if k' == k then t.weight else 0
    {
      OnlyPathGrows(db, t, paths, item, m, k, k');
    }
    assert B' == B[k := Transaction(B[k].items, B[k].weight + t.weight)];
    SupportReweigh(B, k, t.weight, X);
    OnlyPathGrows(db, t, paths, item, m, k, k);
    assert B[k].items == t.items[..m];
    SplitAt(t.items, m, X);
  }

  lemma SplitAt(s: seq<nat>, m: nat, X: set<nat>)
    requires Increasing(s) && m < |s|
    requires forall x :: x in X ==> x < s[m]
    ensures X <= Items(s[..m]) <==> X + {s[m]} <= Items(s)
  {
    forall x | x in X ensures x in s[..m] <==> x in s {
      if x in s {
        var j :| 0 <= j < |s| && s[j] == x;
        assert j < m;
        assert s[..m][j] == x;
      }
    }
    assert s[m] in Items(s);
  }
}
