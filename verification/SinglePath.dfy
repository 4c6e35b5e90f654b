/**
  Single_path: when no node has a sibling, the tree is one path, and the
  support of a set of items is the count of its last item on that path.
 */
module SinglePath {
  import opened FiniteSets
  import opened Itemsets
  import opened FPTree
  import opened FPArray
  import opened FrequentSets

  // us are the nodes from the root down, and nothing branches off.
  ghost predicate Chain(a: Arena, us: seq<nat>)
    requires Tree(a)
  {
    && |us| >= 1 && us[0] == 0
    && (forall j :: 0 <= j < |us| ==> us[j] < |a.item|)
    && (forall j {:trigger a.kids[us[j]]} :: 0 <= j < |us| - 1 ==> a.kids[us[j]] == [us[j + 1]])
    && a.kids[us[|us| - 1]] == []
  }

  // The tree is one chain.
  ghost predicate IsChain(a: Arena)
    requires Tree(a)
  {
    exists us :: Chain(a, us)
  }

  // A walk down only children: every chain begins with it.
  lemma {:induction false} ChainFollows(a: Arena, us: seq<nat>, ws: seq<nat>, j: nat)
    requires Tree(a) && Chain(a, ws) && j < |us| && us[0] == 0
    requires forall i :: 0 <= i < |us| ==> us[i] < |a.item|
    requires forall i {:trigger a.kids[us[i]]} :: 0 <= i < |us| - 1 ==> a.kids[us[i]] == [us[i + 1]]
    ensures j < |ws| && ws[j] == us[j] && |a.kids[us[j]]| <= 1
  {
    if j > 0 {
      ChainFollows(a, us, ws, j - 1);
      assert a.kids[us[j - 1]] == [us[j]];
      assert a.kids[ws[j - 1]] != [];
      assert j - 1 < |ws| - 1;
      assert a.kids[ws[j - 1]] == [ws[j]];
    }
  }

  lemma BranchIsNoChain(a: Arena, us: seq<nat>)
    requires Tree(a) && us != [] && us[0] == 0
    requires forall i :: 0 <= i < |us| ==> us[i] < |a.item|
    requires forall i {:trigger a.kids[us[i]]} :: 0 <= i < |us| - 1 ==> a.kids[us[i]] == [us[i + 1]]
    requires |a.kids[us[|us| - 1]]| >= 2
    ensures !IsChain(a)
  {
    if ws :| Chain(a, ws) {
      ChainFollows(a, us, ws, |us| - 1);
    }
  }

  lemma {:induction false} AllOnChain(a: Arena, us: seq<nat>, v: nat)
    requires Tree(a) && Chain(a, us) && v < |a.item|
    ensures v in us
    decreases v
  {
    hide LinksSpellKids, Distinct;
    if v != 0 {
      var p := a.parent[v];
      AllOnChain(a, us, p);
      var j :| 0 <= j < |us| && us[j] == p;
      assert v in a.kids[us[j]];
      assert us[j + 1] == v;
    } else {
      assert us[0] == 0;
    }
  }

  lemma {:induction false} ChainPath(a: Arena, us: seq<nat>, j: nat)
    requires Tree(a) && Chain(a, us) && j < |us|
    ensures |a.paths[us[j]]| == j
    ensures forall i :: 0 <= i < j ==> us[i + 1] < |a.item| && a.paths[us[j]][i] == a.item[us[i + 1]]
  {
    hide LinksSpellKids, Distinct;
    if j > 0 {
      ChainPath(a, us, j - 1);
      assert a.kids[us[j - 1]][0] == us[j];
      assert a.parent[us[j]] == us[j - 1];
    }
  }

  lemma LastIsLargest(p: seq<nat>, k: nat)
    requires Increasing(p) && k < |p|
    ensures k < |p| - 1 ==> p[k] < p[|p| - 1]
  {
  }

  // A path with all the items below n is 0, 1, ..., n - 1.
  lemma {:induction false} FullPath(p: seq<nat>, n: nat)
    requires Increasing(p) && Below(p, n) && forall y :: 0 <= y < n ==> y in p
    ensures |p| == n && forall i :: 0 <= i < n ==> p[i] == i
  {
    IncreasingIsShort(p, n);
    if n > 0 {
      var last := |p| - 1;
      assert n - 1 in p;
      var k :| 0 <= k < |p| && p[k] == n - 1;
      LastIsLargest(p, k);
      assert k == last;
      forall y | 0 <= y < n - 1 ensures y in p[..last] {
        assert y in p;
        var m :| 0 <= m < |p| && p[m] == y;
        assert p[..last][m] == y;
      }
      FullPath(p[..last], n - 1);
    }
  }

  lemma {:induction false} SupportMeansOccurs(db: seq<Transaction>, y: nat)
    requires Support(db, {y}) > 0
    ensures exists k :: 0 <= k < |db| && y in db[k].items
  {
    var t := db[|db| - 1];
    if y !in t.items {
      SupportMeansOccurs(db[..|db| - 1], y);
      var k :| 0 <= k < |db| - 1 && y in db[..|db| - 1][k].items;
      assert y in db[k].items;
    }
  }

  ghost predicate IsCounting(s: seq<nat>) {
    forall i :: 0 <= i < |s| ==> s[i] == i
  }

  // With every item in use, all transactions of a single-path tree count up from 0.
  lemma ChainTransactions(tree: FPTree, us: seq<nat>)
    requires tree.Valid() && Chain(tree.A(), us)
    requires forall y :: 0 <= y < tree.itemno ==> Support(tree.db, {y}) > 0
    ensures IsCounting(tree.A().paths[us[|us| - 1]]) && |us| == tree.itemno + 1
    ensures forall k :: 0 <= k < |tree.db| ==> IsCounting(tree.db[k].items)
  {
    hide LinksSpellKids, KidsMatchParents, Distinct, Counted;
    var a, last := tree.A(), |us| - 1;
    var p := a.paths[us[last]];
    ChainPath(a, us, last);
    forall k | 0 <= k < |tree.db| ensures tree.db[k].items <= p {
      OnTheChain(tree, us, k);
    }
    forall y | 0 <= y < tree.itemno ensures y in p {
      SupportMeansOccurs(tree.db, y);
      var k :| 0 <= k < |tree.db| && y in tree.db[k].items;
    }
    FullPath(p, tree.itemno);
  }

  lemma OnTheChain(tree: FPTree, us: seq<nat>, k: nat)
    requires tree.Valid() && Chain(tree.A(), us) && k < |tree.db|
    ensures tree.db[k].items <= tree.A().paths[us[|us| - 1]]
  {
    hide LinksSpellKids, KidsMatchParents, Distinct, Counted, PathsGrow;
    var a, last, t := tree.A(), |us| - 1, tree.db[k].items;
    assert t[..|t|] == t;
    assert t in a.paths;
    var v :| 0 <= v < |a.paths| && a.paths[v] == t;
    AllOnChain(a, us, v);
    var j :| 0 <= j < |us| && us[j] == v;
    ChainPath(a, us, j);
    ChainPath(a, us, last);
  }

  lemma {:induction false} CountingSupport(db: seq<Transaction>, Y: set<nat>, m: nat)
    requires forall k :: 0 <= k < |db| ==> IsCounting(db[k].items)
    requires m in Y && forall y :: y in Y ==> y <= m
    ensures Support(db, Y) == Support(db, {m})
  {
    if db != [] {
      CountingSupport(db[..|db| - 1], Y, m);
      var s := db[|db| - 1].items;
      if m in s {
        var i :| 0 <= i < |s| && s[i] == m;
        forall y | y in Y ensures y in s {
          assert s[y] == y;
        }
      }
    }
  }

  // Walks down the first children; any sibling on the way means the tree branches.
  method IsSinglePath(tree: FPTree) returns (single: bool, path: seq<nat>)
    requires tree.Valid() && tree.itemno > 0
    requires forall y :: 0 <= y < tree.itemno ==> Support(tree.db, {y}) > 0
    ensures single <==> IsChain(tree.A())
    ensures single ==> IsCounting(path) && |path| == tree.itemno
    ensures single ==> forall k :: 0 <= k < |tree.db| ==> IsCounting(tree.db[k].items)
  {
    hide Distinct, Counted, Complete, Orderly, WellFormed, Reserved;
    ghost var a := tree.A();
    var node := tree.left[0];
    ghost var us: seq<nat> := [0];
    path := [];
    while node != NIL
      invariant |us| >= 1 && us[0] == 0 && |path| == |us| - 1
      invariant forall j :: 0 <= j < |us| ==> us[j] < |a.item|
      invariant forall j {:trigger a.kids[us[j]]} :: 0 <= j < |us| - 1 ==> a.kids[us[j]] == [us[j + 1]]
      invariant node == tree.left[us[|us| - 1]]
      invariant forall i :: 0 <= i < |path| ==> path[i] == a.item[us[i + 1]]
      decreases |tree.item| - us[|us| - 1]
    {
      ghost var u := us[|us| - 1];
      assert a.kids[u] != [] && node == a.kids[u][0];
      assert tree.right[a.kids[u][0]] == if 1 < |a.kids[u]| then a.kids[u][1] else NIL;
      if tree.right[node] != NIL {
        BranchIsNoChain(a, us);
        return false, [];
      }
      path := path + [tree.item[node]];
      us := us + [node];
      node := tree.left[node];
    }
    ChainTransactions(tree, us);
    ChainPath(a, us, |us| - 1);
    assert path == a.paths[us[|us| - 1]];
    single := true;
  }
}
