/**
  The prefix tree of fp_tree.cpp.  Nodes live in an arena and refer to each
  other by index, as the Fnodes carved out of fp_tree_buf do by address;
  NIL is the null pointer and node 0 is Root.
 */
module FPTree {
  import opened FiniteSets
  import opened Itemsets

  const NIL := -1

  // The links of the arena together with the tree they are meant to spell out.
  datatype Arena = Arena(
    left: seq<int>, right: seq<int>, item: seq<int>,
    paths: seq<seq<nat>>,  // the items from the root down to each node
    parent: seq<nat>,
    kids: seq<seq<nat>>)   // the children of each node in sibling order

  ghost predicate Sized(a: Arena) {
    |a.left| == |a.right| == |a.item| == |a.paths| == |a.parent| == |a.kids| > 0
  }

  ghost predicate PathsGrow(a: Arena)
    requires Sized(a)
  {
    && a.paths[0] == []
    && forall v :: 1 <= v < |a.item| ==>
         a.parent[v] < v && a.item[v] >= 0 && a.paths[v] == a.paths[a.parent[v]] + [a.item[v]]
  }

  ghost predicate KidsMatchParents(a: Arena)
    requires Sized(a)
  {
    && (forall j, m :: 0 <= j < |a.kids| && 0 <= m < |a.kids[j]| ==>
          1 <= a.kids[j][m] < |a.item| && a.parent[a.kids[j][m]] == j)
    && (forall j :: 0 <= j < |a.kids| ==> Distinct(a.kids[j]))
    && (forall v :: 1 <= v < |a.item| ==> a.parent[v] < v && v in a.kids[a.parent[v]])
  }

  // leftchild is the first child, and rightsibling walks through the others.
  ghost predicate LinksSpellKids(a: Arena)
    requires Sized(a) && KidsMatchParents(a)
  {
    && (forall j :: 0 <= j < |a.kids| ==>
          a.left[j] == if a.kids[j] == [] then NIL else a.kids[j][0])
    && (forall j, m {:trigger a.right[a.kids[j][m]]} :: 0 <= j < |a.kids| && 0 <= m < |a.kids[j]| ==>
          a.right[a.kids[j][m]] == if m + 1 < |a.kids[j]| then a.kids[j][m + 1] else NIL)
  }

  ghost predicate Tree(a: Arena) {
    Sized(a) && PathsGrow(a) && Distinct(a.paths) && KidsMatchParents(a) && LinksSpellKids(a)
  }

  ghost predicate HasChild(a: Arena, c: nat, x: int)
    requires Tree(a) && c < |a.item|
  {
    exists m :: 0 <= m < |a.kids[c]| && a.item[a.kids[c][m]] == x
  }

  /* ---------- linking in one new node ---------- */

  // A new child goes behind the first one.
  ghost function InsertSecond(ks: seq<nat>, v: nat): seq<nat> {
    if ks == [] then [v] else [ks[0], v] + ks[1..]
  }

  ghost function Attach(a: Arena, c: nat, x: nat): Arena
    requires Tree(a) && c < |a.item|
  {
    var v := |a.item|;
    Arena(
      (if a.kids[c] == [] then a.left[c := v] else a.left) + [NIL],
      if a.kids[c] == [] then a.right + [NIL] else a.right[a.kids[c][0] := v] + [a.right[a.kids[c][0]]],
      a.item + [x],
      a.paths + [a.paths[c] + [x]],
      a.parent + [c],
      a.kids[c := InsertSecond(a.kids[c], v)] + [[]])
  }

  lemma PathOfChild(a: Arena, c: nat, v: nat)
    requires Tree(a) && c < |a.item| && 1 <= v < |a.item| && a.parent[v] == c
    ensures exists m :: 0 <= m < |a.kids[c]| && a.kids[c][m] == v
    ensures a.item[v] >= 0 && a.paths[v] == a.paths[c] + [a.item[v]]
  {
  }

  // Nodes with one path are one node, so a path decides its parent's path.
  lemma ChildByPath(a: Arena, c: nat, x: nat, v: nat)
    requires Tree(a) && c < |a.item| && v < |a.item|
    requires a.paths[v] == a.paths[c] + [x]
    ensures HasChild(a, c, x)
  {
    assert v != 0;
    var q := a.parent[v];
    assert a.paths[v] == a.paths[q] + [a.item[v]];
    assert a.paths[v][..|a.paths[v]| - 1] == a.paths[q] == a.paths[c];
    assert q == c;
    PathOfChild(a, c, v);
  }

  lemma InsertSecondAt(ks: seq<nat>, v: nat)
    ensures var r := InsertSecond(ks, v);
      && |r| == |ks| + 1
      && (ks == [] ==> r[0] == v)
      && (ks != [] ==> r[0] == ks[0] && r[1] == v)
      && (forall m :: 2 <= m < |r| ==> r[m] == ks[m - 1])
      && (forall u :: u in r <==> u == v || u in ks)
      && (Distinct(ks) && v !in ks ==> Distinct(r))
  {
    var r := InsertSecond(ks, v);
    if ks != [] {
      assert ks == [ks[0]] + ks[1..];
    }
  }

  lemma AttachedKid(a: Arena, c: nat, x: nat, j: nat, m: nat)
    requires Tree(a) && c < |a.item|
    requires j < |a.item| + 1 && m < |Attach(a, c, x).kids[j]|
    ensures var a' := Attach(a, c, x); 1 <= a'.kids[j][m] < |a'.item| && a'.parent[a'.kids[j][m]] == j
  {
    var a' := Attach(a, c, x);
    if j == c {
      InsertSecondAt(a.kids[c], |a.item|);
      assert a'.kids[c][m] == |a.item| || a'.kids[c][m] in a.kids[c];
    } else {
      assert a'.kids[j] == a.kids[j];
    }
  }

  lemma AttachKeepsKids(a: Arena, c: nat, x: nat)
    requires Tree(a) && c < |a.item|
    ensures Sized(Attach(a, c, x)) && KidsMatchParents(Attach(a, c, x))
  {
    var a' := Attach(a, c, x);
    forall j, m | 0 <= j < |a'.kids| && 0 <= m < |a'.kids[j]|
      ensures 1 <= a'.kids[j][m] < |a'.item| && a'.parent[a'.kids[j][m]] == j
    {
      AttachedKid(a, c, x, j, m);
    }
    InsertSecondAt(a.kids[c], |a.item|);
    forall j | 0 <= j < |a'.kids| ensures Distinct(a'.kids[j]) {
      assert j != c && j < |a.item| ==> a'.kids[j] == a.kids[j];
    }
    forall u | 1 <= u < |a'.item| ensures a'.parent[u] < u && u in a'.kids[a'.parent[u]] {
      if u < |a.item| {
        assert u in a.kids[a.parent[u]];
      }
    }
  }

  lemma AttachedLink(a: Arena, c: nat, x: nat, j: nat, m: nat)
    requires Tree(a) && c < |a.item|
    requires j < |a.item| + 1 && m < |Attach(a, c, x).kids[j]|
    ensures var a' := Attach(a, c, x);
      && 0 <= a'.kids[j][m] < |a'.right|
      && a'.right[a'.kids[j][m]] == if m + 1 < |a'.kids[j]| then a'.kids[j][m + 1] else NIL
  {
    var a' := Attach(a, c, x);
    if j == c {
      InsertSecondAt(a.kids[c], |a.item|);
      assert m >= 2 ==> a.kids[c][m - 1] != a.kids[c][0];
    } else {
      assert a'.kids[j] == a.kids[j];
      assert a.parent[a.kids[j][m]] == j;
      assert a.kids[c] != [] ==> a.parent[a.kids[c][0]] == c;
      assert a'.right[a.kids[j][m]] == a.right[a.kids[j][m]];
    }
  }

  lemma AttachKeepsLinks(a: Arena, c: nat, x: nat)
    requires Tree(a) && c < |a.item|
    requires Sized(Attach(a, c, x)) && KidsMatchParents(Attach(a, c, x))
    ensures LinksSpellKids(Attach(a, c, x))
  {
    var a' := Attach(a, c, x);
    forall j, m | 0 <= j < |a'.kids| && 0 <= m < |a'.kids[j]|
      ensures a'.right[a'.kids[j][m]] == if m + 1 < |a'.kids[j]| then a'.kids[j][m + 1] else NIL
    {
      AttachedLink(a, c, x, j, m);
    }
    forall j | 0 <= j < |a'.kids|
      ensures a'.left[j] == if a'.kids[j] == [] then NIL else a'.kids[j][0]
    {
      InsertSecondAt(a.kids[c], |a.item|);
    }
  }

  lemma LeftIsFirst(a: Arena, c: nat)
    requires Tree(a) && c < |a.item|
    ensures a.left[c] == NIL <==> a.kids[c] == []
  {
  }

  lemma Childless(a: Arena, c: nat, x: nat)
    requires Tree(a) && c < |a.item| && a.kids[c] == []
    ensures !HasChild(a, c, x)
  {
  }

  lemma AttachKeepsTree(a: Arena, c: nat, x: nat)
    requires Tree(a) && c < |a.item| && !HasChild(a, c, x)
    ensures Tree(Attach(a, c, x))
  {
    var a' := Attach(a, c, x);
    AttachKeepsKids(a, c, x);
    AttachKeepsLinks(a, c, x);
    NewPathIsNew(a, c, x);
    forall i, j | 0 <= i < j < |a'.paths| ensures a'.paths[i] != a'.paths[j] {
      assert i < |a.item|;
      assert a.paths[i] in a.paths;
    }
  }

  /* ---------- what the counts of the tree say about a database ---------- */

  ghost predicate Complete(a: Arena, db: seq<Transaction>) {
    forall k, m :: 0 <= k < |db| && 0 < m <= |db[k].items| ==> db[k].items[..m] in a.paths
  }

  ghost predicate Orderly(a: Arena, itemno: nat) {
    forall v :: 0 <= v < |a.paths| ==> Increasing(a.paths[v]) && Below(a.paths[v], itemno)
  }

  // Each node counts the transactions below it, plus w when it lies on the part of `pending` walked so far.
  ghost predicate Counted(a: Arena, count: seq<nat>, db: seq<Transaction>, pending: seq<nat>, w: nat) {
    && |count| == |a.paths|
    && forall v :: 1 <= v < |a.paths| ==>
         count[v] == PrefixWeight(db, a.paths[v]) + (if a.paths[v] <= pending then w else 0) && count[v] > 0
  }

  lemma CompletePrefix(a: Arena, db: seq<Transaction>, k: nat, p: seq<nat>)
    requires Complete(a, db) && k < |db| && p != []
    ensures p <= db[k].items ==> p in a.paths
  {
    if p <= db[k].items {
      assert db[k].items[..|p|] == p;
    }
  }

  lemma {:induction false} AbsentPath(a: Arena, db: seq<Transaction>, p: seq<nat>, n: nat)
    requires Complete(a, db) && p !in a.paths && p != [] && n <= |db|
    ensures PrefixWeight(db[..n], p) == 0
  {
    if n > 0 {
      assert db[..n][..n - 1] == db[..n - 1];
      AbsentPath(a, db, p, n - 1);
      CompletePrefix(a, db, n - 1, p);
    }
  }

  lemma PrefixStep(p: seq<nat>, s: seq<nat>, i: nat)
    requires i < |s|
    ensures p <= s[..i + 1] <==> p <= s[..i] || p == s[..i + 1]
  {
  }

  lemma CountOneMore(a: Arena, count: seq<nat>, db: seq<Transaction>, compact: seq<nat>, i: nat, w: nat, v: nat)
    requires i < |compact| && 1 <= v < |a.paths| && a.paths[v] == compact[..i + 1]
    requires Distinct(a.paths) && Counted(a, count, db, compact[..i], w) && w > 0
    ensures Counted(a, count[v := count[v] + w], db, compact[..i + 1], w)
  {
    forall u | 1 <= u < |a.paths|
      ensures u != v ==> (a.paths[u] <= compact[..i + 1] <==> a.paths[u] <= compact[..i])
    {
      PrefixStep(a.paths[u], compact, i);
    }
    assert !(a.paths[v] <= compact[..i]);
  }

  lemma CountNewNode(a: Arena, a': Arena, count: seq<nat>, db: seq<Transaction>, compact: seq<nat>, i: nat, w: nat)
    requires i < |compact| && |a.paths| > 0 && w > 0
    requires a'.paths == a.paths + [compact[..i + 1]] && compact[..i + 1] !in a.paths
    requires Counted(a, count, db, compact[..i], w) && Complete(a, db)
    ensures Counted(a', count + [w], db, compact[..i + 1], w)
  {
    AbsentPath(a, db, compact[..i + 1], |db|);
    assert db[..|db|] == db;
    forall v | 1 <= v < |a'.paths|
      ensures (count + [w])[v] == PrefixWeight(db, a'.paths[v]) + if a'.paths[v] <= compact[..i + 1] then w else 0
    {
      PrefixStep(a'.paths[v], compact, i);
      assert v < |a.paths| ==> a'.paths[v] == a.paths[v] && a.paths[v] in a.paths;
    }
  }

  lemma CountsFinish(a: Arena, count: seq<nat>, db: seq<Transaction>, t: Transaction)
    requires Counted(a, count, db, t.items, t.weight)
    ensures Counted(a, count, db + [t], [], 0)
  {
    forall v | 1 <= v < |a.paths| ensures count[v] == PrefixWeight(db + [t], a.paths[v]) {
      PrefixWeightAppend(db, t, a.paths[v]);
    }
  }

  /* ---------- the room that insert reserves for the item array ---------- */

  // A first child continues its parent's branch; any other child may need a branch of its own.
  ghost function Room(a: Arena, v: nat): nat
    requires Tree(a) && 1 <= v < |a.item|
  {
    if a.kids[a.parent[v]][0] == v then 1 else |a.paths[v]|
  }

  ghost function Reserved(a: Arena, n: nat): nat
    requires Tree(a) && 1 <= n <= |a.item|
  {
    if n == 1 then 0 else Reserved(a, n - 1) + Room(a, n - 1)
  }

  lemma RoomAfterAttach(a: Arena, c: nat, x: nat, v: nat)
    requires Tree(a) && c < |a.item| && Tree(Attach(a, c, x)) && 1 <= v < |a.item|
    ensures Room(Attach(a, c, x), v) == Room(a, v)
  {
    InsertSecondAt(a.kids[c], |a.item|);
    assert v in a.kids[a.parent[v]];
  }

  lemma {:induction false} ReservedAfterAttach(a: Arena, c: nat, x: nat, n: nat)
    requires Tree(a) && c < |a.item| && Tree(Attach(a, c, x)) && 1 <= n <= |a.item|
    ensures Reserved(Attach(a, c, x), n) == Reserved(a, n)
  {
    if n > 1 {
      ReservedAfterAttach(a, c, x, n - 1);
      RoomAfterAttach(a, c, x, n - 1);
    }
  }

  lemma RoomOfNewNode(a: Arena, c: nat, x: nat)
    requires Tree(a) && c < |a.item| && Tree(Attach(a, c, x))
    ensures Room(Attach(a, c, x), |a.item|) == if a.kids[c] == [] then 1 else |a.paths[c]| + 1
  {
    hide LinksSpellKids;
    var a', v := Attach(a, c, x), |a.item|;
    assert a'.parent[v] == c && a'.paths[v] == a.paths[c] + [x];
    assert a'.kids[c] == InsertSecond(a.kids[c], v);
    InsertSecondAt(a.kids[c], v);
    assert a.kids[c] != [] ==> a.kids[c][0] < v;
  }

  lemma ReservedForNewNode(a: Arena, c: nat, x: nat)
    requires Tree(a) && c < |a.item| && Tree(Attach(a, c, x))
    ensures Reserved(Attach(a, c, x), |a.item| + 1)
         == Reserved(a, |a.item|) + if a.kids[c] == [] then 1 else |a.paths[c]| + 1
  {
    hide Tree, Attach, Room;
    ReservedAfterAttach(a, c, x, |a.item|);
    RoomOfNewNode(a, c, x);
  }

  lemma NewPathIsNew(a: Arena, c: nat, x: nat)
    requires Tree(a) && c < |a.item| && !HasChild(a, c, x)
    ensures a.paths[c] + [x] !in a.paths
  {
    forall v | 0 <= v < |a.paths| ensures a.paths[v] == a.paths[c] + [x] ==> HasChild(a, c, x) {
      if a.paths[v] == a.paths[c] + [x] {
        ChildByPath(a, c, x, v);
      }
    }
  }

  // How many nodes carry item x.
  ghost function NodesWith(item: seq<int>, x: int): nat {
    if item == [] then 0 else NodesWith(item[..|item| - 1], x) + if item[|item| - 1] == x then 1 else 0
  }

  lemma NodesWithAppend(item: seq<int>, x: int)
    ensures forall y :: NodesWith(item + [x], y) == NodesWith(item, y) + if x == y then 1 else 0
  {
    assert (item + [x])[..|item|] == item;
  }

  lemma NewPathKeepsOrder(a: Arena, a': Arena, compact: seq<nat>, i: nat, itemno: nat, db: seq<Transaction>)
    requires i < |compact| && a'.paths == a.paths + [compact[..i + 1]]
    requires Increasing(compact) && Below(compact, itemno) && Orderly(a, itemno) && Complete(a, db)
    ensures Orderly(a', itemno) && Complete(a', db)
  {
  }

  /* ---------- the mutable tree ---------- */

  class FPTree {
    var itemno: nat
    var left: seq<int>
    var right: seq<int>
    var item: seq<int>
    var count: seq<nat>
    var nodenum: seq<nat>
    var newDataNum: nat
    ghost var paths: seq<seq<nat>>
    ghost var parent: seq<nat>
    ghost var kids: seq<seq<nat>>
    ghost var db: seq<Transaction>  // everything inserted so far

    ghost function A(): Arena
      reads this
    {
      Arena(left, right, item, paths, parent, kids)
    }

    ghost predicate Valid()
      reads this
    {
      && Tree(A())
      && WellFormed(db, itemno)
      && Orderly(A(), itemno)
      && Complete(A(), db)
      && Counted(A(), count, db, [], 0)
      && newDataNum == Reserved(A(), |item|)
      && item[0] == -1
      && |nodenum| == itemno
      && (forall x :: 0 <= x < itemno ==> nodenum[x] == NodesWith(item, x))
    }

    constructor (itemno: nat)
      ensures Valid() && this.itemno == itemno && db == []
    {
      this.itemno := itemno;
      left, right, item, count := [NIL], [NIL], [-1], [0];
      nodenum, newDataNum := seq(itemno, _ => 0), 0;
      paths, parent, kids, db := [[]], [0], [[]], [];
    }

    // The walk along the children of `child` looking for x.
    method FindChild(child: nat, x: nat) returns (temp: int)
      requires Tree(A()) && child < |item|
      ensures temp == NIL ==> !HasChild(A(), child, x)
      ensures temp != NIL ==> 1 <= temp < |item| && parent[temp] == child && item[temp] == x
    {
      temp := left[child];
      ghost var m := 0;
      while temp != NIL && item[temp] != x
        invariant 0 <= m <= |kids[child]|
        invariant temp == if m < |kids[child]| then kids[child][m] else NIL
        invariant forall k :: 0 <= k < m ==> item[kids[child][k]] != x
        decreases |kids[child]| - m
      {
        temp := right[temp];
        m := m + 1;
      }
    }

    // Links a new node with item x in as a child of c.
    method NewNode(c: nat, x: nat, counts: nat)
      requires Tree(A()) && c < |item| && !HasChild(A(), c, x)
      requires |count| == |item| && x < |nodenum|
      modifies this
      ensures A() == Attach(old(A()), c, x) && count == old(count) + [counts]
      ensures nodenum == old(nodenum)[x := old(nodenum)[x] + 1]
      ensures itemno == old(itemno) && newDataNum == old(newDataNum) && db == old(db)
    {
      var v := |item|;
      nodenum := nodenum[x := nodenum[x] + 1];
      if left[c] == NIL {
        right := right + [NIL];
        left := left[c := v];
      } else {
        var first := left[c];
        right := right[first := v] + [right[first]];
      }
      left := left + [NIL];
      item := item + [x];
      count := count + [counts];
      paths, parent := paths + [paths[c] + [x]], parent + [c];
      kids := kids[c := InsertSecond(kids[c], v)] + [[]];
    }

    // `child` is the node reached by the first i items of `compact`, whose counts are already raised.
    ghost predicate Walking(compact: seq<nat>, counts: nat, child: nat, i: nat)
      reads this
    {
      && Tree(A())
      && WellFormedTransaction(Transaction(compact, counts), itemno)
      && WellFormed(db, itemno)
      && Orderly(A(), itemno)
      && Complete(A(), db)
      && i <= |compact| && child < |item| && paths[child] == compact[..i]
      && (forall m :: 0 < m <= i ==> compact[..m] in paths)
      && Counted(A(), count, db, compact[..i], counts)
      && item[0] == -1
      && |nodenum| == itemno
      && (forall x :: 0 <= x < itemno ==> nodenum[x] == NodesWith(item, x))
    }

    // Raises the counts along the part of `compact` that the tree already has.
    method WalkDown(compact: seq<nat>, counts: nat) returns (child: nat, i: nat)
      requires Valid() && WellFormedTransaction(Transaction(compact, counts), itemno)
      modifies `count
      ensures Walking(compact, counts, child, i)
      ensures i < |compact| ==> !HasChild(A(), child, compact[i])
    {
      hide LinksSpellKids, KidsMatchParents;
      i, child := 0, 0;
      while i < |compact|
        invariant 0 <= i <= |compact| && child < |item|
        invariant paths[child] == compact[..i]
        invariant forall m :: 0 < m <= i ==> compact[..m] in paths
        invariant Counted(A(), count, db, compact[..i], counts)
      {
        var temp := FindChild(child, compact[i]);
        if temp == NIL {
          break;
        }
        assert paths[temp] == compact[..i + 1];
        CountOneMore(A(), count, db, compact, i, counts, temp);
        count := count[temp := count[temp] + counts];
        child, i := temp, i + 1;
      }
    }

    // Hangs one new node below `child`.
    method Extend(compact: seq<nat>, counts: nat, child: nat, i: nat)
      requires Walking(compact, counts, child, i) && i < |compact| && !HasChild(A(), child, compact[i])
      modifies this
      ensures |item| > 0 && Walking(compact, counts, |item| - 1, i + 1)
      ensures kids[|item| - 1] == []
      ensures Reserved(A(), |item|)
           == old(Reserved(A(), |item|)) + if old(kids[child]) == [] then 1 else i + 1
      ensures itemno == old(itemno) && db == old(db) && newDataNum == old(newDataNum)
    {
      hide LinksSpellKids, KidsMatchParents, Counted, Complete, Orderly, PathsGrow, HasChild, Reserved, Distinct,
           Increasing;
      ghost var a := A();
      assert a.paths[child] + [compact[i]] == compact[..i + 1];
      AttachKeepsTree(a, child, compact[i]);
      NewPathKeepsOrder(a, Attach(a, child, compact[i]), compact, i, itemno, db);
      ReservedForNewNode(a, child, compact[i]);
      NewPathIsNew(a, child, compact[i]);
      CountNewNode(a, Attach(a, child, compact[i]), count, db, compact, i, counts);
      NodesWithAppend(item, compact[i]);
      NewNode(child, compact[i], counts);
    }

    method Insert(compact: seq<nat>, counts: nat)
      requires Valid() && WellFormedTransaction(Transaction(compact, counts), itemno)
      modifies this
      ensures Valid() && itemno == old(itemno)
      ensures db == old(db) + [Transaction(compact, counts)]
    {
      hide LinksSpellKids, KidsMatchParents, Counted, PathsGrow, HasChild, Reserved, Distinct, Increasing, Below;
      var child: nat, i: nat := WalkDown(compact, counts);
      assert left[child] == NIL <==> kids[child] == [] by {
        LeftIsFirst(A(), child);
      }
      if i < |compact| {
        newDataNum := newDataNum + if left[child] == NIL then |compact| - i else |compact|;
        while i < |compact|
          invariant child < |item| && i <= |compact|
          invariant Walking(compact, counts, child, i)
          invariant i < |compact| ==> !HasChild(A(), child, compact[i])
          invariant itemno == old(itemno) && db == old(db)
          invariant newDataNum == Reserved(A(), |item|) + |compact| - i
                      + if i < |compact| && kids[child] != [] then i else 0
        {
          Extend(compact, counts, child, i);
          if i + 1 < |compact| {
            Childless(A(), |item| - 1, compact[i + 1]);
          }
          child, i := |item| - 1, i + 1;
        }
      }
      assert compact[..|compact|] == compact;
      CountsFinish(A(), count, db, Transaction(compact, counts));
      db := db + [Transaction(compact, counts)];
    }
  }
}
