/**
  FPArray_conditional_pattern_base: the conditional pattern base of an item is
  read off the item array, and its frequent items are collected.
 */
module PatternBase {
  import opened FiniteSets
  import opened Itemsets
  import opened FPTree
  import opened FPArray
  import opened FrequentSets

  // The base as the array presents it: for each node of the item its ancestors, weighted by its count.
  ghost function CondBase(a: Arena, count: seq<nat>, ids: seq<nat>): (r: seq<Transaction>)
    requires Tree(a) && |count| == |a.item| && forall k :: 0 <= k < |ids| ==> 1 <= ids[k] < |a.item|
    ensures |r| == |ids|
  {
    seq(|ids|, k requires 0 <= k < |ids| => Transaction(Ancestors(a, ids[k]), count[ids[k]]))
  }

  ghost function PathsOf(a: Arena, ids: seq<nat>): (r: seq<seq<nat>>)
    requires Tree(a) && forall k :: 0 <= k < |ids| ==> 1 <= ids[k] < |a.item|
    ensures |r| == |ids| && forall k :: 0 <= k < |ids| ==> r[k] == a.paths[ids[k]]
  {
    seq(|ids|, k requires 0 <= k < |ids| => a.paths[ids[k]])
  }

  // The nodes of an item spell exactly the prefixes that end in it.
  lemma NodesCoverItem(tree: FPTree, ids: seq<nat>, x: nat)
    requires tree.Valid() && x < tree.itemno && Distinct(ids)
    requires forall v :: v in ids <==> 1 <= v < |tree.item| && tree.item[v] == x
    ensures forall k :: 0 <= k < |ids| ==> 1 <= ids[k] < |tree.item|
    ensures CoversItem(tree.db, PathsOf(tree.A(), ids), x)
  {
    hide KidsMatchParents, LinksSpellKids, Counted;
    var a := tree.A();
    assert forall k :: 0 <= k < |ids| ==> ids[k] in ids;
    var paths := PathsOf(a, ids);
    forall k | 0 <= k < |paths| ensures |paths[k]| > 0 && paths[k][|paths[k]| - 1] == x {
      assert a.paths[ids[k]] == a.paths[a.parent[ids[k]]] + [a.item[ids[k]]];
    }
    forall k, m | 0 <= k < |tree.db| && 0 <= m < |tree.db[k].items| && tree.db[k].items[m] == x
      ensures tree.db[k].items[..m + 1] in paths
    {
      var p := tree.db[k].items[..m + 1];
      assert p in a.paths;
      var v :| 0 <= v < |a.paths| && a.paths[v] == p;
      assert v != 0;
      assert a.paths[v] == a.paths[a.parent[v]] + [a.item[v]];
      assert p[m] == x;
      assert v in ids;
      var k' :| 0 <= k' < |ids| && ids[k'] == v;
      assert paths[k'] == p;
    }
  }

  // Mining the base of x is mining the tree for sets that contain x above smaller items.
  lemma CondBaseSupport(tree: FPTree, ids: seq<nat>, x: nat, X: set<nat>)
    requires tree.Valid() && x < tree.itemno && Distinct(ids)
    requires forall v :: v in ids <==> 1 <= v < |tree.item| && tree.item[v] == x
    requires forall k :: 0 <= k < |ids| ==> 1 <= ids[k] < |tree.item|
    requires InRange(X, x)
    ensures Support(CondBase(tree.A(), tree.count, ids), X) == Support(tree.db, X + {x})
  {
    hide KidsMatchParents, LinksSpellKids, Complete;
    var a := tree.A();
    NodesCoverItem(tree, ids, x);
    var paths := PathsOf(a, ids);
    BaseSupport(tree.db, tree.itemno, paths, x, X);
    var B, C := Base(tree.db, paths), CondBase(a, tree.count, ids);
    forall k | 0 <= k < |ids| ensures B[k] == C[k] {
      var v := ids[k];
      assert a.paths[v] == Ancestors(a, v) + [a.item[v]];
    }
    assert B == C;
  }

  // What the array must say about the base that is being read.
  ghost predicate Readable(cells: seq<int>, mark: int, entries: seq<Entry>, base: seq<Transaction>, x: nat) {
    && |entries| == |base|
    && forall k :: 0 <= k < |base| ==>
      && entries[k].count == base[k].weight && base[k].weight > 0
      && ReadsUp(cells, entries[k].begin, base[k].items, mark)
      && Increasing(base[k].items) && Below(base[k].items, x)
  }

  lemma BaseIsReadable(tree: FPTree, cells: seq<int>, mark: int, list: seq<seq<Entry>>, ids: seq<seq<nat>>, x: nat)
    requires tree.Valid() && x < tree.itemno
    requires Flattened(tree.A(), tree.count, x + 1, cells, mark, list, ids)
    ensures forall k :: 0 <= k < |ids[x]| ==> 1 <= ids[x][k] < |tree.item|
    ensures Readable(cells, mark, list[x], CondBase(tree.A(), tree.count, ids[x]), x)
  {
    hide KidsMatchParents, LinksSpellKids, Complete, ReadsUp;
    var a, base := tree.A(), CondBase(tree.A(), tree.count, ids[x]);
    forall k | 0 <= k < |base| ensures Below(base[k].items, x) && Increasing(base[k].items) {
      var v := ids[x][k];
      assert v in ids[x];
      assert a.paths[v] == Ancestors(a, v) + [x];
      assert a.paths[v][|a.paths[v]| - 1] == x;
      forall i | 0 <= i < |base[k].items| ensures base[k].items[i] < x {
        assert a.paths[v][i] == base[k].items[i];
      }
    }
  }

  // The j-th cell read: the j-th ancestor from below, or the mark.
  lemma ReadsUpAt(cells: seq<int>, begin: int, anc: seq<nat>, mark: int, j: nat)
    requires ReadsUp(cells, begin, anc, mark) && j <= |anc|
    ensures cells[begin + j] == mark <==> j == |anc|
    ensures j < |anc| ==> cells[begin + j] == anc[|anc| - 1 - j]
  {
    if j < |anc| {
      var d := |anc| - 1 - j;
      assert cells[begin + |anc| - 1 - d] == anc[d];
    }
  }

  // Adds the weight of one node to each of its ancestors.
  method CountTransaction(cells: array<int>, mark: int, e: Entry, supp0: seq<nat>, ghost items: seq<nat>)
    returns (supp: seq<nat>)
    requires ReadsUp(cells[..], e.begin, items, mark) && Increasing(items) && Below(items, |supp0|)
    ensures |supp| == |supp0|
    ensures forall y :: 0 <= y < |supp| ==> supp[y] == supp0[y] + if y in items then e.count else 0
  {
    supp := supp0;
    var j := 0;
    ghost var n := |items|;
    while cells[e.begin + j] != mark
      invariant 0 <= j <= n && |supp| == |supp0|
      invariant forall y :: 0 <= y < |supp| ==> supp[y] == supp0[y] + if y in items[n - j..] then e.count else 0
      decreases n - j
    {
      var y := cells[e.begin + j];
      ReadsUpAt(cells[..], e.begin, items, mark, j);
      assert items[n - 1 - j..] == [items[n - 1 - j]] + items[n - j..];
      assert items[n - 1 - j] !in items[n - j..];
      supp := supp[y := supp[y] + e.count];
      j := j + 1;
    }
    ReadsUpAt(cells[..], e.begin, items, mark, j);
    assert items[0..] == items;
  }

  lemma SupportPrefixStep(base: seq<Transaction>, k: nat, y: nat)
    requires k < |base|
    ensures Support(base[..k + 1], {y}) == Support(base[..k], {y}) + if y in base[k].items then base[k].weight else 0
  {
    assert base[..k + 1] == base[..k] + [base[k]];
    SupportAppend(base[..k], base[k], {y});
  }

  method CountSupports(cells: array<int>, mark: int, entries: seq<Entry>, x: nat, ghost base: seq<Transaction>)
    returns (supp: seq<nat>)
    requires Readable(cells[..], mark, entries, base, x)
    ensures |supp| == x && forall y :: 0 <= y < x ==> supp[y] == Support(base, {y})
  {
    supp := seq(x, _ => 0);
    for k := 0 to |entries|
      invariant |supp| == x
      invariant forall y :: 0 <= y < x ==> supp[y] == Support(base[..k], {y})
    {
      ghost var before := supp;
      supp := CountTransaction(cells, mark, entries[k], supp, base[k].items);
      forall y | 0 <= y < x ensures supp[y] == Support(base[..k + 1], {y}) {
        SupportPrefixStep(base, k, y);
      }
    }
    assert base[..|entries|] == base;
  }

  // Collects the frequent items, smallest first; rare ones are marked so that they get dropped later.
  method Collect(supp: seq<nat>, threshold: nat, table: seq<nat>, order0: map<nat, int>)
    returns (freq: seq<nat>, names: seq<nat>, counts: seq<nat>, order: map<nat, int>)
    requires |supp| <= |table| && Distinct(table) && threshold >= 1
    ensures Increasing(freq) && |freq| == |names| == |counts|
    ensures forall x :: x in freq <==> 0 <= x < |supp| && supp[x] >= threshold
    ensures forall k :: 0 <= k < |freq| ==> freq[k] < |supp| && names[k] == table[freq[k]] && counts[k] == supp[freq[k]]
    ensures order0.Keys <= order.Keys
    ensures forall x :: 0 <= x < |supp| && 0 < supp[x] < threshold ==> table[x] in order && order[table[x]] == -1
  {
    freq, names, counts, order := [], [], [], order0;
    for i := 0 to |supp|
      invariant order0.Keys <= order.Keys
      invariant Increasing(freq) && |freq| == |names| == |counts| && Below(freq, i)
      invariant forall x :: x in freq <==> 0 <= x < i && supp[x] >= threshold
      invariant forall k :: 0 <= k < |freq| ==>
                  freq[k] < |supp| && names[k] == table[freq[k]] && counts[k] == supp[freq[k]]
      invariant forall x :: 0 <= x < i && 0 < supp[x] < threshold ==> table[x] in order && order[table[x]] == -1
    {
      if supp[i] >= threshold {
        freq, names, counts := freq + [i], names + [table[i]], counts + [supp[i]];
      } else if supp[i] > 0 {
        order := order[table[i] := -1];
      }
    }
  }
}
