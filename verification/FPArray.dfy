/**
  transform_FPTree_into_FPArray: the prefix tree is flattened into one item
  array.  Every branch is written downwards in memory, headed by a mark, and
  starts on the cell of the previous branch's leaf, which nobody reads.  Each
  node records where its ancestors can be read, upwards, parent first.
 */
module FPArray {
  import opened FiniteSets
  import opened Itemsets
  import opened FPTree

  datatype Entry = Entry(begin: int, count: nat)

  /* ---------- which nodes are still to be visited ---------- */

  // One level of the traversal stack: a node and how many of its children have been taken.
  datatype Level = Level(node: nat, next: nat)

  // v lies in the subtree of some child of p from the next-th on.
  ghost predicate Under(a: Arena, l: Level, v: nat)
    requires Tree(a) && l.node < |a.item| && v < |a.item|
  {
    exists k :: l.next <= k < |a.kids[l.node]| && a.paths[a.kids[l.node][k]] <= a.paths[v]
  }

  ghost predicate LevelOk(a: Arena, l: Level)
    requires Tree(a)
  {
    l.node < |a.item| && l.next <= |a.kids[l.node]|
  }

  ghost predicate StackOk(a: Arena, st: seq<Level>)
    requires Tree(a)
  {
    && (forall d :: 0 <= d < |st| ==> LevelOk(a, st[d]) && |a.paths[st[d].node]| == d)
    && (forall d {:trigger st[d].next} :: 0 <= d < |st| - 1 ==>
          st[d].next >= 1 && st[d + 1].node == a.kids[st[d].node][st[d].next - 1])
  }

  ghost predicate Pending(a: Arena, st: seq<Level>, v: nat)
    requires Tree(a) && StackOk(a, st) && v < |a.item|
  {
    exists d :: 0 <= d < |st| && Under(a, st[d], v)
  }

  ghost predicate Progress(a: Arena, st: seq<Level>, done: set<nat>)
    requires Tree(a) && StackOk(a, st)
  {
    && (forall v :: v in done ==> 1 <= v < |a.item|)
    && (forall v :: 1 <= v < |a.item| ==> (v in done <==> !Pending(a, st, v)))
  }

  // Cutting the path of v short leads to one of its ancestors.
  lemma {:induction false} AncestorAt(a: Arena, v: nat, len: nat) returns (u: nat)
    requires Tree(a) && v < |a.item| && len <= |a.paths[v]|
    ensures u < |a.item| && a.paths[u] == a.paths[v][..len]
    decreases v
  {
    hide KidsMatchParents, LinksSpellKids;
    if len == |a.paths[v]| {
      u := v;
    } else {
      var p := a.parent[v];
      assert a.paths[v] == a.paths[p] + [a.item[v]];
      assert a.paths[v][..len] == a.paths[p][..len];
      u := AncestorAt(a, p, len);
    }
  }

  // A proper descendant of p lies below one of p's children.
  lemma BelowSomeChild(a: Arena, p: nat, v: nat)
    requires Tree(a) && p < |a.item| && v < |a.item|
    requires a.paths[p] <= a.paths[v] && p != v
    ensures Under(a, Level(p, 0), v)
  {
    hide LinksSpellKids;
    assert a.paths[p] != a.paths[v];
    var len := |a.paths[p]| + 1;
    var u := AncestorAt(a, v, len);
    assert u != 0;
    var q := a.parent[u];
    assert a.paths[u] == a.paths[q] + [a.item[u]];
    assert a.paths[q] == a.paths[u][..len - 1] == a.paths[p];
    assert q == p;
    assert u in a.kids[p];
  }

  lemma ChildPath(a: Arena, p: nat, k: nat)
    requires Tree(a) && p < |a.item| && k < |a.kids[p]|
    ensures 1 <= a.kids[p][k] < |a.item| && a.parent[a.kids[p][k]] == p
    ensures a.paths[a.kids[p][k]] == a.paths[p] + [a.item[a.kids[p][k]]]
  {
  }

  // Subtrees of two children have nothing in common.
  lemma OneChildOnly(a: Arena, p: nat, k: nat, k': nat, v: nat)
    requires Tree(a) && p < |a.item| && k < |a.kids[p]| && k' < |a.kids[p]| && v < |a.item|
    requires a.paths[a.kids[p][k]] <= a.paths[v] && a.paths[a.kids[p][k']] <= a.paths[v]
    ensures k == k'
  {
    hide LinksSpellKids;
    ChildPath(a, p, k);
    ChildPath(a, p, k');
    assert a.paths[a.kids[p][k]] == a.paths[v][..|a.paths[p]| + 1] == a.paths[a.kids[p][k']];
    assert a.kids[p][k] == a.kids[p][k'];
  }

  // Taking the next child: its own node, what is below it, and what is left over.
  lemma UnderSplits(a: Arena, l: Level, v: nat)
    requires Tree(a) && LevelOk(a, l) && l.next < |a.kids[l.node]| && v < |a.item|
    ensures a.kids[l.node][l.next] < |a.item|
    ensures var c := a.kids[l.node][l.next];
      && (Under(a, l, v) <==> v == c || Under(a, Level(c, 0), v) || Under(a, Level(l.node, l.next + 1), v))
      && !Under(a, Level(c, 0), c) && !Under(a, Level(l.node, l.next + 1), c)
  {
    hide LinksSpellKids;
    var p, c := l.node, a.kids[l.node][l.next];
    ChildPath(a, p, l.next);
    if a.paths[c] <= a.paths[v] && v != c {
      BelowSomeChild(a, c, v);
    }
    if Under(a, Level(c, 0), v) {
      var k :| 0 <= k < |a.kids[c]| && a.paths[a.kids[c][k]] <= a.paths[v];
      ChildPath(a, c, k);
      assert a.paths[c] <= a.paths[v];
    }
    forall k | 0 <= k < |a.kids[c]| ensures !(a.paths[a.kids[c][k]] <= a.paths[c]) {
      ChildPath(a, c, k);
    }
    forall k | l.next + 1 <= k < |a.kids[p]| ensures !(a.paths[a.kids[p][k]] <= a.paths[c]) {
      ChildPath(a, p, k);
      assert a.kids[p][k] != c;
      assert a.paths[a.kids[p][k]] != a.paths[c];
    }
  }

  lemma PrefixTransitive(p: seq<nat>, q: seq<nat>, r: seq<nat>)
    requires p <= q && q <= r
    ensures p <= r
  {
  }

  // A node below the child taken last is not below a child still to come.
  lemma NotYetUnder(a: Arena, l: Level, v: nat)
    requires Tree(a) && LevelOk(a, l) && l.next >= 1 && v < |a.item| && a.kids[l.node][l.next - 1] < |a.item|
    requires a.paths[a.kids[l.node][l.next - 1]] <= a.paths[v]
    ensures !Under(a, l, v)
  {
    hide LinksSpellKids, PathsGrow;
    if k :| l.next <= k < |a.kids[l.node]| && a.paths[a.kids[l.node][k]] <= a.paths[v] {
      OneChildOnly(a, l.node, k, l.next - 1, v);
    }
  }

  // A node below the top of the stack is not waiting on any lower level.
  lemma OnlyOnTop(a: Arena, st: seq<Level>, d: nat, v: nat)
    requires Tree(a) && StackOk(a, st) && d < |st| - 1 && v < |a.item|
    requires a.paths[st[|st| - 1].node] <= a.paths[v]
    ensures !Under(a, st[d], v)
  {
    hide LinksSpellKids, PathsGrow, KidsMatchParents, Under;
    var top := |st| - 1;
    StackPaths(a, st, d + 1, top);
    PrefixTransitive(a.paths[st[d + 1].node], a.paths[st[top].node], a.paths[v]);
    assert st[d].next >= 1 && st[d + 1].node == a.kids[st[d].node][st[d].next - 1];
    NotYetUnder(a, st[d], v);
  }

  lemma {:induction false} StackPaths(a: Arena, st: seq<Level>, d: nat, e: nat)
    requires Tree(a) && StackOk(a, st) && d <= e < |st|
    ensures a.paths[st[d].node] <= a.paths[st[e].node]
  {
    hide LinksSpellKids;
    if d < e {
      StackPaths(a, st, d, e - 1);
      assert st[e - 1].next >= 1;
      ChildPath(a, st[e - 1].node, st[e - 1].next - 1);
    }
  }

  ghost function Push(a: Arena, st: seq<Level>): (r: seq<Level>)
    requires Tree(a) && StackOk(a, st) && |st| > 0
    requires st[|st| - 1].next < |a.kids[st[|st| - 1].node]|
    ensures |r| == |st| + 1
  {
    var l := st[|st| - 1];
    st[..|st| - 1] + [Level(l.node, l.next + 1), Level(a.kids[l.node][l.next], 0)]
  }

  lemma LevelsOfPush(a: Arena, l: Level)
    requires Tree(a) && LevelOk(a, l) && l.next < |a.kids[l.node]|
    ensures LevelOk(a, Level(l.node, l.next + 1)) && LevelOk(a, Level(a.kids[l.node][l.next], 0))
    ensures |a.paths[a.kids[l.node][l.next]]| == |a.paths[l.node]| + 1
  {
    hide LinksSpellKids;
    ChildPath(a, l.node, l.next);
  }

  ghost predicate LevelAt(a: Arena, st: seq<Level>, d: nat)
    requires Tree(a) && d < |st|
  {
    LevelOk(a, st[d]) && |a.paths[st[d].node]| == d
  }

  ghost predicate LinkAt(a: Arena, st: seq<Level>, d: nat)
    requires Tree(a) && d < |st| - 1
  {
    LevelOk(a, st[d]) && st[d].next >= 1 && st[d + 1].node == a.kids[st[d].node][st[d].next - 1]
  }

  lemma StackAt(a: Arena, st: seq<Level>, d: nat)
    requires Tree(a) && StackOk(a, st) && d < |st|
    ensures LevelAt(a, st, d) && (d < |st| - 1 ==> LinkAt(a, st, d)) && st[d].node < |a.item|
  {
    hide PathsGrow, KidsMatchParents, LinksSpellKids;
    assert d < |st| - 1 ==> st[d].next >= 1;
  }

  lemma IsStack(a: Arena, st: seq<Level>)
    requires Tree(a) && forall d :: 0 <= d < |st| ==> LevelAt(a, st, d)
    requires forall d :: 0 <= d < |st| - 1 ==> LinkAt(a, st, d)
    ensures StackOk(a, st)
  {
    hide PathsGrow, KidsMatchParents, LinksSpellKids;
    forall d | 0 <= d < |st| ensures LevelOk(a, st[d]) && |a.paths[st[d].node]| == d {
      assert LevelAt(a, st, d);
    }
    assert forall d :: 0 <= d < |st| ==> LevelAt(a, st, d);
    forall d | 0 <= d < |st| - 1
      ensures st[d].next >= 1 && st[d + 1].node == a.kids[st[d].node][st[d].next - 1]
    {
      assert LinkAt(a, st, d);
    }
  }

  lemma PushKeepsStack(a: Arena, st: seq<Level>)
    requires Tree(a) && StackOk(a, st) && |st| > 0
    requires st[|st| - 1].next < |a.kids[st[|st| - 1].node]|
    ensures StackOk(a, Push(a, st))
  {
    hide LinksSpellKids, PathsGrow, KidsMatchParents, StackOk, LevelOk;
    var l, st', n := st[|st| - 1], Push(a, st), |st|;
    StackAt(a, st, n - 1);
    LevelsOfPush(a, l);
    assert st'[n - 1] == Level(l.node, l.next + 1) && st'[n] == Level(a.kids[l.node][l.next], 0);
    forall d | 0 <= d <= n ensures LevelAt(a, st', d) && (d < n ==> LinkAt(a, st', d)) {
      if d < n - 1 {
        StackAt(a, st, d);
        assert st'[d] == st[d] && st'[d + 1].node == st[d + 1].node;
      }
    }
    IsStack(a, st');
  }

  lemma PendingAfterPush(a: Arena, st: seq<Level>, v: nat)
    requires Tree(a) && StackOk(a, st) && |st| > 0
    requires st[|st| - 1].next < |a.kids[st[|st| - 1].node]|
    requires StackOk(a, Push(a, st)) && v < |a.item|
    ensures var l := st[|st| - 1]; var c := a.kids[l.node][l.next];
      Pending(a, Push(a, st), v) <==> Pending(a, st, v) && v != c
  {
    hide PathsGrow, KidsMatchParents, LinksSpellKids, Distinct;
    var top, st' := |st| - 1, Push(a, st);
    var l := st[top];
    UnderSplits(a, l, v);
    assert st'[top] == Level(l.node, l.next + 1) && st'[top + 1] == Level(a.kids[l.node][l.next], 0);
    assert forall d :: 0 <= d < top ==> st'[d] == st[d];
    if v == a.kids[l.node][l.next] {
      ChildPath(a, l.node, l.next);
      forall d | 0 <= d < top ensures !Under(a, st[d], v) {
        OnlyOnTop(a, st, d, v);
      }
    } else if Pending(a, st, v) {
      var d :| 0 <= d < |st| && Under(a, st[d], v);
      assert d < top ==> Under(a, st'[d], v);
      assert Under(a, st'[d], v) || Under(a, st'[top + 1], v);
    }
  }

  // Visiting the next child of the top level.
  lemma VisitNext(a: Arena, st: seq<Level>, done: set<nat>)
    requires Tree(a) && StackOk(a, st) && Progress(a, st, done) && |st| > 0
    requires st[|st| - 1].next < |a.kids[st[|st| - 1].node]|
    ensures StackOk(a, Push(a, st))
    ensures var l := st[|st| - 1]; var c := a.kids[l.node][l.next];
      && 1 <= c < |a.item| && c !in done && Progress(a, Push(a, st), done + {c})
  {
    hide PathsGrow, KidsMatchParents, LinksSpellKids, Distinct;
    PushKeepsStack(a, st);
    var l := st[|st| - 1];
    var c := a.kids[l.node][l.next];
    ChildPath(a, l.node, l.next);
    forall v | 1 <= v < |a.item| ensures v in done + {c} <==> !Pending(a, Push(a, st), v) {
      PendingAfterPush(a, st, v);
    }
    UnderSplits(a, l, c);
    assert Under(a, st[|st| - 1], c);
  }

  // Leaving a level whose children have all been taken.
  lemma LeaveLevel(a: Arena, st: seq<Level>, done: set<nat>)
    requires Tree(a) && StackOk(a, st) && Progress(a, st, done) && |st| > 0
    requires st[|st| - 1].next == |a.kids[st[|st| - 1].node]|
    ensures StackOk(a, st[..|st| - 1]) && Progress(a, st[..|st| - 1], done)
  {
    hide PathsGrow, KidsMatchParents, LinksSpellKids, Distinct;
    var st' := st[..|st| - 1];
    forall d {:trigger st'[d].next} | 0 <= d < |st'| - 1
      ensures st'[d].next >= 1 && st'[d + 1].node == a.kids[st'[d].node][st'[d].next - 1]
    {
      assert st[d].next >= 1;
    }
    forall v | 1 <= v < |a.item| ensures Pending(a, st', v) <==> Pending(a, st, v) {
      if Pending(a, st, v) {
        var d :| 0 <= d < |st| && Under(a, st[d], v);
        assert st'[d] == st[d];
      }
      if Pending(a, st', v) {
        var d :| 0 <= d < |st'| && Under(a, st'[d], v);
        assert st'[d] == st[d];
      }
    }
  }

  lemma TraversalStarts(a: Arena)
    requires Tree(a)
    ensures StackOk(a, [Level(0, 0)]) && Progress(a, [Level(0, 0)], {})
  {
    var st := [Level(0, 0)];
    forall v | 1 <= v < |a.item| ensures Pending(a, st, v) {
      BelowSomeChild(a, 0, v);
      assert Under(a, st[0], v);
    }
  }

  /* ---------- room ---------- */

  // The room reserved for the nodes of `done`.
  ghost function RoomOf(a: Arena, done: set<nat>, n: nat): nat
    requires Tree(a) && 1 <= n <= |a.item|
  {
    if n == 1 then 0 else RoomOf(a, done, n - 1) + if n - 1 in done then Room(a, n - 1) else 0
  }

  lemma {:induction false} RoomOfOneMore(a: Arena, done: set<nat>, v: nat, n: nat)
    requires Tree(a) && 1 <= n <= |a.item| && 1 <= v < |a.item| && v !in done
    ensures RoomOf(a, done + {v}, n) == RoomOf(a, done, n) + if v < n then Room(a, v) else 0
  {
    hide Tree, Room;
    if n > 1 {
      RoomOfOneMore(a, done, v, n - 1);
    }
  }

  lemma {:induction false} RoomOfAtMost(a: Arena, done: set<nat>, n: nat)
    requires Tree(a) && 1 <= n <= |a.item|
    ensures RoomOf(a, done, n) <= Reserved(a, n)
  {
    hide Tree, Room;
    if n > 1 {
      RoomOfAtMost(a, done, n - 1);
    }
  }

  /* ---------- what has been written ---------- */

  // From `begin` upwards the cells spell `anc` backwards, and then comes the mark.
  ghost predicate ReadsUp(cells: seq<int>, begin: int, anc: seq<nat>, mark: int) {
    && 0 <= begin && begin + |anc| < |cells| && cells[begin + |anc|] == mark
    && forall d :: 0 <= d < |anc| ==> cells[begin + |anc| - 1 - d] == anc[d] && anc[d] != mark
  }

  ghost function Ancestors(a: Arena, v: nat): seq<nat>
    requires Tree(a) && 1 <= v < |a.item|
  {
    a.paths[a.parent[v]]
  }

  // Entry e of node v: its count, and its ancestors above the cells that may still be written.
  ghost predicate EntryOk(a: Arena, count: seq<nat>, cells: seq<int>, mark: int, floor: int, v: nat, e: Entry)
    requires Tree(a) && |count| == |a.item|
  {
    && 1 <= v < |a.item|
    && e.count == count[v]
    && e.begin > floor
    && ReadsUp(cells, e.begin, Ancestors(a, v), mark)
  }

  // The entries of one item x: one for each visited node with that item.
  ghost predicate ItemListOk(a: Arena, count: seq<nat>, cells: seq<int>, mark: int, floor: int, done: set<nat>,
                             x: nat, entries: seq<Entry>, ids: seq<nat>)
    requires Tree(a) && |count| == |a.item|
  {
    && |entries| == |ids|
    && Distinct(ids)
    && (forall k :: 0 <= k < |ids| ==>
          ids[k] in done && EntryOk(a, count, cells, mark, floor, ids[k], entries[k]) && a.item[ids[k]] == x)
    && (forall v :: v in done && 1 <= v < |a.item| && a.item[v] == x ==> v in ids)
  }

  ghost predicate Recorded(a: Arena, count: seq<nat>, cells: seq<int>, mark: int, floor: int, done: set<nat>,
                           list: seq<seq<Entry>>, ids: seq<seq<nat>>)
    requires Tree(a) && |count| == |a.item|
  {
    |list| == |ids| && forall x :: 0 <= x < |list| ==>
      ItemListOk(a, count, cells, mark, floor, done, x, list[x], ids[x])
  }

  // Writing at or below the floor disturbs nothing that has been recorded.
  lemma RecordedSurvives(a: Arena, count: seq<nat>, cells: seq<int>, cells': seq<int>, mark: int,
                         floor: int, floor': int, done: set<nat>, list: seq<seq<Entry>>, ids: seq<seq<nat>>)
    requires Tree(a) && |count| == |a.item| && -1 <= floor' <= floor
    requires Recorded(a, count, cells, mark, floor, done, list, ids)
    requires |cells'| == |cells| && forall i :: floor < i < |cells| ==> cells'[i] == cells[i]
    ensures Recorded(a, count, cells', mark, floor', done, list, ids)
  {
    hide Tree, Distinct, Ancestors;
    forall x | 0 <= x < |list| ensures ItemListOk(a, count, cells', mark, floor', done, x, list[x], ids[x]) {
      assert ItemListOk(a, count, cells, mark, floor, done, x, list[x], ids[x]);
    }
  }

  lemma RecordOne(a: Arena, count: seq<nat>, cells: seq<int>, mark: int, floor: int, done: set<nat>,
                  list: seq<seq<Entry>>, ids: seq<seq<nat>>, v: nat, e: Entry)
    requires Tree(a) && |count| == |a.item|
    requires Recorded(a, count, cells, mark, floor, done, list, ids)
    requires 1 <= v < |a.item| && 0 <= a.item[v] < |list| && v !in done
    requires EntryOk(a, count, cells, mark, floor, v, e)
    ensures var x := a.item[v];
      Recorded(a, count, cells, mark, floor, done + {v}, list[x := list[x] + [e]], ids[x := ids[x] + [v]])
  {
    hide Tree, EntryOk;
    var x := a.item[v];
    var list', ids' := list[x := list[x] + [e]], ids[x := ids[x] + [v]];
    forall y | 0 <= y < |list'| ensures ItemListOk(a, count, cells, mark, floor, done + {v}, y, list'[y], ids'[y]) {
      assert ItemListOk(a, count, cells, mark, floor, done, y, list[y], ids[y]);
      if y == x {
        assert v !in ids[x];
        assert ids'[x][|ids[x]|] == v;
        assert forall u :: u in ids[x] ==> u in ids'[x];
      }
    }
  }

  /* ---------- the traversal ---------- */

  ghost function NextOf(a: Arena, l: Level): int
    requires Tree(a) && LevelOk(a, l)
  {
    if l.next < |a.kids[l.node]| then a.kids[l.node][l.next] else NIL
  }

  // The stacks of the program match the traversal: siblings still to come, and the items on the way down.
  ghost predicate StacksMatch(a: Arena, st: seq<Level>, levels: nat, nodestack: seq<int>, itemstack: seq<nat>)
    requires Tree(a) && StackOk(a, st)
  {
    && levels <= |st| && levels <= |nodestack| && |st| <= |itemstack| + 1
    && (forall d :: 0 <= d < levels ==> nodestack[d] == NextOf(a, st[d]))
    && (forall d :: 0 <= d < |st| ==> a.paths[st[d].node] == itemstack[..d])
  }

  lemma {:induction false} IncreasingIsShort(s: seq<nat>, n: nat)
    requires Increasing(s) && Below(s, n)
    ensures |s| <= n
  {
    if s != [] {
      IncreasingIsShort(s[..|s| - 1], s[|s| - 1]);
    }
  }

  // The links of a node lead to its first child and its next sibling.
  lemma LinksLead(a: Arena, l: Level)
    requires Tree(a) && LevelOk(a, l) && l.next < |a.kids[l.node]|
    ensures var c := a.kids[l.node][l.next];
      && 1 <= c < |a.item|
      && a.right[c] == NextOf(a, Level(l.node, l.next + 1))
      && a.left[c] == NextOf(a, Level(c, 0))
  {
  }

  lemma RoomOfBranch(a: Arena, l: Level)
    requires Tree(a) && LevelOk(a, l) && l.next < |a.kids[l.node]|
    ensures var c := a.kids[l.node][l.next];
      1 <= c < |a.item| && Room(a, c) == if l.next == 0 then 1 else |a.paths[l.node]| + 1
  {
    ChildPath(a, l.node, l.next);
  }

  // The mark and the ancestors of a new branch.
  method WriteAncestors(cells: array<int>, mark: int, itemstack: seq<nat>, depth: nat, start: int) returns (itemiter: int)
    requires depth <= |itemstack| && depth <= start < cells.Length
    requires forall d :: 0 <= d < depth ==> itemstack[d] != mark
    modifies cells
    ensures itemiter == start - 1 - depth
    ensures ReadsUp(cells[..], itemiter + 1, itemstack[..depth], mark)
    ensures forall i :: start < i < cells.Length ==> cells[i] == old(cells[i])
  {
    itemiter := start;
    cells[itemiter] := mark;
    itemiter := itemiter - 1;
    var i := 0;
    while i < depth
      invariant 0 <= i <= depth && itemiter == start - 1 - i
      invariant cells[start] == mark
      invariant forall d :: 0 <= d < i ==> cells[start - 1 - d] == itemstack[d]
      invariant forall i :: start < i < cells.Length ==> cells[i] == old(cells[i])
    {
      cells[itemiter] := itemstack[i];
      itemiter := itemiter - 1;
      i := i + 1;
    }
  }

  lemma ReadsUpShorter(cells: seq<int>, begin: int, s: seq<nat>, n: nat, mark: int)
    requires n < |s| && ReadsUp(cells, begin, s[..n + 1], mark)
    ensures ReadsUp(cells, begin + 1, s[..n], mark)
  {
    forall d | 0 <= d < n ensures cells[begin + 1 + n - 1 - d] == s[..n][d] && s[..n][d] != mark {
      assert s[..n + 1][d] == s[d];
    }
  }

  lemma ReadsUpLonger(cells: seq<int>, itemiter: int, s: seq<nat>, n: nat, x: nat, mark: int)
    requires n < |s| && 0 <= itemiter < |cells|
    requires ReadsUp(cells, itemiter + 1, s[..n], mark)
    ensures ReadsUp(cells[itemiter := x], itemiter + 1, s[..n], mark)
    ensures x != mark ==> ReadsUp(cells[itemiter := x], itemiter, s[n := x][..n + 1], mark)
  {
    var cells', s' := cells[itemiter := x], s[n := x];
    forall d | 0 <= d < n
      ensures cells'[itemiter + 1 + n - 1 - d] == s[d] && s[d] != mark
    {
      assert s[..n][d] == s[d];
    }
    var t := s'[..n + 1];
    forall d | 0 <= d < |t| ensures cells'[itemiter + |t| - 1 - d] == t[d] && (x != mark ==> t[d] != mark) {
      if d < n {
        assert s[..n][d] == s[d];
      }
    }
  }

  // What is true of a tree that is being flattened.
  ghost predicate Flattening(a: Arena, count: seq<nat>, itemno: nat, cells: seq<int>, mark: int, floor: int,
                             st: seq<Level>, done: set<nat>, list: seq<seq<Entry>>, ids: seq<seq<nat>>)
  {
    && Tree(a) && |count| == |a.item| && Orderly(a, itemno) && itemno <= mark + 1 && |list| == |ids| == itemno
    && StackOk(a, st) && Progress(a, st, done)
    && Recorded(a, count, cells, mark, floor, done, list, ids)
  }

  lemma ItemOfChild(a: Arena, itemno: nat, l: Level)
    requires Tree(a) && Orderly(a, itemno) && LevelOk(a, l) && l.next < |a.kids[l.node]|
    ensures var c := a.kids[l.node][l.next];
      && 1 <= c < |a.item| && 0 <= a.item[c] < itemno && |a.paths[l.node]| < itemno
      && a.paths[c] == a.paths[l.node] + [a.item[c]] && Ancestors(a, c) == a.paths[l.node]
      && forall d :: 0 <= d < |a.paths[l.node]| ==> a.paths[l.node][d] < a.item[c]
  {
    hide LinksSpellKids;
    var c := a.kids[l.node][l.next];
    ChildPath(a, l.node, l.next);
    IncreasingIsShort(a.paths[c], itemno);
    assert a.paths[c][|a.paths[l.node]|] == a.item[c];
    forall d | 0 <= d < |a.paths[l.node]| ensures a.paths[l.node][d] < a.item[c] {
      assert a.paths[c][d] == a.paths[l.node][d];
    }
  }

  // Recording the next child c of the top level, whose ancestors are readable at `begin`.
  lemma VisitAndRecord(a: Arena, count: seq<nat>, itemno: nat, cells: seq<int>, mark: int, floor: int,
                       st: seq<Level>, done: set<nat>, list: seq<seq<Entry>>, ids: seq<seq<nat>>, begin: int)
    requires Flattening(a, count, itemno, cells, mark, floor, st, done, list, ids) && |st| > 0
    requires st[|st| - 1].next < |a.kids[st[|st| - 1].node]|
    requires begin > floor && ReadsUp(cells, begin, a.paths[st[|st| - 1].node], mark)
    ensures var l := st[|st| - 1]; var c := a.kids[l.node][l.next];
      && 1 <= c < |a.item| && c !in done && 0 <= a.item[c] < itemno && StackOk(a, Push(a, st))
      && Flattening(a, count, itemno, cells, mark, floor, Push(a, st), done + {c},
           list[a.item[c] := list[a.item[c]] + [Entry(begin, count[c])]],
           ids[a.item[c] := ids[a.item[c]] + [c]])
  {
    hide PathsGrow, KidsMatchParents, LinksSpellKids, Distinct, Recorded, Progress, Push, ReadsUp, Orderly;
    var l := st[|st| - 1];
    assert LevelOk(a, l);
    var c := a.kids[l.node][l.next];
    ItemOfChild(a, itemno, l);
    VisitNext(a, st, done);
    RecordOne(a, count, cells, mark, floor, done, list, ids, c, Entry(begin, count[c]));
  }

  // One node of a branch: the room it takes, and the stacks after it.
  lemma DescendStep(a: Arena, itemno: nat, st: seq<Level>, done: set<nat>, nodestack: seq<int>, itemstack: seq<nat>)
    requires Tree(a) && Orderly(a, itemno) && StackOk(a, st) && |st| > 0
    requires st[|st| - 1].next < |a.kids[st[|st| - 1].node]|
    requires |nodestack| == |itemstack| == itemno && StacksMatch(a, st, |st| - 1, nodestack, itemstack)
    requires StackOk(a, Push(a, st))
    ensures var l := st[|st| - 1]; var c := a.kids[l.node][l.next];
      && |st| <= itemno && 1 <= c < |a.item| && 0 <= a.item[c] < itemno
      && StacksMatch(a, Push(a, st), |st|, nodestack[|st| - 1 := a.right[c]], itemstack[|st| - 1 := a.item[c]])
      && a.left[c] == NextOf(a, Push(a, st)[|st|])
  {
    hide PathsGrow, KidsMatchParents, LinksSpellKids, Distinct, Orderly;
    var top := |st| - 1;
    var l := st[top];
    var c := a.kids[l.node][l.next];
    ItemOfChild(a, itemno, l);
    LinksLead(a, l);
    var st', nodes', items' := Push(a, st), nodestack[top := a.right[c]], itemstack[top := a.item[c]];
    forall d | 0 <= d < |st'| ensures a.paths[st'[d].node] == items'[..d] {
      if d <= top {
        assert st'[d].node == st[d].node;
        assert itemstack[..d] == items'[..d];
      } else {
        assert a.paths[c] == itemstack[..top] + [a.item[c]] == items'[..top + 1];
      }
    }
    forall d | 0 <= d < |st| ensures nodes'[d] == NextOf(a, st'[d]) {
      assert d < top ==> st'[d] == st[d];
    }
  }

  lemma MarkIsNoItem(a: Arena, l: Level, mark: int, itemno: nat)
    requires Tree(a) && Orderly(a, itemno) && LevelOk(a, l) && l.next < |a.kids[l.node]| && itemno <= mark + 1
    ensures var c := a.kids[l.node][l.next];
      1 <= c < |a.item| && (a.item[c] == mark ==> a.left[c] == NIL)
  {
    ChildPath(a, l.node, l.next);
    var c := a.kids[l.node][l.next];
    if a.left[c] != NIL {
      ItemOfChild(a, itemno, Level(c, 0));
      var g := a.kids[c][0];
      assert a.paths[c][|a.paths[l.node]|] == a.item[c];
    }
  }

  lemma FirstChildRoom(a: Arena, c: nat)
    requires Tree(a) && c < |a.item|
    ensures a.left[c] != NIL ==> c < a.left[c] < |a.item| && Room(a, a.left[c]) == 1
  {
    if a.kids[c] != [] {
      ChildPath(a, c, 0);
    }
  }

  // The variables of the traversal, with what it has visited so far.
  datatype State = State(
    cells: seq<int>, itemiter: int, nodestack: seq<int>, itemstack: seq<nat>, list: seq<seq<Entry>>,
    st: seq<Level>, done: set<nat>, ids: seq<seq<nat>>)

  ghost predicate Flattening'(a: Arena, count: seq<nat>, itemno: nat, mark: int, floor: int, s: State) {
    && Flattening(a, count, itemno, s.cells, mark, floor, s.st, s.done, s.list, s.ids)
    && |s.nodestack| == |s.itemstack| == itemno
    && |s.cells| >= Reserved(a, |a.item|) + 1
  }

  // In the middle of a branch: temp is the next node to write, st ends in the level temp is a child of.
  ghost predicate OnBranch(a: Arena, count: seq<nat>, itemno: nat, mark: int, temp: int, s: State) {
    && Flattening'(a, count, itemno, mark, s.itemiter + 1, s)
    && |s.st| > 0 && StacksMatch(a, s.st, |s.st| - 1, s.nodestack, s.itemstack)
    && temp == NextOf(a, s.st[|s.st| - 1]) && (temp != NIL ==> 1 <= temp < |a.item|)
    && -1 <= s.itemiter < |s.cells|
    && (temp != NIL ==> ReadsUp(s.cells, s.itemiter + 1, s.itemstack[..|s.st| - 1], mark))
    && (temp == NIL ==> |s.st| > 1 && ReadsUp(s.cells, s.itemiter + 2, s.itemstack[..|s.st| - 2], mark))
    && RoomLeft(a, temp, s)
  }

  ghost predicate RoomLeft(a: Arena, temp: int, s: State)
    requires Tree(a) && (temp != NIL ==> 1 <= temp < |a.item|)
  {
    |s.cells| - s.itemiter <= 1 + RoomOf(a, s.done, |a.item|) + if temp == NIL then 1 else Room(a, temp)
  }

  // Writing and recording node temp, whose item is x.
  ghost function Written(a: Arena, count: seq<nat>, s: State, temp: nat, x: nat): State
    requires Tree(a) && StackOk(a, s.st) && 1 <= temp < |a.item| == |count| && x < |s.list| == |s.ids|
    requires |s.nodestack| == |s.itemstack| >= |s.st| > 0 && 0 <= s.itemiter < |s.cells|
    requires s.st[|s.st| - 1].next < |a.kids[s.st[|s.st| - 1].node]|
  {
    var top := |s.st| - 1;
    State(s.cells[s.itemiter := x], s.itemiter - 1,
          s.nodestack[top := a.right[temp]], s.itemstack[top := x],
          s.list[x := s.list[x] + [Entry(s.itemiter + 1, count[temp])]],
          Push(a, s.st), s.done + {temp}, s.ids[x := s.ids[x] + [temp]])
  }

  lemma BranchFacts(a: Arena, count: seq<nat>, itemno: nat, mark: int, temp: int, s: State)
    requires OnBranch(a, count, itemno, mark, temp, s) && temp != NIL
    ensures Tree(a) && 1 <= temp < |a.item| == |count| && 0 <= a.item[temp] < |s.list| == |s.ids|
    ensures 0 <= s.itemiter < |s.cells| && 0 < |s.st| <= |s.nodestack| == |s.itemstack| && temp !in s.done
    ensures StackOk(a, s.st) && s.st[|s.st| - 1].next < |a.kids[s.st[|s.st| - 1].node]|
    ensures a.left[temp] != NIL ==> temp < a.left[temp] < |a.item|
    ensures RoomLeft(a, a.left[temp], Written(a, count, s, temp, a.item[temp]))
  {
    hide PathsGrow, KidsMatchParents, LinksSpellKids, Distinct, Orderly, Progress, Recorded, ReadsUp, Room;
    var l := s.st[|s.st| - 1];
    ItemOfChild(a, itemno, l);
    VisitNext(a, s.st, s.done);
    RoomOfOneMore(a, s.done, temp, |a.item|);
    RoomOfAtMost(a, s.done + {temp}, |a.item|);
    FirstChildRoom(a, temp);
  }

  // Writing and recording temp leads on to its first child.
  lemma BranchStep(a: Arena, count: seq<nat>, itemno: nat, mark: int, temp: nat, s: State)
    requires OnBranch(a, count, itemno, mark, temp, s)
    requires Tree(a) && 1 <= temp < |a.item| == |count| && 0 <= a.item[temp] < |s.list| == |s.ids|
    requires 0 <= s.itemiter < |s.cells| && 0 < |s.st| <= |s.nodestack| == |s.itemstack| && temp !in s.done
    requires StackOk(a, s.st) && s.st[|s.st| - 1].next < |a.kids[s.st[|s.st| - 1].node]|
    requires a.left[temp] != NIL ==> temp < a.left[temp] < |a.item|
    requires RoomLeft(a, a.left[temp], Written(a, count, s, temp, a.item[temp]))
    ensures OnBranch(a, count, itemno, mark, a.left[temp], Written(a, count, s, temp, a.item[temp]))
  {
    hide PathsGrow, KidsMatchParents, LinksSpellKids, Distinct, Orderly, Progress, Recorded, ReadsUp, RoomLeft,
         Reserved;
    var l, top, x := s.st[|s.st| - 1], |s.st| - 1, a.item[temp];
    var s' := Written(a, count, s, temp, x);
    assert LevelOk(a, l);
    MarkIsNoItem(a, l, mark, itemno);
    ReadsUpLonger(s.cells, s.itemiter, s.itemstack, top, x, mark);
    RecordedSurvives(a, count, s.cells, s'.cells, mark, s.itemiter + 1, s.itemiter, s.done, s.list, s.ids);
    assert a.paths[l.node] == s.itemstack[..top];
    VisitAndRecord(a, count, itemno, s'.cells, mark, s.itemiter, s.st, s.done, s.list, s.ids, s.itemiter + 1);
    DescendStep(a, itemno, s.st, s.done, s.nodestack, s.itemstack);
    assert s'.itemstack[..top] == s.itemstack[..top];
  }

  // Between two branches: `kept` is where the ancestors of the level on top can be read.
  ghost predicate Between(a: Arena, count: seq<nat>, itemno: nat, mark: int, kept: int, s: State) {
    && Flattening'(a, count, itemno, mark, s.itemiter, s)
    && StacksMatch(a, s.st, |s.st|, s.nodestack, s.itemstack)
    && (forall d :: 0 <= d < |s.st| ==> s.st[d].next >= 1)
    && 0 <= s.itemiter < |s.cells| && kept > s.itemiter
    && (s.st != [] ==> ReadsUp(s.cells, kept, s.itemstack[..|s.st| - 1], mark))
    && |s.cells| - s.itemiter <= 1 + RoomOf(a, s.done, |a.item|)
  }

  // The end of a branch: the ancestors of its leaf can be read right above the leaf's cell.
  lemma BranchEnds(a: Arena, count: seq<nat>, itemno: nat, mark: int, s: State)
    requires OnBranch(a, count, itemno, mark, NIL, s)
    ensures |s.st| > 1
    ensures Between(a, count, itemno, mark, s.itemiter + 2, s.(itemiter := s.itemiter + 1, st := s.st[..|s.st| - 1]))
  {
    hide PathsGrow, KidsMatchParents, LinksSpellKids, Distinct, Orderly, Progress, Room;
    LeaveLevel(a, s.st, s.done);
    var st' := s.st[..|s.st| - 1];
    forall d | 0 <= d < |st'| ensures st'[d].next >= 1 {
      assert s.st[d].next >= 1;
    }
  }

  // Ready to take the next child of the top level.
  ghost predicate Ready(a: Arena, count: seq<nat>, itemno: nat, mark: int, temp: int, s: State) {
    && Flattening'(a, count, itemno, mark, s.itemiter, s)
    && |s.st| > 0 && StacksMatch(a, s.st, |s.st|, s.nodestack, s.itemstack)
    && s.st[|s.st| - 1].next < |a.kids[s.st[|s.st| - 1].node]|
    && temp == a.kids[s.st[|s.st| - 1].node][s.st[|s.st| - 1].next]
    && 1 <= temp < |a.item|
    && 0 <= s.itemiter < |s.cells|
    && |s.cells| - s.itemiter <= 1 + RoomOf(a, s.done, |a.item|)
  }

  lemma BranchFits(a: Arena, count: seq<nat>, itemno: nat, mark: int, temp: int, s: State)
    requires Ready(a, count, itemno, mark, temp, s)
    requires s.st[|s.st| - 1].next > 0 || |s.st| == 1
    ensures |s.st| - 1 <= s.itemiter < |s.cells| && |s.st| <= |s.itemstack|
    ensures forall d :: 0 <= d < |s.st| - 1 ==> s.itemstack[d] != mark
    ensures RoomLeft(a, temp, s.(itemiter := s.itemiter - |s.st|))
  {
    hide PathsGrow, KidsMatchParents, LinksSpellKids, Distinct, Orderly, Progress, Recorded, Room;
    var l, depth := s.st[|s.st| - 1], |s.st| - 1;
    ItemOfChild(a, itemno, l);
    RoomOfBranch(a, l);
    VisitNext(a, s.st, s.done);
    RoomOfOneMore(a, s.done, temp, |a.item|);
    RoomOfAtMost(a, s.done + {temp}, |a.item|);
    forall d | 0 <= d < depth ensures s.itemstack[d] != mark {
      assert a.paths[l.node][d] == s.itemstack[..depth][d];
    }
  }

  // Once the ancestors stand in the array, the branch of temp can be written.
  lemma BranchStarts(a: Arena, count: seq<nat>, itemno: nat, mark: int, temp: int, s: State, s': State)
    requires Ready(a, count, itemno, mark, temp, s)
    requires s' == s.(cells := s'.cells, itemiter := s.itemiter - |s.st|)
    requires |s.st| - 1 <= s.itemiter && RoomLeft(a, temp, s.(itemiter := s'.itemiter))
    requires |s'.cells| == |s.cells| && forall i :: s.itemiter < i < |s.cells| ==> s'.cells[i] == s.cells[i]
    requires |s.st| <= |s.itemstack| && ReadsUp(s'.cells, s'.itemiter + 1, s.itemstack[..|s.st| - 1], mark)
    ensures OnBranch(a, count, itemno, mark, temp, s')
  {
    hide PathsGrow, KidsMatchParents, LinksSpellKids, Distinct, Orderly, Progress, Recorded, ReadsUp, RoomOf,
         Reserved;
    RecordedSurvives(a, count, s.cells, s'.cells, mark, s.itemiter, s'.itemiter + 1, s.done, s.list, s.ids);
  }

  // A childless node shares the ancestors that the last branch left behind.
  lemma LeafStep(a: Arena, count: seq<nat>, itemno: nat, mark: int, temp: nat, kept: int, s: State)
    requires Ready(a, count, itemno, mark, temp, s) && Between(a, count, itemno, mark, kept, s)
    requires a.left[temp] == NIL
    ensures |s.st| <= |s.nodestack| && 0 <= a.item[temp] < |s.list| == |s.ids| && temp !in s.done && temp < |count|
    ensures var x, top := a.item[temp], |s.st| - 1;
      Between(a, count, itemno, mark, kept,
        s.(nodestack := s.nodestack[top := a.right[temp]],
           list := s.list[x := s.list[x] + [Entry(kept, count[temp])]],
           st := s.st[top := Level(s.st[top].node, s.st[top].next + 1)],
           done := s.done + {temp},
           ids := s.ids[x := s.ids[x] + [temp]]))
  {
    hide PathsGrow, KidsMatchParents, LinksSpellKids, Distinct, Orderly, Progress, Recorded, ReadsUp, Reserved, RoomOf;
    var top, x := |s.st| - 1, a.item[temp];
    var l := s.st[top];
    ItemOfChild(a, itemno, l);
    LinksLead(a, l);
    LeftIsFirst(a, temp);
    assert a.paths[l.node] == s.itemstack[..top];
    VisitAndRecord(a, count, itemno, s.cells, mark, s.itemiter, s.st, s.done, s.list, s.ids, kept);
    LeaveLevel(a, Push(a, s.st), s.done + {temp});
    var st' := s.st[top := Level(l.node, l.next + 1)];
    assert Push(a, s.st)[..|s.st|] == st';
    RoomOfGrows(a, s.done, temp);
  }

  lemma RoomOfGrows(a: Arena, done: set<nat>, v: nat)
    requires Tree(a) && 1 <= v < |a.item| && v !in done
    ensures RoomOf(a, done, |a.item|) <= RoomOf(a, done + {v}, |a.item|)
  {
    RoomOfOneMore(a, done, v, |a.item|);
  }

  // Nothing left on the top level: one step up, where one ancestor fewer is to be read.
  lemma PopStep(a: Arena, count: seq<nat>, itemno: nat, mark: int, kept: int, s: State)
    requires Between(a, count, itemno, mark, kept, s)
    requires |s.st| > 0 && s.st[|s.st| - 1].next == |a.kids[s.st[|s.st| - 1].node]|
    ensures Between(a, count, itemno, mark, kept + 1, s.(st := s.st[..|s.st| - 1]))
  {
    hide PathsGrow, KidsMatchParents, LinksSpellKids, Distinct, Orderly, Progress, Recorded, ReadsUp, Reserved, RoomOf;
    LeaveLevel(a, s.st, s.done);
    if |s.st| > 1 {
      assert |s.st| - 2 + 1 == |s.st| - 1;
      ReadsUpShorter(s.cells, kept, s.itemstack, |s.st| - 2, mark);
    }
  }

  // Writes the branch that starts at temp0: temp0, its first child, that child's first child, and so on.
  method Descend(tree: FPTree, cells: array<int>, mark: int, temp0: int, iter0: int, stacktop0: int,
                 nodestack0: seq<int>, itemstack0: seq<nat>, list0: seq<seq<Entry>>,
                 ghost st0: seq<Level>, ghost done0: set<nat>, ghost ids0: seq<seq<nat>>)
    returns (itemiter: int, stacktop: int, nodestack: seq<int>, itemstack: seq<nat>, list: seq<seq<Entry>>,
             ghost st: seq<Level>, ghost done: set<nat>, ghost ids: seq<seq<nat>>)
    requires stacktop0 == |st0| - 2 && temp0 != NIL
    requires OnBranch(tree.A(), tree.count, tree.itemno, mark, temp0,
                      State(cells[..], iter0, nodestack0, itemstack0, list0, st0, done0, ids0))
    modifies cells
    ensures stacktop == |st| - 2
    ensures OnBranch(tree.A(), tree.count, tree.itemno, mark, NIL,
                     State(cells[..], itemiter, nodestack, itemstack, list, st, done, ids))
    ensures |done| > |done0|
  {
    hide OnBranch, StackOk, PathsGrow, KidsMatchParents, LinksSpellKids, Distinct, RoomLeft, Push;
    itemiter, nodestack, itemstack, list, st, done, ids := iter0, nodestack0, itemstack0, list0, st0, done0, ids0;
    stacktop := stacktop0;
    var temp := temp0;
    ghost var a := tree.A();
    while temp != NIL
      invariant stacktop == |st| - 2 && |done| >= |done0| && (temp == NIL ==> |done| > |done0|)
      invariant OnBranch(a, tree.count, tree.itemno, mark, temp,
                         State(cells[..], itemiter, nodestack, itemstack, list, st, done, ids))
      decreases if temp == NIL then 0 else |tree.item| - temp
    {
      ghost var s := State(cells[..], itemiter, nodestack, itemstack, list, st, done, ids);
      BranchFacts(a, tree.count, tree.itemno, mark, temp, s);
      BranchStep(a, tree.count, tree.itemno, mark, temp, s);
      var x := tree.item[temp];
      stacktop := stacktop + 1;
      nodestack := nodestack[stacktop := tree.right[temp]];
      itemstack := itemstack[stacktop := x];
      cells[itemiter] := x;
      itemiter := itemiter - 1;
      list := list[x := list[x] + [Entry(itemiter + 2, tree.count[temp])]];
      st, done, ids := Push(a, st), done + {temp}, ids[x := ids[x] + [temp]];
      assert State(cells[..], itemiter, nodestack, itemstack, list, st, done, ids)
          == Written(a, tree.count, s, temp, x);
      temp := tree.left[temp];
    }
  }

  // One more node taken from the top level, or nothing left there.
  lemma TopOfStack(a: Arena, count: seq<nat>, itemno: nat, mark: int, kept: int, s: State)
    requires Between(a, count, itemno, mark, kept, s) && |s.st| > 0
    ensures |s.st| <= |s.nodestack| && |s.done| <= |a.item| && Tree(a)
    ensures var temp := s.nodestack[|s.st| - 1];
      && (temp != NIL ==> 1 <= temp < |a.item| && Ready(a, count, itemno, mark, temp, s) && s.st[|s.st| - 1].next > 0)
      && (temp == NIL ==> Between(a, count, itemno, mark, kept + 1, s.(st := s.st[..|s.st| - 1])))
  {
    hide PathsGrow, KidsMatchParents, LinksSpellKids, Distinct, Orderly, Recorded, ReadsUp, Reserved, RoomOf;
    NumbersBelow(s.done, |a.item|);
    var l := s.st[|s.st| - 1];
    if l.next < |a.kids[l.node]| {
      ItemOfChild(a, itemno, l);
    } else {
      PopStep(a, count, itemno, mark, kept, s);
    }
  }

  // The finished item array, as far as the items below n go: one entry per node, from which its ancestors can be read.
  ghost predicate Flattened(a: Arena, count: seq<nat>, n: nat, cells: seq<int>, mark: int,
                            list: seq<seq<Entry>>, ids: seq<seq<nat>>)
  {
    && Tree(a) && |count| == |a.item| && n <= |list| == |ids|
    && forall x :: 0 <= x < n ==>
      && |list[x]| == |ids[x]| && Distinct(ids[x])
      && (forall v :: v in ids[x] <==> 1 <= v < |a.item| && a.item[v] == x)
      && (forall k :: 0 <= k < |ids[x]| ==>
            && 1 <= ids[x][k] < |a.item|
            && list[x][k].count == count[ids[x][k]]
            && ReadsUp(cells, list[x][k].begin, Ancestors(a, ids[x][k]), mark))
  }

  lemma FlattenedFewer(a: Arena, count: seq<nat>, n: nat, n': nat, cells: seq<int>, mark: int,
                       list: seq<seq<Entry>>, ids: seq<seq<nat>>)
    requires Flattened(a, count, n, cells, mark, list, ids) && n' <= n
    ensures Flattened(a, count, n', cells, mark, list, ids)
  {
  }

  lemma TraversalEnds(a: Arena, count: seq<nat>, itemno: nat, mark: int, kept: int, s: State)
    requires Between(a, count, itemno, mark, kept, s) && s.st == []
    ensures Flattened(a, count, itemno, s.cells, mark, s.list, s.ids)
  {
    hide PathsGrow, KidsMatchParents, LinksSpellKids, Distinct, Orderly, ReadsUp, Reserved, RoomOf, Ancestors;
    forall x | 0 <= x < itemno
      ensures forall v :: v in s.ids[x] <==> 1 <= v < |a.item| && a.item[v] == x
    {
      assert ItemListOk(a, count, s.cells, mark, s.itemiter, s.done, x, s.list[x], s.ids[x]);
      forall v | 1 <= v < |a.item| ensures v in s.done {
        assert !Pending(a, s.st, v);
      }
    }
  }

  // Before the first branch.
  ghost predicate Starting(a: Arena, count: seq<nat>, itemno: nat, mark: int, kept: int, s: State) {
    && Flattening'(a, count, itemno, mark, s.itemiter, s)
    && s.st == [Level(0, 0)] && StacksMatch(a, s.st, 1, s.nodestack, s.itemstack)
    && s.itemiter == |s.cells| - 1 && kept == |s.cells| && s.done == {}
  }

  lemma TopAtStart(a: Arena, count: seq<nat>, itemno: nat, mark: int, kept: int, s: State)
    requires Starting(a, count, itemno, mark, kept, s)
    ensures |s.st| == 1 <= |s.nodestack| && |s.done| <= |a.item| && Tree(a)
    ensures var temp := s.nodestack[0];
      && (temp != NIL ==> 1 <= temp < |a.item| && Ready(a, count, itemno, mark, temp, s))
      && (temp == NIL ==> Between(a, count, itemno, mark, kept + 1, s.(st := s.st[..|s.st| - 1])))
  {
    hide PathsGrow, KidsMatchParents, LinksSpellKids, Distinct, Orderly, Recorded, ReadsUp, Reserved;
    if |a.kids[0]| > 0 {
      ItemOfChild(a, itemno, Level(0, 0));
    } else {
      LeaveLevel(a, s.st, s.done);
    }
  }

  lemma StartsFlat(tree: FPTree, mark: int, s: State)
    requires tree.Valid() && 0 < tree.itemno <= mark + 1
    requires |s.cells| == tree.newDataNum + 2 && s.itemiter == |s.cells| - 1
    requires |s.nodestack| == |s.itemstack| == |s.list| == |s.ids| == tree.itemno && s.nodestack[0] == tree.left[0]
    requires forall x :: 0 <= x < tree.itemno ==> s.list[x] == [] && s.ids[x] == []
    requires s.st == [Level(0, 0)] && s.done == {}
    ensures Starting(tree.A(), tree.count, tree.itemno, mark, |s.cells|, s)
  {
    hide PathsGrow, KidsMatchParents, Distinct, Complete, WellFormed;
    var a := tree.A();
    TraversalStarts(a);
    assert a.paths[0] == [] by { RootPath(a); }
    forall x | 0 <= x < |s.list|
      ensures ItemListOk(a, tree.count, s.cells, mark, s.itemiter, s.done, x, s.list[x], s.ids[x])
    {
      NothingListed(a, tree.count, s.cells, mark, s.itemiter, x);
    }
  }

  lemma RootPath(a: Arena)
    requires Tree(a)
    ensures a.paths[0] == []
  {
  }

  lemma NothingListed(a: Arena, count: seq<nat>, cells: seq<int>, mark: int, floor: int, x: nat)
    requires Tree(a) && |count| == |a.item|
    ensures ItemListOk(a, count, cells, mark, floor, {}, x, [], [])
  {
  }

  method Transform(tree: FPTree, mark: int)
    returns (cells: array<int>, list: seq<seq<Entry>>, ghost ids: seq<seq<nat>>)
    requires tree.Valid() && 0 < tree.itemno <= mark + 1
    ensures fresh(cells) && cells.Length == tree.newDataNum + 2
    ensures Flattened(tree.A(), tree.count, tree.itemno, cells[..], mark, list, ids)
  {
    hide OnBranch, Between, Starting, Ready, Flattened, StackOk, StacksMatch, PathsGrow, KidsMatchParents,
         LinksSpellKids, Distinct, RoomLeft, Push, ReadsUp;
    var size := tree.newDataNum + 2;
    cells := new int[size](_ => 0);
    list := seq(tree.itemno, _ => []);
    ids := seq(tree.itemno, _ => []);
    var itemiter, kept := size - 1, size;
    var nodestack: seq<int> := seq(tree.itemno, _ => NIL)[0 := tree.left[0]];
    var itemstack: seq<nat> := seq(tree.itemno, _ => 0);
    var stacktop, first := 0, true;
    ghost var a := tree.A();
    ghost var st: seq<Level>, done: set<nat> := [Level(0, 0)], {};
    StartsFlat(tree, mark, State(cells[..], itemiter, nodestack, itemstack, list, st, done, ids));
    while stacktop != -1
      invariant stacktop == |st| - 1 && (first ==> stacktop <= 0)
      invariant fresh(cells) && cells.Length == size
      invariant first && stacktop == 0 ==> Starting(a, tree.count, tree.itemno, mark, kept,
                  State(cells[..], itemiter, nodestack, itemstack, list, st, done, ids))
      invariant !(first && stacktop == 0) ==> Between(a, tree.count, tree.itemno, mark, kept,
                  State(cells[..], itemiter, nodestack, itemstack, list, st, done, ids))
      decreases |a.item| - |done|, stacktop + 1
    {
      ghost var s := State(cells[..], itemiter, nodestack, itemstack, list, st, done, ids);
      if first {
        TopAtStart(a, tree.count, tree.itemno, mark, kept, s);
      } else {
        TopOfStack(a, tree.count, tree.itemno, mark, kept, s);
      }
      var temp := nodestack[stacktop];
      stacktop := stacktop - 1;
      if temp != NIL {
        if !first && tree.left[temp] == NIL {
          LeafStep(a, tree.count, tree.itemno, mark, temp, kept, s);
          stacktop := stacktop + 1;
          nodestack := nodestack[stacktop := tree.right[temp]];
          var x := tree.item[temp];
          list := list[x := list[x] + [Entry(kept, tree.count[temp])]];
          kept := kept - 1;
          ids, done := ids[x := ids[x] + [temp]], done + {temp};
          st := st[stacktop := Level(st[stacktop].node, st[stacktop].next + 1)];
        } else {
          BranchFits(a, tree.count, tree.itemno, mark, temp, s);
          first := false;
          itemiter := WriteAncestors(cells, mark, itemstack, stacktop + 1, itemiter);
          ghost var s' := State(cells[..], itemiter, nodestack, itemstack, list, st, done, ids);
          BranchStarts(a, tree.count, tree.itemno, mark, temp, s, s');
          itemiter, stacktop, nodestack, itemstack, list, st, done, ids :=
            Descend(tree, cells, mark, temp, itemiter, stacktop, nodestack, itemstack, list, st, done, ids);
          BranchEnds(a, tree.count, tree.itemno, mark,
            State(cells[..], itemiter, nodestack, itemstack, list, st, done, ids));
          kept := itemiter + 1;
          itemiter := itemiter + 1;
          st := st[..|st| - 1];
        }
      } else {
        st := st[..|st| - 1];
      }
      kept := kept + 1;
    }
    TraversalEnds(a, tree.count, tree.itemno, mark, kept,
      State(cells[..], itemiter, nodestack, itemstack, list, st, done, ids));
  }

  /* ---------- the slots of NodeArrayList ---------- */

  // Different nodes with item x are no more than there are, and as many when they are all of them.
  lemma {:induction false} DifferentNodes(ids: seq<nat>, item: seq<int>, x: int)
    requires Distinct(ids) && forall v :: v in ids ==> v < |item| && item[v] == x
    ensures |ids| <= NodesWith(item, x)
    ensures (forall v :: 0 <= v < |item| && item[v] == x ==> v in ids) ==> |ids| == NodesWith(item, x)
    decreases |item|
  {
    if item == [] {
      NoMembers(ids);
    } else {
      var n := |item| - 1;
      if k: nat :| k < |ids| && ids[k] == n {
        var rest := ids[..k] + ids[k + 1..];
        DistinctWithout(ids, k);
        forall v | v in rest ensures v < n && item[..n][v] == x {
          assert v in ids;
        }
        DifferentNodes(rest, item[..n], x);
      } else {
        DifferentNodes(ids, item[..n], x);
      }
    }
  }

  lemma NoMembers(ids: seq<nat>)
    ensures (forall v :: v !in ids) ==> ids == []
  {
    if ids != [] { assert ids[0] in ids; }
  }

  lemma DistinctWithout(ids: seq<nat>, k: nat)
    requires Distinct(ids) && k < |ids|
    ensures var rest := ids[..k] + ids[k + 1..];
      Distinct(rest) && ids[k] !in rest && forall v :: v in rest <==> v in ids && v != ids[k]
  {
    var rest := ids[..k] + ids[k + 1..];
    assert forall i :: 0 <= i < |rest| ==> rest[i] == ids[if i < k then i else i + 1];
    forall v | v in ids && v != ids[k] ensures v in rest {
      var i :| 0 <= i < |ids| && ids[i] == v;
      assert rest[if i < k then i else i - 1] == v;
    }
  }

  // Every item's node array has exactly the nodenum entries that were allocated for it.
  lemma NodeArraysFit(tree: FPTree, cells: seq<int>, mark: int, list: seq<seq<Entry>>, ids: seq<seq<nat>>, x: nat)
    requires tree.Valid() && x < tree.itemno && Flattened(tree.A(), tree.count, tree.itemno, cells, mark, list, ids)
    ensures |list[x]| == tree.nodenum[x]
  {
    hide ReadsUp, Ancestors, PathsGrow, KidsMatchParents, LinksSpellKids, Distinct;
    assert forall v :: v in ids[x] <==> 1 <= v < |tree.item| && tree.item[v] == x;
    DifferentNodes(ids[x], tree.item, x);
  }
}
