/**
  The shared octree of barnes as loadtree grows it: cells with eight slots and
  leaves with up to ten bodies.  The three ways in which the graph changes are
  functions here; OctreeLoad runs them under all interleavings.
 */
module Octree {
  import opened FiniteSets
  import opened OctreeCoords

  const MAX_BODIES_PER_LEAF := 10
  const NULL := -1
  const ROOT: nat := 0
  const LAST_LEVEL := MAXLEVEL - 2  // a cell any deeper has no level bit left for its children

  datatype Node = Cell(subp: seq<int>) | Leaf(bodies: seq<Body>)

  // path records the child numbers from the root, as parent and child_num do in each node.
  datatype Graph = Graph(nodes: map<nat, Node>, path: map<nat, seq<nat>>, next: nat)

  ghost predicate IsCell(g: Graph, c: int) {
    c >= 0 && c in g.nodes && g.nodes[c].Cell?
  }

  ghost predicate IsLeaf(g: Graph, v: int) {
    v >= 0 && v in g.nodes && g.nodes[v].Leaf?
  }

  ghost predicate Known(g: Graph) {
    && g.nodes.Keys == g.path.Keys
    && (forall v :: v in g.nodes ==> v < g.next)
    && IsCell(g, ROOT) && g.path[ROOT] == []
  }

  ghost predicate SlotsLead(g: Graph)
    requires Known(g)
  {
    forall c :: c in g.nodes && g.nodes[c].Cell? ==> CellOk(g, c)
  }

  ghost predicate CellOk(g: Graph, c: nat)
    requires Known(g) && IsCell(g, c)
  {
    && |g.nodes[c].subp| == NSUB
    && |g.path[c]| <= LAST_LEVEL
    && forall k :: 0 <= k < NSUB && g.nodes[c].subp[k] != NULL ==>
         var v := g.nodes[c].subp[k]; v >= 0 && v in g.nodes && g.path[v] == g.path[c] + [k]
  }

  ghost predicate PathsDiffer(g: Graph)
    requires Known(g)
  {
    forall v, w :: v in g.nodes && w in g.nodes && v != w ==> g.path[v] != g.path[w]
  }

  // v hangs in the slot that its path names.
  ghost predicate Linked(g: Graph, v: nat)
    requires Known(g)
  {
    v in g.nodes && g.path[v] != [] && exists c :: IsParent(g, c, v)
  }

  ghost predicate IsParent(g: Graph, c: nat, v: nat)
    requires Known(g) && v in g.nodes && g.path[v] != []
  {
    var p := g.path[v];
    IsCell(g, c) && g.path[c] == p[..|p| - 1] && p[|p| - 1] < |g.nodes[c].subp| && g.nodes[c].subp[p[|p| - 1]] == v
  }

  ghost predicate AllLinked(g: Graph)
    requires Known(g)
  {
    forall v :: v in g.nodes && v != ROOT ==> Linked(g, v)
  }

  ghost predicate LeafOk(g: Graph, v: nat)
    requires Known(g) && IsLeaf(g, v)
  {
    && 1 <= |g.nodes[v].bodies| <= MAX_BODIES_PER_LEAF
    && Distinct(g.nodes[v].bodies)
    && forall b :: b in g.nodes[v].bodies ==> InBox(g.path[v], b)
  }

  ghost predicate LeavesOk(g: Graph)
    requires Known(g)
  {
    forall v :: v in g.nodes && g.nodes[v].Leaf? ==> LeafOk(g, v)
  }

  ghost predicate InLeaf(g: Graph, v: nat, b: Body) {
    IsLeaf(g, v) && b in g.nodes[v].bodies
  }

  ghost predicate OneLeafEach(g: Graph) {
    forall v, w, b :: InLeaf(g, v, b) && InLeaf(g, w, b) ==> v == w
  }

  ghost predicate Held(g: Graph, b: Body) {
    exists v :: InLeaf(g, v, b)
  }

  ghost predicate TreeOk(g: Graph) {
    && Known(g) && SlotsLead(g) && PathsDiffer(g) && AllLinked(g) && LeavesOk(g) && OneLeafEach(g)
  }

  /* ---------- a new leaf in an empty slot ---------- */

  ghost function AddLeaf(g: Graph, c: nat, k: nat, b: Body): Graph
    requires IsCell(g, c) && c in g.path && k < |g.nodes[c].subp|
  {
    Graph(g.nodes[c := Cell(g.nodes[c].subp[k := g.next])][g.next := Leaf([b])],
          g.path[g.next := g.path[c] + [k]],
          g.next + 1)
  }

  lemma AddLeafKeepsTree(g: Graph, c: nat, k: nat, b: Body)
    requires TreeOk(g) && IsCell(g, c) && k < NSUB == |g.nodes[c].subp| && g.nodes[c].subp[k] == NULL
    requires InBox(g.path[c] + [k], b) && !Held(g, b)
    ensures TreeOk(AddLeaf(g, c, k, b))
    ensures forall x :: Held(AddLeaf(g, c, k, b), x) <==> Held(g, x) || x == b
  {
    hide LeavesOk, OneLeafEach, SlotsLead;
    var g' := AddLeaf(g, c, k, b);
    AddLeafSlots(g, c, k, b);
    AddLeafLinked(g, c, k, b);
    AddLeafBodies(g, c, k, b);
    forall v | v in g'.nodes && v != g.next ensures g'.path[v] != g'.path[g.next] {
      if v != ROOT {
        assert Linked(g, v);
        var d :| IsParent(g, d, v);
      }
    }
  }

  lemma AddLeafSlots(g: Graph, c: nat, k: nat, b: Body)
    requires TreeOk(g) && IsCell(g, c) && k < NSUB == |g.nodes[c].subp| && g.nodes[c].subp[k] == NULL
    ensures Known(AddLeaf(g, c, k, b)) && SlotsLead(AddLeaf(g, c, k, b))
  {
    hide LeavesOk, OneLeafEach, PathsDiffer, AllLinked;
    var g' := AddLeaf(g, c, k, b);
    assert CellOk(g, c);
    forall d | d in g'.nodes && g'.nodes[d].Cell? ensures CellOk(g', d) {
      assert CellOk(g, d);
    }
  }

  lemma AddLeafLinkedOld(g: Graph, c: nat, k: nat, b: Body, v: nat)
    requires Known(g) && IsCell(g, c) && k < |g.nodes[c].subp| && g.nodes[c].subp[k] == NULL
    requires Known(AddLeaf(g, c, k, b)) && Linked(g, v)
    ensures Linked(AddLeaf(g, c, k, b), v)
  {
    var g' := AddLeaf(g, c, k, b);
    var d :| IsParent(g, d, v);
    assert IsParent(g', d, v);
  }

  lemma AddLeafLinked(g: Graph, c: nat, k: nat, b: Body)
    requires TreeOk(g) && IsCell(g, c) && k < NSUB == |g.nodes[c].subp| && g.nodes[c].subp[k] == NULL
    requires Known(AddLeaf(g, c, k, b))
    ensures AllLinked(AddLeaf(g, c, k, b))
  {
    hide LeavesOk, OneLeafEach, PathsDiffer, SlotsLead, Linked;
    var g' := AddLeaf(g, c, k, b);
    AddLeafLinkedNew(g, c, k, b);
    forall v | v in g'.nodes && v != ROOT ensures Linked(g', v) {
      if v != g.next {
        AddLeafLinkedOld(g, c, k, b, v);
      }
    }
  }

  lemma AddLeafLinkedNew(g: Graph, c: nat, k: nat, b: Body)
    requires Known(g) && IsCell(g, c) && k < |g.nodes[c].subp| && Known(AddLeaf(g, c, k, b))
    ensures Linked(AddLeaf(g, c, k, b), g.next)
  {
    assert IsParent(AddLeaf(g, c, k, b), c, g.next);
  }

  lemma AddLeafBodies(g: Graph, c: nat, k: nat, b: Body)
    requires TreeOk(g) && IsCell(g, c) && k < NSUB == |g.nodes[c].subp| && g.nodes[c].subp[k] == NULL
    requires InBox(g.path[c] + [k], b) && !Held(g, b) && Known(AddLeaf(g, c, k, b))
    ensures LeavesOk(AddLeaf(g, c, k, b)) && OneLeafEach(AddLeaf(g, c, k, b))
    ensures forall x :: Held(AddLeaf(g, c, k, b), x) <==> Held(g, x) || x == b
  {
    hide SlotsLead, AllLinked, PathsDiffer;
    var g' := AddLeaf(g, c, k, b);
    forall v | v in g'.nodes && g'.nodes[v].Leaf? ensures LeafOk(g', v) {
      assert v != g.next ==> LeafOk(g, v);
    }
    forall v, x ensures InLeaf(g', v, x) <==> InLeaf(g, v, x) || (v == g.next && x == b) {
    }
    forall x ensures Held(g', x) <==> Held(g, x) || x == b {
      if Held(g, x) {
        var v :| InLeaf(g, v, x);
        assert InLeaf(g', v, x);
      }
      assert InLeaf(g', g.next, b);
    }
  }

  /* ---------- one more body in a leaf ---------- */

  ghost function AddBody(g: Graph, v: nat, b: Body): Graph
    requires IsLeaf(g, v)
  {
    g.(nodes := g.nodes[v := Leaf(g.nodes[v].bodies + [b])])
  }

  lemma AddBodyHeld(g: Graph, v: nat, b: Body)
    requires IsLeaf(g, v)
    ensures forall w, x :: InLeaf(AddBody(g, v, b), w, x) <==> InLeaf(g, w, x) || (w == v && x == b)
    ensures forall x :: Held(AddBody(g, v, b), x) <==> Held(g, x) || x == b
  {
    var g' := AddBody(g, v, b);
    forall x ensures Held(g', x) <==> Held(g, x) || x == b {
      if Held(g, x) {
        var w :| InLeaf(g, w, x);
        assert InLeaf(g', w, x);
      }
      if Held(g', x) {
        var w :| InLeaf(g', w, x);
        assert InLeaf(g, w, x) || (w == v && x == b);
      }
      assert InLeaf(g', v, b);
    }
  }

  lemma AddBodyLeafOk(g: Graph, v: nat, b: Body, w: nat)
    requires IsLeaf(g, v) && Known(g) && Known(AddBody(g, v, b)) && IsLeaf(g, w) && LeafOk(g, w) && LeafOk(g, v)
    requires |g.nodes[v].bodies| < MAX_BODIES_PER_LEAF && InBox(g.path[v], b) && b !in g.nodes[v].bodies
    ensures LeafOk(AddBody(g, v, b), w)
  {
    hide InBox;
  }

  lemma AddBodyKeepsTree(g: Graph, v: nat, b: Body)
    requires TreeOk(g) && IsLeaf(g, v) && |g.nodes[v].bodies| < MAX_BODIES_PER_LEAF
    requires InBox(g.path[v], b) && !Held(g, b)
    ensures TreeOk(AddBody(g, v, b))
    ensures forall x :: Held(AddBody(g, v, b), x) <==> Held(g, x) || x == b
  {
    hide SlotsLead, AllLinked, PathsDiffer, InBox, LeafOk;
    var g' := AddBody(g, v, b);
    AddBodyLinks(g, v, b);
    AddBodyHeld(g, v, b);
    assert !InLeaf(g, v, b);
    forall w | w in g'.nodes && g'.nodes[w].Leaf? ensures LeafOk(g', w) {
      assert LeafOk(g, w) && LeafOk(g, v);
      AddBodyLeafOk(g, v, b, w);
    }
    hide Held, InLeaf;
    OneLeafStill(g, v, b);
  }

  lemma OneLeafStill(g: Graph, v: nat, b: Body)
    requires IsLeaf(g, v) && OneLeafEach(g) && !Held(g, b)
    ensures OneLeafEach(AddBody(g, v, b))
  {
    AddBodyHeld(g, v, b);
    hide AddBody;
    assert forall w :: !InLeaf(g, w, b);
  }

  lemma AddBodyLinks(g: Graph, v: nat, b: Body)
    requires TreeOk(g) && IsLeaf(g, v)
    ensures var g' := AddBody(g, v, b); Known(g') && SlotsLead(g') && PathsDiffer(g') && AllLinked(g')
  {
    hide LeavesOk, OneLeafEach, Linked;
    var g' := AddBody(g, v, b);
    forall c | c in g'.nodes && g'.nodes[c].Cell? ensures CellOk(g', c) {
      assert CellOk(g, c);
    }
    hide SlotsLead, CellOk, PathsDiffer;
    forall w | w in g'.nodes && w != ROOT ensures Linked(g', w) {
      AddBodyLinked(g, v, b, w);
    }
  }

  lemma AddBodyLinked(g: Graph, v: nat, b: Body, w: nat)
    requires Known(g) && IsLeaf(g, v) && Linked(g, w) && Known(AddBody(g, v, b))
    ensures Linked(AddBody(g, v, b), w)
  {
    var c :| IsParent(g, c, w);
    assert IsParent(AddBody(g, v, b), c, w);
  }

  /* ---------- splitting a full leaf ---------- */

  // The bodies that go to child k of a cell at depth d, in their old order.
  function Group(bodies: seq<Body>, d: nat, k: nat): seq<Body>
    requires d < MAXLEVEL
  {
    if bodies == [] then []
    else
      var b := bodies[|bodies| - 1];
      Group(bodies[..|bodies| - 1], d, k) + if Digit(b, d) == k then [b] else []
  }

  lemma {:induction false} GroupMembers(bodies: seq<Body>, d: nat, k: nat)
    requires d < MAXLEVEL
    ensures forall b :: b in Group(bodies, d, k) <==> b in bodies && Digit(b, d) == k
    ensures |Group(bodies, d, k)| <= |bodies|
    ensures Distinct(bodies) ==> Distinct(Group(bodies, d, k))
  {
    if bodies != [] {
      var n := |bodies| - 1;
      GroupMembers(bodies[..n], d, k);
      assert bodies == bodies[..n] + [bodies[n]];
    }
  }

  // The distribution loop of SubdivideLeaf: eight buckets, filled in order.
  method Distribute(bodies: seq<Body>, d: nat) returns (buckets: seq<seq<Body>>)
    requires d < MAXLEVEL
    ensures |buckets| == NSUB && forall k :: 0 <= k < NSUB ==> buckets[k] == Group(bodies, d, k)
  {
    buckets := seq(NSUB, _ => []);
    for i := 0 to |bodies|
      invariant |buckets| == NSUB && forall k :: 0 <= k < NSUB ==> buckets[k] == Group(bodies[..i], d, k)
    {
      var p := bodies[i];
      assert bodies[..i + 1][..i] == bodies[..i];
      var index := SubIndex([BitAt(p.x, d), BitAt(p.y, d), BitAt(p.z, d)]);
      buckets := buckets[index := buckets[index] + [p]];
    }
    assert bodies[..|bodies|] == bodies;
  }

  // What a split works on: leaf v in slot k of cell c.
  ghost predicate CanSplit(g: Graph, c: nat, k: nat, v: nat) {
    && Known(g) && IsCell(g, c) && IsLeaf(g, v) && k < |g.nodes[c].subp| == NSUB && g.nodes[c].subp[k] == v
    && g.path[v] == g.path[c] + [k] && |g.path[v]| <= LAST_LEVEL && g.nodes[v].bodies != []
  }

  // The child number in which the old leaf is reused: that of its first body.
  ghost function Reused(g: Graph, v: nat): (r: nat)
    requires IsLeaf(g, v) && v in g.path && |g.path[v]| < MAXLEVEL && g.nodes[v].bodies != []
    ensures r < NSUB
  {
    Digit(g.nodes[v].bodies[0], |g.path[v]|)
  }

  ghost function Bucket(g: Graph, v: nat, k: nat): seq<Body>
    requires IsLeaf(g, v) && v in g.path && |g.path[v]| < MAXLEVEL
  {
    Group(g.nodes[v].bodies, |g.path[v]|, k)
  }

  // Node g.next becomes the new cell; child k, unless it reuses v, becomes node g.next + 1 + k.
  ghost function ChildId(g: Graph, v: nat, k: nat): int
    requires IsLeaf(g, v) && v in g.path && |g.path[v]| < MAXLEVEL && g.nodes[v].bodies != []
  {
    if Bucket(g, v, k) == [] then NULL else if k == Reused(g, v) then v else g.next + 1 + k
  }

  ghost predicate IsNewLeaf(g: Graph, v: nat, w: nat)
    requires IsLeaf(g, v) && v in g.path && |g.path[v]| < MAXLEVEL && g.nodes[v].bodies != []
  {
    g.next < w <= g.next + NSUB && ChildId(g, v, w - g.next - 1) == w
  }

  ghost function SplitKeys(g: Graph, v: nat): set<nat>
    requires IsLeaf(g, v) && v in g.path && |g.path[v]| < MAXLEVEL && g.nodes[v].bodies != []
  {
    g.nodes.Keys + {g.next} + set w: nat | g.next < w <= g.next + NSUB && IsNewLeaf(g, v, w)
  }

  ghost function SplitNode(g: Graph, c: nat, k: nat, v: nat, w: nat): Node
    requires CanSplit(g, c, k, v) && w in SplitKeys(g, v)
  {
    if w == c then Cell(g.nodes[c].subp[k := g.next])
    else if w == g.next then Cell(seq(NSUB, j requires 0 <= j < NSUB => ChildId(g, v, j)))
    else if w == v then Leaf(Bucket(g, v, Reused(g, v)))
    else if w > g.next then Leaf(Bucket(g, v, w - g.next - 1))
    else g.nodes[w]
  }

  ghost function SplitPath(g: Graph, c: nat, k: nat, v: nat, w: nat): seq<nat>
    requires CanSplit(g, c, k, v) && w in SplitKeys(g, v)
  {
    if w == g.next then g.path[v]
    else if w == v then g.path[v] + [Reused(g, v)]
    else if w > g.next then g.path[v] + [w - g.next - 1]
    else g.path[w]
  }

  ghost function SplitLeaf(g: Graph, c: nat, k: nat, v: nat): (g': Graph)
    requires CanSplit(g, c, k, v)
    ensures g'.nodes.Keys == g'.path.Keys == SplitKeys(g, v) && g'.next == g.next + 1 + NSUB
  {
    Graph(map w | w in SplitKeys(g, v) :: SplitNode(g, c, k, v, w),
          map w | w in SplitKeys(g, v) :: SplitPath(g, c, k, v, w),
          g.next + 1 + NSUB)
  }

  lemma SplitKnown(g: Graph, c: nat, k: nat, v: nat)
    requires TreeOk(g) && CanSplit(g, c, k, v)
    ensures Known(SplitLeaf(g, c, k, v))
  {
    hide SlotsLead, AllLinked, LeavesOk, OneLeafEach, Bucket;
    assert g.path[v] != [];
  }

  // No old node lies below a leaf.
  lemma NothingBelowLeaf(g: Graph, v: nat, w: nat, j: nat)
    requires TreeOk(g) && IsLeaf(g, v) && w in g.nodes
    ensures g.path[w] != g.path[v] + [j]
  {
    hide SlotsLead, LeavesOk, OneLeafEach;
    if w != ROOT {
      assert Linked(g, w);
      var d :| IsParent(g, d, w);
      assert d != v;
      assert g.path[d] != g.path[v];
      assert (g.path[v] + [j])[..|g.path[v]|] == g.path[v];
    }
  }

  lemma SplitPathsDiffer(g: Graph, c: nat, k: nat, v: nat)
    requires TreeOk(g) && CanSplit(g, c, k, v) && Known(SplitLeaf(g, c, k, v))
    ensures PathsDiffer(SplitLeaf(g, c, k, v))
  {
    hide SlotsLead, AllLinked, LeavesOk, OneLeafEach, Bucket;
    var g' := SplitLeaf(g, c, k, v);
    forall w, w' | w in g'.nodes && w' in g'.nodes && w < w' ensures g'.path[w] != g'.path[w'] {
      SplitPair(g, c, k, v, w, w');
    }
  }

  lemma SplitPair(g: Graph, c: nat, k: nat, v: nat, w: nat, w': nat)
    requires TreeOk(g) && CanSplit(g, c, k, v) && w in SplitKeys(g, v) && w' in SplitKeys(g, v) && w < w'
    ensures SplitPath(g, c, k, v, w) != SplitPath(g, c, k, v, w')
  {
    hide SlotsLead, AllLinked, LeavesOk, OneLeafEach, Bucket;
    var p := g.path[v];
    if w in g.nodes {
      forall j: nat ensures g.path[w] != p + [j] {
        NothingBelowLeaf(g, v, w, j);
      }
    }
    if w' in g.nodes {
      forall j: nat ensures g.path[w'] != p + [j] {
        NothingBelowLeaf(g, v, w', j);
      }
    }
    assert forall j: nat, j': nat :: p + [j] == p + [j'] ==> (p + [j])[|p|] == (p + [j'])[|p|];
    assert forall j: nat :: p != p + [j];
  }

  lemma LastSplit(p: seq<nat>, j: nat, q: seq<nat>, k: nat)
    ensures p + [j] == q + [k] ==> p == q && j == k
  {
    if p + [j] == q + [k] {
      assert (p + [j])[..|p|] == p && (q + [k])[..|q|] == q;
      assert (p + [j])[|p|] == j;
    }
  }

  // An old slot of another cell, or another slot of c, does not lead to v.
  lemma OtherSlots(g: Graph, c: nat, k: nat, v: nat, d: nat, j: nat)
    requires TreeOk(g) && CanSplit(g, c, k, v) && IsCell(g, d) && j < |g.nodes[d].subp| == NSUB
    requires g.nodes[d].subp[j] != NULL && !(d == c && j == k)
    ensures var w := g.nodes[d].subp[j]; w >= 0 && w in g.nodes && w != v && g.path[w] == g.path[d] + [j]
  {
    hide AllLinked, LeavesOk, OneLeafEach;
    assert CellOk(g, d);
    LastSplit(g.path[d], j, g.path[c], k);
  }

  lemma SplitOldCell(g: Graph, c: nat, k: nat, v: nat, d: nat)
    requires TreeOk(g) && CanSplit(g, c, k, v) && Known(SplitLeaf(g, c, k, v)) && IsCell(g, d)
    ensures IsCell(SplitLeaf(g, c, k, v), d) && CellOk(SplitLeaf(g, c, k, v), d)
  {
    hide AllLinked, LeavesOk, OneLeafEach, PathsDiffer, Bucket;
    var g' := SplitLeaf(g, c, k, v);
    assert CellOk(g, d);
    hide SlotsLead;
    assert g'.nodes[d] == SplitNode(g, c, k, v, d) && g'.path[d] == SplitPath(g, c, k, v, d) == g.path[d];
    forall j | 0 <= j < NSUB && g'.nodes[d].subp[j] != NULL
      ensures var w := g'.nodes[d].subp[j]; w >= 0 && w in g'.nodes && g'.path[w] == g'.path[d] + [j]
    {
      if d == c && j == k {
        assert g'.path[g.next] == SplitPath(g, c, k, v, g.next);
      } else {
        OtherSlots(g, c, k, v, d, j);
        var w := g.nodes[d].subp[j];
        assert g'.path[w] == SplitPath(g, c, k, v, w) == g.path[w];
      }
    }
  }

  lemma SplitNewCell(g: Graph, c: nat, k: nat, v: nat)
    requires TreeOk(g) && CanSplit(g, c, k, v) && Known(SplitLeaf(g, c, k, v))
    ensures IsCell(SplitLeaf(g, c, k, v), g.next) && CellOk(SplitLeaf(g, c, k, v), g.next)
  {
    hide AllLinked, LeavesOk, OneLeafEach, PathsDiffer, SlotsLead, Bucket;
    var g' := SplitLeaf(g, c, k, v);
    assert g'.nodes[g.next] == SplitNode(g, c, k, v, g.next) && g'.path[g.next] == SplitPath(g, c, k, v, g.next);
    forall j | 0 <= j < NSUB && g'.nodes[g.next].subp[j] != NULL
      ensures var w := g'.nodes[g.next].subp[j]; w >= 0 && w in g'.nodes && g'.path[w] == g'.path[g.next] + [j]
    {
      var w := ChildId(g, v, j);
      assert g'.nodes[g.next].subp[j] == w;
      if j != Reused(g, v) {
        assert IsNewLeaf(g, v, w);
      }
      assert w in SplitKeys(g, v);
      assert g'.path[w] == SplitPath(g, c, k, v, w);
    }
  }

  lemma SplitSlots(g: Graph, c: nat, k: nat, v: nat)
    requires TreeOk(g) && CanSplit(g, c, k, v) && Known(SplitLeaf(g, c, k, v))
    ensures SlotsLead(SplitLeaf(g, c, k, v))
  {
    hide TreeOk, CellOk;
    var g' := SplitLeaf(g, c, k, v);
    forall d | d in g'.nodes && g'.nodes[d].Cell? ensures CellOk(g', d) {
      assert g'.nodes[d] == SplitNode(g, c, k, v, d);
      if d == g.next {
        SplitNewCell(g, c, k, v);
      } else {
        SplitOldCell(g, c, k, v, d);
      }
    }
  }

  lemma SplitLinkedNew(g: Graph, c: nat, k: nat, v: nat, w: nat)
    requires TreeOk(g) && CanSplit(g, c, k, v) && Known(SplitLeaf(g, c, k, v))
    requires w in SplitKeys(g, v) && (w == v || w >= g.next)
    ensures Linked(SplitLeaf(g, c, k, v), w)
  {
    hide SlotsLead, LeavesOk, OneLeafEach, PathsDiffer, Bucket, AllLinked;
    var g' := SplitLeaf(g, c, k, v);
    assert g'.path[w] == SplitPath(g, c, k, v, w);
    assert g'.nodes[c] == SplitNode(g, c, k, v, c) && g'.path[c] == SplitPath(g, c, k, v, c);
    assert g'.nodes[g.next] == SplitNode(g, c, k, v, g.next) && g'.path[g.next] == SplitPath(g, c, k, v, g.next);
    if w == g.next {
      assert IsParent(g', c, w);
    } else {
      ReusedBucket(g, v);
      assert IsParent(g', g.next, w);
    }
  }

  lemma SplitLinkedOld(g: Graph, c: nat, k: nat, v: nat, w: nat)
    requires TreeOk(g) && CanSplit(g, c, k, v) && Known(SplitLeaf(g, c, k, v))
    requires w in g.nodes && w != ROOT && w != v
    ensures Linked(SplitLeaf(g, c, k, v), w)
  {
    hide SlotsLead, LeavesOk, OneLeafEach, PathsDiffer, Bucket, ChildId;
    assert Linked(g, w);
    var d :| IsParent(g, d, w);
    SplitKeepsParent(g, c, k, v, d, w);
    hide AllLinked, Linked, SplitLeaf, IsParent;
    LinkedBy(SplitLeaf(g, c, k, v), d, w);
  }

  // A node other than the split leaf stays the child of its parent.
  lemma SplitKeepsParent(g: Graph, c: nat, k: nat, v: nat, d: nat, w: nat)
    requires CanSplit(g, c, k, v) && Known(SplitLeaf(g, c, k, v)) && w in g.nodes && w != ROOT && w != v && w < g.next
    requires g.path[w] != [] && IsParent(g, d, w)
    ensures w in SplitLeaf(g, c, k, v).nodes && SplitLeaf(g, c, k, v).path[w] != [] && IsParent(SplitLeaf(g, c, k, v), d, w)
  {
    hide Bucket, ChildId;
    var g' := SplitLeaf(g, c, k, v);
    assert g'.path[w] == SplitPath(g, c, k, v, w) == g.path[w];
    assert g'.nodes[d] == SplitNode(g, c, k, v, d) && g'.path[d] == SplitPath(g, c, k, v, d);
  }

  lemma LinkedBy(g: Graph, c: nat, v: nat)
    requires Known(g) && v in g.nodes && g.path[v] != [] && IsParent(g, c, v)
    ensures Linked(g, v)
  {
  }

  lemma SplitLinks(g: Graph, c: nat, k: nat, v: nat)
    requires TreeOk(g) && CanSplit(g, c, k, v) && Known(SplitLeaf(g, c, k, v))
    ensures AllLinked(SplitLeaf(g, c, k, v))
  {
    hide TreeOk, Linked, SplitNode, SplitPath;
    forall w | w in SplitKeys(g, v) && w != ROOT ensures Linked(SplitLeaf(g, c, k, v), w) {
      if w == v || w >= g.next {
        SplitLinkedNew(g, c, k, v, w);
      } else {
        SplitLinkedOld(g, c, k, v, w);
      }
    }
  }

  // Where the bodies are after a split: those of v by their next digit, all others where they were.
  lemma SplitBodies(g: Graph, c: nat, k: nat, v: nat, w: nat, b: Body)
    requires TreeOk(g) && CanSplit(g, c, k, v)
    ensures InLeaf(SplitLeaf(g, c, k, v), w, b) <==>
      (w != v && InLeaf(g, w, b)) || (InLeaf(g, v, b) && w == ChildId(g, v, Digit(b, |g.path[v]|)))
  {
    hide SlotsLead, LeavesOk, OneLeafEach, PathsDiffer, AllLinked;
    var g', d := SplitLeaf(g, c, k, v), |g.path[v]|;
    GroupMembers(g.nodes[v].bodies, d, Digit(b, d));
    if w in g'.nodes {
      assert g'.nodes[w] == SplitNode(g, c, k, v, w);
      if w == v {
        GroupMembers(g.nodes[v].bodies, d, Reused(g, v));
      } else if w > g.next {
        GroupMembers(g.nodes[v].bodies, d, w - g.next - 1);
      }
    }
    if InLeaf(g, v, b) {
      assert b in Bucket(g, v, Digit(b, d));
      var w' := ChildId(g, v, Digit(b, d));
      assert w' != v ==> IsNewLeaf(g, v, w');
    }
  }

  lemma SplitLeafOk(g: Graph, c: nat, k: nat, v: nat, w: nat)
    requires TreeOk(g) && CanSplit(g, c, k, v) && Known(SplitLeaf(g, c, k, v)) && IsLeaf(SplitLeaf(g, c, k, v), w)
    ensures LeafOk(SplitLeaf(g, c, k, v), w)
  {
    hide SlotsLead, OneLeafEach, PathsDiffer, AllLinked;
    var g', d := SplitLeaf(g, c, k, v), |g.path[v]|;
    assert g'.nodes[w] == SplitNode(g, c, k, v, w) && g'.path[w] == SplitPath(g, c, k, v, w);
    assert LeafOk(g, v);
    if w == v {
      BucketOk(g, v, Reused(g, v));
      ReusedBucket(g, v);
    } else if w > g.next {
      BucketOk(g, v, w - g.next - 1);
    } else {
      assert LeafOk(g, w);
    }
  }

  lemma BucketOk(g: Graph, v: nat, j: nat)
    requires Known(g) && IsLeaf(g, v) && LeafOk(g, v) && |g.path[v]| < MAXLEVEL
    ensures |Bucket(g, v, j)| <= MAX_BODIES_PER_LEAF && Distinct(Bucket(g, v, j))
    ensures forall b :: b in Bucket(g, v, j) ==> InBox(g.path[v] + [j], b)
  {
    GroupMembers(g.nodes[v].bodies, |g.path[v]|, j);
  }

  lemma SplitOneLeafEach(g: Graph, c: nat, k: nat, v: nat)
    requires TreeOk(g) && CanSplit(g, c, k, v)
    ensures OneLeafEach(SplitLeaf(g, c, k, v))
  {
    hide SlotsLead, PathsDiffer, AllLinked, LeavesOk, SplitLeaf, InLeaf, ChildId;
    var g' := SplitLeaf(g, c, k, v);
    forall w, w', b | InLeaf(g', w, b) && InLeaf(g', w', b) ensures w == w' {
      SplitBodies(g, c, k, v, w, b);
      SplitBodies(g, c, k, v, w', b);
    }
  }

  lemma SplitLeavesOk(g: Graph, c: nat, k: nat, v: nat)
    requires TreeOk(g) && CanSplit(g, c, k, v) && Known(SplitLeaf(g, c, k, v))
    ensures LeavesOk(SplitLeaf(g, c, k, v))
  {
    hide TreeOk, LeafOk, SplitLeaf;
    var g' := SplitLeaf(g, c, k, v);
    forall w | w in g'.nodes && g'.nodes[w].Leaf? ensures LeafOk(g', w) {
      SplitLeafOk(g, c, k, v, w);
    }
  }

  lemma SplitKeepsTree(g: Graph, c: nat, k: nat, v: nat)
    requires TreeOk(g) && CanSplit(g, c, k, v)
    ensures TreeOk(SplitLeaf(g, c, k, v))
    ensures forall b :: Held(SplitLeaf(g, c, k, v), b) <==> Held(g, b)
  {
    hide Known, SlotsLead, PathsDiffer, AllLinked, LeavesOk, OneLeafEach, SplitLeaf, Held;
    SplitKnown(g, c, k, v);
    SplitSlots(g, c, k, v);
    SplitPathsDiffer(g, c, k, v);
    SplitLinks(g, c, k, v);
    SplitLeavesOk(g, c, k, v);
    SplitOneLeafEach(g, c, k, v);
    SplitHolds(g, c, k, v);
  }

  lemma SplitHolds(g: Graph, c: nat, k: nat, v: nat)
    requires TreeOk(g) && CanSplit(g, c, k, v)
    ensures forall b :: Held(SplitLeaf(g, c, k, v), b) <==> Held(g, b)
  {
    hide TreeOk, SplitLeaf, InLeaf;
    var g' := SplitLeaf(g, c, k, v);
    forall b ensures Held(g', b) <==> Held(g, b) {
      if Held(g', b) {
        var w :| InLeaf(g', w, b);
        SplitBodies(g, c, k, v, w, b);
      }
      if Held(g, b) {
        var w :| InLeaf(g, w, b);
        if w == v {
          BodyHasChild(g, v, b);
          SplitBodies(g, c, k, v, ChildId(g, v, Digit(b, |g.path[v]|)), b);
        } else {
          SplitBodies(g, c, k, v, w, b);
        }
      }
    }
  }

  lemma BodyHasChild(g: Graph, v: nat, b: Body)
    requires InLeaf(g, v, b) && v in g.path && |g.path[v]| < MAXLEVEL && g.nodes[v].bodies != []
    ensures ChildId(g, v, Digit(b, |g.path[v]|)) >= 0
  {
    GroupMembers(g.nodes[v].bodies, |g.path[v]|, Digit(b, |g.path[v]|));
    assert b in Bucket(g, v, Digit(b, |g.path[v]|));
  }

  lemma ReusedBucket(g: Graph, v: nat)
    requires IsLeaf(g, v) && v in g.path && |g.path[v]| < MAXLEVEL && g.nodes[v].bodies != []
    ensures Bucket(g, v, Reused(g, v)) != [] && ChildId(g, v, Reused(g, v)) == v
  {
    GroupMembers(g.nodes[v].bodies, |g.path[v]|, Reused(g, v));
    assert g.nodes[v].bodies[0] in Bucket(g, v, Reused(g, v));
  }
}
