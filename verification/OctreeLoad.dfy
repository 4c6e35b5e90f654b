/**
  loadtree as run by any number of threads at once.  A step of a thread is one
  access to shared memory: an unlocked look at the slot, taking or releasing
  the lock of the parent cell, a look or a change made while holding it.
  Several cells may share a lock, as CellLock does through seqnum % MAXLOCK.
 */
module OctreeLoad {
  import opened FiniteSets
  import opened OctreeCoords
  import opened Octree

  datatype Pc =
    | Next                   // take the next body
    | Check1 | Lock1         // the slot looked empty: lock the parent
    | Test1 | Write1         // still empty? then hang a new leaf there
    | Unlock1(done: bool)
    | Check2 | Lock2         // the slot holds a leaf: lock the parent
    | Test2 | Full2          // still a leaf? full?
    | Insert2 | Split2
    | Unlock2(done: bool)
    | Descend                // move down one level
    | Finished

  datatype Thread = Thread(pc: Pc, body: Body, node: nat, todo: seq<Body>)

  datatype State = State(g: Graph, locks: map<nat, nat>, threads: map<nat, Thread>)

  predicate Holding(pc: Pc) {
    match pc
    case Test1 | Write1 | Unlock1(_) | Test2 | Full2 | Insert2 | Split2 | Unlock2(_) => true
    case _ => false
  }

  // The thread still has to find a place for its body.
  predicate Pending(pc: Pc) {
    match pc
    case Next | Finished => false
    case Unlock1(d) => !d
    case Unlock2(d) => !d
    case _ => true
  }

  ghost predicate AtCell(g: Graph, th: Thread) {
    && Known(g) && IsCell(g, th.node) && |g.nodes[th.node].subp| == NSUB && |g.path[th.node]| <= LAST_LEVEL
    && InBox(g.path[th.node], th.body)
  }

  ghost function SlotIndex(g: Graph, th: Thread): (k: nat)
    requires AtCell(g, th)
    ensures k < NSUB
  {
    Digit(th.body, |g.path[th.node]|)
  }

  ghost function Slot(g: Graph, th: Thread): int
    requires AtCell(g, th)
  {
    g.nodes[th.node].subp[SlotIndex(g, th)]
  }

  // What a thread may rely on at each point of its program.
  ghost predicate ThreadOk(g: Graph, th: Thread) {
    (th.pc != Next && th.pc != Finished ==> AtCell(g, th)) &&
    match th.pc
    case Write1 => Slot(g, th) == NULL
    case Unlock1(d) => !d ==> Slot(g, th) != NULL
    case Check2 | Lock2 | Test2 => Slot(g, th) != NULL
    case Full2 => IsLeaf(g, Slot(g, th))
    case Insert2 => IsLeaf(g, Slot(g, th)) && |BodiesOf(g, Slot(g, th))| < MAX_BODIES_PER_LEAF
    case Split2 => IsLeaf(g, Slot(g, th)) && |BodiesOf(g, Slot(g, th))| == MAX_BODIES_PER_LEAF
    case Unlock2(d) => !d ==> IsCell(g, Slot(g, th))
    case Descend => IsCell(g, Slot(g, th))
    case _ => true
  }

  ghost function BodiesOf(g: Graph, v: int): seq<Body> {
    if v >= 0 && v in g.nodes && g.nodes[v].Leaf? then g.nodes[v].bodies else []
  }

  /* ---------- the steps ---------- */

  ghost predicate Enabled(s: State, t: nat, lockOf: nat -> nat) {
    && t in s.threads && ThreadOk(s.g, s.threads[t])
    && match s.threads[t].pc
       case Finished => false
       case Lock1 | Lock2 => lockOf(s.threads[t].node) !in s.locks
       case Split2 => |s.g.path[s.threads[t].node]| < LAST_LEVEL && SplitReady(s.g, s.threads[t])
       case _ => true
  }

  ghost predicate SplitReady(g: Graph, th: Thread)
    requires AtCell(g, th)
  {
    Slot(g, th) >= 0 && CanSplit(g, th.node, SlotIndex(g, th), Slot(g, th))
  }

  // How the shared graph changes.
  ghost function NextGraph(g: Graph, th: Thread): Graph
    requires ThreadOk(g, th)
    requires th.pc == Split2 ==> SplitReady(g, th)
  {
    match th.pc
    case Write1 => AddLeaf(g, th.node, SlotIndex(g, th), th.body)
    case Insert2 => AddBody(g, Slot(g, th), th.body)
    case Split2 => SplitLeaf(g, th.node, SlotIndex(g, th), Slot(g, th))
    case _ => g
  }

  // How the stepping thread changes.
  ghost function NextThread(g: Graph, th: Thread): Thread
    requires ThreadOk(g, th) && th.pc != Finished
  {
    match th.pc
    case Next => if th.todo == [] then th.(pc := Finished) else Thread(Check1, th.todo[0], ROOT, th.todo[1..])
    case Check1 => th.(pc := if Slot(g, th) == NULL then Lock1 else Check2)
    case Lock1 => th.(pc := Test1)
    case Test1 => th.(pc := if Slot(g, th) == NULL then Write1 else Unlock1(false))
    case Write1 => th.(pc := Unlock1(true))
    case Unlock1(d) => th.(pc := if d then Next else Check2)
    case Check2 => th.(pc := if IsLeaf(g, Slot(g, th)) then Lock2 else Descend)
    case Lock2 => th.(pc := Test2)
    case Test2 => th.(pc := if IsLeaf(g, Slot(g, th)) then Full2 else Unlock2(false))
    case Full2 => th.(pc := if |BodiesOf(g, Slot(g, th))| == MAX_BODIES_PER_LEAF then Split2 else Insert2)
    case Insert2 => th.(pc := Unlock2(true))
    case Split2 => th.(pc := Unlock2(false))
    case Unlock2(d) => th.(pc := if d then Next else Descend)
    case Descend => th.(pc := Check1, node := Slot(g, th))
  }

  ghost function NextLocks(locks: map<nat, nat>, t: nat, th: Thread, lockOf: nat -> nat): map<nat, nat> {
    match th.pc
    case Lock1 | Lock2 => locks[lockOf(th.node) := t]
    case Unlock1(_) | Unlock2(_) => locks - {lockOf(th.node)}
    case _ => locks
  }

  ghost function Advance(s: State, t: nat, lockOf: nat -> nat): State
    requires Enabled(s, t, lockOf)
  {
    var th := s.threads[t];
    State(NextGraph(s.g, th), NextLocks(s.locks, t, th, lockOf), s.threads[t := NextThread(s.g, th)])
  }

  /* ---------- the invariant ---------- */

  ghost predicate LocksOk(s: State, lockOf: nat -> nat) {
    && (forall t :: t in s.threads && Holding(s.threads[t].pc) ==>
          lockOf(s.threads[t].node) in s.locks && s.locks[lockOf(s.threads[t].node)] == t)
    && (forall l :: l in s.locks ==>
          s.locks[l] in s.threads && Holding(s.threads[s.locks[l]].pc) && lockOf(s.threads[s.locks[l]].node) == l)
  }

  ghost predicate Owns(th: Thread, b: Body) {
    b in th.todo || (Pending(th.pc) && b == th.body)
  }

  // Every body is in one leaf or with one thread, and nowhere twice.
  ghost predicate Accounted(s: State, all: set<Body>) {
    && (forall t :: t in s.threads ==> TodoOk(s.threads[t]))
    && (forall t, b :: t in s.threads && Owns(s.threads[t], b) ==> b in all && !Held(s.g, b))
    && (forall t, u, b :: t in s.threads && u in s.threads && Owns(s.threads[t], b) && Owns(s.threads[u], b) ==> t == u)
    && (forall b :: Held(s.g, b) ==> b in all)
    && (forall b :: b in all ==> Held(s.g, b) || exists t :: t in s.threads && Owns(s.threads[t], b))
  }

  ghost predicate TodoOk(th: Thread) {
    Distinct(th.todo) && (Pending(th.pc) ==> th.body !in th.todo)
  }

  ghost predicate Inv(s: State, all: set<Body>, lockOf: nat -> nat) {
    && TreeOk(s.g)
    && (forall t :: t in s.threads ==> ThreadOk(s.g, s.threads[t]))
    && LocksOk(s, lockOf)
    && Accounted(s, all)
  }

  // No more than a leaf's worth of bodies agree in all but the last level bit.
  ghost predicate Separable(all: set<Body>) {
    forall p: seq<nat> :: |p| == LAST_LEVEL + 1 ==> |set b | b in all && InBox(p, b)| <= MAX_BODIES_PER_LEAF
  }

  /* ---------- what a step at cell c leaves alone ---------- */

  ghost predicate CellKept(g: Graph, g': Graph, c: nat, d: nat)
    requires Known(g) && Known(g') && IsCell(g, d)
  {
    && IsCell(g', d) && g'.path[d] == g.path[d] && |g'.nodes[d].subp| == |g.nodes[d].subp|
    && forall j :: 0 <= j < |g.nodes[d].subp| ==> SlotKept(g, g', c, d, j)
  }

  // A slot only moves from NULL to a leaf to a cell, and only in cell c.
  ghost predicate SlotKept(g: Graph, g': Graph, c: nat, d: nat, j: nat)
    requires IsCell(g, d) && IsCell(g', d) && j < |g.nodes[d].subp| == |g'.nodes[d].subp|
  {
    var v, v' := g.nodes[d].subp[j], g'.nodes[d].subp[j];
    && (d != c ==> v' == v && BodiesOf(g', v) == BodiesOf(g, v) && (IsLeaf(g, v) ==> IsLeaf(g', v)))
    && (v != NULL ==> v' != NULL)
    && (IsCell(g, v) ==> v' == v && IsCell(g', v))
  }

  ghost predicate Grows(g: Graph, g': Graph, c: nat)
    requires Known(g) && Known(g')
  {
    forall d :: d in g.nodes && g.nodes[d].Cell? ==> CellKept(g, g', c, d)
  }

  lemma AddLeafGrows(g: Graph, c: nat, k: nat, b: Body)
    requires TreeOk(g) && IsCell(g, c) && k < NSUB == |g.nodes[c].subp| && g.nodes[c].subp[k] == NULL
    requires Known(AddLeaf(g, c, k, b))
    ensures Grows(g, AddLeaf(g, c, k, b), c)
  {
    hide AllLinked, PathsDiffer, LeavesOk, OneLeafEach;
    var g' := AddLeaf(g, c, k, b);
    forall d | d in g.nodes && g.nodes[d].Cell? ensures CellKept(g, g', c, d) {
      assert CellOk(g, d);
    }
  }

  lemma AddBodyGrows(g: Graph, c: nat, k: nat, v: nat, b: Body)
    requires TreeOk(g) && IsCell(g, c) && k < NSUB == |g.nodes[c].subp| && g.nodes[c].subp[k] == v && IsLeaf(g, v)
    requires Known(AddBody(g, v, b))
    ensures Grows(g, AddBody(g, v, b), c)
  {
    hide AllLinked, PathsDiffer, LeavesOk, OneLeafEach;
    var g' := AddBody(g, v, b);
    assert CellOk(g, c);
    forall d | d in g.nodes && g.nodes[d].Cell? ensures CellKept(g, g', c, d) {
      assert CellOk(g, d);
      forall j | 0 <= j < NSUB ensures SlotKept(g, g', c, d, j) {
        LastSplit(g.path[d], j, g.path[c], k);
        SamePathSameNode(g, c, d);
      }
    }
  }

  lemma SamePathSameNode(g: Graph, c: nat, d: nat)
    requires TreeOk(g) && c in g.nodes && d in g.nodes
    ensures g.path[c] == g.path[d] ==> c == d
  {
  }

  lemma SplitGrows(g: Graph, c: nat, k: nat, v: nat)
    requires TreeOk(g) && CanSplit(g, c, k, v) && Known(SplitLeaf(g, c, k, v))
    ensures Grows(g, SplitLeaf(g, c, k, v), c)
  {
    hide AllLinked, PathsDiffer, LeavesOk, OneLeafEach, Bucket;
    var g' := SplitLeaf(g, c, k, v);
    forall d | d in g.nodes && g.nodes[d].Cell? ensures CellKept(g, g', c, d) {
      assert CellOk(g, d);
      assert g'.nodes[d] == SplitNode(g, c, k, v, d) && g'.path[d] == SplitPath(g, c, k, v, d);
      forall j | 0 <= j < NSUB ensures SlotKept(g, g', c, d, j) {
        if g.nodes[d].subp[j] != NULL && !(d == c && j == k) {
          OtherSlots(g, c, k, v, d, j);
          var w := g.nodes[d].subp[j];
          assert g'.nodes[w] == SplitNode(g, c, k, v, w);
        }
      }
    }
  }

  lemma StaysOk(g: Graph, g': Graph, c: nat, th: Thread)
    requires TreeOk(g) && Known(g') && Grows(g, g', c) && ThreadOk(g, th)
    requires Holding(th.pc) && Pending(th.pc) ==> th.node != c
    ensures ThreadOk(g', th)
  {
    hide SlotsLead, AllLinked, PathsDiffer, LeavesOk, OneLeafEach;
    if th.pc != Next && th.pc != Finished {
      assert CellKept(g, g', c, th.node);
      assert SlotKept(g, g', c, th.node, SlotIndex(g, th));
    }
  }

  lemma GrowsRefl(g: Graph, c: nat)
    requires Known(g)
    ensures Grows(g, g, c)
  {
    forall d | d in g.nodes && g.nodes[d].Cell? ensures CellKept(g, g, c, d) {
    }
  }

  lemma BoxOfSlot(g: Graph, th: Thread)
    requires AtCell(g, th)
    ensures InBox(g.path[th.node] + [SlotIndex(g, th)], th.body)
  {
  }

  lemma SlotPath(g: Graph, th: Thread)
    requires TreeOk(g) && AtCell(g, th) && Slot(g, th) != NULL
    ensures var v := Slot(g, th);
      && v >= 0 && v in g.nodes && g.path[v] == g.path[th.node] + [SlotIndex(g, th)]
      && InBox(g.path[v], th.body) && (g.nodes[v].Cell? ==> CellOk(g, v))
  {
    hide AllLinked, PathsDiffer, LeavesOk, OneLeafEach;
    assert CellOk(g, th.node);
    BoxOfSlot(g, th);
  }

  // Adds: the step puts the thread's body into a leaf.
  predicate Adds(pc: Pc) {
    pc == Write1 || pc == Insert2
  }

  lemma GraphStep(g: Graph, th: Thread)
    requires TreeOk(g) && ThreadOk(g, th) && (Pending(th.pc) ==> !Held(g, th.body))
    requires th.pc == Split2 ==> SplitReady(g, th)
    ensures TreeOk(NextGraph(g, th)) && Grows(g, NextGraph(g, th), th.node)
    ensures forall b :: Held(NextGraph(g, th), b) <==> Held(g, b) || (Adds(th.pc) && b == th.body)
  {
    hide Known, SlotsLead, AllLinked, PathsDiffer, LeavesOk, OneLeafEach, Grows, Held, AddLeaf, AddBody, SplitLeaf;
    match th.pc {
      case Write1 =>
        BoxOfSlot(g, th);
        AddLeafKeepsTree(g, th.node, SlotIndex(g, th), th.body);
        AddLeafGrows(g, th.node, SlotIndex(g, th), th.body);
      case Insert2 =>
        SlotPath(g, th);
        AddBodyKeepsTree(g, Slot(g, th), th.body);
        AddBodyGrows(g, th.node, SlotIndex(g, th), Slot(g, th), th.body);
      case Split2 =>
        SplitKeepsTree(g, th.node, SlotIndex(g, th), Slot(g, th));
        SplitGrows(g, th.node, SlotIndex(g, th), Slot(g, th));
      case _ =>
        GrowsRefl(g, th.node);
    }
  }

  lemma RootCell(g: Graph, th: Thread)
    requires TreeOk(g) && th.node == ROOT
    ensures AtCell(g, th)
  {
    hide AllLinked, PathsDiffer, LeavesOk, OneLeafEach;
    assert CellOk(g, ROOT);
  }

  lemma SlotIsNode(g: Graph, th: Thread)
    requires TreeOk(g) && AtCell(g, th) && Slot(g, th) != NULL
    ensures IsLeaf(g, Slot(g, th)) || IsCell(g, Slot(g, th))
    ensures IsCell(g, Slot(g, th)) ==> Slot(g, th) >= 0 && AtCell(g, th.(node := Slot(g, th)))
  {
    hide TreeOk;
    SlotPath(g, th);
  }

  // The stepping thread meets what its next point asks for, when it only looks.
  lemma OwnLook(g: Graph, th: Thread)
    requires TreeOk(g) && ThreadOk(g, th) && th.pc != Finished && th.pc != Split2 && !Adds(th.pc)
    ensures ThreadOk(g, NextThread(g, th))
  {
    hide TreeOk, AtCell, Slot;
    var th' := NextThread(g, th);
    if th.pc == Next {
      if th.todo != [] {
        RootCell(g, th');
      }
    } else if th.pc == Descend {
      SlotIsNode(g, th);
      SameSpot(g, th.(node := Slot(g, th)), th');
    } else {
      SameSpot(g, th, th');
      if Slot(g, th) != NULL {
        SlotIsNode(g, th);
        LeafSize(g, Slot(g, th));
      }
    }
  }

  lemma LeafSize(g: Graph, v: int)
    requires TreeOk(g)
    ensures |BodiesOf(g, v)| <= MAX_BODIES_PER_LEAF
  {
    hide SlotsLead, AllLinked, PathsDiffer, OneLeafEach;
    if IsLeaf(g, v) {
      assert LeafOk(g, v);
    }
  }

  lemma SameSpot(g: Graph, th: Thread, th': Thread)
    requires AtCell(g, th) && th'.node == th.node && th'.body == th.body
    ensures AtCell(g, th') && Slot(g, th') == Slot(g, th) && SlotIndex(g, th') == SlotIndex(g, th)
  {
  }

  lemma SplitPublishes(g: Graph, th: Thread)
    requires ThreadOk(g, th) && th.pc == Split2 && SplitReady(g, th)
    ensures var g' := NextGraph(g, th); IsCell(g', th.node) && IsCell(g', g.next)
    ensures var g' := NextGraph(g, th);
      |g'.nodes[th.node].subp| == NSUB && g'.nodes[th.node].subp[SlotIndex(g, th)] == g.next
  {
    hide Bucket, ChildId;
    var g', k, v := NextGraph(g, th), SlotIndex(g, th), Slot(g, th);
    assert g'.nodes[th.node] == SplitNode(g, th.node, k, v, th.node);
    assert g'.nodes[g.next] == SplitNode(g, th.node, k, v, g.next);
  }

  lemma OwnChange(g: Graph, th: Thread)
    requires TreeOk(g) && ThreadOk(g, th) && (th.pc == Split2 || Adds(th.pc))
    requires th.pc == Split2 ==> SplitReady(g, th)
    requires TreeOk(NextGraph(g, th)) && Grows(g, NextGraph(g, th), th.node)
    ensures ThreadOk(NextGraph(g, th), NextThread(g, th))
  {
    hide SlotsLead, AllLinked, PathsDiffer, LeavesOk, OneLeafEach, NextGraph;
    var g' := NextGraph(g, th);
    assert CellKept(g, g', th.node, th.node);
    hide Grows;
    assert AtCell(g', th);
    assert SlotIndex(g', th) == SlotIndex(g, th);
    if th.pc == Split2 {
      SplitPublishes(g, th);
    }
  }

  /* ---------- locks ---------- */

  lemma LocksStep(s: State, t: nat, lockOf: nat -> nat)
    requires Enabled(s, t, lockOf) && LocksOk(s, lockOf)
    ensures LocksOk(Advance(s, t, lockOf), lockOf)
  {
    hide NextGraph, AtCell, IsLeaf;
    var s', th := Advance(s, t, lockOf), s.threads[t];
    var th' := s'.threads[t];
    assert th' == NextThread(s.g, th);
    assert th.pc != Next && th.pc != Descend ==> th'.node == th.node;
    forall u | u in s'.threads && Holding(s'.threads[u].pc)
      ensures lockOf(s'.threads[u].node) in s'.locks && s'.locks[lockOf(s'.threads[u].node)] == u
    {
      assert u != t ==> s'.threads[u] == s.threads[u];
    }
    forall l | l in s'.locks
      ensures s'.locks[l] in s'.threads && Holding(s'.threads[s'.locks[l]].pc)
      ensures lockOf(s'.threads[s'.locks[l]].node) == l
    {
      assert s'.locks[l] != t ==> s'.threads[s'.locks[l]] == s.threads[s'.locks[l]];
    }
  }

  // Two threads never hold the lock of one cell.
  lemma Exclusive(s: State, t: nat, u: nat, lockOf: nat -> nat)
    requires LocksOk(s, lockOf) && t in s.threads && u in s.threads && t != u
    requires Holding(s.threads[t].pc) && Holding(s.threads[u].pc)
    ensures s.threads[t].node != s.threads[u].node
  {
  }

  /* ---------- bodies ---------- */

  // What the stepping thread owns afterwards: everything it owned, except a body it has just inserted.
  lemma OwnsStep(g: Graph, th: Thread, b: Body)
    requires ThreadOk(g, th) && th.pc != Finished && TodoOk(th)
    ensures TodoOk(NextThread(g, th))
    ensures Owns(NextThread(g, th), b) <==> Owns(th, b) && !(Adds(th.pc) && b == th.body)
  {
    hide AtCell, Slot, IsLeaf, IsCell;
    if th.pc == Next && th.todo != [] {
      assert th.todo == [th.todo[0]] + th.todo[1..];
    }
  }

  lemma AccountStep(s: State, t: nat, all: set<Body>, lockOf: nat -> nat)
    requires Enabled(s, t, lockOf) && Accounted(s, all)
    requires forall b :: Held(NextGraph(s.g, s.threads[t]), b) <==>
                           Held(s.g, b) || (Adds(s.threads[t].pc) && b == s.threads[t].body)
    ensures Accounted(Advance(s, t, lockOf), all)
  {
    hide NextGraph, NextThread, ThreadOk, Held, Owns, TodoOk, NextLocks;
    var s', th := Advance(s, t, lockOf), s.threads[t];
    assert th.pc != Finished && ThreadOk(s.g, th);
    forall b ensures TodoOk(s'.threads[t])
      ensures Owns(s'.threads[t], b) <==> Owns(th, b) && !(Adds(th.pc) && b == th.body)
    {
      OwnsStep(s.g, th, b);
    }
    OwnsStep(s.g, th, th.body);
    assert Adds(th.pc) ==> Owns(th, th.body) by {
      AddingOwns(th);
    }
    assert forall u :: u in s.threads && u != t ==> s'.threads[u] == s.threads[u];
    forall b | b in all ensures Held(s'.g, b) || exists u :: u in s'.threads && Owns(s'.threads[u], b) {
      if !Held(s'.g, b) {
        var u :| u in s.threads && Owns(s.threads[u], b);
        assert u in s'.threads && Owns(s'.threads[u], b);
      }
    }
  }

  lemma AddingOwns(th: Thread)
    ensures Adds(th.pc) ==> Owns(th, th.body)
  {
  }

  /* ---------- levels ---------- */

  lemma {:induction false} DistinctIsSet(s: seq<Body>)
    requires Distinct(s)
    ensures |set b | b in s| == |s|
  {
    if s != [] {
      var n := |s| - 1;
      DistinctIsSet(s[..n]);
      assert (set b | b in s) == (set b | b in s[..n]) + {s[n]};
    }
  }

  // A full leaf that is about to be split still has level bits below it.
  lemma EnoughLevels(s: State, t: nat, all: set<Body>, lockOf: nat -> nat)
    requires Inv(s, all, lockOf) && Separable(all) && t in s.threads && s.threads[t].pc == Split2
    ensures SplitReady(s.g, s.threads[t]) && |s.g.path[s.threads[t].node]| < LAST_LEVEL
  {
    hide SlotsLead, AllLinked, PathsDiffer, OneLeafEach, LocksOk;
    var g, th := s.g, s.threads[t];
    SlotPath(g, th);
    var v := Slot(g, th);
    assert LeafOk(g, v);
    var p, bodies := g.path[v], g.nodes[v].bodies;
    if |p| == LAST_LEVEL + 1 {
      var crowd := set b | b in all && InBox(p, b);
      assert Owns(th, th.body);
      forall b | b in bodies ensures b in crowd && b != th.body {
        assert InLeaf(g, v, b);
        assert Held(g, b);
      }
      DistinctIsSet(bodies);
      SubsetSize((set b | b in bodies) + {th.body}, crowd);
    }
  }

  /* ---------- every step of every run ---------- */

  lemma StepKeepsInv(s: State, t: nat, all: set<Body>, lockOf: nat -> nat)
    requires Inv(s, all, lockOf) && Enabled(s, t, lockOf)
    ensures Inv(Advance(s, t, lockOf), all, lockOf)
    ensures Grows(s.g, Advance(s, t, lockOf).g, s.threads[t].node)
  {
    hide TreeOk, ThreadOk, LocksOk, Held, Grows, NextGraph, NextThread, NextLocks;
    var s', th := Advance(s, t, lockOf), s.threads[t];
    assert Pending(th.pc) ==> Owns(th, th.body);
    StepsMaySplit(s, t, lockOf);
    GraphStep(s.g, th);
    LocksStep(s, t, lockOf);
    AccountStep(s, t, all, lockOf);
    hide Accounted;
    forall u | u in s'.threads ensures ThreadOk(s'.g, s'.threads[u]) {
      if u == t {
        if th.pc == Split2 || Adds(th.pc) {
          OwnChange(s.g, th);
        } else {
          LookKeepsGraph(s.g, th);
          OwnLook(s.g, th);
        }
      } else {
        OthersStay(s, t, u, lockOf);
      }
    }
  }

  lemma StepsMaySplit(s: State, t: nat, lockOf: nat -> nat)
    requires Enabled(s, t, lockOf)
    ensures s.threads[t].pc == Split2 ==> ThreadOk(s.g, s.threads[t]) && AtCell(s.g, s.threads[t]) && SplitReady(s.g, s.threads[t])
    ensures ThreadOk(s.g, s.threads[t]) && s.threads[t].pc != Finished
  {
  }

  lemma LookKeepsGraph(g: Graph, th: Thread)
    requires ThreadOk(g, th) && th.pc != Split2 && !Adds(th.pc)
    ensures NextGraph(g, th) == g
  {
  }

  lemma OthersStay(s: State, t: nat, u: nat, lockOf: nat -> nat)
    requires Enabled(s, t, lockOf) && LocksOk(s, lockOf) && u in s.threads && u != t
    requires TreeOk(s.g) && ThreadOk(s.g, s.threads[u])
    requires TreeOk(NextGraph(s.g, s.threads[t])) && Grows(s.g, NextGraph(s.g, s.threads[t]), s.threads[t].node)
    ensures ThreadOk(NextGraph(s.g, s.threads[t]), s.threads[u])
  {
    hide SlotsLead, AllLinked, PathsDiffer, LeavesOk, OneLeafEach, NextGraph, ThreadOk, Grows;
    var th := s.threads[t];
    if th.pc == Split2 || Adds(th.pc) {
      if Holding(s.threads[u].pc) {
        Exclusive(s, t, u, lockOf);
      }
      StaysOk(s.g, NextGraph(s.g, th), th.node, s.threads[u]);
    } else {
      LookKeepsGraph(s.g, th);
    }
  }

  /* ---------- whole runs ---------- */

  ghost predicate Init(s: State, all: set<Body>) {
    && s.g == Graph(map[ROOT := Cell(seq(NSUB, _ => NULL))], map[ROOT := []], 1)
    && s.locks == map[]
    && (forall t :: t in s.threads ==> s.threads[t].pc == Next && Distinct(s.threads[t].todo))
    && (forall t, b :: t in s.threads && b in s.threads[t].todo ==> b in all)
    && (forall t, u, b :: t in s.threads && u in s.threads && b in s.threads[t].todo && b in s.threads[u].todo ==> t == u)
    && (forall b :: b in all ==> exists t :: t in s.threads && b in s.threads[t].todo)
  }

  // run[0], run[1], ... where thread sched[i] makes the i-th step.
  ghost predicate IsRun(run: seq<State>, sched: seq<nat>, lockOf: nat -> nat) {
    |run| == |sched| + 1 && forall i {:trigger sched[i]} :: 0 <= i < |sched| ==>
      Enabled(run[i], sched[i], lockOf) && run[i + 1] == Advance(run[i], sched[i], lockOf)
  }

  lemma InitHolds(s: State, all: set<Body>, lockOf: nat -> nat)
    requires Init(s, all)
    ensures Inv(s, all, lockOf)
  {
    forall b ensures !Held(s.g, b) {
    }
    forall b | b in all ensures exists t :: t in s.threads && Owns(s.threads[t], b) {
      var t :| t in s.threads && b in s.threads[t].todo;
      assert Owns(s.threads[t], b);
    }
  }

  lemma {:induction false} RunKeepsInv(run: seq<State>, sched: seq<nat>, all: set<Body>, lockOf: nat -> nat, i: nat)
    requires IsRun(run, sched, lockOf) && Init(run[0], all) && i < |run|
    ensures Inv(run[i], all, lockOf)
  {
    hide Inv, Enabled, Advance, Init;
    if i == 0 {
      InitHolds(run[0], all, lockOf);
    } else {
      RunKeepsInv(run, sched, all, lockOf, i - 1);
      var t := sched[i - 1];
      StepKeepsInv(run[i - 1], t, all, lockOf);
    }
  }

  // Over any stretch of a run: cells stay where they are, a slot once taken stays taken, a slot with a cell is final.
  ghost predicate Later(g: Graph, g': Graph)
    requires Known(g) && Known(g')
  {
    forall c :: c in g.nodes && g.nodes[c].Cell? ==>
      && IsCell(g', c) && g'.path[c] == g.path[c] && |g'.nodes[c].subp| == |g.nodes[c].subp|
      && forall j :: 0 <= j < |g.nodes[c].subp| ==>
        && (g.nodes[c].subp[j] != NULL ==> g'.nodes[c].subp[j] != NULL)
        && (IsCell(g, g.nodes[c].subp[j]) ==> g'.nodes[c].subp[j] == g.nodes[c].subp[j])
  }

  lemma LaterStep(g: Graph, g': Graph, g'': Graph, c: nat)
    requires Known(g) && Known(g') && Known(g'') && Later(g, g') && Grows(g', g'', c)
    ensures Later(g, g'')
  {
    forall d | d in g.nodes && g.nodes[d].Cell?
      ensures IsCell(g'', d) && g''.path[d] == g.path[d] && |g''.nodes[d].subp| == |g.nodes[d].subp|
      ensures forall j :: 0 <= j < |g.nodes[d].subp| ==>
        && (g.nodes[d].subp[j] != NULL ==> g''.nodes[d].subp[j] != NULL)
        && (IsCell(g, g.nodes[d].subp[j]) ==> g''.nodes[d].subp[j] == g.nodes[d].subp[j])
    {
      assert CellKept(g', g'', c, d);
      forall j | 0 <= j < |g.nodes[d].subp|
        ensures g.nodes[d].subp[j] != NULL ==> g''.nodes[d].subp[j] != NULL
        ensures IsCell(g, g.nodes[d].subp[j]) ==> g''.nodes[d].subp[j] == g.nodes[d].subp[j]
      {
        assert SlotKept(g', g'', c, d, j);
      }
    }
  }

  lemma LaterRefl(g: Graph)
    requires Known(g)
    ensures Later(g, g)
  {
  }

  lemma InvIsKnown(s: State, all: set<Body>, lockOf: nat -> nat)
    requires Inv(s, all, lockOf)
    ensures Known(s.g)
  {
  }

  lemma {:induction false} SlotsOnlyAdvance(run: seq<State>, sched: seq<nat>, all: set<Body>, lockOf: nat -> nat,
                                            i: nat, j: nat)
    requires IsRun(run, sched, lockOf) && Init(run[0], all) && i <= j < |run|
    ensures Known(run[i].g) && Known(run[j].g) && Later(run[i].g, run[j].g)
  {
    hide Inv, Enabled, Advance, Init, Later, Grows, Known;
    RunKeepsInv(run, sched, all, lockOf, i);
    RunKeepsInv(run, sched, all, lockOf, j);
    InvIsKnown(run[i], all, lockOf);
    InvIsKnown(run[j], all, lockOf);
    if i < j {
      SlotsOnlyAdvance(run, sched, all, lockOf, i, j - 1);
      RunKeepsInv(run, sched, all, lockOf, j - 1);
      var t := sched[j - 1];
      StepKeepsInv(run[j - 1], t, all, lockOf);
      EnabledExists(run[j - 1], t, lockOf);
      LaterStep(run[i].g, run[j - 1].g, run[j].g, run[j - 1].threads[t].node);
    } else {
      LaterRefl(run[i].g);
    }
  }

  lemma EnabledExists(s: State, t: nat, lockOf: nat -> nat)
    requires Enabled(s, t, lockOf)
    ensures t in s.threads
  {
  }

  /* ---------- no deadlock, and no endless run ---------- */

  // While some thread has work left, some thread can step.
  lemma SomeoneCanStep(s: State, all: set<Body>, lockOf: nat -> nat, t: nat) returns (u: nat)
    requires Inv(s, all, lockOf) && Separable(all) && t in s.threads && s.threads[t].pc != Finished
    ensures Enabled(s, u, lockOf)
  {
    hide TreeOk, ThreadOk, Accounted, Separable, SplitReady;
    u := t;
    var th := s.threads[t];
    if (th.pc == Lock1 || th.pc == Lock2) && lockOf(th.node) in s.locks {
      u := s.locks[lockOf(th.node)];
    }
    if s.threads[u].pc == Split2 {
      EnoughLevels(s, u, all, lockOf);
    }
  }

  function Stage(pc: Pc): nat {
    match pc
    case Check1 => 11 case Lock1 => 10 case Test1 => 9 case Write1 => 8 case Unlock1(d) => if d then 0 else 7
    case Check2 => 6 case Lock2 => 5 case Test2 => 4 case Full2 => 3 case Insert2 => 2 case Split2 => 2
    case Unlock2(_) => 1 case Descend => 0 case Next => 0 case Finished => 0
  }

  // How many steps the thread can still make at most: 12 to a level, at most 61 levels to a body.
  ghost function Rank(g: Graph, th: Thread): nat
    requires ThreadOk(g, th)
  {
    |th.todo| * 800 +
    match th.pc
    case Finished => 0
    case Next => 1
    case _ => (LAST_LEVEL - |g.path[th.node]|) * 12 + Stage(th.pc) + 2
  }

  lemma StepLowersRank(g: Graph, th: Thread)
    requires TreeOk(g) && ThreadOk(g, th) && th.pc != Finished
    requires th.pc == Split2 ==> SplitReady(g, th)
    requires ThreadOk(NextGraph(g, th), NextThread(g, th)) && TreeOk(NextGraph(g, th))
    requires Grows(g, NextGraph(g, th), th.node)
    ensures Rank(NextGraph(g, th), NextThread(g, th)) < Rank(g, th)
  {
    hide SlotsLead, AllLinked, PathsDiffer, LeavesOk, OneLeafEach, NextGraph, InBox;
    if th.pc == Descend {
      LookKeepsGraph(g, th);
      SlotPath(g, th);
    } else if th.pc != Next {
      assert CellKept(g, NextGraph(g, th), th.node, th.node);
    } else if th.todo != [] {
      assert |th.todo[1..]| == |th.todo| - 1;
    }
  }

  lemma OthersKeepRank(g: Graph, g': Graph, c: nat, th: Thread)
    requires Known(g) && Known(g') && Grows(g, g', c) && ThreadOk(g, th) && ThreadOk(g', th)
    ensures Rank(g', th) == Rank(g, th)
  {
    if th.pc != Next && th.pc != Finished {
      assert CellKept(g, g', c, th.node);
    }
  }

  ghost predicate Numbered(s: State, n: nat) {
    forall t :: t in s.threads <==> 0 <= t < n
  }

  ghost function TotalRank(s: State, n: nat): nat
    requires forall t :: 0 <= t < n ==> t in s.threads && ThreadOk(s.g, s.threads[t])
  {
    if n == 0 then 0 else TotalRank(s, n - 1) + Rank(s.g, s.threads[n - 1])
  }

  lemma {:induction false} TotalRankFalls(s: State, t: nat, all: set<Body>, lockOf: nat -> nat, n: nat)
    requires Inv(s, all, lockOf) && Enabled(s, t, lockOf) && Inv(Advance(s, t, lockOf), all, lockOf)
    requires forall u :: 0 <= u < n ==> u in s.threads
    ensures TotalRank(Advance(s, t, lockOf), n) <= TotalRank(s, n)
    ensures t < n ==> TotalRank(Advance(s, t, lockOf), n) < TotalRank(s, n)
  {
    hide TreeOk, LocksOk, Accounted, Grows, NextGraph, NextThread, NextLocks, ThreadOk, Rank;
    var s', th := Advance(s, t, lockOf), s.threads[t];
    if n > 0 {
      TotalRankFalls(s, t, all, lockOf, n - 1);
      StepKeepsInv(s, t, all, lockOf);
      if n - 1 == t {
        StepsMaySplit(s, t, lockOf);
        assert t in s'.threads && ThreadOk(s'.g, s'.threads[t]);
        assert s'.g == NextGraph(s.g, th) && s'.threads[t] == NextThread(s.g, th);
        StepLowersRank(s.g, th);
      } else {
        TreesAreKnown(s.g);
        TreesAreKnown(s'.g);
        assert n - 1 in s'.threads && s'.threads[n - 1] == s.threads[n - 1];
        assert ThreadOk(s'.g, s'.threads[n - 1]);
        OthersKeepRank(s.g, s'.g, th.node, s.threads[n - 1]);
      }
    }
  }

  lemma TreesAreKnown(g: Graph)
    requires TreeOk(g)
    ensures Known(g)
  {
  }

  // No run is longer than the total rank it starts with.
  lemma {:induction false} RunsEnd(run: seq<State>, sched: seq<nat>, all: set<Body>, lockOf: nat -> nat, n: nat, i: nat)
    requires IsRun(run, sched, lockOf) && Init(run[0], all) && Numbered(run[0], n) && i < |run|
    ensures Inv(run[0], all, lockOf) && Inv(run[i], all, lockOf) && Numbered(run[i], n)
    ensures TotalRank(run[i], n) + i <= TotalRank(run[0], n)
  {
    hide TreeOk, LocksOk, Accounted, NextGraph, NextThread, NextLocks, ThreadOk, Rank, TotalRank, Init;
    RunKeepsInv(run, sched, all, lockOf, 0);
    RunKeepsInv(run, sched, all, lockOf, i);
    if i > 0 {
      RunsEnd(run, sched, all, lockOf, n, i - 1);
      var t := sched[i - 1];
      assert run[i] == Advance(run[i - 1], t, lockOf);
      TotalRankFalls(run[i - 1], t, all, lockOf, n);
    }
  }

  ghost predicate Quiet(s: State, lockOf: nat -> nat) {
    forall t :: !Enabled(s, t, lockOf)
  }

  // When nobody can step any more, every body hangs in exactly one leaf, in the box of that leaf.
  lemma LoadCompletes(run: seq<State>, sched: seq<nat>, all: set<Body>, lockOf: nat -> nat, b: Body)
    requires IsRun(run, sched, lockOf) && Init(run[0], all) && Separable(all) && b in all
    requires Quiet(run[|run| - 1], lockOf)
    ensures var g := run[|run| - 1].g; exists v ::
      InLeaf(g, v, b) && (forall w :: InLeaf(g, w, b) ==> w == v) && v in g.path && InBox(g.path[v], b)
  {
    var last := run[|run| - 1];
    RunKeepsInv(run, sched, all, lockOf, |run| - 1);
    hide Init, Enabled, Separable, SlotsLead, PathsDiffer, AllLinked, LocksOk, ThreadOk;
    forall t | t in last.threads ensures last.threads[t].pc == Finished && !Owns(last.threads[t], b) {
      if last.threads[t].pc != Finished {
        var u := SomeoneCanStep(last, all, lockOf, t);
      }
      FinishedOwnsNothing(run, sched, all, lockOf, |run| - 1, t, b);
    }
    var v :| InLeaf(last.g, v, b);
    assert LeafOk(last.g, v);
  }

  // A finished thread has an empty list.
  lemma {:induction false} FinishedOwnsNothing(run: seq<State>, sched: seq<nat>, all: set<Body>, lockOf: nat -> nat,
                                               i: nat, t: nat, b: Body)
    requires IsRun(run, sched, lockOf) && Init(run[0], all) && i < |run| && t in run[i].threads
    ensures run[i].threads[t].pc == Finished ==> !Owns(run[i].threads[t], b)
  {
    hide AtCell, Slot, IsLeaf, IsCell, NextGraph, NextLocks;
    if i > 0 {
      var u := sched[i - 1];
      assert run[i] == Advance(run[i - 1], u, lockOf);
      FinishedOwnsNothing(run, sched, all, lockOf, i - 1, t, b);
    }
  }
}
