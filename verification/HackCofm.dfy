/**
  hackcofm of barnes: the processors sum costs, masses and centres of mass up the octree
  without locks.  Each works through its own leaves and then its own cells, last made
  first, and spins on the Done flag of every child.
 */
module HackCofm {

  /* ---------- the tree, fixed while the sums are formed ---------- */

  datatype Body = Body(cost: int, mass: real, pos: real)

  // Cells are numbered in the order in which they were made.
  datatype Kind = Leaf(bodies: seq<Body>) | Cell(subp: seq<int>)

  const NULL := -1
  const NSUB := 8

  datatype Plan = Plan(
    nodes: seq<Kind>, root: nat, parent: seq<nat>, childNum: seq<nat>,
    owner: seq<nat>, place: seq<nat>, leafTab: seq<seq<nat>>, cellTab: seq<seq<nat>>)

  // One coordinate stands for three.
  datatype Sums = Sums(cost: int, mass: real, moment: real)

  predicate IsCell(pl: Plan, n: int) {
    0 <= n < |pl.nodes| && pl.nodes[n].Cell?
  }

  predicate IsLeaf(pl: Plan, n: int) {
    0 <= n < |pl.nodes| && pl.nodes[n].Leaf?
  }

  // A child cell was made after its parent; a leaf may be older.
  predicate KidOk(pl: Plan, q: nat, i: nat)
    requires IsCell(pl, q) && i < |pl.nodes[q].subp| && |pl.parent| == |pl.childNum| == |pl.nodes|
  {
    var r := pl.nodes[q].subp[i];
    r != NULL ==> 0 <= r < |pl.nodes| && (pl.nodes[r].Cell? ==> q < r) && r != pl.root && pl.parent[r] == q && pl.childNum[r] == i
  }

  predicate IsKid(pl: Plan, n: nat, q: nat, i: nat) {
    IsCell(pl, q) && i < NSUB && |pl.nodes[q].subp| == NSUB && pl.nodes[q].subp[i] == n
  }

  ghost predicate NodeOk(pl: Plan, n: nat)
    requires n < |pl.nodes| && |pl.parent| == |pl.childNum| == |pl.owner| == |pl.place| == |pl.nodes| && |pl.leafTab| == |pl.cellTab|
  {
    && pl.owner[n] < |pl.leafTab|
    && (n == pl.root || IsKid(pl, n, pl.parent[n], pl.childNum[n]))
    && match pl.nodes[n]
       case Leaf(bodies) =>
         && bodies != [] && (forall i :: 0 <= i < |bodies| ==> bodies[i].mass > 0.0)
         && pl.place[n] < |pl.leafTab[pl.owner[n]]| && pl.leafTab[pl.owner[n]][pl.place[n]] == n
       case Cell(subp) =>
         && |subp| == NSUB && (forall i :: 0 <= i < NSUB ==> KidOk(pl, n, i)) && (exists i :: 0 <= i < NSUB && subp[i] != NULL)
         && pl.place[n] < |pl.cellTab[pl.owner[n]]| && pl.cellTab[pl.owner[n]][pl.place[n]] == n
  }

  // Every node is in its owner's table, every table holds its owner's nodes,
  // and the cells of a table are in the order in which they were made.
  ghost predicate PlanOk(pl: Plan) {
    && |pl.parent| == |pl.childNum| == |pl.owner| == |pl.place| == |pl.nodes| && |pl.leafTab| == |pl.cellTab|
    && pl.root < |pl.nodes|
    && (forall n :: 0 <= n < |pl.nodes| ==> NodeOk(pl, n))
    && (forall p, k :: 0 <= p < |pl.leafTab| && 0 <= k < |pl.leafTab[p]| ==> LeafEntryOk(pl, p, k))
    && (forall p, k :: 0 <= p < |pl.cellTab| && 0 <= k < |pl.cellTab[p]| ==> CellEntryOk(pl, p, k))
    && (forall p, j, k :: 0 <= p < |pl.cellTab| && 0 <= j < k < |pl.cellTab[p]| ==> pl.cellTab[p][j] < pl.cellTab[p][k])
  }

  ghost predicate LeafEntryOk(pl: Plan, p: nat, k: nat)
    requires p < |pl.leafTab| && k < |pl.leafTab[p]| && |pl.owner| == |pl.place| == |pl.nodes|
  {
    var n := pl.leafTab[p][k];
    IsLeaf(pl, n) && pl.owner[n] == p && pl.place[n] == k
  }

  ghost predicate CellEntryOk(pl: Plan, p: nat, k: nat)
    requires p < |pl.cellTab| && k < |pl.cellTab[p]| && |pl.owner| == |pl.place| == |pl.nodes|
  {
    var n := pl.cellTab[p][k];
    IsCell(pl, n) && pl.owner[n] == p && pl.place[n] == k
  }

  /* ---------- the sums over the bodies below ---------- */

  const ZERO := Sums(0, 0.0, 0.0)

  function Plus(a: Sums, b: Sums): Sums {
    Sums(a.cost + b.cost, a.mass + b.mass, a.moment + b.moment)
  }

  function BodySums(bs: seq<Body>): Sums {
    if bs == [] then ZERO
    else
      var b := bs[|bs| - 1];
      Plus(BodySums(bs[..|bs| - 1]), Sums(b.cost, b.mass, b.pos * b.mass))
  }

  function Rank(pl: Plan, n: nat): nat
    requires n < |pl.nodes|
  {
    if pl.nodes[n].Leaf? then 0 else |pl.nodes| - n
  }

  ghost function Below(pl: Plan, n: nat): Sums
    requires PlanOk(pl) && n < |pl.nodes|
    decreases Rank(pl, n), 1, 0
  {
    match pl.nodes[n]
    case Leaf(bodies) => BodySums(bodies)
    case Cell(_) => BelowSlots(pl, n, NSUB)
  }

  // The first k children of a cell.
  ghost function BelowSlots(pl: Plan, q: nat, k: nat): Sums
    requires PlanOk(pl) && IsCell(pl, q) && k <= NSUB
    decreases Rank(pl, q), 0, k
  {
    if k == 0 then ZERO
    else
      assert NodeOk(pl, q);
      assert KidOk(pl, q, k - 1);
      var r := pl.nodes[q].subp[k - 1];
      if r == NULL then BelowSlots(pl, q, k - 1) else Plus(BelowSlots(pl, q, k - 1), Below(pl, r))
  }

  /* ---------- the processors ---------- */

  // The fields of a node; pos sums moments until it is divided by the mass.
  datatype Fields = Fields(cost: int, mass: real, pos: real)

  // leafLeft and cellLeft count down; slot and seen are for the cell at hand, once begun.
  datatype Proc = Proc(leafLeft: nat, cellLeft: nat, begun: bool, slot: nat, seen: bool)

  datatype State = State(procs: seq<Proc>, fields: seq<Fields>, done: seq<bool>)

  function Divided(f: Fields): Fields {
    if f.mass == 0.0 then f else f.(pos := f.pos / f.mass)
  }

  function AsFields(t: Sums): Fields {
    Fields(t.cost, t.mass, t.moment)
  }

  function Added(f: Fields, r: Fields): Fields {
    Fields(f.cost + r.cost, f.mass + r.mass, f.pos + r.pos * r.mass)
  }

  predicate Shape(pl: Plan, s: State) {
    |s.procs| == |pl.leafTab| == |pl.cellTab| && |s.fields| == |s.done| == |pl.nodes|
  }

  predicate ProcShape(pl: Plan, s: State, p: nat)
    requires Shape(pl, s) && p < |s.procs|
  {
    var me := s.procs[p];
    me.leafLeft <= |pl.leafTab[p]| && me.cellLeft <= |pl.cellTab[p]|
  }

  // The leaf that p sums up next.
  predicate AtLeaf(pl: Plan, s: State, p: nat, n: nat) {
    && Shape(pl, s) && p < |s.procs| && ProcShape(pl, s, p) && s.procs[p].leafLeft > 0
    && n == pl.leafTab[p][s.procs[p].leafLeft - 1] && IsLeaf(pl, n)
  }

  // The cell that p sums up now or next.
  predicate AtCell(pl: Plan, s: State, p: nat, q: nat) {
    && Shape(pl, s) && p < |s.procs| && ProcShape(pl, s, p) && s.procs[p].leafLeft == 0 && s.procs[p].cellLeft > 0
    && q == pl.cellTab[p][s.procs[p].cellLeft - 1] && IsCell(pl, q) && |pl.nodes[q].subp| == NSUB
  }

  predicate AtSlot(pl: Plan, s: State, p: nat, q: nat) {
    AtCell(pl, s, p, q) && s.procs[p].begun && s.procs[p].slot < NSUB
  }

  // The child in the slot at hand.
  predicate AtKid(pl: Plan, s: State, p: nat, q: nat, r: nat) {
    AtSlot(pl, s, p, q) && pl.nodes[q].subp[s.procs[p].slot] == r && r < |pl.nodes|
  }

  function SumLeaf(pl: Plan, s: State, p: nat, n: nat): State
    requires AtLeaf(pl, s, p, n)
  {
    s.(procs := s.procs[p := s.procs[p].(leafLeft := s.procs[p].leafLeft - 1)],
       fields := s.fields[n := Divided(AsFields(BodySums(pl.nodes[n].bodies)))], done := s.done[n := true])
  }

  function Begin(pl: Plan, s: State, p: nat, q: nat): State
    requires AtCell(pl, s, p, q)
  {
    s.(procs := s.procs[p := s.procs[p].(begun := true, slot := 0, seen := false)], fields := s.fields[q := AsFields(ZERO)])
  }

  function Skip(s: State, p: nat): State
    requires p < |s.procs|
  {
    s.(procs := s.procs[p := s.procs[p].(slot := s.procs[p].slot + 1)])
  }

  // The end of the spinning.
  function See(s: State, p: nat): State
    requires p < |s.procs|
  {
    s.(procs := s.procs[p := s.procs[p].(seen := true)])
  }

  function Take(pl: Plan, s: State, p: nat, q: nat, r: nat): State
    requires AtKid(pl, s, p, q, r)
  {
    s.(procs := s.procs[p := s.procs[p].(slot := s.procs[p].slot + 1, seen := false)],
       fields := s.fields[q := Added(s.fields[q], s.fields[r])], done := s.done[r := false])
  }

  function Finish(pl: Plan, s: State, p: nat, q: nat): State
    requires AtCell(pl, s, p, q)
  {
    s.(procs := s.procs[p := Proc(0, s.procs[p].cellLeft - 1, false, 0, false)],
       fields := s.fields[q := Divided(s.fields[q])], done := s.done[q := true])
  }

  // One step of processor p; a processor that spins on a flag that is not set makes none.
  ghost predicate Step(pl: Plan, s: State, p: nat, s': State) {
    || (exists n: nat :: AtLeaf(pl, s, p, n) && s' == SumLeaf(pl, s, p, n))
    || (exists q: nat :: AtCell(pl, s, p, q) && !s.procs[p].begun && s' == Begin(pl, s, p, q))
    || (exists q: nat :: AtSlot(pl, s, p, q) && pl.nodes[q].subp[s.procs[p].slot] == NULL && s' == Skip(s, p))
    || (exists q: nat, r: nat :: AtKid(pl, s, p, q, r) && !s.procs[p].seen && s.done[r] && s' == See(s, p))
    || (exists q: nat, r: nat :: AtKid(pl, s, p, q, r) && s.procs[p].seen && s' == Take(pl, s, p, q, r))
    || (exists q: nat :: AtCell(pl, s, p, q) && s.procs[p].begun && s.procs[p].slot == NSUB && s' == Finish(pl, s, p, q))
  }

  ghost predicate Next(pl: Plan, s: State, s': State) {
    exists p :: 0 <= p < |s.procs| && Step(pl, s, p, s')
  }

  /* ---------- the invariant ---------- */

  predicate Finished(pl: Plan, s: State, n: nat)
    requires n < |pl.nodes| == |pl.owner| == |pl.place|
  {
    pl.owner[n] < |s.procs| &&
    if pl.nodes[n].Leaf? then s.procs[pl.owner[n]].leafLeft <= pl.place[n] else s.procs[pl.owner[n]].cellLeft <= pl.place[n]
  }

  // Its owner is adding up its children.
  predicate Current(pl: Plan, s: State, q: nat)
    requires q < |pl.nodes| == |pl.owner| == |pl.place|
  {
    pl.owner[q] < |s.procs| && pl.nodes[q].Cell? && s.procs[pl.owner[q]].begun && s.procs[pl.owner[q]].cellLeft == pl.place[q] + 1
  }

  // The parent has added it.
  predicate Consumed(pl: Plan, s: State, n: nat)
    requires n < |pl.nodes| == |pl.owner| == |pl.place| == |pl.parent| == |pl.childNum|
  {
    && n != pl.root && pl.parent[n] < |pl.nodes|
    && (Finished(pl, s, pl.parent[n]) || (Current(pl, s, pl.parent[n]) && s.procs[pl.owner[pl.parent[n]]].slot > pl.childNum[n]))
  }

  ghost predicate ProcOk(pl: Plan, s: State, p: nat)
    requires Shape(pl, s) && p < |s.procs|
  {
    var me := s.procs[p];
    && ProcShape(pl, s, p) && me.slot <= NSUB
    && (me.leafLeft > 0 ==> me.cellLeft == |pl.cellTab[p]| && !me.begun)
    && (me.begun ==> me.cellLeft > 0)
    && (!me.begun ==> me.slot == 0 && !me.seen)
    && (me.seen ==> SeenOk(pl, s, p))
  }

  // The flag that ended the spinning is still set.
  ghost predicate SeenOk(pl: Plan, s: State, p: nat) {
    exists q: nat, r: nat :: AtKid(pl, s, p, q, r) && s.done[r]
  }

  ghost predicate NodeInv(pl: Plan, s: State, n: nat)
    requires PlanOk(pl) && Shape(pl, s) && n < |pl.nodes|
  {
    && (s.done[n] <==> Finished(pl, s, n) && !Consumed(pl, s, n))
    && (Consumed(pl, s, n) ==> Finished(pl, s, n))
    && (Finished(pl, s, n) ==> s.fields[n] == Divided(AsFields(Below(pl, n))))
    && (Current(pl, s, n) && s.procs[pl.owner[n]].slot <= NSUB ==>
          s.fields[n] == AsFields(BelowSlots(pl, n, s.procs[pl.owner[n]].slot)))
  }

  ghost predicate Inv(pl: Plan, s: State) {
    && PlanOk(pl) && Shape(pl, s)
    && (forall p :: 0 <= p < |s.procs| ==> ProcOk(pl, s, p))
    && (forall n :: 0 <= n < |pl.nodes| ==> NodeInv(pl, s, n))
  }

  /* ---------- masses ---------- */

  lemma {:induction false} BodiesWeigh(bs: seq<Body>)
    requires forall i :: 0 <= i < |bs| ==> bs[i].mass > 0.0
    ensures BodySums(bs).mass >= 0.0 && (bs != [] ==> BodySums(bs).mass > 0.0)
  {
    if bs != [] { BodiesWeigh(bs[..|bs| - 1]); }
  }

  lemma {:induction false} NodeWeighs(pl: Plan, n: nat)
    requires PlanOk(pl) && n < |pl.nodes|
    ensures Below(pl, n).mass > 0.0
    decreases Rank(pl, n), 1, 0
  {
    assert NodeOk(pl, n);
    match pl.nodes[n]
    case Leaf(bodies) => BodiesWeigh(bodies);
    case Cell(subp) => SlotsWeigh(pl, n, NSUB);
  }

  lemma {:induction false} SlotsWeigh(pl: Plan, q: nat, k: nat)
    requires PlanOk(pl) && IsCell(pl, q) && k <= NSUB
    ensures |pl.nodes[q].subp| == NSUB && BelowSlots(pl, q, k).mass >= 0.0
    ensures (exists i :: 0 <= i < k && pl.nodes[q].subp[i] != NULL) ==> BelowSlots(pl, q, k).mass > 0.0
    decreases Rank(pl, q), 0, k
  {
    assert NodeOk(pl, q);
    if k > 0 {
      SlotsWeigh(pl, q, k - 1);
      assert KidOk(pl, q, k - 1);
      var r := pl.nodes[q].subp[k - 1];
      if r != NULL { NodeWeighs(pl, r); }
    }
  }

  // Pos(r) * Mass(r) gives back the moment.
  lemma Undivided(t: Sums)
    requires t.mass > 0.0
    ensures Divided(AsFields(t)).pos * t.mass == t.moment
  {
  }

  /* ---------- every step keeps the invariant ---------- */

  lemma SumLeafKeepsInv(pl: Plan, s: State, p: nat, n0: nat)
    requires Inv(pl, s) && AtLeaf(pl, s, p, n0)
    ensures Inv(pl, SumLeaf(pl, s, p, n0))
  {
    hide Below, BelowSlots, BodySums;
    var s' := SumLeaf(pl, s, p, n0);
    assert LeafEntryOk(pl, p, s.procs[p].leafLeft - 1);
    LeafBelow(pl, n0);
    forall u | 0 <= u < |s'.procs| ensures ProcOk(pl, s', u) {
      assert ProcOk(pl, s, u);
      if u != p { SeenStays(pl, s, s', u); }
    }
    forall n | 0 <= n < |pl.nodes| ensures NodeInv(pl, s', n) {
      assert NodeInv(pl, s, n) && NodeOk(pl, n) && ProcOk(pl, s, p);
    }
  }

  lemma LeafBelow(pl: Plan, n: nat)
    requires PlanOk(pl) && IsLeaf(pl, n)
    ensures Below(pl, n) == BodySums(pl.nodes[n].bodies)
  {
  }

  // Another processor's flag is not touched.
  lemma SeenStays(pl: Plan, s: State, s': State, u: nat)
    requires Shape(pl, s) && Shape(pl, s') && u < |s.procs| && s'.procs[u] == s.procs[u]
    requires forall n :: 0 <= n < |s.done| && s.done[n] ==> s'.done[n]
    ensures SeenOk(pl, s, u) ==> SeenOk(pl, s', u)
  {
    if SeenOk(pl, s, u) {
      var q: nat, r: nat :| AtKid(pl, s, u, q, r) && s.done[r];
      assert AtKid(pl, s', u, q, r) && s'.done[r];
    }
  }

  lemma BeginKeepsInv(pl: Plan, s: State, p: nat, q: nat)
    requires Inv(pl, s) && AtCell(pl, s, p, q) && !s.procs[p].begun
    ensures Inv(pl, Begin(pl, s, p, q))
  {
    hide Below, BelowSlots, BodySums;
    var s' := Begin(pl, s, p, q);
    assert CellEntryOk(pl, p, s.procs[p].cellLeft - 1);
    NothingBelow(pl, q);
    forall u | 0 <= u < |s'.procs| ensures ProcOk(pl, s', u) {
      assert ProcOk(pl, s, u);
      if u != p { SeenStays(pl, s, s', u); }
    }
    forall n | 0 <= n < |pl.nodes| ensures NodeInv(pl, s', n) {
      assert NodeInv(pl, s, n) && NodeOk(pl, n) && ProcOk(pl, s, p);
    }
  }

  lemma NothingBelow(pl: Plan, q: nat)
    requires PlanOk(pl) && IsCell(pl, q)
    ensures BelowSlots(pl, q, 0) == ZERO
  {
  }

  lemma SkipKeepsInv(pl: Plan, s: State, p: nat, q: nat)
    requires Inv(pl, s) && AtSlot(pl, s, p, q) && pl.nodes[q].subp[s.procs[p].slot] == NULL
    ensures Inv(pl, Skip(s, p))
  {
    hide Below, BelowSlots, BodySums;
    var s', k := Skip(s, p), s.procs[p].slot;
    assert CellEntryOk(pl, p, s.procs[p].cellLeft - 1);
    OneMoreSlot(pl, q, k);
    assert ProcOk(pl, s, p);
    SeenKid(pl, s, p, q);
    forall u | 0 <= u < |s'.procs| ensures ProcOk(pl, s', u) {
      assert ProcOk(pl, s, u);
      if u != p { SeenStays(pl, s, s', u); }
    }
    forall n | 0 <= n < |pl.nodes| ensures NodeInv(pl, s', n) {
      assert NodeInv(pl, s, n) && NodeOk(pl, n);
      assert Finished(pl, s', n) == Finished(pl, s, n);
      assert n != pl.root ==> NodeOk(pl, pl.parent[n]);
      assert n != pl.root && pl.parent[n] == q ==> pl.childNum[n] != k;
      assert Consumed(pl, s', n) == Consumed(pl, s, n);
      if n != q && Current(pl, s', n) {
        assert pl.owner[n] != p;
      }
    }
  }

  lemma SeenKid(pl: Plan, s: State, p: nat, q: nat)
    requires AtSlot(pl, s, p, q)
    ensures SeenOk(pl, s, p) ==> pl.nodes[q].subp[s.procs[p].slot] != NULL
  {
  }

  lemma OneMoreSlot(pl: Plan, q: nat, k: nat)
    requires PlanOk(pl) && IsCell(pl, q) && k < NSUB
    ensures |pl.nodes[q].subp| == NSUB && KidOk(pl, q, k)
    ensures BelowSlots(pl, q, k + 1) ==
      if pl.nodes[q].subp[k] == NULL then BelowSlots(pl, q, k) else Plus(BelowSlots(pl, q, k), Below(pl, pl.nodes[q].subp[k]))
  {
    assert NodeOk(pl, q);
  }

  lemma SeeKeepsInv(pl: Plan, s: State, p: nat, q: nat, r: nat)
    requires Inv(pl, s) && AtKid(pl, s, p, q, r) && s.done[r]
    ensures Inv(pl, See(s, p))
  {
    hide Below, BelowSlots, BodySums;
    var s' := See(s, p);
    forall u | 0 <= u < |s'.procs| ensures ProcOk(pl, s', u) {
      assert ProcOk(pl, s, u);
      if u != p { SeenStays(pl, s, s', u); }
      else { assert AtKid(pl, s', p, q, r); }
    }
    forall n | 0 <= n < |pl.nodes| ensures NodeInv(pl, s', n) {
      assert NodeInv(pl, s, n) && NodeOk(pl, n);
    }
  }

  lemma Accumulated(pl: Plan, s: State, p: nat, q: nat, r: nat)
    requires Inv(pl, s) && AtKid(pl, s, p, q, r) && s.done[r]
    ensures s.fields[q] == AsFields(BelowSlots(pl, q, s.procs[p].slot))
    ensures Added(s.fields[q], s.fields[r]) == AsFields(BelowSlots(pl, q, s.procs[p].slot + 1))
  {
    hide Below, BelowSlots, BodySums, Divided;
    var k := s.procs[p].slot;
    assert CellEntryOk(pl, p, s.procs[p].cellLeft - 1) && ProcOk(pl, s, p);
    assert NodeInv(pl, s, q) && NodeInv(pl, s, r);
    OneMoreSlot(pl, q, k);
    NodeWeighs(pl, r);
    Undivided(Below(pl, r));
    DividedMass(Below(pl, r));
  }

  lemma DividedMass(t: Sums)
    ensures Divided(AsFields(t)).mass == t.mass && Divided(AsFields(t)).cost == t.cost
  {
  }

  lemma TakeKeepsInv(pl: Plan, s: State, p: nat, q: nat, r: nat)
    requires Inv(pl, s) && AtKid(pl, s, p, q, r) && s.procs[p].seen
    ensures s.done[r] && Inv(pl, Take(pl, s, p, q, r))
  {
    hide Below, BelowSlots, BodySums, Divided;
    var s', k := Take(pl, s, p, q, r), s.procs[p].slot;
    assert CellEntryOk(pl, p, s.procs[p].cellLeft - 1) && ProcOk(pl, s, p) && SeenOk(pl, s, p);
    Accumulated(pl, s, p, q, r);
    OneMoreSlot(pl, q, k);
    assert NodeInv(pl, s, r);
    forall u | 0 <= u < |s'.procs| ensures ProcOk(pl, s', u) {
      assert ProcOk(pl, s, u);
      if u != p && s.procs[u].seen { OtherKid(pl, s, s', p, q, r, u); }
    }
    forall n | 0 <= n < |pl.nodes| ensures NodeInv(pl, s', n) {
      assert NodeInv(pl, s, n) && NodeOk(pl, n);
      TakeNode(pl, s, p, q, r, n);
    }
  }

  // A child has one parent, so no other processor waits for it.
  lemma OtherKid(pl: Plan, s: State, s': State, p: nat, q: nat, r: nat, u: nat)
    requires PlanOk(pl) && AtKid(pl, s, p, q, r) && s' == Take(pl, s, p, q, r)
    requires u < |s.procs| && u != p && SeenOk(pl, s, u)
    ensures SeenOk(pl, s', u)
  {
    var v: nat, t: nat :| AtKid(pl, s, u, v, t) && s.done[t];
    assert CellEntryOk(pl, p, s.procs[p].cellLeft - 1) && CellEntryOk(pl, u, s.procs[u].cellLeft - 1);
    OneMoreSlot(pl, q, s.procs[p].slot);
    OneMoreSlot(pl, v, s.procs[u].slot);
    assert t != r;
    assert AtKid(pl, s', u, v, t) && s'.done[t];
  }

  // What taking r changes for a node n: only r is newly consumed.
  ghost predicate Taken(pl: Plan, s: State, p: nat, q: nat, r: nat, n: nat)
    requires AtKid(pl, s, p, q, r) && n < |pl.nodes| == |pl.owner| == |pl.place| == |pl.parent| == |pl.childNum|
  {
    var s' := Take(pl, s, p, q, r);
    && Finished(pl, s', n) == Finished(pl, s, n) && Current(pl, s', n) == Current(pl, s, n)
    && Consumed(pl, s', n) == (Consumed(pl, s, n) || n == r)
    && (Current(pl, s, n) && n != q ==> pl.owner[n] != p)
  }

  lemma TakenHolds(pl: Plan, s: State, p: nat, q: nat, r: nat, n: nat)
    requires AtKid(pl, s, p, q, r) && n < |pl.nodes| == |pl.owner| == |pl.place| == |pl.parent| == |pl.childNum|
    requires |pl.leafTab| == |pl.cellTab| && NodeOk(pl, n) && NodeOk(pl, q) && (n != pl.root ==> NodeOk(pl, pl.parent[n]))
    requires CellEntryOk(pl, p, s.procs[p].cellLeft - 1) && KidOk(pl, q, s.procs[p].slot)
    ensures Taken(pl, s, p, q, r, n)
  {
  }

  lemma TakeNode(pl: Plan, s: State, p: nat, q: nat, r: nat, n: nat)
    requires PlanOk(pl) && AtKid(pl, s, p, q, r) && n < |pl.nodes|
    ensures Taken(pl, s, p, q, r, n)
    ensures !Finished(pl, s, q) && Current(pl, s, q) && pl.owner[q] == p
  {
    hide NodeOk, KidOk, Taken, Take, Consumed;
    OneMoreSlot(pl, q, s.procs[p].slot);
    assert CellEntryOk(pl, p, s.procs[p].cellLeft - 1);
    ParentIsNode(pl, n);
    TakenHolds(pl, s, p, q, r, n);
  }

  lemma ParentIsNode(pl: Plan, n: nat)
    requires PlanOk(pl) && n < |pl.nodes|
    ensures NodeOk(pl, n) && (n != pl.root ==> pl.parent[n] < |pl.nodes| && NodeOk(pl, pl.parent[n]))
  {
    assert NodeOk(pl, n);
  }

  lemma FinishKeepsInv(pl: Plan, s: State, p: nat, q: nat)
    requires Inv(pl, s) && AtCell(pl, s, p, q) && s.procs[p].begun && s.procs[p].slot == NSUB
    ensures Inv(pl, Finish(pl, s, p, q))
  {
    hide Below, BelowSlots, BodySums, Divided;
    var s' := Finish(pl, s, p, q);
    assert CellEntryOk(pl, p, s.procs[p].cellLeft - 1) && ProcOk(pl, s, p) && NodeInv(pl, s, q);
    AllSlots(pl, q);
    forall u | 0 <= u < |s'.procs| ensures ProcOk(pl, s', u) {
      assert ProcOk(pl, s, u);
      if u != p { SeenStays(pl, s, s', u); }
    }
    forall n | 0 <= n < |pl.nodes| ensures NodeInv(pl, s', n) {
      assert NodeInv(pl, s, n) && NodeOk(pl, n);
      assert n != pl.root ==> NodeOk(pl, pl.parent[n]);
      assert n != pl.root && pl.parent[n] == q ==> Consumed(pl, s, n) && Consumed(pl, s', n);
      assert Consumed(pl, s', n) == Consumed(pl, s, n);
    }
  }

  lemma AllSlots(pl: Plan, q: nat)
    requires PlanOk(pl) && IsCell(pl, q)
    ensures Below(pl, q) == BelowSlots(pl, q, NSUB)
  {
  }

  lemma StepKeepsInv(pl: Plan, s: State, s': State)
    requires Inv(pl, s) && Next(pl, s, s')
    ensures Inv(pl, s')
  {
    hide Inv;
    var p :| 0 <= p < |s.procs| && Step(pl, s, p, s');
    if n: nat :| AtLeaf(pl, s, p, n) && s' == SumLeaf(pl, s, p, n) {
      SumLeafKeepsInv(pl, s, p, n);
    } else if q: nat :| AtCell(pl, s, p, q) && !s.procs[p].begun && s' == Begin(pl, s, p, q) {
      BeginKeepsInv(pl, s, p, q);
    } else if q: nat :| AtSlot(pl, s, p, q) && pl.nodes[q].subp[s.procs[p].slot] == NULL && s' == Skip(s, p) {
      SkipKeepsInv(pl, s, p, q);
    } else if q: nat, r: nat :| AtKid(pl, s, p, q, r) && !s.procs[p].seen && s.done[r] && s' == See(s, p) {
      SeeKeepsInv(pl, s, p, q, r);
    } else if q: nat, r: nat :| AtKid(pl, s, p, q, r) && s.procs[p].seen && s' == Take(pl, s, p, q, r) {
      TakeKeepsInv(pl, s, p, q, r);
    } else {
      var q: nat :| AtCell(pl, s, p, q) && s.procs[p].begun && s.procs[p].slot == NSUB && s' == Finish(pl, s, p, q);
      FinishKeepsInv(pl, s, p, q);
    }
  }

  /* ---------- whole runs ---------- */

  ghost predicate Init(pl: Plan, s: State) {
    && Shape(pl, s)
    && (forall p :: 0 <= p < |s.procs| ==> s.procs[p] == Proc(|pl.leafTab[p]|, |pl.cellTab[p]|, false, 0, false))
    && forall n :: 0 <= n < |s.done| ==> !s.done[n]
  }

  ghost predicate IsRun(pl: Plan, run: seq<State>) {
    && run != [] && Init(pl, run[0])
    && forall i :: 0 <= i < |run| - 1 ==> Next(pl, run[i], run[i + 1])
  }

  predicate AllDone(s: State) {
    forall p :: 0 <= p < |s.procs| ==> s.procs[p].leafLeft == 0 && s.procs[p].cellLeft == 0
  }

  lemma InitInv(pl: Plan, s: State)
    requires PlanOk(pl) && Init(pl, s)
    ensures Inv(pl, s)
  {
    forall n | 0 <= n < |pl.nodes| ensures NodeInv(pl, s, n) {
      assert NodeOk(pl, n);
      assert n != pl.root ==> NodeOk(pl, pl.parent[n]);
    }
  }

  lemma {:induction false} RunKeepsInv(pl: Plan, run: seq<State>)
    requires PlanOk(pl) && IsRun(pl, run)
    ensures forall i :: 0 <= i < |run| ==> Inv(pl, run[i])
  {
    hide Inv, PlanOk, Init, Next;
    var m := |run| - 1;
    if m == 0 {
      InitInv(pl, run[0]);
    } else {
      RunKeepsInv(pl, run[..m]);
      assert Inv(pl, run[..m][m - 1]);
      assert Next(pl, run[m - 1], run[m - 1 + 1]);
      StepKeepsInv(pl, run[m - 1], run[m]);
      forall i | 0 <= i < |run| ensures Inv(pl, run[i]) {
        assert i < m ==> run[..m][i] == run[i];
      }
    }
  }

  // When all are through, every node has the sums over the bodies below it and only the root is still flagged.
  ghost predicate Summed(pl: Plan, s: State, n: nat)
    requires PlanOk(pl) && n < |pl.nodes|
  {
    Shape(pl, s) &&
    var f, t := s.fields[n], Below(pl, n);
    && f.cost == t.cost && f.mass == t.mass && t.mass > 0.0 && f.pos * f.mass == t.moment
    && (s.done[n] <==> n == pl.root)
  }

  lemma CompletedSums(pl: Plan, run: seq<State>, n: nat)
    requires PlanOk(pl) && IsRun(pl, run) && AllDone(run[|run| - 1]) && n < |pl.nodes|
    ensures Summed(pl, run[|run| - 1], n)
  {
    hide Below, BelowSlots, BodySums, Divided;
    var s := run[|run| - 1];
    RunKeepsInv(pl, run);
    assert NodeInv(pl, s, n) && NodeOk(pl, n);
    assert n != pl.root ==> NodeOk(pl, pl.parent[n]);
    NodeWeighs(pl, n);
    Undivided(Below(pl, n));
    DividedMass(Below(pl, n));
  }

  /* ---------- the bodies below a node ---------- */

  ghost function BodiesBelow(pl: Plan, n: nat): seq<Body>
    requires PlanOk(pl) && n < |pl.nodes|
    decreases Rank(pl, n), 1, 0
  {
    match pl.nodes[n]
    case Leaf(bodies) => bodies
    case Cell(_) => BodiesInSlots(pl, n, NSUB)
  }

  ghost function BodiesInSlots(pl: Plan, q: nat, k: nat): seq<Body>
    requires PlanOk(pl) && IsCell(pl, q) && k <= NSUB
    decreases Rank(pl, q), 0, k
  {
    if k == 0 then []
    else
      assert NodeOk(pl, q);
      assert KidOk(pl, q, k - 1);
      var r := pl.nodes[q].subp[k - 1];
      BodiesInSlots(pl, q, k - 1) + if r == NULL then [] else BodiesBelow(pl, r)
  }

  function TotalCost(bs: seq<Body>): int {
    if bs == [] then 0 else bs[0].cost + TotalCost(bs[1..])
  }

  function TotalMass(bs: seq<Body>): real {
    if bs == [] then 0.0 else bs[0].mass + TotalMass(bs[1..])
  }

  // How far the bodies are out of balance about c: the sum of mass times distance.
  function Imbalance(bs: seq<Body>, c: real): real {
    if bs == [] then 0.0 else bs[0].mass * (bs[0].pos - c) + Imbalance(bs[1..], c)
  }

  lemma {:induction false} TotalsConcat(a: seq<Body>, b: seq<Body>, c: real)
    ensures TotalCost(a + b) == TotalCost(a) + TotalCost(b) && TotalMass(a + b) == TotalMass(a) + TotalMass(b)
    ensures Imbalance(a + b, c) == Imbalance(a, c) + Imbalance(b, c)
  {
    if a == [] {
      assert a + b == b;
    } else {
      TotalsConcat(a[1..], b, c);
      assert (a + b)[1..] == a[1..] + b && (a + b)[0] == a[0];
    }
  }

  // t has the cost and the mass of the bodies, and their imbalance about every point.
  ghost predicate SumsUp(t: Sums, bs: seq<Body>) {
    && t.cost == TotalCost(bs) && t.mass == TotalMass(bs)
    && forall c: real :: Imbalance(bs, c) == t.moment - Times(c, t.mass)
  }

  function Times(x: real, y: real): real {
    x * y
  }

  lemma Spread(m: real, p: real, c: real, x: real)
    ensures m * (p - c) == p * m - Times(c, m) && Times(c, m + x) == Times(c, m) + Times(c, x)
  {
  }

  lemma PlusSumsUp(t: Sums, u: Sums, a: seq<Body>, b: seq<Body>)
    requires SumsUp(t, a) && SumsUp(u, b)
    ensures SumsUp(Plus(t, u), a + b)
  {
    hide Times, Imbalance, TotalCost, TotalMass;
    TotalsConcat(a, b, 0.0);
    forall c: real ensures Imbalance(a + b, c) == Plus(t, u).moment - Times(c, Plus(t, u).mass) {
      TotalsConcat(a, b, c);
      Spread(t.mass, 0.0, c, u.mass);
    }
  }

  lemma OneSumsUp(b: Body)
    ensures SumsUp(Sums(b.cost, b.mass, b.pos * b.mass), [b])
  {
    assert [b][1..] == [] && TotalCost([b]) == b.cost && TotalMass([b]) == b.mass;
    forall c: real ensures Imbalance([b], c) == b.pos * b.mass - Times(c, b.mass) {
      assert Imbalance([], c) == 0.0;
      Spread(b.mass, b.pos, c, 0.0);
    }
  }

  lemma {:induction false} LeafSumsUp(bs: seq<Body>)
    ensures SumsUp(BodySums(bs), bs)
  {
    if bs != [] {
      var n := |bs| - 1;
      LeafSumsUp(bs[..n]);
      OneSumsUp(bs[n]);
      PlusSumsUp(BodySums(bs[..n]), Sums(bs[n].cost, bs[n].mass, bs[n].pos * bs[n].mass), bs[..n], [bs[n]]);
      assert bs[..n] + [bs[n]] == bs;
    }
  }

  lemma {:induction false} BelowSumsUp(pl: Plan, n: nat)
    requires PlanOk(pl) && n < |pl.nodes|
    ensures SumsUp(Below(pl, n), BodiesBelow(pl, n))
    decreases Rank(pl, n), 1, 0
  {
    hide SumsUp;
    match pl.nodes[n]
    case Leaf(bodies) => LeafSumsUp(bodies);
    case Cell(subp) => SlotsSumUp(pl, n, NSUB);
  }

  lemma {:induction false} SlotsSumUp(pl: Plan, q: nat, k: nat)
    requires PlanOk(pl) && IsCell(pl, q) && k <= NSUB
    ensures SumsUp(BelowSlots(pl, q, k), BodiesInSlots(pl, q, k))
    decreases Rank(pl, q), 0, k
  {
    if k == 0 {
      LeafSumsUp([]);
    } else {
      hide SumsUp;
      SlotsSumUp(pl, q, k - 1);
      assert NodeOk(pl, q);
      assert KidOk(pl, q, k - 1);
      var r := pl.nodes[q].subp[k - 1];
      if r == NULL {
        assert BodiesInSlots(pl, q, k - 1) + [] == BodiesInSlots(pl, q, k - 1);
      } else {
        BelowSumsUp(pl, r);
        PlusSumsUp(BelowSlots(pl, q, k - 1), Below(pl, r), BodiesInSlots(pl, q, k - 1), BodiesBelow(pl, r));
      }
    }
  }

  // When all are through, every node has the plain sums of the costs and masses of the bodies below it,
  // and its position is the point about which they balance.
  lemma CentresBalance(pl: Plan, run: seq<State>, n: nat)
    requires PlanOk(pl) && IsRun(pl, run) && AllDone(run[|run| - 1]) && n < |pl.nodes|
    ensures |run[|run| - 1].fields| == |pl.nodes|
    ensures var f, bs := run[|run| - 1].fields[n], BodiesBelow(pl, n);
      f.cost == TotalCost(bs) && f.mass == TotalMass(bs) > 0.0 && Imbalance(bs, f.pos) == 0.0
  {
    var s := run[|run| - 1];
    CompletedSums(pl, run, n);
    BelowSumsUp(pl, n);
    NodeWeighs(pl, n);
    assert Imbalance(BodiesBelow(pl, n), s.fields[n].pos) == Below(pl, n).moment - Times(s.fields[n].pos, Below(pl, n).mass);
  }

  /* ---------- nobody spins for ever ---------- */

  // The unfinished cell that was made last, if there is one from n on.
  lemma {:induction false} LastUnfinished(pl: Plan, s: State, n: nat) returns (c: int)
    requires PlanOk(pl) && Shape(pl, s) && n <= |pl.nodes|
    ensures c != NULL ==> IsCell(pl, c) && n <= c && !Finished(pl, s, c)
    ensures forall u :: (n <= u < |pl.nodes| && c < u && IsCell(pl, u)) ==> Finished(pl, s, u)
    ensures c == NULL ==> forall u :: (n <= u < |pl.nodes| && IsCell(pl, u)) ==> Finished(pl, s, u)
    decreases |pl.nodes| - n
  {
    hide Finished;
    if n == |pl.nodes| {
      c := NULL;
    } else {
      c := LastUnfinished(pl, s, n + 1);
      if c == NULL && IsCell(pl, n) && !Finished(pl, s, n) { c := n; }
    }
  }

  ghost predicate CanStep(pl: Plan, s: State, p: nat) {
    p < |s.procs| && exists s' :: Step(pl, s, p, s')
  }

  // The owner of that cell is at it, and no child of it is still missing.
  lemma LastOneCanStep(pl: Plan, s: State, c: nat)
    requires Inv(pl, s) && IsCell(pl, c) && !Finished(pl, s, c)
    requires forall p :: 0 <= p < |s.procs| ==> s.procs[p].leafLeft == 0
    requires forall u :: (c < u < |pl.nodes| && IsCell(pl, u)) ==> Finished(pl, s, u)
    ensures CanStep(pl, s, pl.owner[c])
  {
    hide Below, BelowSlots, BodySums, Divided;
    assert NodeOk(pl, c);
    var p := pl.owner[c];
    var me := s.procs[p];
    assert ProcOk(pl, s, p);
    assert me.cellLeft > pl.place[c];
    var q := pl.cellTab[p][me.cellLeft - 1];
    assert CellEntryOk(pl, p, me.cellLeft - 1) && NodeOk(pl, q);
    assert q == c;
    if !me.begun {
      assert Step(pl, s, p, Begin(pl, s, p, c));
    } else if me.slot == NSUB {
      assert Step(pl, s, p, Finish(pl, s, p, c));
    } else {
      assert AtSlot(pl, s, p, c) && KidOk(pl, c, me.slot);
      var r := pl.nodes[c].subp[me.slot];
      if r == NULL {
        assert Step(pl, s, p, Skip(s, p));
      } else {
        KidIsDone(pl, s, c, r);
        assert AtKid(pl, s, p, c, r) && s.done[r];
        if me.seen { assert Step(pl, s, p, Take(pl, s, p, c, r)); } else { assert Step(pl, s, p, See(s, p)); }
      }
    }
  }

  lemma KidIsDone(pl: Plan, s: State, c: nat, r: nat)
    requires Inv(pl, s) && IsCell(pl, c) && Current(pl, s, c) && !Finished(pl, s, c)
    requires r < |pl.nodes| && r != pl.root && pl.parent[r] == c && pl.childNum[r] >= s.procs[pl.owner[c]].slot
    requires pl.nodes[r].Leaf? || Finished(pl, s, r)
    requires forall p :: 0 <= p < |s.procs| ==> s.procs[p].leafLeft == 0
    ensures s.done[r]
  {
    assert NodeInv(pl, s, r) && NodeOk(pl, r);
  }

  // In every reachable state somebody can go on until all are through.
  lemma SomeoneCanStep(pl: Plan, s: State)
    requires Inv(pl, s) && !AllDone(s)
    ensures exists p :: CanStep(pl, s, p)
  {
    hide Below, BelowSlots, BodySums, Divided;
    if p: nat :| p < |s.procs| && s.procs[p].leafLeft > 0 {
      assert ProcOk(pl, s, p) && LeafEntryOk(pl, p, s.procs[p].leafLeft - 1);
      var n: nat := pl.leafTab[p][s.procs[p].leafLeft - 1];
      assert AtLeaf(pl, s, p, n);
      assert Step(pl, s, p, SumLeaf(pl, s, p, n));
      assert CanStep(pl, s, p);
    } else {
      var c := LastUnfinished(pl, s, 0);
      SomeCellLeft(pl, s);
      LastOneCanStep(pl, s, c);
    }
  }

  lemma SomeCellLeft(pl: Plan, s: State)
    requires Inv(pl, s) && !AllDone(s) && forall p :: 0 <= p < |s.procs| ==> s.procs[p].leafLeft == 0
    ensures exists u :: 0 <= u < |pl.nodes| && IsCell(pl, u) && !Finished(pl, s, u)
  {
    var p :| 0 <= p < |s.procs| && s.procs[p].cellLeft > 0;
    assert ProcOk(pl, s, p) && CellEntryOk(pl, p, 0);
    var u := pl.cellTab[p][0];
    assert IsCell(pl, u) && !Finished(pl, s, u);
  }

  /* ---------- and all get through ---------- */

  function Effort(me: Proc): int {
    me.leafLeft + 19 * me.cellLeft - (if me.begun then 1 else 0) - 2 * me.slot - (if me.seen then 1 else 0)
  }

  function Work(procs: seq<Proc>): int {
    if procs == [] then 0 else Work(procs[..|procs| - 1]) + Effort(procs[|procs| - 1])
  }

  lemma {:induction false} WorkUpdate(procs: seq<Proc>, p: nat, me: Proc)
    requires p < |procs|
    ensures Work(procs[p := me]) == Work(procs) - Effort(procs[p]) + Effort(me)
  {
    var n := |procs| - 1;
    if p < n {
      WorkUpdate(procs[..n], p, me);
      assert procs[p := me][..n] == procs[..n][p := me];
    } else {
      assert procs[p := me][..n] == procs[..n];
    }
  }

  predicate AtWork(me: Proc) {
    me.slot <= NSUB && if me.begun then me.cellLeft > 0 else me.slot == 0 && !me.seen
  }

  lemma {:induction false} WorkPositive(procs: seq<Proc>)
    requires forall p :: 0 <= p < |procs| ==> AtWork(procs[p])
    ensures Work(procs) >= 0
  {
    if procs != [] { WorkPositive(procs[..|procs| - 1]); }
  }

  lemma StepLowersWork(pl: Plan, s: State, s': State)
    requires Inv(pl, s) && Next(pl, s, s')
    ensures Work(s'.procs) < Work(s.procs)
  {
    var p :| 0 <= p < |s.procs| && Step(pl, s, p, s');
    assert ProcOk(pl, s, p);
    WorkUpdate(s.procs, p, s'.procs[p]);
    assert s'.procs == s.procs[p := s'.procs[p]];
  }

  // The number of steps is bounded by the work there is at the start.
  lemma {:induction false} RunsEnd(pl: Plan, run: seq<State>)
    requires PlanOk(pl) && IsRun(pl, run)
    ensures |run| - 1 <= Work(run[0].procs) - Work(run[|run| - 1].procs) && Work(run[|run| - 1].procs) >= 0
  {
    hide Next, PlanOk, Init, Work;
    RunKeepsInv(pl, run);
    var m := |run| - 1;
    forall p | 0 <= p < |run[m].procs| ensures AtWork(run[m].procs[p]) {
      assert ProcOk(pl, run[m], p);
    }
    WorkPositive(run[m].procs);
    if m > 0 {
      RunsEnd(pl, run[..m]);
      assert Next(pl, run[m - 1], run[m - 1 + 1]);
      StepLowersWork(pl, run[m - 1], run[m]);
    }
  }
}
