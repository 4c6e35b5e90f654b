/**
  The netlist of canneal: how it is built, what a placement costs, and how far the cost
  change that an annealing step computes is from the change that a swap really makes.
 */
module RoutingCost {

  // Grid coordinates are integers, so the costs, which are sums of their differences, are modelled as integers.
  datatype Location = Location(x: int, y: int)

  // src takes an input from dst.
  datatype Edge = Edge(src: nat, dst: nat)

  function Abs(x: int): (r: nat) {
    if x < 0 then -x else x
  }

  function Distance(p: Location, q: Location): nat {
    Abs(p.x - q.x) + Abs(p.y - q.y)
  }

  // A walk over the grid, one unit step after the other.
  ghost predicate IsWalk(path: seq<Location>) {
    path != [] && forall i :: 0 < i < |path| ==> UnitStep(path[i - 1], path[i])
  }

  predicate UnitStep(p: Location, q: Location) {
    q == Location(p.x + 1, p.y) || q == Location(p.x - 1, p.y) || q == Location(p.x, p.y + 1) || q == Location(p.x, p.y - 1)
  }

  lemma {:induction false} NoShorterWalk(path: seq<Location>)
    requires IsWalk(path)
    ensures |path| - 1 >= Distance(path[0], path[|path| - 1])
  {
    var n := |path| - 1;
    if n > 0 {
      NoShorterWalk(path[..n]);
      assert UnitStep(path[n - 1], path[n]);
    }
  }

  // The distance is the least number of unit steps from p to q.
  lemma {:induction false} ShortestWalk(p: Location, q: Location) returns (path: seq<Location>)
    ensures IsWalk(path) && path[0] == p && path[|path| - 1] == q && |path| - 1 == Distance(p, q)
    ensures forall other :: IsWalk(other) && other[0] == p && other[|other| - 1] == q ==> |path| <= |other|
    decreases Distance(p, q)
  {
    if p == q {
      path := [p];
    } else {
      var r := if q.x < p.x then Location(q.x + 1, q.y) else if q.x > p.x then Location(q.x - 1, q.y)
               else if q.y < p.y then Location(q.x, q.y + 1) else Location(q.x, q.y - 1);
      var before := ShortestWalk(p, r);
      path := before + [q];
    }
    forall other | IsWalk(other) && other[0] == p && other[|other| - 1] == q ensures |path| <= |other| {
      NoShorterWalk(other);
    }
  }

  /* ---------- the netlist as a list of edges ---------- */

  predicate EdgesOk(edges: seq<Edge>, size: nat) {
    forall i :: 0 <= i < |edges| ==> edges[i].src < size && edges[i].dst < size
  }

  function Fanin(edges: seq<Edge>, e: nat): seq<nat> {
    if edges == [] then []
    else Fanin(edges[..|edges| - 1], e) + if edges[|edges| - 1].src == e then [edges[|edges| - 1].dst] else []
  }

  function Fanout(edges: seq<Edge>, e: nat): seq<nat> {
    if edges == [] then []
    else Fanout(edges[..|edges| - 1], e) + if edges[|edges| - 1].dst == e then [edges[|edges| - 1].src] else []
  }

  // The wire length of a placement: every edge once.
  function WireLength(edges: seq<Edge>, loc: seq<Location>): nat
    requires EdgesOk(edges, |loc|)
  {
    if edges == [] then 0
    else
      var e := edges[|edges| - 1];
      WireLength(edges[..|edges| - 1], loc) + Distance(loc[e.src], loc[e.dst])
  }

  // Edges between a and b, in either direction.
  function Between(edges: seq<Edge>, a: nat, b: nat): nat {
    if edges == [] then 0
    else
      var e := edges[|edges| - 1];
      Between(edges[..|edges| - 1], a, b) + if e == Edge(a, b) || e == Edge(b, a) then 1 else 0
  }

  function SelfLoops(edges: seq<Edge>, a: nat): nat {
    if edges == [] then 0
    else SelfLoops(edges[..|edges| - 1], a) + if edges[|edges| - 1] == Edge(a, a) then 1 else 0
  }

  // By how much, in steps of 2 * distance, the computed change is too small.
  function Excess(edges: seq<Edge>, a: nat, b: nat): int {
    Between(edges, a, b) - SelfLoops(edges, a) - SelfLoops(edges, b)
  }

  /* ---------- costs as the loops compute them ---------- */

  // The distances from l to the elements of ends.
  function Spread(ends: seq<nat>, l: Location, loc: seq<Location>): nat
    requires forall i :: 0 <= i < |ends| ==> ends[i] < |loc|
  {
    if ends == [] then 0 else Spread(ends[..|ends| - 1], l, loc) + Distance(l, loc[ends[|ends| - 1]])
  }

  ghost predicate Listed(edges: seq<Edge>, fanin: seq<seq<nat>>, fanout: seq<seq<nat>>) {
    && |fanin| == |fanout| && EdgesOk(edges, |fanin|)
    && forall e :: 0 <= e < |fanin| ==> fanin[e] == Fanin(edges, e) && fanout[e] == Fanout(edges, e)
  }

  lemma {:induction false} EndsOk(edges: seq<Edge>, e: nat, size: nat)
    requires EdgesOk(edges, size)
    ensures forall i :: 0 <= i < |Fanin(edges, e)| ==> Fanin(edges, e)[i] < size
    ensures forall i :: 0 <= i < |Fanout(edges, e)| ==> Fanout(edges, e)[i] < size
  {
    if edges != [] { EndsOk(edges[..|edges| - 1], e, size); }
  }

  class Netlist {
    var fanin: seq<seq<nat>>
    var fanout: seq<seq<nat>>
    var loc: seq<Location>
    ghost var edges: seq<Edge>

    ghost predicate Valid()
      reads this
    {
      Listed(edges, fanin, fanout) && |loc| == |fanin|
    }

    ghost function Cost(e: nat, l: Location): nat
      requires Valid() && e < |loc|
      reads this
    {
      OneEnd(edges, loc, e, l)
    }

    // data[i] lists the inputs of element i; blank elements follow.
    constructor (data: seq<seq<nat>>, maxX: nat, maxY: nat)
      requires |data| < maxX * maxY
      requires forall i, j :: 0 <= i < |data| && 0 <= j < |data[i]| ==> data[i][j] < maxX * maxY
      ensures Valid() && |loc| == maxX * maxY && edges == AllEdges(data, |data|)
      ensures Apart(loc)
    {
      var size := maxX * maxY;
      var ins: seq<seq<nat>> := seq(size, _ => []);
      var outs: seq<seq<nat>> := seq(size, _ => []);
      ghost var done: seq<Edge> := [];
      var i := 0;
      while i < |data|
        invariant 0 <= i <= |data| && |ins| == size
        invariant Listed(done, ins, outs) && done == AllEdges(data, i)
      {
        var j := 0;
        while j < |data[i]|
          invariant 0 <= j <= |data[i]| && |ins| == size
          invariant Listed(done, ins, outs) && done == AllEdges(data, i) + RowEdges(data[i], i, j)
        {
          var id := data[i][j];
          OneMoreEdge(done, ins, outs, i, id);
          ins := ins[i := ins[i] + [id]];
          outs := outs[id := outs[id] + [i]];
          done := done + [Edge(i, id)];
          j := j + 1;
        }
        i := i + 1;
      }
      fanin, fanout, edges := ins, outs, done;
      var grid := Place(maxX, maxY);
      loc := grid;
      GridDistinct(maxX, maxY);
    }

    method RoutingCostGivenLoc(e: nat, l: Location) returns (cost: nat)
      requires Valid() && e < |loc|
      ensures cost == Cost(e, l)
    {
      EndsOk(edges, e, |loc|);
      var faninCost := Measure(fanin[e], l);
      var fanoutCost := Measure(fanout[e], l);
      cost := faninCost + fanoutCost;
    }

    method Measure(ends: seq<nat>, l: Location) returns (cost: nat)
      requires forall i :: 0 <= i < |ends| ==> ends[i] < |loc|
      ensures cost == Spread(ends, l, loc)
    {
      cost := 0;
      var i := 0;
      while i < |ends|
        invariant 0 <= i <= |ends| && cost == Spread(ends[..i], l, loc)
      {
        var other := loc[ends[i]];
        cost := cost + Abs(l.x - other.x);
        cost := cost + Abs(l.y - other.y);
        assert ends[..i + 1][..i] == ends[..i];
        i := i + 1;
      }
      assert ends[..i] == ends;
    }

    // Both directions of an edge are counted, hence the division.
    method TotalRoutingCost() returns (cost: nat)
      requires Valid()
      ensures cost == WireLength(edges, loc)
    {
      hide OneEnd, WireLength;
      var sum, i := 0, 0;
      while i < |loc|
        invariant 0 <= i <= |loc| && sum == CostsUpTo(edges, loc, i)
      {
        var c := RoutingCostGivenLoc(i, loc[i]);
        sum := sum + c;
        i := i + 1;
      }
      EveryEdgeTwice(edges, loc);
      cost := sum / 2;
    }

    method SwapCost(e: nat, oldLoc: Location, newLoc: Location) returns (delta: int)
      requires Valid() && e < |loc|
      ensures delta == Cost(e, newLoc) - Cost(e, oldLoc)
    {
      EndsOk(edges, e, |loc|);
      var noSwap, yesSwap := 0, 0;
      var i := 0;
      while i < |fanin[e]|
        invariant 0 <= i <= |fanin[e]|
        invariant noSwap == Spread(fanin[e][..i], oldLoc, loc) && yesSwap == Spread(fanin[e][..i], newLoc, loc)
      {
        var other := loc[fanin[e][i]];
        noSwap := noSwap + Distance(oldLoc, other);
        yesSwap := yesSwap + Distance(newLoc, other);
        assert fanin[e][..i + 1][..i] == fanin[e][..i];
        i := i + 1;
      }
      assert fanin[e][..i] == fanin[e];
      i := 0;
      while i < |fanout[e]|
        invariant 0 <= i <= |fanout[e]|
        invariant noSwap == Spread(fanin[e], oldLoc, loc) + Spread(fanout[e][..i], oldLoc, loc)
        invariant yesSwap == Spread(fanin[e], newLoc, loc) + Spread(fanout[e][..i], newLoc, loc)
      {
        var other := loc[fanout[e][i]];
        noSwap := noSwap + Distance(oldLoc, other);
        yesSwap := yesSwap + Distance(newLoc, other);
        assert fanout[e][..i + 1][..i] == fanout[e][..i];
        i := i + 1;
      }
      assert fanout[e][..i] == fanout[e];
      delta := yesSwap - noSwap;
    }

    // calculate_delta_routing_cost.  What the swap really changes differs by the edges
    // between a and b, which keep their length, and by the self-loops, which keep length 0.
    method DeltaRoutingCost(a: nat, b: nat) returns (delta: int)
      requires Valid() && a < |loc| && b < |loc| && a != b
      ensures delta == Delta(edges, loc, a, b)
      ensures WireLength(edges, Swapped(loc, a, b)) - WireLength(edges, loc)
        == delta + 2 * Distance(loc[a], loc[b]) * Excess(edges, a, b)
    {
      var aLoc, bLoc := loc[a], loc[b];
      delta := SwapCost(a, aLoc, bLoc);
      var other := SwapCost(b, bLoc, aLoc);
      delta := delta + other;
      DeltaIsOff(edges, loc, a, b);
    }

    method SwapLocations(a: nat, b: nat)
      requires Valid() && a < |loc| && b < |loc|
      modifies this`loc
      ensures Valid() && loc == Swapped(old(loc), a, b)
    {
      loc := Swapped(loc, a, b);
    }

    // The moves at one temperature: each new element is tried against the one before.  A computed
    // gain is always accepted; chance[i] says whether move i is accepted although it is none.
    // places tells the placement before each move and at the end, gains and others which moves were accepted as what.
    method Moves(elements: seq<nat>, chance: seq<bool>)
      returns (good: nat, bad: nat, sum: int, ghost places: seq<seq<Location>>, ghost gains: set<nat>, ghost others: set<nat>)
      requires Valid() && Tries(elements, |loc|) && |elements| == |chance| + 1
      modifies this`loc
      ensures Valid() && |loc| == |old(loc)| && multiset(loc) == multiset(old(loc))
      ensures Traced(edges, elements, chance, |chance|, places) && places[0] == old(loc) && places[|chance|] == loc
      ensures good == |gains| && bad == |others| && Told(edges, elements, chance, |chance|, places, gains, others)
      ensures var moves := Accepted(edges, old(loc), elements, chance, |chance|);
        && loc == Moved(old(loc), moves) && good + bad == |moves|
        && sum == Computed(edges, old(loc), moves)
        && WireLength(edges, loc) - WireLength(edges, old(loc)) == sum + Missed(edges, old(loc), moves)
    {
      hide Delta, WireLength, Excess, Distance, Swapped, Computed, Missed, Moved, Traced, Told;
      NoMoves(edges, loc);
      good, bad, sum, places, gains, others := 0, 0, 0, [loc], {}, {};
      NothingTried(edges, elements, chance, loc);
      for i := 0 to |chance|
        invariant Valid() && |loc| == |old(loc)|
        invariant loc == Moved(old(loc), Accepted(edges, old(loc), elements, chance, i))
        invariant good + bad == |Accepted(edges, old(loc), elements, chance, i)|
        invariant sum == Computed(edges, old(loc), Accepted(edges, old(loc), elements, chance, i))
        invariant |places| == i + 1 && places[0] == old(loc) && places[i] == loc
        invariant Traced(edges, elements, chance, i, places)
        invariant good == |gains| && bad == |others| && Told(edges, elements, chance, i, places, gains, others)
      {
        var a, b := elements[i], elements[i + 1];
        var delta := DeltaRoutingCost(a, b);
        OneMoreMove(edges, old(loc), Accepted(edges, old(loc), elements, chance, i), a, b);
        OneMoreTry(edges, elements, chance, i, places, gains, others, loc);
        if delta < 0 {
          good, sum, gains := good + 1, sum + delta, gains + {i};
          SwapLocations(a, b);
        } else if chance[i] {
          bad, sum, others := bad + 1, sum + delta, others + {i};
          SwapLocations(a, b);
        }
        places := places + [loc];
      }
      MovesAddUp(edges, old(loc), Accepted(edges, old(loc), elements, chance, |chance|));
    }
  }

  // places[i] is the placement that try i found, and places[i + 1] the one that it left.
  ghost predicate Traced(edges: seq<Edge>, elements: seq<nat>, chance: seq<bool>, n: nat, places: seq<seq<Location>>) {
    && |places| == n + 1 && n <= |chance| && |elements| == |chance| + 1
    && (forall i :: 0 <= i <= n ==> EdgesOk(edges, |places[i]|) && Tries(elements, |places[i]|))
    && (forall i :: 0 <= i < n ==> TryIs(edges, places[i], places[i + 1], elements[i], elements[i + 1], chance[i]))
  }

  // gains are the tries with a computed gain, others those that chance accepted without one.
  ghost predicate Told(edges: seq<Edge>, elements: seq<nat>, chance: seq<bool>, n: nat, places: seq<seq<Location>>,
                       gains: set<nat>, others: set<nat>)
  {
    Traced(edges, elements, chance, n, places) && forall i: nat ::
      && (i in gains <==> i < n && Delta(edges, places[i], elements[i], elements[i + 1]) < 0)
      && (i in others <==> i < n && Delta(edges, places[i], elements[i], elements[i + 1]) >= 0 && chance[i])
  }

  lemma NothingTried(edges: seq<Edge>, elements: seq<nat>, chance: seq<bool>, loc: seq<Location>)
    requires EdgesOk(edges, |loc|) && Tries(elements, |loc|) && |elements| == |chance| + 1
    ensures Traced(edges, elements, chance, 0, [loc]) && Told(edges, elements, chance, 0, [loc], {}, {})
  {
  }

  lemma OneMoreTraced(edges: seq<Edge>, elements: seq<nat>, chance: seq<bool>, n: nat, places: seq<seq<Location>>, loc': seq<Location>)
    requires Traced(edges, elements, chance, n, places) && n < |chance| && |loc'| == |places[n]|
    requires TryIs(edges, places[n], loc', elements[n], elements[n + 1], chance[n])
    ensures Traced(edges, elements, chance, n + 1, places + [loc'])
  {
    hide Delta, EdgesOk, TryIs;
    var places' := places + [loc'];
    forall i | 0 <= i < n + 1 ensures TryIs(edges, places'[i], places'[i + 1], elements[i], elements[i + 1], chance[i]) {
      if i < n { assert places'[i] == places[i] && places'[i + 1] == places[i + 1]; }
    }
  }

  lemma OneMoreTry(edges: seq<Edge>, elements: seq<nat>, chance: seq<bool>, n: nat, places: seq<seq<Location>>,
                   gains: set<nat>, others: set<nat>, loc: seq<Location>)
    requires Told(edges, elements, chance, n, places, gains, others) && n < |chance| && |places| == n + 1 && places[n] == loc
    requires EdgesOk(edges, |loc|) && Tries(elements, |loc|) && |elements| == |chance| + 1
    ensures n !in gains && n !in others
    ensures var gain := Delta(edges, loc, elements[n], elements[n + 1]) < 0;
      var places' := places + [if gain || chance[n] then Swapped(loc, elements[n], elements[n + 1]) else loc];
      && Traced(edges, elements, chance, n + 1, places')
      && Told(edges, elements, chance, n + 1, places', if gain then gains + {n} else gains,
              if !gain && chance[n] then others + {n} else others)
  {
    hide Delta, Swapped, EdgesOk, TryIs;
    var a, b := elements[n], elements[n + 1];
    var loc' := if Delta(edges, loc, a, b) < 0 || chance[n] then Swapped(loc, a, b) else loc;
    SwappedIs(edges, loc, a, b, chance[n]);
    OneMoreTraced(edges, elements, chance, n, places, loc');
    assert forall i :: 0 <= i <= n ==> (places + [loc'])[i] == places[i];
  }

  // A try of a against b: accepted if the computed change is a gain or chance has it so, and then a and b
  // have changed places; otherwise nothing has moved.
  ghost predicate TryIs(edges: seq<Edge>, loc: seq<Location>, loc': seq<Location>, a: nat, b: nat, chance: bool)
    requires EdgesOk(edges, |loc|) && a < |loc| && b < |loc|
  {
    if Delta(edges, loc, a, b) < 0 || chance then
      |loc'| == |loc| && loc'[a] == loc[b] && loc'[b] == loc[a] && forall e :: 0 <= e < |loc| && e != a && e != b ==> loc'[e] == loc[e]
    else loc' == loc
  }

  lemma SwappedIs(edges: seq<Edge>, loc: seq<Location>, a: nat, b: nat, chance: bool)
    requires EdgesOk(edges, |loc|) && a < |loc| && b < |loc|
    ensures |Swapped(loc, a, b)| == |loc|
    ensures TryIs(edges, loc, if Delta(edges, loc, a, b) < 0 || chance then Swapped(loc, a, b) else loc, a, b, chance)
  {
    hide Delta;
  }

  function Swapped(loc: seq<Location>, a: nat, b: nat): seq<Location>
    requires a < |loc| && b < |loc|
  {
    loc[a := loc[b]][b := loc[a]]
  }

  method Place(maxX: nat, maxY: nat) returns (loc: seq<Location>)
    ensures loc == Grid(maxX, maxY)
  {
    loc := [];
    var x := 0;
    while x < maxX
      invariant 0 <= x <= maxX && loc == Grid(x, maxY)
    {
      var y := 0;
      while y < maxY
        invariant 0 <= y <= maxY && loc == Grid(x, maxY) + seq(y, k => Location(x, k))
      {
        loc := loc + [Location(x, y)];
        y := y + 1;
      }
      x := x + 1;
    }
  }

  function RowEdges(row: seq<nat>, i: nat, k: nat): seq<Edge>
    requires k <= |row|
  {
    seq(k, j requires 0 <= j < k => Edge(i, row[j]))
  }

  // The edges in the order of the input file.
  function AllEdges(data: seq<seq<nat>>, k: nat): seq<Edge>
    requires k <= |data|
  {
    if k == 0 then [] else AllEdges(data, k - 1) + RowEdges(data[k - 1], k - 1, |data[k - 1]|)
  }

  lemma OneMoreEdge(edges: seq<Edge>, ins: seq<seq<nat>>, outs: seq<seq<nat>>, i: nat, id: nat)
    requires Listed(edges, ins, outs) && i < |ins| && id < |ins|
    ensures Listed(edges + [Edge(i, id)], ins[i := ins[i] + [id]], outs[id := outs[id] + [i]])
  {
    assert (edges + [Edge(i, id)])[..|edges|] == edges;
  }

  // The elements are placed column by column.
  function Grid(maxX: nat, maxY: nat): (g: seq<Location>)
    ensures |g| == maxX * maxY
  {
    if maxX == 0 then [] else Grid(maxX - 1, maxY) + seq(maxY, y => Location(maxX - 1, y))
  }

  // Every place of the chip is taken exactly once, in this order.
  lemma {:induction false} GridAt(maxX: nat, maxY: nat, x: nat, y: nat)
    requires x < maxX && y < maxY
    ensures x * maxY + y < |Grid(maxX, maxY)| && Grid(maxX, maxY)[x * maxY + y] == Location(x, y)
  {
    if x < maxX - 1 {
      GridAt(maxX - 1, maxY, x, y);
    }
  }

  lemma {:induction false} GridDistinct(maxX: nat, maxY: nat)
    ensures forall i :: 0 <= i < |Grid(maxX, maxY)| ==> Grid(maxX, maxY)[i].x < maxX
    ensures forall i, j :: 0 <= i < j < |Grid(maxX, maxY)| ==> Grid(maxX, maxY)[i] != Grid(maxX, maxY)[j]
  {
    if maxX > 0 { GridDistinct(maxX - 1, maxY); }
  }

  /* ---------- edges and elements ---------- */

  // The sum of total_routing_cost over the first k elements.
  ghost function CostsUpTo(edges: seq<Edge>, loc: seq<Location>, k: nat): nat
    requires EdgesOk(edges, |loc|) && k <= |loc|
  {
    if k == 0 then 0
    else CostsUpTo(edges, loc, k - 1) + OneEnd(edges, loc, k - 1, loc[k - 1])
  }

  // The cost of a, were it at l.
  ghost function OneEnd(edges: seq<Edge>, loc: seq<Location>, a: nat, l: Location): nat
    requires EdgesOk(edges, |loc|)
  {
    EndsOk(edges, a, |loc|);
    Spread(Fanin(edges, a), l, loc) + Spread(Fanout(edges, a), l, loc)
  }

  lemma SpreadSnoc(ends: seq<nat>, x: nat, l: Location, loc: seq<Location>)
    requires x < |loc| && forall i :: 0 <= i < |ends| ==> ends[i] < |loc|
    ensures Spread(ends + [x], l, loc) == Spread(ends, l, loc) + Distance(l, loc[x])
  {
    assert (ends + [x])[..|ends|] == ends;
  }

  // What the last edge adds to the cost of an element.
  lemma LastEdge(edges: seq<Edge>, loc: seq<Location>, a: nat, l: Location)
    requires EdgesOk(edges, |loc|) && edges != []
    ensures var e := edges[|edges| - 1];
      OneEnd(edges, loc, a, l) == OneEnd(edges[..|edges| - 1], loc, a, l)
        + (if e.src == a then Distance(l, loc[e.dst]) else 0) + (if e.dst == a then Distance(l, loc[e.src]) else 0)
  {
    var n := |edges| - 1;
    var e := edges[n];
    EndsOk(edges[..n], a, |loc|);
    var ins, outs := Fanin(edges[..n], a), Fanout(edges[..n], a);
    SpreadSnoc(ins, e.dst, l, loc);
    SpreadSnoc(outs, e.src, l, loc);
    assert Fanin(edges, a) == if e.src == a then ins + [e.dst] else ins;
    assert Fanout(edges, a) == if e.dst == a then outs + [e.src] else outs;
  }

  lemma {:induction false} LastEdgeInCosts(edges: seq<Edge>, loc: seq<Location>, k: nat)
    requires EdgesOk(edges, |loc|) && edges != [] && k <= |loc|
    ensures var e := edges[|edges| - 1];
      CostsUpTo(edges, loc, k) == CostsUpTo(edges[..|edges| - 1], loc, k)
        + (if e.src < k then Distance(loc[e.src], loc[e.dst]) else 0) + (if e.dst < k then Distance(loc[e.dst], loc[e.src]) else 0)
  {
    hide OneEnd, Distance;
    if k > 0 {
      LastEdgeInCosts(edges, loc, k - 1);
      LastEdge(edges, loc, k - 1, loc[k - 1]);
    }
  }

  lemma {:induction false} NoCosts(loc: seq<Location>, k: nat)
    requires k <= |loc|
    ensures CostsUpTo([], loc, k) == 0
  {
    if k > 0 { NoCosts(loc, k - 1); }
  }

  // Over all elements every edge is counted from both of its ends.
  lemma {:induction false} EveryEdgeTwice(edges: seq<Edge>, loc: seq<Location>)
    requires EdgesOk(edges, |loc|)
    ensures CostsUpTo(edges, loc, |loc|) == 2 * WireLength(edges, loc)
  {
    if edges == [] {
      NoCosts(loc, |loc|);
    } else {
      EveryEdgeTwice(edges[..|edges| - 1], loc);
      LastEdgeInCosts(edges, loc, |loc|);
    }
  }

  // For one edge: the change that the two elements see, and the change there is.
  lemma EdgeIsOff(e: Edge, loc: seq<Location>, a: nat, b: nat)
    requires e.src < |loc| && e.dst < |loc| && a < |loc| && b < |loc| && a != b
    ensures var d, next := Distance(loc[a], loc[b]), Swapped(loc, a, b);
      var seen := (if e.src == a then Distance(loc[b], loc[e.dst]) - Distance(loc[a], loc[e.dst]) else 0)
        + (if e.dst == a then Distance(loc[b], loc[e.src]) - Distance(loc[a], loc[e.src]) else 0)
        + (if e.src == b then Distance(loc[a], loc[e.dst]) - Distance(loc[b], loc[e.dst]) else 0)
        + (if e.dst == b then Distance(loc[a], loc[e.src]) - Distance(loc[b], loc[e.src]) else 0);
      Distance(next[e.src], next[e.dst]) - Distance(loc[e.src], loc[e.dst])
        == seen + (if e == Edge(a, b) || e == Edge(b, a) then 2 * d else 0) - (if e == Edge(a, a) || e == Edge(b, b) then 2 * d else 0)
  {
    hide Distance;
    var p, q, x, y := loc[a], loc[b], loc[e.src], loc[e.dst];
    BothWays(p, q);
    BothWays(p, x);
    BothWays(p, y);
    BothWays(q, x);
    BothWays(q, y);
  }

  lemma BothWays(p: Location, q: Location)
    ensures Distance(p, q) == Distance(q, p) && Distance(p, p) == Distance(q, q) == 0
  {
  }

  // The change that calculate_delta_routing_cost computes.
  ghost function Delta(edges: seq<Edge>, loc: seq<Location>, a: nat, b: nat): int
    requires EdgesOk(edges, |loc|) && a < |loc| && b < |loc|
  {
    OneEnd(edges, loc, a, loc[b]) - OneEnd(edges, loc, a, loc[a]) + OneEnd(edges, loc, b, loc[a]) - OneEnd(edges, loc, b, loc[b])
  }

  lemma {:induction false} DeltaIsOff(edges: seq<Edge>, loc: seq<Location>, a: nat, b: nat)
    requires EdgesOk(edges, |loc|) && a < |loc| && b < |loc| && a != b
    ensures var d := Distance(loc[a], loc[b]);
      WireLength(edges, Swapped(loc, a, b)) - WireLength(edges, loc)
        == Delta(edges, loc, a, b) + 2 * d * Excess(edges, a, b)
  {
    hide OneEnd, Distance, Swapped;
    if edges == [] {
      NoEnds(loc, a, loc[a]);
      NoEnds(loc, a, loc[b]);
      NoEnds(loc, b, loc[a]);
      NoEnds(loc, b, loc[b]);
    } else {
      var n := |edges| - 1;
      DeltaIsOff(edges[..n], loc, a, b);
      LastEdge(edges, loc, a, loc[b]);
      LastEdge(edges, loc, a, loc[a]);
      LastEdge(edges, loc, b, loc[a]);
      LastEdge(edges, loc, b, loc[b]);
      EdgeIsOff(edges[n], loc, a, b);
      Distribute(Distance(loc[a], loc[b]), Excess(edges[..n], a, b), 1);
      Distribute(Distance(loc[a], loc[b]), Excess(edges[..n], a, b), -1);
    }
  }

  lemma Distribute(d: nat, x: int, y: int)
    ensures 2 * d * (x + y) == 2 * d * x + 2 * d * y
  {
  }

  lemma NoEnds(loc: seq<Location>, a: nat, l: Location)
    ensures OneEnd([], loc, a, l) == 0
  {
  }

  /* ---------- when the computed change is right, and over many moves ---------- */

  predicate Apart(loc: seq<Location>) {
    forall i, j :: 0 <= i < j < |loc| ==> loc[i] != loc[j]
  }

  // Exact just when a and b have as many edges between them as self-loops together.
  lemma DeltaIsExactIff(edges: seq<Edge>, loc: seq<Location>, a: nat, b: nat)
    requires EdgesOk(edges, |loc|) && Apart(loc) && a < |loc| && b < |loc| && a != b
    ensures WireLength(edges, Swapped(loc, a, b)) - WireLength(edges, loc) == Delta(edges, loc, a, b)
      <==> Between(edges, a, b) == SelfLoops(edges, a) + SelfLoops(edges, b)
  {
    hide Delta, WireLength, Swapped, Between, SelfLoops;
    DeltaIsOff(edges, loc, a, b);
    var d, x := Distance(loc[a], loc[b]), Excess(edges, a, b);
    assert loc[a] != loc[b];
    assert d > 0;
    NonzeroProduct(d, x);
  }

  lemma NonzeroProduct(d: nat, x: int)
    requires d > 0
    ensures 2 * d * x == 0 <==> x == 0
  {
  }

  // A connected pair without self-loops is always rated too low.
  lemma ConnectedIsRatedTooLow(edges: seq<Edge>, loc: seq<Location>, a: nat, b: nat)
    requires EdgesOk(edges, |loc|) && Apart(loc) && a < |loc| && b < |loc| && a != b
    requires Between(edges, a, b) > 0 && SelfLoops(edges, a) == SelfLoops(edges, b) == 0
    ensures Delta(edges, loc, a, b) < WireLength(edges, Swapped(loc, a, b)) - WireLength(edges, loc)
  {
    hide Delta, WireLength, Swapped, Between, SelfLoops;
    DeltaIsOff(edges, loc, a, b);
    var d, x := Distance(loc[a], loc[b]), Excess(edges, a, b);
    assert loc[a] != loc[b];
    assert d * x > 0;
  }

  predicate MovesOk(moves: seq<(nat, nat)>, size: nat) {
    forall i :: 0 <= i < |moves| ==> moves[i].0 < size && moves[i].1 < size && moves[i].0 != moves[i].1
  }

  // The placement after the accepted moves.
  function Moved(loc: seq<Location>, moves: seq<(nat, nat)>): (r: seq<Location>)
    requires MovesOk(moves, |loc|)
    ensures |r| == |loc|
  {
    if moves == [] then loc
    else Swapped(Moved(loc, moves[..|moves| - 1]), moves[|moves| - 1].0, moves[|moves| - 1].1)
  }

  // The sum of the computed changes.
  ghost function Computed(edges: seq<Edge>, loc: seq<Location>, moves: seq<(nat, nat)>): int
    requires EdgesOk(edges, |loc|) && MovesOk(moves, |loc|)
  {
    if moves == [] then 0
    else
      var n := |moves| - 1;
      Computed(edges, loc, moves[..n]) + Delta(edges, Moved(loc, moves[..n]), moves[n].0, moves[n].1)
  }

  // The sum of what they miss.
  ghost function Missed(edges: seq<Edge>, loc: seq<Location>, moves: seq<(nat, nat)>): int
    requires MovesOk(moves, |loc|)
  {
    if moves == [] then 0
    else
      var n := |moves| - 1;
      var at, a, b := Moved(loc, moves[..n]), moves[n].0, moves[n].1;
      Missed(edges, loc, moves[..n]) + 2 * Distance(at[a], at[b]) * Excess(edges, a, b)
  }

  lemma {:induction false} MovesAddUp(edges: seq<Edge>, loc: seq<Location>, moves: seq<(nat, nat)>)
    requires EdgesOk(edges, |loc|) && MovesOk(moves, |loc|)
    ensures WireLength(edges, Moved(loc, moves)) - WireLength(edges, loc) == Computed(edges, loc, moves) + Missed(edges, loc, moves)
    ensures multiset(Moved(loc, moves)) == multiset(loc)
  {
    hide Delta, WireLength, Excess, Distance;
    if moves != [] {
      var n := |moves| - 1;
      var at, a, b := Moved(loc, moves[..n]), moves[n].0, moves[n].1;
      MovesAddUp(edges, loc, moves[..n]);
      DeltaIsOff(edges, at, a, b);
    }
  }

  // The next element is never the one before.
  predicate Tries(elements: seq<nat>, size: nat) {
    && (forall i :: 0 <= i < |elements| ==> elements[i] < size)
    && forall i :: 0 < i < |elements| ==> elements[i] != elements[i - 1]
  }

  // The moves accepted among the first k.
  ghost function Accepted(edges: seq<Edge>, loc: seq<Location>, elements: seq<nat>, chance: seq<bool>, k: nat): (moves: seq<(nat, nat)>)
    requires EdgesOk(edges, |loc|) && Tries(elements, |loc|) && |elements| == |chance| + 1 && k <= |chance|
    ensures MovesOk(moves, |loc|)
  {
    if k == 0 then []
    else
      var moves, a, b := Accepted(edges, loc, elements, chance, k - 1), elements[k - 1], elements[k];
      if Delta(edges, Moved(loc, moves), a, b) < 0 || chance[k - 1] then moves + [(a, b)] else moves
  }

  lemma NoMoves(edges: seq<Edge>, loc: seq<Location>)
    requires EdgesOk(edges, |loc|)
    ensures Moved(loc, []) == loc && Computed(edges, loc, []) == 0
  {
  }

  lemma OneMoreMove(edges: seq<Edge>, loc: seq<Location>, moves: seq<(nat, nat)>, a: nat, b: nat)
    requires EdgesOk(edges, |loc|) && MovesOk(moves, |loc|) && MovesOk(moves + [(a, b)], |loc|) && a < |loc| && b < |loc|
    ensures Moved(loc, moves + [(a, b)]) == Swapped(Moved(loc, moves), a, b)
    ensures Computed(edges, loc, moves + [(a, b)]) == Computed(edges, loc, moves) + Delta(edges, Moved(loc, moves), a, b)
  {
    hide Delta, Swapped;
    assert (moves + [(a, b)])[..|moves|] == moves;
  }
}
