/**
  How barnes divides the bodies among the processors: every processor walks the octree
  in the same space-filling order and keeps the bodies whose place in the running sum of
  costs falls between its two cuts, skipping subtrees that lie before its zone.
 */
module Costzones {

  /* ---------- the tree ---------- */

  datatype Body = Body(id: nat, cost: nat)

  datatype Node =
    | Leaf(cost: nat, bodies: seq<Body>)
    | Cell(cost: nat, subp: seq<Slot>)

  datatype Slot = Null | Child(node: Node)

  function Total(bs: seq<Body>): (t: nat) {
    if bs == [] then 0 else bs[0].cost + Total(bs[1..])
  }

  // Child_Sequence
  function ChildSequence(d: nat): seq<nat> {
    match d
    case 0 => [2, 5, 6, 1, 0, 3, 4, 7]
    case 1 => [2, 5, 6, 1, 0, 7, 4, 3]
    case 2 => [1, 6, 5, 2, 3, 0, 7, 4]
    case 3 => [1, 6, 5, 2, 3, 4, 7, 0]
    case 4 => [6, 1, 2, 5, 4, 7, 0, 3]
    case 5 => [6, 1, 2, 5, 4, 3, 0, 7]
    case 6 => [5, 2, 1, 6, 7, 4, 3, 0]
    case 7 => [5, 2, 1, 6, 7, 0, 3, 4]
    case 8 => [1, 2, 5, 6, 7, 4, 3, 0]
    case 9 => [1, 2, 5, 6, 7, 0, 3, 4]
    case 10 => [6, 5, 2, 1, 0, 3, 4, 7]
    case 11 => [6, 5, 2, 1, 0, 7, 4, 3]
    case 12 => [5, 6, 1, 2, 3, 0, 7, 4]
    case 13 => [5, 6, 1, 2, 3, 4, 7, 0]
    case 14 => [2, 1, 6, 5, 4, 7, 0, 3]
    case 15 => [2, 1, 6, 5, 4, 3, 0, 7]
    case 16 => [3, 4, 7, 0, 1, 2, 5, 6]
    case 17 => [3, 4, 7, 0, 1, 6, 5, 2]
    case 18 => [0, 7, 4, 3, 2, 1, 6, 5]
    case 19 => [0, 7, 4, 3, 2, 5, 6, 1]
    case 20 => [7, 0, 3, 4, 5, 6, 1, 2]
    case 21 => [7, 0, 3, 4, 5, 2, 1, 6]
    case 22 => [4, 3, 0, 7, 6, 5, 2, 1]
    case 23 => [4, 3, 0, 7, 6, 1, 2, 5]
    case 24 => [0, 3, 4, 7, 6, 5, 2, 1]
    case 25 => [0, 3, 4, 7, 6, 1, 2, 5]
    case 26 => [7, 4, 3, 0, 1, 2, 5, 6]
    case 27 => [7, 4, 3, 0, 1, 6, 5, 2]
    case 28 => [4, 7, 0, 3, 2, 1, 6, 5]
    case 29 => [4, 7, 0, 3, 2, 5, 6, 1]
    case 30 => [3, 0, 7, 4, 5, 6, 1, 2]
    case _ => [3, 0, 7, 4, 5, 2, 1, 6]
  }

  // Direction_Sequence
  function DirectionSequence(d: nat): seq<nat> {
    match d
    case 0 => [16, 3, 30, 6, 9, 26, 3, 31]
    case 1 => [16, 3, 30, 6, 2, 17, 8, 20]
    case 2 => [18, 1, 24, 4, 15, 28, 1, 25]
    case 3 => [18, 1, 24, 4, 9, 26, 3, 31]
    case 4 => [20, 7, 26, 2, 13, 30, 7, 27]
    case 5 => [20, 7, 26, 2, 6, 21, 12, 16]
    case 6 => [22, 5, 28, 0, 11, 24, 5, 29]
    case 7 => [22, 5, 28, 0, 4, 23, 10, 18]
    case 8 => [25, 10, 19, 15, 11, 24, 5, 29]
    case 9 => [25, 10, 19, 15, 4, 23, 10, 18]
    case 10 => [27, 8, 21, 13, 9, 26, 3, 31]
    case 11 => [27, 8, 21, 13, 2, 17, 8, 20]
    case 12 => [29, 14, 23, 11, 15, 28, 1, 25]
    case 13 => [29, 14, 23, 11, 9, 26, 3, 31]
    case 14 => [31, 12, 17, 9, 13, 30, 7, 27]
    case 15 => [31, 12, 17, 9, 6, 21, 12, 16]
    case 16 => [9, 26, 3, 31, 25, 10, 19, 15]
    case 17 => [9, 26, 3, 31, 18, 1, 24, 4]
    case 18 => [2, 17, 8, 20, 31, 12, 17, 9]
    case 19 => [2, 17, 8, 20, 16, 3, 30, 6]
    case 20 => [4, 23, 10, 18, 29, 14, 23, 11]
    case 21 => [4, 23, 10, 18, 22, 5, 28, 0]
    case 22 => [6, 21, 12, 16, 27, 8, 21, 13]
    case 23 => [6, 21, 12, 16, 20, 7, 26, 2]
    case 24 => [9, 26, 3, 31, 27, 8, 21, 13]
    case 25 => [9, 26, 3, 31, 20, 7, 26, 2]
    case 26 => [11, 24, 5, 29, 25, 10, 19, 15]
    case 27 => [11, 24, 5, 29, 18, 1, 24, 4]
    case 28 => [13, 30, 7, 27, 31, 12, 17, 9]
    case 29 => [13, 30, 7, 27, 16, 3, 30, 6]
    case 30 => [15, 28, 1, 25, 29, 14, 23, 11]
    case _ => [15, 28, 1, 25, 22, 5, 28, 0]
  }

  // Eight different numbers below eight.
  predicate GoodRow(row: seq<nat>) {
    |row| == 8 && (forall i :: 0 <= i < 8 ==> row[i] < 8) && forall i, j :: 0 <= i < j < 8 ==> row[i] != row[j]
  }

  lemma EveryRowIsGood(d: nat)
    ensures GoodRow(ChildSequence(d))
  {
    hide GoodRow, ChildSequence;
    if d < 8 { Rows0(d); } else if d < 16 { Rows8(d); } else if d < 24 { Rows16(d); } else { Rows24(d); }
  }

  lemma Rows0(d: nat)
    requires 0 <= d < 8
    ensures GoodRow(ChildSequence(d))
  {
    hide GoodRow;
    match d
    case 0 => GoodEight(2, 5, 6, 1, 0, 3, 4, 7);
    case 1 => GoodEight(2, 5, 6, 1, 0, 7, 4, 3);
    case 2 => GoodEight(1, 6, 5, 2, 3, 0, 7, 4);
    case 3 => GoodEight(1, 6, 5, 2, 3, 4, 7, 0);
    case 4 => GoodEight(6, 1, 2, 5, 4, 7, 0, 3);
    case 5 => GoodEight(6, 1, 2, 5, 4, 3, 0, 7);
    case 6 => GoodEight(5, 2, 1, 6, 7, 4, 3, 0);
    case 7 => GoodEight(5, 2, 1, 6, 7, 0, 3, 4);
  }

  lemma Rows8(d: nat)
    requires 8 <= d < 16
    ensures GoodRow(ChildSequence(d))
  {
    hide GoodRow;
    match d
    case 8 => GoodEight(1, 2, 5, 6, 7, 4, 3, 0);
    case 9 => GoodEight(1, 2, 5, 6, 7, 0, 3, 4);
    case 10 => GoodEight(6, 5, 2, 1, 0, 3, 4, 7);
    case 11 => GoodEight(6, 5, 2, 1, 0, 7, 4, 3);
    case 12 => GoodEight(5, 6, 1, 2, 3, 0, 7, 4);
    case 13 => GoodEight(5, 6, 1, 2, 3, 4, 7, 0);
    case 14 => GoodEight(2, 1, 6, 5, 4, 7, 0, 3);
    case 15 => GoodEight(2, 1, 6, 5, 4, 3, 0, 7);
  }

  lemma Rows16(d: nat)
    requires 16 <= d < 24
    ensures GoodRow(ChildSequence(d))
  {
    hide GoodRow;
    match d
    case 16 => GoodEight(3, 4, 7, 0, 1, 2, 5, 6);
    case 17 => GoodEight(3, 4, 7, 0, 1, 6, 5, 2);
    case 18 => GoodEight(0, 7, 4, 3, 2, 1, 6, 5);
    case 19 => GoodEight(0, 7, 4, 3, 2, 5, 6, 1);
    case 20 => GoodEight(7, 0, 3, 4, 5, 6, 1, 2);
    case 21 => GoodEight(7, 0, 3, 4, 5, 2, 1, 6);
    case 22 => GoodEight(4, 3, 0, 7, 6, 5, 2, 1);
    case 23 => GoodEight(4, 3, 0, 7, 6, 1, 2, 5);
  }

  lemma Rows24(d: nat)
    requires 24 <= d
    ensures GoodRow(ChildSequence(d))
  {
    hide GoodRow;
    match d
    case 24 => GoodEight(0, 3, 4, 7, 6, 5, 2, 1);
    case 25 => GoodEight(0, 3, 4, 7, 6, 1, 2, 5);
    case 26 => GoodEight(7, 4, 3, 0, 1, 2, 5, 6);
    case 27 => GoodEight(7, 4, 3, 0, 1, 6, 5, 2);
    case 28 => GoodEight(4, 7, 0, 3, 2, 1, 6, 5);
    case 29 => GoodEight(4, 7, 0, 3, 2, 5, 6, 1);
    case 30 => GoodEight(3, 0, 7, 4, 5, 6, 1, 2);
    case _ => GoodEight(3, 0, 7, 4, 5, 2, 1, 6);
  }

  lemma GoodEight(a: nat, b: nat, c: nat, d: nat, e: nat, f: nat, g: nat, h: nat)
    requires a < 8 && b < 8 && c < 8 && d < 8 && e < 8 && f < 8 && g < 8 && h < 8
    requires a != b && a != c && a != d && a != e && a != f && a != g && a != h
    requires b != c && b != d && b != e && b != f && b != g && b != h
    requires c != d && c != e && c != f && c != g && c != h && d != e && d != f && d != g && d != h
    requires e != f && e != g && e != h && f != g && f != h && g != h
    ensures GoodRow([a, b, c, d, e, f, g, h])
  {
  }

  lemma DirectionsAreGood(d: nat)
    ensures |DirectionSequence(d)| == 8 && forall i :: 0 <= i < 8 ==> DirectionSequence(d)[i] < 32
  {
  }

  /* ---------- the order of the walk ---------- */

  // The bodies below node, in the order in which find_my_bodies comes by.
  function Walk(node: Node, d: nat): seq<Body>
    decreases node, 9
  {
    match node
    case Leaf(_, bodies) => bodies
    case Cell(_, subp) => WalkSlots(node, d, 8)
  }

  // The first k children of a cell.
  function WalkSlots(cell: Node, d: nat, k: nat): seq<Body>
    requires k <= 8
    decreases cell, k
  {
    if k == 0 || cell.Leaf? then [] else WalkSlots(cell, d, k - 1) + WalkSlot(cell, d, k - 1)
  }

  function WalkSlot(cell: Node, d: nat, i: nat): seq<Body>
    requires i < 8 && cell.Cell?
    decreases cell, i
  {
    var slot := ChildSequence(d)[i];
    if slot >= |cell.subp| then []
    else match cell.subp[slot]
      case Null => []
      case Child(node) => Walk(node, DirectionSequence(d)[i])
  }

  /* ---------- what is below a node ---------- */

  datatype Sum = Sum(cost: nat, bodies: multiset<Body>)

  const NOTHING := Sum(0, multiset{})

  function Plus(a: Sum, b: Sum): Sum {
    Sum(a.cost + b.cost, a.bodies + b.bodies)
  }

  function Content(node: Node): Sum
    decreases node, 1, 0
  {
    match node
    case Leaf(_, bodies) => Sum(Total(bodies), multiset(bodies))
    case Cell(_, _) => SlotsContent(node, [0, 1, 2, 3, 4, 5, 6, 7])
  }

  function SlotsContent(cell: Node, slots: seq<nat>): Sum
    requires cell.Cell?
    decreases cell, 0, |slots|
  {
    if slots == [] then NOTHING
    else Plus(SlotsContent(cell, slots[..|slots| - 1]), SlotContent(cell, slots[|slots| - 1]))
  }

  function SlotContent(cell: Node, slot: nat): Sum
    requires cell.Cell?
    decreases cell, 0, 0
  {
    if slot >= |cell.subp| then NOTHING
    else match cell.subp[slot]
      case Null => NOTHING
      case Child(node) => Content(node)
  }

  // Every node knows the summed cost of the bodies below it, as hackcofm leaves it.
  predicate CostsOk(node: Node) {
    && node.cost == Content(node).cost
    && (node.Cell? ==> |node.subp| == 8 && forall i :: 0 <= i < 8 ==> SlotOk(node.subp[i]))
  }

  predicate SlotOk(slot: Slot) {
    slot.Child? ==> CostsOk(slot.node)
  }

  // Taking one entry out of each of two sequences, or putting it back.
  lemma OneOut(s: seq<nat>, t: seq<nat>, k: nat)
    requires s != [] && k < |t| && t[k] == s[|s| - 1]
    ensures multiset(s) == multiset(s[..|s| - 1]) + multiset{t[k]}
    ensures multiset(t) == multiset(t[..k] + t[k + 1..]) + multiset{t[k]}
  {
    assert s == s[..|s| - 1] + [s[|s| - 1]];
    assert t == t[..k] + [t[k]] + t[k + 1..];
  }

  lemma TakeOut(s: seq<nat>, t: seq<nat>, k: nat)
    requires s != [] && multiset(s) == multiset(t) && k < |t| && t[k] == s[|s| - 1]
    ensures multiset(s[..|s| - 1]) == multiset(t[..k] + t[k + 1..])
  {
    OneOut(s, t, k);
    Cancel(multiset(s[..|s| - 1]), multiset(t[..k] + t[k + 1..]), t[k]);
  }

  lemma Cancel(a: multiset<nat>, b: multiset<nat>, x: nat)
    requires a + multiset{x} == b + multiset{x}
    ensures a == b
  {
    assert a == a + multiset{x} - multiset{x};
    assert b == b + multiset{x} - multiset{x};
  }

  lemma {:induction false} Permuted(cell: Node, s: seq<nat>, t: seq<nat>)
    requires cell.Cell? && multiset(s) == multiset(t)
    ensures SlotsContent(cell, s) == SlotsContent(cell, t)
    decreases |s|
  {
    hide SlotsContent, SlotContent;
    assert |multiset(s)| == |multiset(t)|;
    if s != [] {
      var n := |s| - 1;
      assert s[n] in multiset(t);
      var k :| 0 <= k < |t| && t[k] == s[n];
      TakeOut(s, t, k);
      Permuted(cell, s[..n], t[..k] + t[k + 1..]);
      assert s == s[..n] + [s[n]] && t == t[..k] + [t[k]] + t[k + 1..];
      SlotsSnoc(cell, s[..n], s[n]);
      MoveLast(cell, t[..k], t[k], t[k + 1..]);
    }
  }

  lemma SlotsSnoc(cell: Node, s: seq<nat>, x: nat)
    requires cell.Cell?
    ensures SlotsContent(cell, s + [x]) == Plus(SlotsContent(cell, s), SlotContent(cell, x))
  {
    hide SlotContent;
    assert (s + [x])[..|s|] == s;
  }

  lemma {:induction false} MoveLast(cell: Node, a: seq<nat>, x: nat, b: seq<nat>)
    requires cell.Cell?
    ensures SlotsContent(cell, a + [x] + b) == Plus(SlotsContent(cell, a + b), SlotContent(cell, x))
    decreases |b|
  {
    hide SlotContent, SlotsContent;
    if b == [] {
      assert a + [x] + b == a + [x] && a + b == a;
      SlotsSnoc(cell, a, x);
    } else {
      var n := |b| - 1;
      MoveLast(cell, a, x, b[..n]);
      assert a + [x] + b == (a + [x] + b[..n]) + [b[n]] && a + b == (a + b[..n]) + [b[n]];
      SlotsSnoc(cell, a + [x] + b[..n], b[n]);
      SlotsSnoc(cell, a + b[..n], b[n]);
    }
  }

  lemma {:induction false} SameNumbers(s: seq<nat>, t: seq<nat>)
    requires |s| == |t| && (forall i :: 0 <= i < |s| ==> s[i] in t)
    requires forall i, j :: 0 <= i < j < |s| ==> s[i] != s[j]
    ensures multiset(s) == multiset(t)
    decreases |s|
  {
    if s != [] {
      var n := |s| - 1;
      var k :| 0 <= k < |t| && t[k] == s[n];
      var rest := t[..k] + t[k + 1..];
      forall i | 0 <= i < n ensures s[..n][i] in rest {
        var j :| 0 <= j < |t| && t[j] == s[i];
        assert rest[if j < k then j else j - 1] == s[i];
      }
      SameNumbers(s[..n], rest);
      OneOut(s, t, k);
    }
  }

  lemma RowCovers(d: nat)
    ensures multiset(ChildSequence(d)) == multiset([0, 1, 2, 3, 4, 5, 6, 7])
  {
    hide ChildSequence;
    EveryRowIsGood(d);
    var t: seq<nat> := [0, 1, 2, 3, 4, 5, 6, 7];
    assert forall k :: 0 <= k < 8 ==> t[k] == k;
    SameNumbers(ChildSequence(d), t);
  }

  lemma {:induction false} TotalJoin(a: seq<Body>, b: seq<Body>)
    ensures Total(a + b) == Total(a) + Total(b)
  {
    if a == [] {
      assert a + b == b;
    } else {
      TotalJoin(a[1..], b);
      assert (a + b)[1..] == a[1..] + b;
    }
  }

  // In every direction the walk meets exactly the bodies below the node, each once.
  lemma {:induction false} WalkMeetsAll(node: Node, d: nat)
    requires CostsOk(node)
    ensures Content(node) == Sum(Total(Walk(node, d)), multiset(Walk(node, d)))
    decreases node, 9
  {
    hide ChildSequence, DirectionSequence;
    if node.Cell? {
      EveryRowIsGood(d);
      SlotsMeetAll(node, d, 8);
      assert ChildSequence(d)[..8] == ChildSequence(d);
      RowCovers(d);
      Permuted(node, ChildSequence(d), [0, 1, 2, 3, 4, 5, 6, 7]);
    }
  }

  lemma {:induction false} SlotsMeetAll(cell: Node, d: nat, k: nat)
    requires CostsOk(cell) && cell.Cell? && k <= 8 && |ChildSequence(d)| == 8
    ensures SlotsContent(cell, ChildSequence(d)[..k]) == Sum(Total(WalkSlots(cell, d, k)), multiset(WalkSlots(cell, d, k)))
    decreases cell, k
  {
    hide ChildSequence, DirectionSequence, Content, SlotsContent, SlotContent, WalkSlot;
    var row := ChildSequence(d);
    if k == 0 {
      NoSlots(cell);
    } else {
      SlotsMeetAll(cell, d, k - 1);
      assert row[..k] == row[..k - 1] + [row[k - 1]];
      SlotsSnoc(cell, row[..k - 1], row[k - 1]);
      TotalJoin(WalkSlots(cell, d, k - 1), WalkSlot(cell, d, k - 1));
      SlotMeetsAll(cell, d, k - 1);
    }
  }

  lemma NoSlots(cell: Node)
    requires cell.Cell?
    ensures SlotsContent(cell, []) == NOTHING
  {
  }

  lemma {:induction false} SlotMeetsAll(cell: Node, d: nat, i: nat)
    requires CostsOk(cell) && cell.Cell? && i < 8 && |ChildSequence(d)| == 8
    ensures SlotContent(cell, ChildSequence(d)[i]) == Sum(Total(WalkSlot(cell, d, i)), multiset(WalkSlot(cell, d, i)))
    decreases cell, i
  {
    hide ChildSequence, DirectionSequence, Content, Walk;
    var slot := ChildSequence(d)[i];
    if slot < 8 && cell.subp[slot].Child? {
      assert SlotOk(cell.subp[slot]);
      DirectionsAreGood(d);
      WalkMeetsAll(cell.subp[slot].node, DirectionSequence(d)[i]);
    }
  }

  /* ---------- zones ---------- */

  // The bodies whose place in the running sum of costs, which starts at work, is in [lo, hi).
  function Zone(bs: seq<Body>, work: nat, lo: int, hi: int): seq<Body> {
    if bs == [] then []
    else (if lo <= work < hi then [bs[0]] else []) + Zone(bs[1..], work + bs[0].cost, lo, hi)
  }

  lemma ZoneCons(b: Body, bs: seq<Body>, work: nat, lo: int, hi: int)
    ensures Zone([b] + bs, work, lo, hi) == (if lo <= work < hi then [b] else []) + Zone(bs, work + b.cost, lo, hi)
    ensures Total([b] + bs) == b.cost + Total(bs)
  {
    assert ([b] + bs)[1..] == bs;
  }

  lemma {:induction false} ZoneJoin(a: seq<Body>, b: seq<Body>, work: nat, lo: int, hi: int)
    ensures Zone(a + b, work, lo, hi) == Zone(a, work, lo, hi) + Zone(b, work + Total(a), lo, hi)
  {
    hide Zone, Total;
    if a == [] {
      assert a + b == b;
      NoBodies(work, lo, hi);
    } else {
      var rest := a[1..];
      ZoneJoin(rest, b, work + a[0].cost, lo, hi);
      assert a == [a[0]] + rest && a + b == [a[0]] + (rest + b);
      ZoneCons(a[0], rest, work, lo, hi);
      ZoneCons(a[0], rest + b, work, lo, hi);
    }
  }

  lemma NoBodies(work: nat, lo: int, hi: int)
    ensures Zone([], work, lo, hi) == [] && Total([]) == 0
  {
  }

  // Nothing behind the upper cut.
  lemma {:induction false} ZoneBehind(bs: seq<Body>, work: nat, lo: int, hi: int)
    requires work >= hi
    ensures Zone(bs, work, lo, hi) == []
  {
    if bs != [] { ZoneBehind(bs[1..], work + bs[0].cost, lo, hi); }
  }

  // Nothing before the lower cut.
  lemma {:induction false} ZoneBefore(bs: seq<Body>, work: nat, lo: int, hi: int)
    requires work + Total(bs) < lo
    ensures Zone(bs, work, lo, hi) == []
  {
    if bs != [] { ZoneBefore(bs[1..], work + bs[0].cost, lo, hi); }
  }

  // Neighbouring zones make one zone.
  lemma {:induction false} ZoneSplit(bs: seq<Body>, work: nat, lo: int, mid: int, hi: int)
    requires lo <= mid <= hi
    ensures Zone(bs, work, lo, mid) + Zone(bs, work, mid, hi) == Zone(bs, work, lo, hi)
  {
    if bs != [] {
      ZoneSplit(bs[1..], work + bs[0].cost, lo, mid, hi);
      if mid <= work { ZoneBehind(bs, work, lo, mid); ZoneBehind(bs[1..], work + bs[0].cost, lo, mid); }
    }
  }

  lemma {:induction false} ZoneAll(bs: seq<Body>, work: nat, lo: int, hi: int)
    requires lo <= work && work + Total(bs) < hi
    ensures Zone(bs, work, lo, hi) == bs
  {
    if bs != [] { ZoneAll(bs[1..], work + bs[0].cost, lo, hi); }
  }

  /* ---------- the walk of one processor ---------- */

  class Processor {
    var workMin: int
    var workMax: int
    // mybodytab up to mynbody
    var bodies: seq<Body>

    constructor (workMin: int, workMax: int)
      ensures this.workMin == workMin && this.workMax == workMax && bodies == []
    {
      this.workMin, this.workMax, bodies := workMin, workMax, [];
    }

    predicate Reached(work: int)
      reads this
    {
      work as real >= workMin as real - 0.1
    }

    predicate Past(work: int)
      reads this
    {
      work as real >= workMax as real - 0.1
    }

    method FindMyBodies(mycell: Node, work0: nat, direction: nat)
      requires CostsOk(mycell) && direction < 32
      requires mycell.Leaf? ==> work0 < workMax
      modifies this`bodies
      ensures bodies == old(bodies) + Zone(Walk(mycell, direction), work0, workMin, workMax)
      decreases mycell
    {
      match mycell
      case Leaf(_, bs) => FindInLeaf(bs, work0);
      case Cell(_, subp) => FindInCell(mycell, work0, direction);
    }

    method FindInCell(mycell: Node, work0: nat, direction: nat)
      requires CostsOk(mycell) && direction < 32 && mycell.Cell?
      modifies this`bodies
      ensures bodies == old(bodies) + Zone(WalkSlots(mycell, direction, 8), work0, workMin, workMax)
      decreases mycell, 0
    {
      hide ChildSequence, DirectionSequence, Content, Walk, WalkSlots, WalkSlot, Zone;
      EveryRowIsGood(direction);
      DirectionsAreGood(direction);
      NoWalk(mycell, direction, work0, workMin, workMax);
      var work, i := work0, 0;
      while i < 8 && !Past(work)
        invariant 0 <= i <= 8
        invariant work == work0 + Total(WalkSlots(mycell, direction, i))
        invariant bodies == old(bodies) + Zone(WalkSlots(mycell, direction, i), work0, workMin, workMax)
        decreases 8 - i
      {
        var slot := ChildSequence(direction)[i];
        SlotStep(mycell, direction, i, work0, workMin, workMax);
        match mycell.subp[slot] {
          case Null =>
          case Child(qptr) =>
            assert SlotOk(mycell.subp[slot]);
            if Reached(work + qptr.cost) {
              FindMyBodies(qptr, work, DirectionSequence(direction)[i]);
            } else {
              ZoneBefore(Walk(qptr, DirectionSequence(direction)[i]), work, workMin, workMax);
            }
            work := work + qptr.cost;
        }
        i := i + 1;
      }
      if i < 8 { SlotsBehind(mycell, direction, i, 8, work0, workMin, workMax); }
    }

    method FindInLeaf(bs: seq<Body>, work0: nat)
      requires work0 < workMax
      modifies this`bodies
      ensures bodies == old(bodies) + Zone(bs, work0, workMin, workMax)
    {
      var work, i := work0, 0;
      while i < |bs|
        invariant 0 <= i <= |bs| && work == work0 + Total(bs[..i]) && work < workMax
        invariant bodies == old(bodies) + Zone(bs[..i], work0, workMin, workMax)
      {
        ghost var was := work;
        if Reached(work) { bodies := bodies + [bs[i]]; }
        work := work + bs[i].cost;
        OneMoreBody(bs, i, work0, workMin, workMax);
        i := i + 1;
        if Past(work) {
          RestIsBehind(bs, i, work0, workMin, workMax);
          return;
        }
      }
      assert bs[..i] == bs;
    }
  }

  lemma OneMoreBody(bs: seq<Body>, i: nat, work: nat, lo: int, hi: int)
    requires i < |bs|
    ensures Total(bs[..i + 1]) == Total(bs[..i]) + bs[i].cost
    ensures Zone(bs[..i + 1], work, lo, hi)
      == Zone(bs[..i], work, lo, hi) + if lo <= work + Total(bs[..i]) < hi then [bs[i]] else []
  {
    assert bs[..i + 1] == bs[..i] + [bs[i]];
    TotalJoin(bs[..i], [bs[i]]);
    ZoneJoin(bs[..i], [bs[i]], work, lo, hi);
  }

  lemma RestIsBehind(bs: seq<Body>, i: nat, work: nat, lo: int, hi: int)
    requires i <= |bs| && work + Total(bs[..i]) >= hi
    ensures Zone(bs, work, lo, hi) == Zone(bs[..i], work, lo, hi)
  {
    assert bs == bs[..i] + bs[i..];
    ZoneJoin(bs[..i], bs[i..], work, lo, hi);
    ZoneBehind(bs[i..], work + Total(bs[..i]), lo, hi);
  }

  lemma NoWalk(cell: Node, d: nat, work: nat, lo: int, hi: int)
    ensures WalkSlots(cell, d, 0) == [] && Zone([], work, lo, hi) == [] && Total([]) == 0
  {
  }

  lemma OneMoreSlot(cell: Node, d: nat, i: nat)
    requires cell.Cell? && i < 8
    ensures WalkSlots(cell, d, i + 1) == WalkSlots(cell, d, i) + WalkSlot(cell, d, i)
  {
    hide WalkSlot;
  }

  lemma SlotIs(cell: Node, d: nat, i: nat)
    requires CostsOk(cell) && cell.Cell? && i < 8
    ensures |ChildSequence(d)| == 8 && ChildSequence(d)[i] < 8 == |cell.subp| && |DirectionSequence(d)| == 8
    ensures var slot := cell.subp[ChildSequence(d)[i]];
      SlotOk(slot) && WalkSlot(cell, d, i) == if slot.Null? then [] else Walk(slot.node, DirectionSequence(d)[i])
  {
    hide ChildSequence, DirectionSequence, Content, Walk;
    EveryRowIsGood(d);
    DirectionsAreGood(d);
  }

  lemma SlotCost(slot: Slot, d: nat)
    requires SlotOk(slot) && slot.Child?
    ensures Total(Walk(slot.node, d)) == slot.node.cost
  {
    hide Content, Walk;
    WalkMeetsAll(slot.node, d);
  }

  lemma SlotStep(cell: Node, d: nat, i: nat, work: nat, lo: int, hi: int)
    requires CostsOk(cell) && cell.Cell? && i < 8
    ensures |ChildSequence(d)| == 8 && ChildSequence(d)[i] < 8 == |cell.subp| && |DirectionSequence(d)| == 8
    ensures var done, slot := WalkSlots(cell, d, i), cell.subp[ChildSequence(d)[i]];
      if slot.Null? then WalkSlots(cell, d, i + 1) == done
      else
        var next := Walk(slot.node, DirectionSequence(d)[i]);
        && WalkSlots(cell, d, i + 1) == done + next
        && Total(next) == slot.node.cost && Total(done + next) == Total(done) + Total(next)
        && Zone(done + next, work, lo, hi) == Zone(done, work, lo, hi) + Zone(next, work + Total(done), lo, hi)
  {
    hide ChildSequence, DirectionSequence, Content, Walk, WalkSlots, WalkSlot, Zone, CostsOk, SlotOk;
    OneMoreSlot(cell, d, i);
    SlotIs(cell, d, i);
    var done, slot := WalkSlots(cell, d, i), cell.subp[ChildSequence(d)[i]];
    if slot.Child? {
      var next := Walk(slot.node, DirectionSequence(d)[i]);
      SlotCost(slot, DirectionSequence(d)[i]);
      TotalJoin(done, next);
      ZoneJoin(done, next, work, lo, hi);
    }
  }

  lemma {:induction false} SlotsBehind(cell: Node, d: nat, i: nat, k: nat, work: nat, lo: int, hi: int)
    requires cell.Cell? && i <= k <= 8 && work + Total(WalkSlots(cell, d, i)) >= hi
    ensures Zone(WalkSlots(cell, d, k), work, lo, hi) == Zone(WalkSlots(cell, d, i), work, lo, hi)
    ensures Total(WalkSlots(cell, d, k)) >= Total(WalkSlots(cell, d, i))
  {
    hide ChildSequence, DirectionSequence, WalkSlot, Zone, WalkSlots, Total;
    if i < k {
      SlotsBehind(cell, d, i, k - 1, work, lo, hi);
      OneMoreSlot(cell, d, k - 1);
      var done, next := WalkSlots(cell, d, k - 1), WalkSlot(cell, d, k - 1);
      TotalJoin(done, next);
      ZoneJoin(done, next, work, lo, hi);
      ZoneBehind(next, work + Total(done), lo, hi);
    }
  }

  /* ---------- the cuts and the partition ---------- */

  function Cavg(total: nat, nproc: nat): real
    requires nproc > 0
  {
    total as real / nproc as real
  }

  // The casts to long in stepsystem; all values are at least 0.
  function WorkMin(total: nat, nproc: nat, p: nat): int
    requires nproc > 0
  {
    (Cavg(total, nproc) * p as real).Floor
  }

  function WorkMax(total: nat, nproc: nat, p: nat): int
    requires nproc > 0
  {
    (Cavg(total, nproc) * (p + 1) as real + if p == nproc - 1 then 1.0 else 0.0).Floor
  }

  lemma Average(total: nat, nproc: nat)
    requires nproc > 0
    ensures Cavg(total, nproc) >= 0.0 && Cavg(total, nproc) * nproc as real == total as real
  {
  }

  lemma Grows(c: real, p: nat)
    requires c >= 0.0
    ensures c * p as real <= c * (p + 1) as real
  {
    assert c * (p + 1) as real == c * p as real + c;
  }

  // The zones start at 0, join without gap or overlap and end behind the total cost.
  lemma CutsJoin(total: nat, nproc: nat, p: nat)
    requires p < nproc
    ensures WorkMin(total, nproc, 0) == 0
    ensures WorkMin(total, nproc, p) <= WorkMax(total, nproc, p)
    ensures WorkMax(total, nproc, p) == if p == nproc - 1 then total + 1 else WorkMin(total, nproc, p + 1)
  {
    var c := Cavg(total, nproc);
    Average(total, nproc);
    Grows(c, p);
    hide Cavg;
  }

  // The bodies of the first k processors, one after the other.
  ghost function Assigned(bs: seq<Body>, total: nat, nproc: nat, k: nat): seq<Body>
    requires k <= nproc && nproc > 0
  {
    if k == 0 then []
    else Assigned(bs, total, nproc, k - 1) + Zone(bs, 0, WorkMin(total, nproc, k - 1), WorkMax(total, nproc, k - 1))
  }

  lemma {:induction false} ZonesJoin(bs: seq<Body>, total: nat, nproc: nat, k: nat)
    requires 0 < k <= nproc
    ensures Assigned(bs, total, nproc, k) == Zone(bs, 0, 0, WorkMax(total, nproc, k - 1)) && WorkMax(total, nproc, k - 1) >= 0
  {
    hide Zone, WorkMin, WorkMax;
    CutsJoin(total, nproc, k - 1);
    if k == 1 {
      assert Assigned(bs, total, nproc, 0) == [];
    } else {
      ZonesJoin(bs, total, nproc, k - 1);
      CutsJoin(total, nproc, k - 2);
      ZoneSplit(bs, 0, 0, WorkMin(total, nproc, k - 1), WorkMax(total, nproc, k - 1));
    }
  }

  // All processors together have the whole walk, in its order.
  lemma ZonesCover(bs: seq<Body>, nproc: nat)
    requires nproc > 0
    ensures Assigned(bs, Total(bs), nproc, nproc) == bs
  {
    hide WorkMax, WorkMin, Assigned;
    ZonesJoin(bs, Total(bs), nproc, nproc);
    CutsJoin(Total(bs), nproc, nproc - 1);
    ZoneAll(bs, 0, 0, Total(bs) + 1);
  }

  // A body goes to the one processor whose cuts enclose the cost of all bodies before it.
  ghost predicate Owns(total: nat, nproc: nat, p: nat, work: nat)
    requires p < nproc
  {
    WorkMin(total, nproc, p) <= work < WorkMax(total, nproc, p)
  }

  lemma {:induction false} SomeOwner(total: nat, nproc: nat, k: nat, work: nat) returns (p: nat)
    requires 0 < k <= nproc && work < WorkMax(total, nproc, k - 1)
    ensures p < k && Owns(total, nproc, p, work)
  {
    hide WorkMin, WorkMax;
    CutsJoin(total, nproc, k - 1);
    if k == 1 || work >= WorkMin(total, nproc, k - 1) {
      p := k - 1;
    } else {
      CutsJoin(total, nproc, k - 2);
      p := SomeOwner(total, nproc, k - 1, work);
    }
  }

  lemma {:induction false} LaterCut(total: nat, nproc: nat, p: nat, q: nat)
    requires p < q < nproc
    ensures WorkMax(total, nproc, p) <= WorkMin(total, nproc, q)
  {
    hide WorkMin, WorkMax;
    CutsJoin(total, nproc, q - 1);
    if p < q - 1 { LaterCut(total, nproc, p, q - 1); }
  }

  lemma OneOwner(total: nat, nproc: nat, work: nat)
    requires nproc > 0 && work <= total
    ensures exists p :: 0 <= p < nproc && Owns(total, nproc, p, work) && forall q :: 0 <= q < nproc && Owns(total, nproc, q, work) ==> q == p
  {
    hide WorkMin, WorkMax;
    CutsJoin(total, nproc, nproc - 1);
    var p := SomeOwner(total, nproc, nproc, work);
    forall q | 0 <= q < nproc && Owns(total, nproc, q, work) ensures q == p {
      if q < p { LaterCut(total, nproc, q, p); }
      if p < q { LaterCut(total, nproc, p, q); }
    }
  }

  // The k-th body of the walk is in the zone of p exactly when p owns its place.
  lemma {:induction false} InZone(bs: seq<Body>, k: nat, work: nat, lo: int, hi: int)
    requires k < |bs|
    ensures Zone(bs, work, lo, hi) == Zone(bs[..k], work, lo, hi)
      + (if lo <= work + Total(bs[..k]) < hi then [bs[k]] else []) + Zone(bs[k + 1..], work + Total(bs[..k + 1]), lo, hi)
  {
    OneMoreBody(bs, k, work, lo, hi);
    assert bs == bs[..k + 1] + bs[k + 1..];
    ZoneJoin(bs[..k + 1], bs[k + 1..], work, lo, hi);
  }

  /* ---------- how even the zones are ---------- */

  // The first place in the running cost from x on at which a body begins, or the end.
  function StartFrom(bs: seq<Body>, work: nat, x: int): nat {
    if bs == [] || work >= x then work else StartFrom(bs[1..], work + bs[0].cost, x)
  }

  ghost predicate CostsUpTo(bs: seq<Body>, most: nat) {
    forall i :: 0 <= i < |bs| ==> bs[i].cost <= most
  }

  lemma {:induction false} StartIsNear(bs: seq<Body>, work: nat, x: int, most: nat)
    requires CostsUpTo(bs, most)
    ensures work <= StartFrom(bs, work, x) <= work + Total(bs)
    ensures work <= x <= work + Total(bs) ==> x <= StartFrom(bs, work, x) <= x + most
    ensures x > work + Total(bs) ==> StartFrom(bs, work, x) == work + Total(bs)
  {
    if bs != [] && work < x { StartIsNear(bs[1..], work + bs[0].cost, x, most); }
  }

  lemma {:induction false} ZoneTotal(bs: seq<Body>, work: nat, lo: int, hi: int)
    requires lo <= hi
    ensures Total(Zone(bs, work, lo, hi)) == StartFrom(bs, work, hi) - StartFrom(bs, work, lo)
  {
    if bs != [] {
      var rest, next := bs[1..], work + bs[0].cost;
      ZoneTotal(rest, next, lo, hi);
      if work >= hi {
        ZoneBehind(rest, next, lo, hi);
      } else if work >= lo {
        assert [bs[0]][1..] == [] && Total([bs[0]]) == bs[0].cost;
        TotalJoin([bs[0]], Zone(rest, next, lo, hi));
        assert Zone(bs, work, lo, hi) == [bs[0]] + Zone(rest, next, lo, hi);
        StartsAt(rest, next, lo);
      } else {
        assert [] + Zone(rest, next, lo, hi) == Zone(rest, next, lo, hi);
      }
    }
  }

  lemma StartsAt(bs: seq<Body>, work: nat, x: int)
    requires work >= x
    ensures StartFrom(bs, work, x) == work
  {
  }

  // The cuts before rounding.
  function Part(c: real, p: nat): real {
    c * p as real
  }

  lemma PartsGrow(total: nat, nproc: nat, p: nat)
    requires p < nproc
    ensures var c := Cavg(total, nproc);
      0.0 <= Part(c, p) <= Part(c, p + 1) == Part(c, p) + c && Part(c, p + 1) <= Part(c, nproc) == total as real
  {
    var c := Cavg(total, nproc);
    Average(total, nproc);
    hide Cavg;
    assert c * (p + 1) as real == c * p as real + c;
    var k := nproc - p - 1;
    assert nproc as real == (p + 1) as real + k as real;
    assert c * k as real >= 0.0;
    assert Part(c, nproc) == Part(c, p + 1) + c * k as real;
  }

  lemma CutsAre(total: nat, nproc: nat, p: nat)
    requires p < nproc
    ensures WorkMin(total, nproc, p) == Part(Cavg(total, nproc), p).Floor
    ensures p < nproc - 1 ==> WorkMax(total, nproc, p) == Part(Cavg(total, nproc), p + 1).Floor
  {
    hide Cavg;
  }

  lemma Share(total: nat, nproc: nat, p: nat)
    requires p < nproc
    ensures var c, lo, hi := Cavg(total, nproc), WorkMin(total, nproc, p), WorkMax(total, nproc, p);
      && 0 <= lo <= total && lo <= hi && (p < nproc - 1 ==> hi <= total) && (p == nproc - 1 ==> hi == total + 1)
      && c - 1.0 < ((if p == nproc - 1 then total else hi) - lo) as real < c + 1.0
  {
    hide Cavg, Part, WorkMin, WorkMax;
    var c := Cavg(total, nproc);
    PartsGrow(total, nproc, p);
    CutsAre(total, nproc, p);
    CutsJoin(total, nproc, p);
    Floors(Part(c, p), Part(c, p + 1), c, total);
  }

  lemma Floors(a: real, b: real, c: real, total: nat)
    requires 0.0 <= a <= total as real && a <= b <= total as real && b == a + c
    ensures 0 <= a.Floor <= total && a.Floor <= b.Floor <= total
    ensures c - 1.0 < (b.Floor - a.Floor) as real < c + 1.0
    ensures b == total as real ==> c - 1.0 < (total - a.Floor) as real < c + 1.0
  {
  }

  lemma Grown(c: real, p: nat, q: nat)
    requires c >= 0.0 && p <= q
    ensures 0.0 <= c * p as real <= c * q as real
  {
    assert c * q as real - c * p as real == c * (q - p) as real;
  }

  // The costs of all processors are within one body's cost, and a unit for the rounding, of the average.
  lemma ZonesAreEven(bs: seq<Body>, nproc: nat, p: nat, most: nat)
    requires p < nproc && CostsUpTo(bs, most)
    ensures var cost := Total(Zone(bs, 0, WorkMin(Total(bs), nproc, p), WorkMax(Total(bs), nproc, p)));
      Cavg(Total(bs), nproc) - (most + 1) as real < cost as real < Cavg(Total(bs), nproc) + (most + 1) as real
  {
    hide Zone, WorkMin, WorkMax, StartFrom, Cavg;
    var total := Total(bs);
    var lo, hi := WorkMin(total, nproc, p), WorkMax(total, nproc, p);
    Share(total, nproc, p);
    ZoneTotal(bs, 0, lo, hi);
    StartIsNear(bs, 0, lo, most);
    StartIsNear(bs, 0, hi, most);
  }

  function Flatten(tabs: seq<seq<Body>>): seq<Body> {
    if tabs == [] then [] else Flatten(tabs[..|tabs| - 1]) + tabs[|tabs| - 1]
  }

  // Every processor runs stepsystem's partition on the root cell; they share only the tree, which they read.
  method Partition(root: Node, nproc: nat) returns (tabs: seq<seq<Body>>)
    requires CostsOk(root) && root.Cell? && nproc > 0
    ensures |tabs| == nproc && Flatten(tabs) == Walk(root, 0) && multiset(Flatten(tabs)) == Content(root).bodies
    ensures forall p :: 0 <= p < nproc ==>
      tabs[p] == Zone(Walk(root, 0), 0, WorkMin(root.cost, nproc, p), WorkMax(root.cost, nproc, p))
  {
    hide Zone, WorkMin, WorkMax, Walk, Content;
    WalkMeetsAll(root, 0);
    var p := 0;
    tabs := [];
    while p < nproc
      invariant 0 <= p <= nproc && |tabs| == p && Flatten(tabs) == Assigned(Walk(root, 0), root.cost, nproc, p)
      invariant forall q :: 0 <= q < p ==>
        tabs[q] == Zone(Walk(root, 0), 0, WorkMin(root.cost, nproc, q), WorkMax(root.cost, nproc, q))
    {
      var me := new Processor(WorkMin(root.cost, nproc, p), WorkMax(root.cost, nproc, p));
      me.FindMyBodies(root, 0, 0);
      assert (tabs + [me.bodies])[..p] == tabs;
      tabs := tabs + [me.bodies];
      p := p + 1;
    }
    CostIsTotal(root);
    ZonesCover(Walk(root, 0), nproc);
  }

  lemma CostIsTotal(root: Node)
    requires CostsOk(root)
    ensures root.cost == Total(Walk(root, 0))
  {
    hide Walk, Content;
    WalkMeetsAll(root, 0);
  }
}
