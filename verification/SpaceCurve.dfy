/**
  The order in which find_my_bodies meets the children of a cell, seen in space: children that
  follow each other in a row of Child_Sequence are boxes with a common face.
 */
module SpaceCurve {
  import opened OctreeCoords
  import opened Costzones

  // The half of the cell that a child lies in, one decimal digit for each axis, x first.
  function Corner(i: nat): nat {
    match i
    case 0 => 0 case 1 => 1 case 2 => 11 case 3 => 10 case 4 => 110 case 5 => 111 case 6 => 101 case _ => 100
  }

  // That is how subindex numbers the children.
  lemma CornersGiveIndex(i: nat)
    requires i < 8
    ensures Index(Corner(i) / 100 == 1, Corner(i) / 10 % 10 == 1, Corner(i) % 10 == 1) == i
  {
  }

  // One unit along one axis.
  predicate UnitApart(p: nat, q: nat) {
    p == q + 1 || q == p + 1 || p == q + 10 || q == p + 10 || p == q + 100 || q == p + 100
  }

  ghost predicate FaceNeighbours(i: nat, j: nat) {
    i < 8 && j < 8 && UnitApart(Corner(i), Corner(j))
  }

  // The two children's numbers come from coordinate bits that differ along one axis and no other.
  lemma FaceNeighboursIs(b: seq<bool>, c: seq<bool>)
    requires |b| == |c| == 3
    ensures FaceNeighbours(Index(b[0], b[1], b[2]), Index(c[0], c[1], c[2])) <==>
      (b[0] != c[0] && b[1] == c[1] && b[2] == c[2]) || (b[0] == c[0] && b[1] != c[1] && b[2] == c[2])
      || (b[0] == c[0] && b[1] == c[1] && b[2] != c[2])
  {
  }

  ghost predicate Connected(row: seq<nat>) {
    |row| == 8 && forall k :: 0 <= k < 7 ==> FaceNeighbours(row[k], row[k + 1])
  }

  lemma ConnectedEight(a: nat, b: nat, c: nat, d: nat, e: nat, f: nat, g: nat, h: nat)
    requires FaceNeighbours(a, b) && FaceNeighbours(b, c) && FaceNeighbours(c, d) && FaceNeighbours(d, e)
    requires FaceNeighbours(e, f) && FaceNeighbours(f, g) && FaceNeighbours(g, h)
    ensures Connected([a, b, c, d, e, f, g, h])
  {
    hide FaceNeighbours;
  }

  // In every direction the walk goes from child to child through common faces.
  lemma EveryRowIsConnected(d: nat)
    ensures Connected(ChildSequence(d))
  {
    hide Connected, ChildSequence;
    if d < 8 { Connects0(d); } else if d < 16 { Connects8(d); } else if d < 24 { Connects16(d); } else { Connects24(d); }
  }

  lemma Connects0(d: nat)
    requires 0 <= d < 8
    ensures Connected(ChildSequence(d))
  {
    hide Connected;
    match d
    case 0 => ConnectedEight(2, 5, 6, 1, 0, 3, 4, 7);
    case 1 => ConnectedEight(2, 5, 6, 1, 0, 7, 4, 3);
    case 2 => ConnectedEight(1, 6, 5, 2, 3, 0, 7, 4);
    case 3 => ConnectedEight(1, 6, 5, 2, 3, 4, 7, 0);
    case 4 => ConnectedEight(6, 1, 2, 5, 4, 7, 0, 3);
    case 5 => ConnectedEight(6, 1, 2, 5, 4, 3, 0, 7);
    case 6 => ConnectedEight(5, 2, 1, 6, 7, 4, 3, 0);
    case 7 => ConnectedEight(5, 2, 1, 6, 7, 0, 3, 4);
  }

  lemma Connects8(d: nat)
    requires 8 <= d < 16
    ensures Connected(ChildSequence(d))
  {
    hide Connected;
    match d
    case 8 => ConnectedEight(1, 2, 5, 6, 7, 4, 3, 0);
    case 9 => ConnectedEight(1, 2, 5, 6, 7, 0, 3, 4);
    case 10 => ConnectedEight(6, 5, 2, 1, 0, 3, 4, 7);
    case 11 => ConnectedEight(6, 5, 2, 1, 0, 7, 4, 3);
    case 12 => ConnectedEight(5, 6, 1, 2, 3, 0, 7, 4);
    case 13 => ConnectedEight(5, 6, 1, 2, 3, 4, 7, 0);
    case 14 => ConnectedEight(2, 1, 6, 5, 4, 7, 0, 3);
    case 15 => ConnectedEight(2, 1, 6, 5, 4, 3, 0, 7);
  }

  lemma Connects16(d: nat)
    requires 16 <= d < 24
    ensures Connected(ChildSequence(d))
  {
    hide Connected;
    match d
    case 16 => ConnectedEight(3, 4, 7, 0, 1, 2, 5, 6);
    case 17 => ConnectedEight(3, 4, 7, 0, 1, 6, 5, 2);
    case 18 => ConnectedEight(0, 7, 4, 3, 2, 1, 6, 5);
    case 19 => ConnectedEight(0, 7, 4, 3, 2, 5, 6, 1);
    case 20 => ConnectedEight(7, 0, 3, 4, 5, 6, 1, 2);
    case 21 => ConnectedEight(7, 0, 3, 4, 5, 2, 1, 6);
    case 22 => ConnectedEight(4, 3, 0, 7, 6, 5, 2, 1);
    case 23 => ConnectedEight(4, 3, 0, 7, 6, 1, 2, 5);
  }

  lemma Connects24(d: nat)
    requires 24 <= d
    ensures Connected(ChildSequence(d))
  {
    hide Connected;
    match d
    case 24 => ConnectedEight(0, 3, 4, 7, 6, 5, 2, 1);
    case 25 => ConnectedEight(0, 3, 4, 7, 6, 1, 2, 5);
    case 26 => ConnectedEight(7, 4, 3, 0, 1, 2, 5, 6);
    case 27 => ConnectedEight(7, 4, 3, 0, 1, 6, 5, 2);
    case 28 => ConnectedEight(4, 7, 0, 3, 2, 1, 6, 5);
    case 29 => ConnectedEight(4, 7, 0, 3, 2, 5, 6, 1);
    case 30 => ConnectedEight(3, 0, 7, 4, 5, 6, 1, 2);
    case _ => ConnectedEight(3, 0, 7, 4, 5, 2, 1, 6);
  }

  /* ---------- one level further down ---------- */

  function At(row: seq<nat>, k: nat): nat {
    if k < |row| then row[k] else 0
  }

  function First(d: nat): nat {
    At(ChildSequence(d), 0)
  }

  function Last(d: nat): nat {
    At(ChildSequence(d), 7)
  }

  // Grandchild e of child c, in quarters of the cell, again one digit for each axis.
  function Place(c: nat, e: nat): nat {
    2 * Corner(c) + Corner(e)
  }

  function Gap(p: nat, q: nat): nat {
    if p < q then q - p else p - q
  }

  // Boxes share a face when their places are one quarter apart along one axis and not at all along the others.
  lemma UnitApartIs(x: nat, y: nat, z: nat, x': nat, y': nat, z': nat)
    requires x < 4 && y < 4 && z < 4 && x' < 4 && y' < 4 && z' < 4
    ensures UnitApart(100 * x + 10 * y + z, 100 * x' + 10 * y' + z') <==> Gap(x, x') + Gap(y, y') + Gap(z, z') == 1
  {
  }

  // The walk leaves child c in direction p through the last of its children, and enters the next
  // child c' in direction q through the first; the two share a face.
  ghost predicate Link(c: nat, p: nat, c': nat, q: nat) {
    UnitApart(Place(c, Last(p)), Place(c', First(q)))
  }

  // Child k of the row of direction d is linked to the next one.
  ghost predicate Linked(d: nat, k: nat) {
    Link(At(ChildSequence(d), k), At(DirectionSequence(d), k), At(ChildSequence(d), k + 1), At(DirectionSequence(d), k + 1))
  }

  // In the rows BRA_FRC and BDC_FRC from the fourth child on, in FRC_BUC and FRC_BRA up to there.
  predicate Jumps(d: nat, k: nat) {
    ((d == 3 || d == 13) && k >= 3) || ((d == 16 || d == 17) && k <= 3)
  }

  ghost predicate LinkedBut(d: nat) {
    forall k :: 0 <= k < 7 ==> (Linked(d, k) <==> !Jumps(d, k))
  }

  lemma LinkedEight(d: nat, a: nat, p: nat, b: nat, q: nat, c: nat, r: nat, e: nat, s: nat, f: nat, t: nat, g: nat, u: nat,
                    h: nat, v: nat, i: nat, w: nat)
    requires ChildSequence(d) == [a, b, c, e, f, g, h, i] && DirectionSequence(d) == [p, q, r, s, t, u, v, w]
    requires (Link(a, p, b, q) <==> !Jumps(d, 0)) && (Link(b, q, c, r) <==> !Jumps(d, 1)) && (Link(c, r, e, s) <==> !Jumps(d, 2))
    requires (Link(e, s, f, t) <==> !Jumps(d, 3)) && (Link(f, t, g, u) <==> !Jumps(d, 4)) && (Link(g, u, h, v) <==> !Jumps(d, 5))
    requires Link(h, v, i, w) <==> !Jumps(d, 6)
    ensures LinkedBut(d)
  {
    hide Link, ChildSequence, DirectionSequence, Jumps;
  }

  // One level further down the walk goes through common faces as well, but for sixteen places of the tables.
  lemma LinkedExactly(d: nat, k: nat)
    requires d < 32 && k < 7
    ensures Linked(d, k) <==> !Jumps(d, k)
  {
    hide Linked, Jumps;
    if d < 4 { Links0(d); } else if d < 8 { Links4(d); } else if d < 12 { Links8(d); } else if d < 16 { Links12(d); }
    else if d < 20 { Links16(d); } else if d < 24 { Links20(d); } else if d < 28 { Links24(d); } else { Links28(d); }
  }

  lemma Ends0()
    ensures First(0) == 2 && First(1) == 2 && First(2) == 1 && First(3) == 1 && First(4) == 6 && First(5) == 6 && First(6) == 5 && First(7) == 5
    ensures Last(0) == 7 && Last(1) == 3 && Last(2) == 4 && Last(3) == 0 && Last(4) == 3 && Last(5) == 7 && Last(6) == 0 && Last(7) == 4
  {
  }

  lemma Ends8()
    ensures First(8) == 1 && First(9) == 1 && First(10) == 6 && First(11) == 6 && First(12) == 5 && First(13) == 5 && First(14) == 2 && First(15) == 2
    ensures Last(8) == 0 && Last(9) == 4 && Last(10) == 7 && Last(11) == 3 && Last(12) == 4 && Last(13) == 0 && Last(14) == 3 && Last(15) == 7
  {
  }

  lemma Ends16()
    ensures First(16) == 3 && First(17) == 3 && First(18) == 0 && First(19) == 0 && First(20) == 7 && First(21) == 7 && First(22) == 4 && First(23) == 4
    ensures Last(16) == 6 && Last(17) == 2 && Last(18) == 5 && Last(19) == 1 && Last(20) == 2 && Last(21) == 6 && Last(22) == 1 && Last(23) == 5
  {
  }

  lemma Ends24()
    ensures First(24) == 0 && First(25) == 0 && First(26) == 7 && First(27) == 7 && First(28) == 4 && First(29) == 4 && First(30) == 3 && First(31) == 3
    ensures Last(24) == 1 && Last(25) == 5 && Last(26) == 6 && Last(27) == 2 && Last(28) == 5 && Last(29) == 1 && Last(30) == 2 && Last(31) == 6
  {
  }

  // The rows spelled out.
  lemma RowsAre0(d: nat)
    requires 0 <= d < 8
    ensures d == 0 ==> ChildSequence(d) == [2, 5, 6, 1, 0, 3, 4, 7] && DirectionSequence(d) == [16, 3, 30, 6, 9, 26, 3, 31]
    ensures d == 1 ==> ChildSequence(d) == [2, 5, 6, 1, 0, 7, 4, 3] && DirectionSequence(d) == [16, 3, 30, 6, 2, 17, 8, 20]
    ensures d == 2 ==> ChildSequence(d) == [1, 6, 5, 2, 3, 0, 7, 4] && DirectionSequence(d) == [18, 1, 24, 4, 15, 28, 1, 25]
    ensures d == 3 ==> ChildSequence(d) == [1, 6, 5, 2, 3, 4, 7, 0] && DirectionSequence(d) == [18, 1, 24, 4, 9, 26, 3, 31]
    ensures d == 4 ==> ChildSequence(d) == [6, 1, 2, 5, 4, 7, 0, 3] && DirectionSequence(d) == [20, 7, 26, 2, 13, 30, 7, 27]
    ensures d == 5 ==> ChildSequence(d) == [6, 1, 2, 5, 4, 3, 0, 7] && DirectionSequence(d) == [20, 7, 26, 2, 6, 21, 12, 16]
    ensures d == 6 ==> ChildSequence(d) == [5, 2, 1, 6, 7, 4, 3, 0] && DirectionSequence(d) == [22, 5, 28, 0, 11, 24, 5, 29]
    ensures d == 7 ==> ChildSequence(d) == [5, 2, 1, 6, 7, 0, 3, 4] && DirectionSequence(d) == [22, 5, 28, 0, 4, 23, 10, 18]
  {
  }

  lemma RowsAre8(d: nat)
    requires 8 <= d < 16
    ensures d == 8 ==> ChildSequence(d) == [1, 2, 5, 6, 7, 4, 3, 0] && DirectionSequence(d) == [25, 10, 19, 15, 11, 24, 5, 29]
    ensures d == 9 ==> ChildSequence(d) == [1, 2, 5, 6, 7, 0, 3, 4] && DirectionSequence(d) == [25, 10, 19, 15, 4, 23, 10, 18]
    ensures d == 10 ==> ChildSequence(d) == [6, 5, 2, 1, 0, 3, 4, 7] && DirectionSequence(d) == [27, 8, 21, 13, 9, 26, 3, 31]
    ensures d == 11 ==> ChildSequence(d) == [6, 5, 2, 1, 0, 7, 4, 3] && DirectionSequence(d) == [27, 8, 21, 13, 2, 17, 8, 20]
    ensures d == 12 ==> ChildSequence(d) == [5, 6, 1, 2, 3, 0, 7, 4] && DirectionSequence(d) == [29, 14, 23, 11, 15, 28, 1, 25]
    ensures d == 13 ==> ChildSequence(d) == [5, 6, 1, 2, 3, 4, 7, 0] && DirectionSequence(d) == [29, 14, 23, 11, 9, 26, 3, 31]
    ensures d == 14 ==> ChildSequence(d) == [2, 1, 6, 5, 4, 7, 0, 3] && DirectionSequence(d) == [31, 12, 17, 9, 13, 30, 7, 27]
    ensures d == 15 ==> ChildSequence(d) == [2, 1, 6, 5, 4, 3, 0, 7] && DirectionSequence(d) == [31, 12, 17, 9, 6, 21, 12, 16]
  {
  }

  lemma RowsAre16(d: nat)
    requires 16 <= d < 24
    ensures d == 16 ==> ChildSequence(d) == [3, 4, 7, 0, 1, 2, 5, 6] && DirectionSequence(d) == [9, 26, 3, 31, 25, 10, 19, 15]
    ensures d == 17 ==> ChildSequence(d) == [3, 4, 7, 0, 1, 6, 5, 2] && DirectionSequence(d) == [9, 26, 3, 31, 18, 1, 24, 4]
    ensures d == 18 ==> ChildSequence(d) == [0, 7, 4, 3, 2, 1, 6, 5] && DirectionSequence(d) == [2, 17, 8, 20, 31, 12, 17, 9]
    ensures d == 19 ==> ChildSequence(d) == [0, 7, 4, 3, 2, 5, 6, 1] && DirectionSequence(d) == [2, 17, 8, 20, 16, 3, 30, 6]
    ensures d == 20 ==> ChildSequence(d) == [7, 0, 3, 4, 5, 6, 1, 2] && DirectionSequence(d) == [4, 23, 10, 18, 29, 14, 23, 11]
    ensures d == 21 ==> ChildSequence(d) == [7, 0, 3, 4, 5, 2, 1, 6] && DirectionSequence(d) == [4, 23, 10, 18, 22, 5, 28, 0]
    ensures d == 22 ==> ChildSequence(d) == [4, 3, 0, 7, 6, 5, 2, 1] && DirectionSequence(d) == [6, 21, 12, 16, 27, 8, 21, 13]
    ensures d == 23 ==> ChildSequence(d) == [4, 3, 0, 7, 6, 1, 2, 5] && DirectionSequence(d) == [6, 21, 12, 16, 20, 7, 26, 2]
  {
  }

  lemma RowsAre24(d: nat)
    requires 24 <= d < 32
    ensures d == 24 ==> ChildSequence(d) == [0, 3, 4, 7, 6, 5, 2, 1] && DirectionSequence(d) == [9, 26, 3, 31, 27, 8, 21, 13]
    ensures d == 25 ==> ChildSequence(d) == [0, 3, 4, 7, 6, 1, 2, 5] && DirectionSequence(d) == [9, 26, 3, 31, 20, 7, 26, 2]
    ensures d == 26 ==> ChildSequence(d) == [7, 4, 3, 0, 1, 2, 5, 6] && DirectionSequence(d) == [11, 24, 5, 29, 25, 10, 19, 15]
    ensures d == 27 ==> ChildSequence(d) == [7, 4, 3, 0, 1, 6, 5, 2] && DirectionSequence(d) == [11, 24, 5, 29, 18, 1, 24, 4]
    ensures d == 28 ==> ChildSequence(d) == [4, 7, 0, 3, 2, 1, 6, 5] && DirectionSequence(d) == [13, 30, 7, 27, 31, 12, 17, 9]
    ensures d == 29 ==> ChildSequence(d) == [4, 7, 0, 3, 2, 5, 6, 1] && DirectionSequence(d) == [13, 30, 7, 27, 16, 3, 30, 6]
    ensures d == 30 ==> ChildSequence(d) == [3, 0, 7, 4, 5, 6, 1, 2] && DirectionSequence(d) == [15, 28, 1, 25, 29, 14, 23, 11]
    ensures d == 31 ==> ChildSequence(d) == [3, 0, 7, 4, 5, 2, 1, 6] && DirectionSequence(d) == [15, 28, 1, 25, 22, 5, 28, 0]
  {
  }

  lemma Links0(d: nat)
    requires 0 <= d < 4
    ensures LinkedBut(d)
  {
    hide LinkedBut, ChildSequence, DirectionSequence, First, Last;
    Ends0();
    Ends8();
    Ends16();
    Ends24();
    RowsAre0(d);
    match d
    case 0 => LinkedEight(0, 2, 16, 5, 3, 6, 30, 1, 6, 0, 9, 3, 26, 4, 3, 7, 31);
    case 1 => LinkedEight(1, 2, 16, 5, 3, 6, 30, 1, 6, 0, 2, 7, 17, 4, 8, 3, 20);
    case 2 => LinkedEight(2, 1, 18, 6, 1, 5, 24, 2, 4, 3, 15, 0, 28, 7, 1, 4, 25);
    case 3 => LinkedEight(3, 1, 18, 6, 1, 5, 24, 2, 4, 3, 9, 4, 26, 7, 3, 0, 31);
  }

  lemma Links4(d: nat)
    requires 4 <= d < 8
    ensures LinkedBut(d)
  {
    hide LinkedBut, ChildSequence, DirectionSequence, First, Last;
    Ends0();
    Ends8();
    Ends16();
    Ends24();
    RowsAre0(d);
    match d
    case 4 => LinkedEight(4, 6, 20, 1, 7, 2, 26, 5, 2, 4, 13, 7, 30, 0, 7, 3, 27);
    case 5 => LinkedEight(5, 6, 20, 1, 7, 2, 26, 5, 2, 4, 6, 3, 21, 0, 12, 7, 16);
    case 6 => LinkedEight(6, 5, 22, 2, 5, 1, 28, 6, 0, 7, 11, 4, 24, 3, 5, 0, 29);
    case 7 => LinkedEight(7, 5, 22, 2, 5, 1, 28, 6, 0, 7, 4, 0, 23, 3, 10, 4, 18);
  }

  lemma Links8(d: nat)
    requires 8 <= d < 12
    ensures LinkedBut(d)
  {
    hide LinkedBut, ChildSequence, DirectionSequence, First, Last;
    Ends0();
    Ends8();
    Ends16();
    Ends24();
    RowsAre8(d);
    match d
    case 8 => LinkedEight(8, 1, 25, 2, 10, 5, 19, 6, 15, 7, 11, 4, 24, 3, 5, 0, 29);
    case 9 => LinkedEight(9, 1, 25, 2, 10, 5, 19, 6, 15, 7, 4, 0, 23, 3, 10, 4, 18);
    case 10 => LinkedEight(10, 6, 27, 5, 8, 2, 21, 1, 13, 0, 9, 3, 26, 4, 3, 7, 31);
    case 11 => LinkedEight(11, 6, 27, 5, 8, 2, 21, 1, 13, 0, 2, 7, 17, 4, 8, 3, 20);
  }

  lemma Links12(d: nat)
    requires 12 <= d < 16
    ensures LinkedBut(d)
  {
    hide LinkedBut, ChildSequence, DirectionSequence, First, Last;
    Ends0();
    Ends8();
    Ends16();
    Ends24();
    RowsAre8(d);
    match d
    case 12 => LinkedEight(12, 5, 29, 6, 14, 1, 23, 2, 11, 3, 15, 0, 28, 7, 1, 4, 25);
    case 13 => LinkedEight(13, 5, 29, 6, 14, 1, 23, 2, 11, 3, 9, 4, 26, 7, 3, 0, 31);
    case 14 => LinkedEight(14, 2, 31, 1, 12, 6, 17, 5, 9, 4, 13, 7, 30, 0, 7, 3, 27);
    case 15 => LinkedEight(15, 2, 31, 1, 12, 6, 17, 5, 9, 4, 6, 3, 21, 0, 12, 7, 16);
  }

  lemma Links16(d: nat)
    requires 16 <= d < 20
    ensures LinkedBut(d)
  {
    hide LinkedBut, ChildSequence, DirectionSequence, First, Last;
    Ends0();
    Ends8();
    Ends16();
    Ends24();
    RowsAre16(d);
    match d
    case 16 => LinkedEight(16, 3, 9, 4, 26, 7, 3, 0, 31, 1, 25, 2, 10, 5, 19, 6, 15);
    case 17 => LinkedEight(17, 3, 9, 4, 26, 7, 3, 0, 31, 1, 18, 6, 1, 5, 24, 2, 4);
    case 18 => LinkedEight(18, 0, 2, 7, 17, 4, 8, 3, 20, 2, 31, 1, 12, 6, 17, 5, 9);
    case 19 => LinkedEight(19, 0, 2, 7, 17, 4, 8, 3, 20, 2, 16, 5, 3, 6, 30, 1, 6);
  }

  lemma Links20(d: nat)
    requires 20 <= d < 24
    ensures LinkedBut(d)
  {
    hide LinkedBut, ChildSequence, DirectionSequence, First, Last;
    Ends0();
    Ends8();
    Ends16();
    Ends24();
    RowsAre16(d);
    match d
    case 20 => LinkedEight(20, 7, 4, 0, 23, 3, 10, 4, 18, 5, 29, 6, 14, 1, 23, 2, 11);
    case 21 => LinkedEight(21, 7, 4, 0, 23, 3, 10, 4, 18, 5, 22, 2, 5, 1, 28, 6, 0);
    case 22 => LinkedEight(22, 4, 6, 3, 21, 0, 12, 7, 16, 6, 27, 5, 8, 2, 21, 1, 13);
    case 23 => LinkedEight(23, 4, 6, 3, 21, 0, 12, 7, 16, 6, 20, 1, 7, 2, 26, 5, 2);
  }

  lemma Links24(d: nat)
    requires 24 <= d < 28
    ensures LinkedBut(d)
  {
    hide LinkedBut, ChildSequence, DirectionSequence, First, Last;
    Ends0();
    Ends8();
    Ends16();
    Ends24();
    RowsAre24(d);
    match d
    case 24 => LinkedEight(24, 0, 9, 3, 26, 4, 3, 7, 31, 6, 27, 5, 8, 2, 21, 1, 13);
    case 25 => LinkedEight(25, 0, 9, 3, 26, 4, 3, 7, 31, 6, 20, 1, 7, 2, 26, 5, 2);
    case 26 => LinkedEight(26, 7, 11, 4, 24, 3, 5, 0, 29, 1, 25, 2, 10, 5, 19, 6, 15);
    case 27 => LinkedEight(27, 7, 11, 4, 24, 3, 5, 0, 29, 1, 18, 6, 1, 5, 24, 2, 4);
  }

  lemma Links28(d: nat)
    requires 28 <= d < 32
    ensures LinkedBut(d)
  {
    hide LinkedBut, ChildSequence, DirectionSequence, First, Last;
    Ends0();
    Ends8();
    Ends16();
    Ends24();
    RowsAre24(d);
    match d
    case 28 => LinkedEight(28, 4, 13, 7, 30, 0, 7, 3, 27, 2, 31, 1, 12, 6, 17, 5, 9);
    case 29 => LinkedEight(29, 4, 13, 7, 30, 0, 7, 3, 27, 2, 16, 5, 3, 6, 30, 1, 6);
    case 30 => LinkedEight(30, 3, 15, 0, 28, 7, 1, 4, 25, 5, 29, 6, 14, 1, 23, 2, 11);
    case 31 => LinkedEight(31, 3, 15, 0, 28, 7, 1, 4, 25, 5, 22, 2, 5, 1, 28, 6, 0);
  }
}
