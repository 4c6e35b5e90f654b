/**
  gaussj from nr_routines.c, over the reals: Gauss-Jordan elimination with full
  pivoting that leaves the inverse of a in a and the solutions in b.

  The n-by-n array a holds, at every moment, the interesting columns of the
  full tableau [ A | I | B ]: the column of a pivoted position is that of the
  growing inverse, the column of any other position is that of A.
 */
module GaussJordan {
  import opened FiniteSets
  import opened LinearAlgebra

  /* ---------- the tableau behind the array ---------- */

  ghost predicate Shape(A: Matrix, B: Matrix, n: nat, m: nat, piv: seq<bool>, perm: seq<nat>) {
    && IsMatrix(A, n, n) && IsMatrix(B, n, m) && |piv| == n && |perm| == n
    && forall r :: 0 <= r < n ==> perm[r] < n
  }

  ghost function Delta(i: int, j: int): real {
    if i == j then 1.0 else 0.0
  }

  ghost function LeftEntry(A: Matrix, n: nat, piv: seq<bool>, i: nat, k: nat): real
    requires IsMatrix(A, n, n) && |piv| == n && i < n && k < n
  {
    if piv[k] then Delta(i, k) else A[i][k]
  }

  // Column r of the identity has moved with its row to position p == perm[r].
  ghost function RightEntry(A: Matrix, n: nat, piv: seq<bool>, i: nat, p: nat): real
    requires IsMatrix(A, n, n) && |piv| == n && i < n && p < n
  {
    if piv[p] then A[i][p] else Delta(i, p)
  }

  ghost function LeftRow(A: Matrix, n: nat, piv: seq<bool>, i: nat): (r: Row)
    requires IsMatrix(A, n, n) && |piv| == n && i < n
    ensures |r| == n && forall k :: 0 <= k < n ==> r[k] == LeftEntry(A, n, piv, i, k)
  {
    seq(n, k requires 0 <= k < n => LeftEntry(A, n, piv, i, k))
  }

  ghost function RightRow(A: Matrix, n: nat, piv: seq<bool>, perm: seq<nat>, i: nat): (r: Row)
    requires IsMatrix(A, n, n) && |piv| == |perm| == n && i < n && forall r :: 0 <= r < n ==> perm[r] < n
    ensures |r| == n && forall k :: 0 <= k < n ==> r[k] == RightEntry(A, n, piv, i, perm[k])
  {
    seq(n, k requires 0 <= k < n => RightEntry(A, n, piv, i, perm[k]))
  }

  ghost function ExpandRow(A: Matrix, B: Matrix, n: nat, m: nat, piv: seq<bool>, perm: seq<nat>, i: nat): (r: Row)
    requires Shape(A, B, n, m, piv, perm) && i < n
    ensures |r| == n + n + m
  {
    LeftRow(A, n, piv, i) + RightRow(A, n, piv, perm, i) + B[i]
  }

  ghost function Expand(A: Matrix, B: Matrix, n: nat, m: nat, piv: seq<bool>, perm: seq<nat>): (T: Matrix)
    requires Shape(A, B, n, m, piv, perm)
    ensures IsMatrix(T, n, n + n + m)
    ensures forall i :: 0 <= i < n ==> T[i] == ExpandRow(A, B, n, m, piv, perm, i)
  {
    seq(n, i requires 0 <= i < n => ExpandRow(A, B, n, m, piv, perm, i))
  }

  /* ---------- row swaps ---------- */

  function Transpose(i: nat, j: nat, x: nat): nat {
    if x == i then j else if x == j then i else x
  }

  ghost function Moved(perm: seq<nat>, i: nat, j: nat): (r: seq<nat>)
    ensures |r| == |perm| && forall k :: 0 <= k < |perm| ==> r[k] == Transpose(i, j, perm[k])
  {
    seq(|perm|, k requires 0 <= k < |perm| => Transpose(i, j, perm[k]))
  }

  lemma SwapStep(A: Matrix, B: Matrix, n: nat, m: nat, piv: seq<bool>, perm: seq<nat>, i: nat, j: nat)
    requires Shape(A, B, n, m, piv, perm) && i < n && j < n && !piv[i] && !piv[j]
    ensures Shape(RowsSwapped(A, i, j), RowsSwapped(B, i, j), n, m, piv, Moved(perm, i, j))
    ensures Expand(RowsSwapped(A, i, j), RowsSwapped(B, i, j), n, m, piv, Moved(perm, i, j))
         == RowsSwapped(Expand(A, B, n, m, piv, perm), i, j)
  {
    var A', B', perm' := RowsSwapped(A, i, j), RowsSwapped(B, i, j), Moved(perm, i, j);
    var T, T' := Expand(A, B, n, m, piv, perm), Expand(A', B', n, m, piv, perm');
    forall x | 0 <= x < n ensures T'[x] == T[Transpose(i, j, x)] {
      var y := Transpose(i, j, x);
      assert A'[x] == A[y] && B'[x] == B[y];
      assert LeftRow(A', n, piv, x) == LeftRow(A, n, piv, y);
      assert RightRow(A', n, piv, perm', x) == RightRow(A, n, piv, perm, y);
    }
    assert T' == RowsSwapped(T, i, j);
  }

  /* ---------- the pivot step in place ---------- */

  ghost function PivotRowA(A: Matrix, n: nat, p: nat): (r: Row)
    requires IsMatrix(A, n, n) && p < n && A[p][p] != 0.0
    ensures |r| == n && forall l :: 0 <= l < n ==> r[l] == (if l == p then 1.0 else A[p][l]) * (1.0 / A[p][p])
  {
    Scale(A[p][p := 1.0], 1.0 / A[p][p])
  }

  ghost function PivotA(A: Matrix, n: nat, p: nat): (r: Matrix)
    requires IsMatrix(A, n, n) && p < n && A[p][p] != 0.0
    ensures IsMatrix(r, n, n)
  {
    seq(n, i requires 0 <= i < n =>
      if i == p then PivotRowA(A, n, p) else Minus(A[i][p := 0.0], PivotRowA(A, n, p), A[i][p]))
  }

  ghost function PivotB(A: Matrix, B: Matrix, n: nat, m: nat, p: nat): (r: Matrix)
    requires IsMatrix(A, n, n) && IsMatrix(B, n, m) && p < n && A[p][p] != 0.0
    ensures IsMatrix(r, n, m)
  {
    seq(n, i requires 0 <= i < n =>
      if i == p then Scale(B[p], 1.0 / A[p][p]) else Minus(B[i], Scale(B[p], 1.0 / A[p][p]), A[i][p]))
  }

  lemma PivotEntry(A: Matrix, n: nat, p: nat, i: nat, k: nat)
    requires IsMatrix(A, n, n) && p < n && i < n && k < n && A[p][p] != 0.0
    ensures var s := 1.0 / A[p][p];
      && (i == p ==> PivotA(A, n, p)[i][k] == (if k == p then s else A[p][k] * s))
      && (i != p ==>
            PivotA(A, n, p)[i][k] == (if k == p then 0.0 else A[i][k]) - (if k == p then s else A[p][k] * s) * A[i][p])
  {
    assert PivotRowA(A, n, p)[k] == (if k == p then 1.0 else A[p][k]) * (1.0 / A[p][p]);
  }

  // Entry by entry: the array after the step expands to the pivoted tableau.
  lemma PivotLeft(A: Matrix, n: nat, piv: seq<bool>, p: nat, i: nat, k: nat)
    requires IsMatrix(A, n, n) && |piv| == n && p < n && i < n && k < n && A[p][p] != 0.0 && !piv[p]
    ensures i == p ==> LeftEntry(PivotA(A, n, p), n, piv[p := true], i, k) == LeftEntry(A, n, piv, p, k) * (1.0 / A[p][p])
    ensures i != p ==>
              LeftEntry(PivotA(A, n, p), n, piv[p := true], i, k) == LeftEntry(A, n, piv, i, k) - (LeftEntry(A, n, piv, p, k) * (1.0 / A[p][p])) * A[i][p]
  {
    hide PivotA;
    PivotEntry(A, n, p, i, k);
    assert A[p][p] * (1.0 / A[p][p]) == 1.0;
  }

  lemma PivotRight(A: Matrix, n: nat, piv: seq<bool>, p: nat, i: nat, q: nat)
    requires IsMatrix(A, n, n) && |piv| == n && p < n && i < n && q < n && A[p][p] != 0.0 && !piv[p]
    ensures i == p ==> RightEntry(PivotA(A, n, p), n, piv[p := true], i, q) == RightEntry(A, n, piv, p, q) * (1.0 / A[p][p])
    ensures i != p ==>
              RightEntry(PivotA(A, n, p), n, piv[p := true], i, q) == RightEntry(A, n, piv, i, q) - (RightEntry(A, n, piv, p, q) * (1.0 / A[p][p])) * A[i][p]
  {
    hide PivotA;
    PivotEntry(A, n, p, i, q);
  }

  lemma PivotParts(A: Matrix, n: nat, piv: seq<bool>, perm: seq<nat>, p: nat, i: nat)
    requires IsMatrix(A, n, n) && |piv| == |perm| == n && (forall r :: 0 <= r < n ==> perm[r] < n)
    requires p < n && i < n && A[p][p] != 0.0 && !piv[p]
    ensures var A', piv', s := PivotA(A, n, p), piv[p := true], 1.0 / A[p][p];
      var l, r := Scale(LeftRow(A, n, piv, p), s), Scale(RightRow(A, n, piv, perm, p), s);
      && (i == p ==> LeftRow(A', n, piv', i) == l && RightRow(A', n, piv', perm, i) == r)
      && (i != p ==>
            && LeftRow(A', n, piv', i) == Minus(LeftRow(A, n, piv, i), l, A[i][p])
            && RightRow(A', n, piv', perm, i) == Minus(RightRow(A, n, piv, perm, i), r, A[i][p]))
  {
    hide PivotA, LeftEntry, RightEntry;
    var A', piv', s := PivotA(A, n, p), piv[p := true], 1.0 / A[p][p];
    var l, r := Scale(LeftRow(A, n, piv, p), s), Scale(RightRow(A, n, piv, perm, p), s);
    forall k | 0 <= k < n
      ensures LeftRow(A', n, piv', i)[k] == if i == p then l[k] else LeftRow(A, n, piv, i)[k] - l[k] * A[i][p]
      ensures RightRow(A', n, piv', perm, i)[k]
           == if i == p then r[k] else RightRow(A, n, piv, perm, i)[k] - r[k] * A[i][p]
    {
      PivotLeft(A, n, piv, p, i, k);
      PivotRight(A, n, piv, p, i, perm[k]);
    }
    if i != p {
      IsMinus(LeftRow(A', n, piv', i), LeftRow(A, n, piv, i), l, A[i][p]);
      IsMinus(RightRow(A', n, piv', perm, i), RightRow(A, n, piv, perm, i), r, A[i][p]);
    }
  }

  lemma PivotStep(A: Matrix, B: Matrix, n: nat, m: nat, piv: seq<bool>, perm: seq<nat>, p: nat)
    requires Shape(A, B, n, m, piv, perm) && p < n && !piv[p] && A[p][p] != 0.0
    ensures Shape(PivotA(A, n, p), PivotB(A, B, n, m, p), n, m, piv[p := true], perm)
    ensures Expand(A, B, n, m, piv, perm)[p][p] == A[p][p]
    ensures Expand(PivotA(A, n, p), PivotB(A, B, n, m, p), n, m, piv[p := true], perm)
         == Pivoted(Expand(A, B, n, m, piv, perm), n + n + m, p, p)
  {
    hide PivotA;
    var A', B', piv' := PivotA(A, n, p), PivotB(A, B, n, m, p), piv[p := true];
    var T, T' := Expand(A, B, n, m, piv, perm), Expand(A', B', n, m, piv', perm);
    assert T[p][p] == LeftRow(A, n, piv, p)[p] == A[p][p];
    var U := Pivoted(T, n + n + m, p, p);
    forall i | 0 <= i < n ensures T'[i] == U[i] {
      assert T[i][p] == LeftRow(A, n, piv, i)[p] == A[i][p];
      var s := 1.0 / A[p][p];
      var l, r, b := LeftRow(A, n, piv, p), RightRow(A, n, piv, perm, p), B[p];
      PivotParts(A, n, piv, perm, p, i);
      ScaleConcat(l + r, b, s);
      ScaleConcat(l, r, s);
      var li, ri := LeftRow(A, n, piv, i), RightRow(A, n, piv, perm, i);
      MinusConcat(li + ri, B[i], Scale(l, s) + Scale(r, s), Scale(b, s), A[i][p]);
      MinusConcat(li, ri, Scale(l, s), Scale(r, s), A[i][p]);
    }
  }

  /* ---------- what the final tableau means ---------- */

  ghost predicate SameKernel(T: Matrix, T0: Matrix, w: nat) {
    forall z: Row :: |z| == w ==> (Annihilates(T, z) <==> Annihilates(T0, z))
  }

  ghost predicate Singular(A: Matrix, n: nat)
    requires IsMatrix(A, n, n)
  {
    exists x: Row :: IsKernelVector(A, n, x)
  }

  ghost predicate IsKernelVector(A: Matrix, n: nat, x: Row)
    requires IsMatrix(A, n, n)
  {
    && |x| == n && x != Unit(n, -1)
    && forall i :: 0 <= i < n ==> Dot(A[i], x) == 0.0
  }

  ghost predicate NonePivoted(piv: seq<bool>) {
    forall k :: 0 <= k < |piv| ==> !piv[k]
  }

  ghost predicate AllPivoted(piv: seq<bool>) {
    forall k :: 0 <= k < |piv| ==> piv[k]
  }

  ghost predicate IsIdentity(perm: seq<nat>) {
    forall k :: 0 <= k < |perm| ==> perm[k] == k
  }

  // The columns of A put back in order.
  ghost function Unscrambled(A: Matrix, n: nat, perm: seq<nat>): (G: Matrix)
    requires IsMatrix(A, n, n) && |perm| == n && forall r :: 0 <= r < n ==> perm[r] < n
    ensures IsMatrix(G, n, n)
    ensures forall i, r :: 0 <= i < n && 0 <= r < n ==> G[i][r] == A[i][perm[r]]
  {
    seq(n, i requires 0 <= i < n => seq(n, r requires 0 <= r < n => A[i][perm[r]]))
  }

  lemma StartRow(A: Matrix, B: Matrix, n: nat, m: nat, piv: seq<bool>, perm: seq<nat>, i: nat, x: Row, y: Row, w: Row)
    requires Shape(A, B, n, m, piv, perm) && NonePivoted(piv) && IsIdentity(perm) && i < n
    requires |x| == n && |y| == n && |w| == m
    ensures Dot(Expand(A, B, n, m, piv, perm)[i], x + y + w) == Dot(A[i], x) + y[i] + Dot(B[i], w)
  {
    assert LeftRow(A, n, piv, i) == A[i];
    assert RightRow(A, n, piv, perm, i) == Unit(n, i);
    DotBlocks(A[i], Unit(n, i), B[i], x, y, w);
    DotUnit(n, i, y);
  }

  lemma FinalRow(A: Matrix, B: Matrix, n: nat, m: nat, piv: seq<bool>, perm: seq<nat>, i: nat, x: Row, y: Row, w: Row)
    requires Shape(A, B, n, m, piv, perm) && AllPivoted(piv) && i < n
    requires |x| == n && |y| == n && |w| == m
    ensures Dot(Expand(A, B, n, m, piv, perm)[i], x + y + w)
         == x[i] + Dot(Unscrambled(A, n, perm)[i], y) + Dot(B[i], w)
  {
    var G := Unscrambled(A, n, perm);
    assert LeftRow(A, n, piv, i) == Unit(n, i);
    assert RightRow(A, n, piv, perm, i) == G[i];
    DotBlocks(Unit(n, i), G[i], B[i], x, y, w);
    DotUnit(n, i, x);
  }

  // The situation in which the main loop ends, and what it started from.
  ghost predicate Eliminated(A0: Matrix, B0: Matrix, A: Matrix, B: Matrix, n: nat, m: nat,
                             piv0: seq<bool>, perm0: seq<nat>, piv: seq<bool>, perm: seq<nat>)
  {
    && Shape(A0, B0, n, m, piv0, perm0) && NonePivoted(piv0) && IsIdentity(perm0)
    && Shape(A, B, n, m, piv, perm)
    && SameKernel(Expand(A, B, n, m, piv, perm), Expand(A0, B0, n, m, piv0, perm0), n + n + m)
  }

  lemma SolutionsSolve(A0: Matrix, B0: Matrix, A: Matrix, B: Matrix, n: nat, m: nat,
                       piv0: seq<bool>, perm0: seq<nat>, piv: seq<bool>, perm: seq<nat>, c: nat)
    requires Eliminated(A0, B0, A, B, n, m, piv0, perm0, piv, perm) && AllPivoted(piv) && c < m
    ensures forall i :: 0 <= i < n ==> Dot(A0[i], Col(B, n, m, c)) == B0[i][c]
  {
    hide Dot, Expand;
    var T0, T := Expand(A0, B0, n, m, piv0, perm0), Expand(A, B, n, m, piv, perm);
    var x, y, w := Col(B, n, m, c), Unit(n, -1), Scale(Unit(m, c), -1.0);
    var z := x + y + w;
    forall i | 0 <= i < n ensures Dot(T[i], z) == 0.0 {
      FinalRow(A, B, n, m, piv, perm, i, x, y, w);
      DotZero(Unscrambled(A, n, perm)[i], n);
      DotMultipleOfUnit(B[i], c, -1.0);
    }
    assert Annihilates(T, z);
    assert Annihilates(T0, z);
    forall i | 0 <= i < n ensures Dot(A0[i], x) == B0[i][c] {
      StartRow(A0, B0, n, m, piv0, perm0, i, x, y, w);
      DotMultipleOfUnit(B0[i], c, -1.0);
      assert Dot(T0[i], z) == 0.0;
    }
  }

  lemma RightInverse(A0: Matrix, B0: Matrix, A: Matrix, B: Matrix, n: nat, m: nat,
                     piv0: seq<bool>, perm0: seq<nat>, piv: seq<bool>, perm: seq<nat>, r: nat)
    requires Eliminated(A0, B0, A, B, n, m, piv0, perm0, piv, perm) && AllPivoted(piv) && r < n
    ensures forall i :: 0 <= i < n ==> Dot(A0[i], Col(Unscrambled(A, n, perm), n, n, r)) == Delta(i, r)
  {
    hide Dot, Expand;
    var T0, T, G := Expand(A0, B0, n, m, piv0, perm0), Expand(A, B, n, m, piv, perm), Unscrambled(A, n, perm);
    var x, y, w := Col(G, n, n, r), Scale(Unit(n, r), -1.0), Unit(m, -1);
    var z := x + y + w;
    forall i | 0 <= i < n ensures Dot(T[i], z) == 0.0 {
      FinalRow(A, B, n, m, piv, perm, i, x, y, w);
      DotZero(B[i], m);
      DotMultipleOfUnit(G[i], r, -1.0);
    }
    assert Annihilates(T, z);
    assert Annihilates(T0, z);
    forall i | 0 <= i < n ensures Dot(A0[i], x) == Delta(i, r) {
      StartRow(A0, B0, n, m, piv0, perm0, i, x, y, w);
      DotZero(B0[i], m);
      assert Dot(T0[i], z) == 0.0;
    }
  }

  // Unit column k against column k of the matrix: the tableau at the start sends this to zero.
  ghost function ColumnProbe(A0: Matrix, n: nat, m: nat, k: nat): (z: Row)
    requires IsMatrix(A0, n, n) && k < n
  {
    Unit(n, k) + Scale(Col(A0, n, n, k), -1.0) + Unit(m, -1)
  }

  lemma ProbeStarts(A0: Matrix, B0: Matrix, n: nat, m: nat, piv0: seq<bool>, perm0: seq<nat>, k: nat, i: nat)
    requires Shape(A0, B0, n, m, piv0, perm0) && NonePivoted(piv0) && IsIdentity(perm0) && k < n && i < n
    ensures Dot(Expand(A0, B0, n, m, piv0, perm0)[i], ColumnProbe(A0, n, m, k)) == 0.0
  {
    hide Dot, Expand;
    StartRow(A0, B0, n, m, piv0, perm0, i, Unit(n, k), Scale(Col(A0, n, n, k), -1.0), Unit(m, -1));
    DotZero(B0[i], m);
    DotSymmetric(A0[i], Unit(n, k));
    DotUnit(n, k, A0[i]);
  }

  lemma ProbeEnds(A0: Matrix, A: Matrix, B: Matrix, n: nat, m: nat, piv: seq<bool>, perm: seq<nat>, k: nat, i: nat)
    requires IsMatrix(A0, n, n) && Shape(A, B, n, m, piv, perm) && AllPivoted(piv) && k < n && i < n
    ensures Dot(Expand(A, B, n, m, piv, perm)[i], ColumnProbe(A0, n, m, k))
      == Delta(i, k) - Dot(Unscrambled(A, n, perm)[i], Col(A0, n, n, k))
  {
    hide Dot, Expand, Unscrambled;
    var c, g := Col(A0, n, n, k), Unscrambled(A, n, perm)[i];
    FinalRow(A, B, n, m, piv, perm, i, Unit(n, k), Scale(c, -1.0), Unit(m, -1));
    DotZero(B[i], m);
    DotSymmetric(g, Scale(c, -1.0));
    DotScale(c, -1.0, g);
    DotSymmetric(g, c);
  }

  lemma LeftInverse(A0: Matrix, B0: Matrix, A: Matrix, B: Matrix, n: nat, m: nat,
                    piv0: seq<bool>, perm0: seq<nat>, piv: seq<bool>, perm: seq<nat>, k: nat)
    requires Eliminated(A0, B0, A, B, n, m, piv0, perm0, piv, perm) && AllPivoted(piv) && k < n
    ensures forall i :: 0 <= i < n ==> Dot(Unscrambled(A, n, perm)[i], Col(A0, n, n, k)) == Delta(i, k)
  {
    hide Dot, Expand, ColumnProbe, Unscrambled, Delta;
    var T0, T, z := Expand(A0, B0, n, m, piv0, perm0), Expand(A, B, n, m, piv, perm), ColumnProbe(A0, n, m, k);
    ProbeLength(A0, n, m, k);
    forall i | 0 <= i < n ensures Dot(T0[i], z) == 0.0 {
      ProbeStarts(A0, B0, n, m, piv0, perm0, k, i);
    }
    assert Annihilates(T0, z);
    assert Annihilates(T, z);
    forall i | 0 <= i < n ensures Dot(Unscrambled(A, n, perm)[i], Col(A0, n, n, k)) == Delta(i, k) {
      ProbeEnds(A0, A, B, n, m, piv, perm, k, i);
      assert Dot(T[i], z) == 0.0;
    }
  }

  lemma ProbeLength(A0: Matrix, n: nat, m: nat, k: nat)
    requires IsMatrix(A0, n, n) && k < n
    ensures |ColumnProbe(A0, n, m, k)| == n + n + m
  {
  }

  // A matrix that can be eliminated to the end has no kernel.
  lemma EliminatedIsRegular(A0: Matrix, B0: Matrix, A: Matrix, B: Matrix, n: nat, m: nat,
                            piv0: seq<bool>, perm0: seq<nat>, piv: seq<bool>, perm: seq<nat>)
    requires Eliminated(A0, B0, A, B, n, m, piv0, perm0, piv, perm) && AllPivoted(piv)
    ensures !Singular(A0, n)
  {
    hide Dot, Expand;
    var T0, T := Expand(A0, B0, n, m, piv0, perm0), Expand(A, B, n, m, piv, perm);
    forall x: Row | |x| == n && forall i :: 0 <= i < n ==> Dot(A0[i], x) == 0.0 ensures x == Unit(n, -1) {
      var y, w := Unit(n, -1), Unit(m, -1);
      var z := x + y + w;
      forall i | 0 <= i < n ensures Dot(T0[i], z) == 0.0 {
        StartRow(A0, B0, n, m, piv0, perm0, i, x, y, w);
        DotZero(B0[i], m);
      }
      assert Annihilates(T0, z);
      assert Annihilates(T, z);
      forall i | 0 <= i < n ensures x[i] == 0.0 {
        FinalRow(A, B, n, m, piv, perm, i, x, y, w);
        DotZero(Unscrambled(A, n, perm)[i], n);
        DotZero(B[i], m);
        assert Dot(T[i], z) == 0.0;
      }
    }
  }

  // The vector that a stuck elimination exhibits: column k is a combination of the pivoted ones.
  ghost function StuckVector(A: Matrix, n: nat, piv: seq<bool>, k: nat): (x: Row)
    requires IsMatrix(A, n, n) && |piv| == n && k < n
    ensures |x| == n && forall j :: 0 <= j < n ==> x[j] == if j == k then 1.0 else if piv[j] then -A[j][k] else 0.0
  {
    seq(n, j requires 0 <= j < n => if j == k then 1.0 else if piv[j] then -A[j][k] else 0.0)
  }

  ghost predicate Stuck(A: Matrix, n: nat, piv: seq<bool>)
    requires IsMatrix(A, n, n) && |piv| == n
  {
    forall i, k :: 0 <= i < n && 0 <= k < n && !piv[i] && !piv[k] ==> A[i][k] == 0.0
  }

  lemma StuckRow(A: Matrix, n: nat, piv: seq<bool>, k: nat, i: nat)
    requires IsMatrix(A, n, n) && |piv| == n && k < n && i < n && !piv[k] && Stuck(A, n, piv)
    ensures Dot(LeftRow(A, n, piv, i), StuckVector(A, n, piv, k)) == 0.0
  {
    hide Dot;
    var u, x := LeftRow(A, n, piv, i), StuckVector(A, n, piv, k);
    if piv[i] {
      DotTwo(u, x, i, k);
    } else {
      DotDisjoint(u, x);
    }
  }

  lemma StuckIsSingular(A0: Matrix, B0: Matrix, A: Matrix, B: Matrix, n: nat, m: nat,
                        piv0: seq<bool>, perm0: seq<nat>, piv: seq<bool>, perm: seq<nat>, k: nat)
    requires Eliminated(A0, B0, A, B, n, m, piv0, perm0, piv, perm) && k < n && !piv[k] && Stuck(A, n, piv)
    ensures Singular(A0, n)
  {
    hide Dot;
    var T0, T := Expand(A0, B0, n, m, piv0, perm0), Expand(A, B, n, m, piv, perm);
    var x, y, w := StuckVector(A, n, piv, k), Unit(n, -1), Unit(m, -1);
    var z := x + y + w;
    forall i | 0 <= i < n ensures Dot(T[i], z) == 0.0 {
      StuckRow(A, n, piv, k, i);
      var l, r := LeftRow(A, n, piv, i), RightRow(A, n, piv, perm, i);
      DotBlocks(l, r, B[i], x, y, w);
      DotZero(r, n);
      DotZero(B[i], m);
    }
    assert Annihilates(T, z);
    assert Annihilates(T0, z);
    forall i | 0 <= i < n ensures Dot(A0[i], x) == 0.0 {
      StartRow(A0, B0, n, m, piv0, perm0, i, x, y, w);
      DotZero(B0[i], m);
      assert Dot(T0[i], z) == 0.0;
    }
    assert x[k] != Unit(n, -1)[k];
    assert IsKernelVector(A0, n, x);
  }

  /* ---------- the program ---------- */

  ghost function Rows(a: array2<real>): (M: Matrix)
    reads a
    ensures IsMatrix(M, a.Length0, a.Length1)
    ensures forall i, j :: 0 <= i < a.Length0 && 0 <= j < a.Length1 ==> M[i][j] == a[i, j]
  {
    seq(a.Length0, i requires 0 <= i < a.Length0 reads a =>
      seq(a.Length1, j requires 0 <= j < a.Length1 reads a => a[i, j]))
  }

  lemma OneRowChanged(M': Matrix, M: Matrix, n: nat, m: nat, p: nat)
    requires IsMatrix(M', n, m) && IsMatrix(M, n, m) && p < n
    requires forall i, j :: 0 <= i < n && 0 <= j < m && i != p ==> M'[i][j] == M[i][j]
    ensures M' == M[p := M'[p]]
  {
    forall i | 0 <= i < n ensures M'[i] == M[p := M'[p]][i] {
      if i != p {
        assert M'[i] == M[i];
      }
    }
  }

  method SwapRows(a: array2<real>, i: nat, j: nat)
    requires i < a.Length0 && j < a.Length0
    modifies a
    ensures Rows(a) == RowsSwapped(old(Rows(a)), i, j)
  {
    ghost var M := Rows(a);
    var l := 0;
    while l < a.Length1
      invariant 0 <= l <= a.Length1
      invariant forall k, c :: 0 <= k < a.Length0 && 0 <= c < a.Length1 ==>
                  a[k, c] == if c < l then M[Transpose(i, j, k)][c] else M[k][c]
    {
      a[i, l], a[j, l] := a[j, l], a[i, l];
      l := l + 1;
    }
    assert forall k :: 0 <= k < a.Length0 ==> Rows(a)[k] == M[Transpose(i, j, k)];
    assert Rows(a) == RowsSwapped(M, i, j);
  }

  method SwapColumns(a: array2<real>, i: nat, j: nat)
    requires i < a.Length1 && j < a.Length1
    modifies a
    ensures forall k, c :: 0 <= k < a.Length0 && 0 <= c < a.Length1 ==> a[k, c] == old(a[k, Transpose(i, j, c)])
  {
    var k := 0;
    while k < a.Length0
      invariant 0 <= k <= a.Length0
      invariant forall r, c :: 0 <= r < a.Length0 && 0 <= c < a.Length1 ==>
                  a[r, c] == if r < k then old(a[r, Transpose(i, j, c)]) else old(a[r, c])
    {
      a[k, i], a[k, j] := a[k, j], a[k, i];
      k := k + 1;
    }
  }

  // Multiplies row p by f.
  method ScaleRow(a: array2<real>, p: nat, f: real)
    requires p < a.Length0
    modifies a
    ensures Rows(a) == old(Rows(a))[p := Scale(old(Rows(a))[p], f)]
  {
    ghost var M := Rows(a);
    var l := 0;
    while l < a.Length1
      invariant 0 <= l <= a.Length1
      invariant forall c :: 0 <= c < a.Length1 ==> a[p, c] == if c < l then M[p][c] * f else M[p][c]
      invariant forall k, c :: 0 <= k < a.Length0 && 0 <= c < a.Length1 && k != p ==> a[k, c] == M[k][c]
    {
      a[p, l] := a[p, l] * f;
      l := l + 1;
    }
    IsScale(Rows(a)[p], M[p], f);
    OneRowChanged(Rows(a), M, a.Length0, a.Length1, p);
  }

  // Subtracts d times row p from row i.
  method SubtractRow(a: array2<real>, i: nat, p: nat, d: real)
    requires i < a.Length0 && p < a.Length0 && i != p
    modifies a
    ensures Rows(a) == old(Rows(a))[i := Minus(old(Rows(a))[i], old(Rows(a))[p], d)]
  {
    ghost var M := Rows(a);
    var l := 0;
    while l < a.Length1
      invariant 0 <= l <= a.Length1
      invariant forall c :: 0 <= c < a.Length1 ==> a[i, c] == if c < l then M[i][c] - M[p][c] * d else M[i][c]
      invariant forall k, c :: 0 <= k < a.Length0 && 0 <= c < a.Length1 && k != i ==> a[k, c] == M[k][c]
    {
      a[i, l] := a[i, l] - a[p, l] * d;
      l := l + 1;
    }
    IsMinus(Rows(a)[i], M[i], M[p], d);
    OneRowChanged(Rows(a), M, a.Length0, a.Length1, i);
  }

  method SetEntry(a: array2<real>, i: nat, j: nat, v: real)
    requires i < a.Length0 && j < a.Length1
    modifies a
    ensures Rows(a) == old(Rows(a))[i := old(Rows(a))[i][j := v]]
  {
    ghost var M := Rows(a);
    a[i, j] := v;
    assert Rows(a)[i] == M[i][j := v];
    OneRowChanged(Rows(a), M, a.Length0, a.Length1, i);
  }

  // The reduction of one pivot column, in place.
  method Reduce(a: array2<real>, b: array2<real>, n: nat, m: nat, p: nat)
    requires a != b && a.Length0 == a.Length1 == b.Length0 == n && b.Length1 == m && p < n && a[p, p] != 0.0
    modifies a, b
    ensures Rows(a) == PivotA(old(Rows(a)), n, p)
    ensures Rows(b) == PivotB(old(Rows(a)), old(Rows(b)), n, m, p)
  {
    ghost var A, B := Rows(a), Rows(b);
    var pivinv := 1.0 / a[p, p];
    SetEntry(a, p, p, 1.0);
    ScaleRow(a, p, pivinv);
    ScaleRow(b, p, pivinv);
    assert Rows(a)[p] == PivotRowA(A, n, p) && Rows(b)[p] == Scale(B[p], pivinv);
    var ll := 0;
    while ll < n
      invariant 0 <= ll <= n
      invariant forall i :: 0 <= i < n ==> Rows(a)[i] == if i < ll || i == p then PivotA(A, n, p)[i] else A[i]
      invariant forall i :: 0 <= i < n ==> Rows(b)[i] == if i < ll || i == p then PivotB(A, B, n, m, p)[i] else B[i]
    {
      if ll != p {
        var dum := a[ll, p];
        assert dum == Rows(a)[ll][p] == A[ll][p];
        SetEntry(a, ll, p, 0.0);
        SubtractRow(a, ll, p, dum);
        SubtractRow(b, ll, p, dum);
      }
      ll := ll + 1;
    }
    assert Rows(a) == PivotA(A, n, p);
    assert Rows(b) == PivotB(A, B, n, m, p);
  }

  datatype Outcome = Solved | SingularMatrix1 | SingularMatrix2

  function Abs(x: real): real {
    if x < 0.0 then -x else x
  }

  ghost predicate Flags(ipiv: seq<int>, n: nat) {
    |ipiv| == n && forall k :: 0 <= k < n ==> ipiv[k] == 0 || ipiv[k] == 1
  }

  ghost function Piv(ipiv: seq<int>): (r: seq<bool>)
    ensures |r| == |ipiv| && forall k :: 0 <= k < |ipiv| ==> (r[k] <==> ipiv[k] == 1)
  {
    seq(|ipiv|, k requires 0 <= k < |ipiv| => ipiv[k] == 1)
  }

  ghost predicate Free(n: nat, ipiv: seq<int>, x: int, y: int)
    requires |ipiv| == n
  {
    0 <= x < n && 0 <= y < n && ipiv[x] == 0 && ipiv[y] == 0
  }

  // big bounds the free entries seen so far, and (irow, icol) attains it as soon as there is one.
  ghost predicate Largest(a: Matrix, n: nat, ipiv: seq<int>, j: nat, k: nat, big: real, irow: int, icol: int)
    requires IsMatrix(a, n, n) && |ipiv| == n
  {
    && big >= 0.0
    && (big > 0.0 ==> Free(n, ipiv, irow, icol) && Abs(a[irow][icol]) == big)
    && (forall x, y :: Free(n, ipiv, x, y) && (x < j || (x == j && y < k)) ==>
          Free(n, ipiv, irow, icol) && Abs(a[x][y]) <= big == Abs(a[irow][icol]))
  }

  lemma LargestStep(a: Matrix, n: nat, ipiv: seq<int>, j: nat, k: nat, big: real, irow: int, icol: int)
    requires IsMatrix(a, n, n) && Flags(ipiv, n) && j < n && k < n && ipiv[j] == 0
    requires Largest(a, n, ipiv, j, k, big, irow, icol)
    ensures ipiv[k] == 0 && Abs(a[j][k]) >= big ==> Largest(a, n, ipiv, j, k + 1, Abs(a[j][k]), j, k)
    ensures ipiv[k] == 0 && Abs(a[j][k]) < big ==> Largest(a, n, ipiv, j, k + 1, big, irow, icol)
    ensures ipiv[k] != 0 ==> Largest(a, n, ipiv, j, k + 1, big, irow, icol)
  {
    assert ipiv[k] == 0 ==> Free(n, ipiv, j, k);
  }

  lemma LargestNextRow(a: Matrix, n: nat, ipiv: seq<int>, j: nat, k: nat, big: real, irow: int, icol: int)
    requires IsMatrix(a, n, n) && Flags(ipiv, n) && j < n
    requires Largest(a, n, ipiv, j, k, big, irow, icol) && (k == n || ipiv[j] == 1)
    ensures Largest(a, n, ipiv, j + 1, 0, big, irow, icol)
  {
  }

  // The search for the pivot.  `bad` would be the first of the two error exits.
  method FindPivot(a: array2<real>, n: nat, ipiv: seq<int>, irow0: int, icol0: int)
    returns (irow: int, icol: int, bad: bool)
    requires a.Length0 == a.Length1 == n && Flags(ipiv, n)
    ensures !bad
    ensures forall x, y :: Free(n, ipiv, x, y) ==>
              Free(n, ipiv, irow, icol) && Abs(Rows(a)[x][y]) <= Abs(Rows(a)[irow][icol])
  {
    hide Largest;
    var big := 0.0;
    irow, icol, bad := irow0, icol0, false;
    ghost var A := Rows(a);
    LargestOfNone(A, n, ipiv, irow, icol);
    var j := 0;
    while j < n
      invariant 0 <= j <= n && !bad && Largest(A, n, ipiv, j, 0, big, irow, icol)
    {
      if ipiv[j] != 1 {
        var k := 0;
        while k < n
          invariant 0 <= k <= n && !bad && Largest(A, n, ipiv, j, k, big, irow, icol)
        {
          LargestStep(A, n, ipiv, j, k, big, irow, icol);
          if ipiv[k] == 0 {
            if Abs(a[j, k]) >= big {
              big := Abs(a[j, k]);
              irow, icol := j, k;
            }
          } else if ipiv[k] > 1 {
            bad := true;
          }
          k := k + 1;
        }
        LargestNextRow(A, n, ipiv, j, n, big, irow, icol);
      } else {
        LargestNextRow(A, n, ipiv, j, 0, big, irow, icol);
      }
      j := j + 1;
    }
    LargestOfAll(A, n, ipiv, big, irow, icol);
  }

  lemma LargestOfNone(a: Matrix, n: nat, ipiv: seq<int>, irow: int, icol: int)
    requires IsMatrix(a, n, n) && |ipiv| == n
    ensures Largest(a, n, ipiv, 0, 0, 0.0, irow, icol)
  {
  }

  lemma LargestOfAll(a: Matrix, n: nat, ipiv: seq<int>, big: real, irow: int, icol: int)
    requires IsMatrix(a, n, n) && |ipiv| == n && Largest(a, n, ipiv, n, 0, big, irow, icol)
    ensures forall x, y :: Free(n, ipiv, x, y) ==>
              Free(n, ipiv, irow, icol) && Abs(a[x][y]) <= Abs(a[irow][icol])
  {
  }

  lemma SomeFree(S: set<nat>, n: nat, ipiv: seq<int>) returns (k: nat)
    requires Flags(ipiv, n) && (forall k :: k in S <==> 0 <= k < n && ipiv[k] == 1) && |S| < n
    ensures k < n && ipiv[k] == 0
  {
    if forall k :: 0 <= k < n ==> k in S {
      NumbersBelow(S, n);
    }
    k :| 0 <= k < n && k !in S;
  }

  lemma SwapKeepsElimination(A0: Matrix, B0: Matrix, A: Matrix, B: Matrix, n: nat, m: nat,
                             piv0: seq<bool>, perm0: seq<nat>, piv: seq<bool>, perm: seq<nat>, i: nat, j: nat)
    requires Eliminated(A0, B0, A, B, n, m, piv0, perm0, piv, perm) && i < n && j < n && !piv[i] && !piv[j]
    ensures Eliminated(A0, B0, RowsSwapped(A, i, j), RowsSwapped(B, i, j), n, m, piv0, perm0, piv, Moved(perm, i, j))
  {
    hide Annihilates, Expand;
    SwapStep(A, B, n, m, piv, perm, i, j);
    var T := Expand(A, B, n, m, piv, perm);
    forall z: Row | |z| == n + n + m
      ensures Annihilates(RowsSwapped(T, i, j), z) <==> Annihilates(Expand(A0, B0, n, m, piv0, perm0), z)
    {
      SwapKeepsKernel(T, i, j, z);
    }
  }

  lemma PivotKeepsElimination(A0: Matrix, B0: Matrix, A: Matrix, B: Matrix, n: nat, m: nat,
                              piv0: seq<bool>, perm0: seq<nat>, piv: seq<bool>, perm: seq<nat>, p: nat)
    requires Eliminated(A0, B0, A, B, n, m, piv0, perm0, piv, perm) && p < n && !piv[p] && A[p][p] != 0.0
    ensures Eliminated(A0, B0, PivotA(A, n, p), PivotB(A, B, n, m, p), n, m, piv0, perm0, piv[p := true], perm)
  {
    hide Annihilates, Expand, PivotA, PivotB, Pivoted;
    PivotStep(A, B, n, m, piv, perm, p);
    var T := Expand(A, B, n, m, piv, perm);
    forall z: Row | |z| == n + n + m
      ensures Annihilates(Pivoted(T, n + n + m, p, p), z) <==> Annihilates(Expand(A0, B0, n, m, piv0, perm0), z)
    {
      PivotKeepsKernel(T, n + n + m, p, p, z);
    }
  }

  // After i pivots: which positions they were, and that the tableau still has the kernel it started with.
  ghost predicate Running(A0: Matrix, B0: Matrix, A: Matrix, B: Matrix, n: nat, m: nat, ipiv: seq<int>,
                          perm: seq<nat>, done: set<nat>, i: nat)
  {
    && Flags(ipiv, n) && (forall k :: k in done <==> 0 <= k < n && ipiv[k] == 1) && |done| == i
    && Eliminated(A0, B0, A, B, n, m, seq(n, _ => false), seq(n, k => k), Piv(ipiv), perm)
  }

  // One turn of the main loop: pick the pivot, bring it to the diagonal, and reduce its column.
  method Eliminate(a: array2<real>, b: array2<real>, n: nat, m: nat, ipiv0: seq<int>, irow0: int, icol0: int,
                   ghost A0: Matrix, ghost B0: Matrix, ghost perm0: seq<nat>, ghost done0: set<nat>, ghost i: nat)
    returns (outcome: Outcome, ipiv: seq<int>, irow: int, icol: int, ghost perm: seq<nat>, ghost done: set<nat>)
    requires a != b && a.Length0 == a.Length1 == b.Length0 == n && b.Length1 == m && i < n
    requires Running(A0, B0, Rows(a), Rows(b), n, m, ipiv0, perm0, done0, i)
    modifies a, b
    ensures outcome != SingularMatrix1
    ensures outcome == SingularMatrix2 ==> IsMatrix(A0, n, n) && Singular(A0, n)
    ensures outcome == Solved ==> Running(A0, B0, Rows(a), Rows(b), n, m, ipiv, perm, done, i + 1)
    ensures outcome == Solved ==> 0 <= irow < n && 0 <= icol < n && perm == Moved(perm0, irow, icol)
  {
    hide Eliminated, Dot, PivotA, PivotB, Abs;
    ipiv, perm, done := ipiv0, perm0, done0;
    ghost var k := SomeFree(done, n, ipiv);
    var bad;
    irow, icol, bad := FindPivot(a, n, ipiv, irow0, icol0);
    assert Free(n, ipiv, k, k);
    if bad {
      return SingularMatrix1, ipiv, irow, icol, perm, done;
    }
    ghost var A, B := Rows(a), Rows(b);
    ShapeOfElimination(A0, B0, A, B, n, m, seq(n, _ => false), seq(n, k => k), Piv(ipiv), perm);
    ghost var A1, B1 := RowsSwapped(A, irow, icol), RowsSwapped(B, irow, icol);
    SwapKeepsElimination(A0, B0, A, B, n, m, seq(n, _ => false), seq(n, k => k), Piv(ipiv), perm, irow, icol);
    if irow != icol {
      SwapRows(a, irow, icol);
      SwapRows(b, irow, icol);
    }
    assert Rows(a) == A1 && Rows(b) == B1;
    perm := Moved(perm, irow, icol);
    if a[icol, icol] == 0.0 {
      PivotZeroMeansStuck(A, n, ipiv, irow, icol);
      StuckIsSingular(A0, B0, A, B, n, m, seq(n, _ => false), seq(n, k => k), Piv(ipiv), perm0, k);
      return SingularMatrix2, ipiv, irow, icol, perm, done;
    }
    assert A1[icol][icol] == a[icol, icol];
    PivotKeepsElimination(A0, B0, A1, B1, n, m, seq(n, _ => false), seq(n, k => k), Piv(ipiv), perm, icol);
    Reduce(a, b, n, m, icol);
    assert Piv(ipiv)[icol := true] == Piv(ipiv[icol := ipiv[icol] + 1]);
    ipiv := ipiv[icol := ipiv[icol] + 1];
    done := done + {icol};
    outcome := Solved;
  }

  lemma ShapeOfElimination(A0: Matrix, B0: Matrix, A: Matrix, B: Matrix, n: nat, m: nat,
                           piv0: seq<bool>, perm0: seq<nat>, piv: seq<bool>, perm: seq<nat>)
    requires Eliminated(A0, B0, A, B, n, m, piv0, perm0, piv, perm)
    ensures IsMatrix(A0, n, n) && IsMatrix(A, n, n) && IsMatrix(B, n, m) && |perm| == n
    ensures forall r :: 0 <= r < n ==> perm[r] < n
  {
  }

  // If even the largest free entry is zero, all free entries are.
  lemma PivotZeroMeansStuck(A: Matrix, n: nat, ipiv: seq<int>, irow: nat, icol: nat)
    requires IsMatrix(A, n, n) && Flags(ipiv, n) && Free(n, ipiv, irow, icol) && A[irow][icol] == 0.0
    requires forall x, y :: Free(n, ipiv, x, y) ==> Abs(A[x][y]) <= Abs(A[irow][icol])
    ensures Stuck(A, n, Piv(ipiv))
  {
    forall x, y | 0 <= x < n && 0 <= y < n && !Piv(ipiv)[x] && !Piv(ipiv)[y] ensures A[x][y] == 0.0 {
      assert Free(n, ipiv, x, y);
    }
  }

  // The column swaps recorded by the main loop, from the first to the l-th, applied to x.
  ghost predicate SwapsRecorded(perms: seq<seq<nat>>, indxr: seq<nat>, indxc: seq<nat>, n: nat, i: nat) {
    && |perms| == i + 1 && |indxr| == |indxc| == i && perms[0] == seq(n, k => k)
    && (forall l :: 0 <= l <= i ==> |perms[l]| == n)
    && (forall l :: 0 <= l < i ==> indxr[l] < n && indxc[l] < n)
    && (forall l {:trigger indxr[l]} :: 0 <= l < i ==> perms[l + 1] == Moved(perms[l], indxr[l], indxc[l]))
  }

  // The last loop: undoing the swaps on the columns puts the inverse in order.
  method Unscramble(a: array2<real>, n: nat, indxr: seq<nat>, indxc: seq<nat>, ghost perms: seq<seq<nat>>)
    requires a.Length0 == a.Length1 == n && SwapsRecorded(perms, indxr, indxc, n, n)
    requires forall l, r :: 0 <= l <= n && 0 <= r < n ==> perms[l][r] < n
    modifies a
    ensures Rows(a) == Unscrambled(old(Rows(a)), n, perms[n])
  {
    ghost var A := Rows(a);
    var l := n;
    while l > 0
      invariant 0 <= l <= n
      invariant forall k, r :: 0 <= k < n && 0 <= r < n ==> a[k, perms[l][r]] == A[k][perms[n][r]]
    {
      l := l - 1;
      assert perms[l + 1] == Moved(perms[l], indxr[l], indxc[l]);
      ghost var before := Rows(a);
      if indxr[l] != indxc[l] {
        SwapColumns(a, indxr[l], indxc[l]);
      }
      forall k, r | 0 <= k < n && 0 <= r < n ensures a[k, perms[l][r]] == A[k][perms[n][r]] {
        assert perms[l + 1][r] == Transpose(indxr[l], indxc[l], perms[l][r]);
        assert before[k][perms[l + 1][r]] == A[k][perms[n][r]];
      }
    }
    ghost var G := Unscrambled(A, n, perms[n]);
    forall k | 0 <= k < n ensures Rows(a)[k] == G[k] {
      forall r | 0 <= r < n ensures Rows(a)[k][r] == G[k][r] {
        assert perms[0][r] == r;
        assert a[k, perms[0][r]] == A[k][perms[n][r]];
      }
    }
  }

  ghost predicate IsInverse(A: Matrix, G: Matrix, n: nat)
    requires IsMatrix(A, n, n) && IsMatrix(G, n, n)
  {
    forall i, k :: 0 <= i < n && 0 <= k < n ==>
      Dot(A[i], Col(G, n, n, k)) == Delta(i, k) && Dot(G[i], Col(A, n, n, k)) == Delta(i, k)
  }

  ghost predicate Solves(A: Matrix, X: Matrix, B: Matrix, n: nat, m: nat)
    requires IsMatrix(A, n, n) && IsMatrix(X, n, m) && IsMatrix(B, n, m)
  {
    forall i, c :: 0 <= i < n && 0 <= c < m ==> Dot(A[i], Col(X, n, m, c)) == B[i][c]
  }

  lemma RunStarts(A0: Matrix, B0: Matrix, n: nat, m: nat)
    requires IsMatrix(A0, n, n) && IsMatrix(B0, n, m)
    ensures Running(A0, B0, A0, B0, n, m, seq(n, _ => 0), seq(n, k => k), {}, 0)
  {
    assert Piv(seq(n, _ => 0)) == seq(n, _ => false);
  }

  lemma RunEnds(A0: Matrix, B0: Matrix, A: Matrix, B: Matrix, n: nat, m: nat, ipiv: seq<int>, perm: seq<nat>,
                done: set<nat>)
    requires Running(A0, B0, A, B, n, m, ipiv, perm, done, n)
    ensures IsMatrix(A0, n, n) && IsMatrix(B0, n, m) && IsMatrix(A, n, n) && IsMatrix(B, n, m)
    ensures |perm| == n && forall r :: 0 <= r < n ==> perm[r] < n
    ensures !Singular(A0, n) && Solves(A0, B, B0, n, m) && IsInverse(A0, Unscrambled(A, n, perm), n)
  {
    hide Dot, Expand;
    var piv0, perm0, piv := seq(n, _ => false), seq(n, k => k), Piv(ipiv);
    NumbersBelow(done, n);
    assert AllPivoted(piv);
    ShapeOfElimination(A0, B0, A, B, n, m, piv0, perm0, piv, perm);
    EliminatedIsRegular(A0, B0, A, B, n, m, piv0, perm0, piv, perm);
    forall c | 0 <= c < m ensures forall i :: 0 <= i < n ==> Dot(A0[i], Col(B, n, m, c)) == B0[i][c] {
      SolutionsSolve(A0, B0, A, B, n, m, piv0, perm0, piv, perm, c);
    }
    forall k | 0 <= k < n
      ensures forall i :: 0 <= i < n ==> Dot(A0[i], Col(Unscrambled(A, n, perm), n, n, k)) == Delta(i, k)
      ensures forall i :: 0 <= i < n ==> Dot(Unscrambled(A, n, perm)[i], Col(A0, n, n, k)) == Delta(i, k)
    {
      RightInverse(A0, B0, A, B, n, m, piv0, perm0, piv, perm, k);
      LeftInverse(A0, B0, A, B, n, m, piv0, perm0, piv, perm, k);
    }
  }

  // Replaces a by its inverse and b by the solutions, unless a is singular.
  method Gaussj(a: array2<real>, n: nat, b: array2<real>, m: nat) returns (outcome: Outcome)
    requires a != b && a.Length0 == a.Length1 == b.Length0 == n && b.Length1 == m
    modifies a, b
    ensures outcome != SingularMatrix1
    ensures outcome == Solved <==> !Singular(old(Rows(a)), n)
    ensures outcome == Solved ==> Solves(old(Rows(a)), Rows(b), old(Rows(b)), n, m)
    ensures outcome == Solved ==> IsInverse(old(Rows(a)), Rows(a), n)
  {
    hide Running, Singular, Solves, IsInverse, Unscrambled;
    ghost var A0, B0 := Rows(a), Rows(b);
    var ipiv: seq<int> := seq(n, _ => 0);
    var indxr: seq<nat>, indxc: seq<nat> := [], [];
    var irow, icol := -1, -1;
    ghost var perm: seq<nat>, done: set<nat> := seq(n, k => k), {};
    ghost var perms := [perm];
    RunStarts(A0, B0, n, m);
    for i := 0 to n
      invariant Running(A0, B0, Rows(a), Rows(b), n, m, ipiv, perm, done, i)
      invariant SwapsRecorded(perms, indxr, indxc, n, i) && perms[i] == perm
      invariant forall l, r :: 0 <= l <= i && 0 <= r < n ==> perms[l][r] < n
    {
      outcome, ipiv, irow, icol, perm, done :=
        Eliminate(a, b, n, m, ipiv, irow, icol, A0, B0, perm, done, i);
      if outcome != Solved {
        return;
      }
      indxr, indxc := indxr + [irow], indxc + [icol];
      perms := perms + [perm];
    }
    RunEnds(A0, B0, Rows(a), Rows(b), n, m, ipiv, perm, done);
    Unscramble(a, n, indxr, indxc, perms);
    outcome := Solved;
  }
}
