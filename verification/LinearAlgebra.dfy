/**
  The little linear algebra that the correctness of gaussj rests on: rows of
  reals, their scalar product, and the vectors a system of rows annihilates.
 */
module LinearAlgebra {

  type Row = seq<real>
  type Matrix = seq<Row>

  ghost predicate IsMatrix(M: Matrix, n: nat, m: nat) {
    |M| == n && forall i :: 0 <= i < n ==> |M[i]| == m
  }

  ghost function Dot(u: Row, v: Row): real
    requires |u| == |v|
  {
    if u == [] then 0.0 else Dot(u[..|u| - 1], v[..|u| - 1]) + u[|u| - 1] * v[|u| - 1]
  }

  ghost function Scale(u: Row, c: real): (r: Row)
    ensures |r| == |u| && forall k :: 0 <= k < |u| ==> r[k] == u[k] * c
  {
    seq(|u|, k requires 0 <= k < |u| => u[k] * c)
  }

  // u - c * v
  ghost function Minus(u: Row, v: Row, c: real): (r: Row)
    requires |u| == |v|
    ensures |r| == |u| && forall k :: 0 <= k < |u| ==> r[k] == u[k] - v[k] * c
  {
    seq(|u|, k requires 0 <= k < |u| => u[k] - v[k] * c)
  }

  ghost function Unit(n: nat, i: int): (r: Row)
    ensures |r| == n && forall k :: 0 <= k < n ==> r[k] == if k == i then 1.0 else 0.0
  {
    seq(n, k => if k == i then 1.0 else 0.0)
  }

  ghost function Col(M: Matrix, n: nat, m: nat, c: nat): (r: Row)
    requires IsMatrix(M, n, m) && c < m
    ensures |r| == n && forall i :: 0 <= i < n ==> r[i] == M[i][c]
  {
    seq(n, i requires 0 <= i < n => M[i][c])
  }

  lemma ScalePrefix(u: Row, c: real, n: nat)
    requires n <= |u|
    ensures Scale(u, c)[..n] == Scale(u[..n], c)
  {
    forall k | 0 <= k < n ensures Scale(u, c)[..n][k] == Scale(u[..n], c)[k] {
      assert u[..n][k] == u[k];
    }
  }

  lemma MinusPrefix(u: Row, v: Row, c: real, n: nat)
    requires |u| == |v| && n <= |u|
    ensures Minus(u, v, c)[..n] == Minus(u[..n], v[..n], c)
  {
    forall k | 0 <= k < n ensures Minus(u, v, c)[..n][k] == Minus(u[..n], v[..n], c)[k] {
      assert u[..n][k] == u[k] && v[..n][k] == v[k];
    }
  }

  lemma ScaleConcat(u: Row, v: Row, c: real)
    ensures Scale(u + v, c) == Scale(u, c) + Scale(v, c)
  {
    forall k | 0 <= k < |u + v| ensures Scale(u + v, c)[k] == (Scale(u, c) + Scale(v, c))[k] {
      assert (u + v)[k] == if k < |u| then u[k] else v[k - |u|];
    }
  }

  lemma MinusConcat(u: Row, v: Row, u': Row, v': Row, c: real)
    requires |u| == |u'| && |v| == |v'|
    ensures Minus(u + v, u' + v', c) == Minus(u, u', c) + Minus(v, v', c)
  {
    forall k | 0 <= k < |u + v| ensures Minus(u + v, u' + v', c)[k] == (Minus(u, u', c) + Minus(v, v', c))[k] {
      assert (u + v)[k] == if k < |u| then u[k] else v[k - |u|];
      assert (u' + v')[k] == if k < |u| then u'[k] else v'[k - |u|];
    }
  }

  lemma IsScale(r: Row, u: Row, c: real)
    requires |r| == |u| && forall k :: 0 <= k < |r| ==> r[k] == u[k] * c
    ensures r == Scale(u, c)
  {
    forall k | 0 <= k < |r| ensures r[k] == Scale(u, c)[k] {
    }
  }

  // A row is u - c * v when it is so entry by entry.
  lemma IsMinus(r: Row, u: Row, v: Row, c: real)
    requires |r| == |u| == |v| && forall k :: 0 <= k < |r| ==> r[k] == u[k] - v[k] * c
    ensures r == Minus(u, v, c)
  {
    forall k | 0 <= k < |r| ensures r[k] == Minus(u, v, c)[k] {
    }
  }

  lemma {:induction false} DotScale(u: Row, c: real, v: Row)
    requires |u| == |v|
    ensures Dot(Scale(u, c), v) == c * Dot(u, v)
  {
    if u != [] {
      var n := |u| - 1;
      DotScale(u[..n], c, v[..n]);
      ScalePrefix(u, c, n);
      assert (u[n] * c) * v[n] == c * (u[n] * v[n]);
      assert c * (Dot(u[..n], v[..n]) + u[n] * v[n]) == c * Dot(u[..n], v[..n]) + c * (u[n] * v[n]);
    }
  }

  lemma {:induction false} DotMinus(u: Row, w: Row, c: real, v: Row)
    requires |u| == |v| == |w|
    ensures Dot(Minus(u, w, c), v) == Dot(u, v) - c * Dot(w, v)
  {
    if u != [] {
      var n := |u| - 1;
      DotMinus(u[..n], w[..n], c, v[..n]);
      MinusPrefix(u, w, c, n);
      assert (u[n] - w[n] * c) * v[n] == u[n] * v[n] - c * (w[n] * v[n]);
      assert c * (Dot(w[..n], v[..n]) + w[n] * v[n]) == c * Dot(w[..n], v[..n]) + c * (w[n] * v[n]);
    }
  }

  lemma {:induction false} DotConcat(u: Row, v: Row, u': Row, v': Row)
    requires |u| == |v| && |u'| == |v'|
    ensures Dot(u + u', v + v') == Dot(u, v) + Dot(u', v')
  {
    if u' == [] {
      assert u + u' == u && v + v' == v;
    } else {
      var n := |u'| - 1;
      DotConcat(u, v, u'[..n], v'[..n]);
      assert (u + u')[..|u| + n] == u + u'[..n];
      assert (v + v')[..|u| + n] == v + v'[..n];
    }
  }

  lemma {:induction false} DotSymmetric(u: Row, v: Row)
    requires |u| == |v|
    ensures Dot(u, v) == Dot(v, u)
  {
    if u != [] {
      DotSymmetric(u[..|u| - 1], v[..|u| - 1]);
    }
  }

  lemma {:induction false} DotUnit(n: nat, i: int, v: Row)
    requires |v| == n
    ensures Dot(Unit(n, i), v) == if 0 <= i < n then v[i] else 0.0
  {
    if n > 0 {
      DotUnit(n - 1, i, v[..n - 1]);
      assert Unit(n, i)[..n - 1] == Unit(n - 1, i);
    }
  }

  // Scalar product with c times a unit vector.
  lemma DotMultipleOfUnit(u: Row, i: int, c: real)
    ensures Dot(u, Scale(Unit(|u|, i), c)) == if 0 <= i < |u| then c * u[i] else 0.0
  {
    hide Dot, Scale;
    DotSymmetric(u, Scale(Unit(|u|, i), c));
    DotScale(Unit(|u|, i), c, u);
    DotUnit(|u|, i, u);
  }

  lemma {:induction false} DotUpdate(u: Row, i: nat, c: real, v: Row)
    requires |u| == |v| && i < |u|
    ensures Dot(u[i := c], v) == Dot(u, v) + (c - u[i]) * v[i]
  {
    var n := |u| - 1;
    if i == n {
      assert u[i := c][..n] == u[..n];
      assert (c - u[n]) * v[n] == c * v[n] - u[n] * v[n];
    } else {
      assert u[i := c][..n] == u[..n][i := c];
      DotUpdate(u[..n], i, c, v[..n]);
    }
  }

  lemma {:induction false} DotDisjoint(u: Row, v: Row)
    requires |u| == |v| && forall k :: 0 <= k < |u| ==> u[k] == 0.0 || v[k] == 0.0
    ensures Dot(u, v) == 0.0
  {
    if u != [] {
      DotDisjoint(u[..|u| - 1], v[..|u| - 1]);
    }
  }

  // Only two positions contribute.
  lemma DotTwo(u: Row, v: Row, i: nat, k: nat)
    requires |u| == |v| && i < |u| && k < |u| && i != k
    requires forall l :: 0 <= l < |u| && l != i && l != k ==> u[l] == 0.0 || v[l] == 0.0
    ensures Dot(u, v) == u[i] * v[i] + u[k] * v[k]
  {
    hide Dot;
    DotUpdate(u, i, 0.0, v);
    DotUpdate(u[i := 0.0], k, 0.0, v);
    DotDisjoint(u[i := 0.0][k := 0.0], v);
  }

  lemma DotBlocks(l: Row, r: Row, b: Row, x: Row, y: Row, w: Row)
    requires |l| == |x| && |r| == |y| && |b| == |w|
    ensures Dot(l + r + b, x + y + w) == Dot(l, x) + Dot(r, y) + Dot(b, w)
  {
    DotConcat(l + r, x + y, b, w);
    DotConcat(l, x, r, y);
  }

  lemma DotZero(u: Row, n: nat)
    requires |u| == n
    ensures Dot(u, Unit(n, -1)) == 0.0
  {
    DotDisjoint(u, Unit(n, -1));
  }

  /* ---------- what a system of rows annihilates ---------- */

  ghost predicate Annihilates(T: Matrix, z: Row) {
    forall i :: 0 <= i < |T| ==> |T[i]| == |z| && Dot(T[i], z) == 0.0
  }

  ghost function RowsSwapped(T: Matrix, i: nat, j: nat): Matrix
    requires i < |T| && j < |T|
  {
    T[i := T[j]][j := T[i]]
  }

  // The full pivot step on row p and column c: row p is divided by its entry, and the others are cleared.
  ghost function Pivoted(T: Matrix, w: nat, p: nat, c: nat): (r: Matrix)
    requires IsMatrix(T, |T|, w) && p < |T| && c < w && T[p][c] != 0.0
    ensures |r| == |T|
  {
    seq(|T|, i requires 0 <= i < |T| =>
      if i == p then Scale(T[p], 1.0 / T[p][c]) else Minus(T[i], Scale(T[p], 1.0 / T[p][c]), T[i][c]))
  }

  lemma SwapKeepsKernel(T: Matrix, i: nat, j: nat, z: Row)
    requires i < |T| && j < |T|
    ensures Annihilates(RowsSwapped(T, i, j), z) <==> Annihilates(T, z)
  {
    var T' := RowsSwapped(T, i, j);
    assert T == RowsSwapped(T', i, j);
    assert forall k :: 0 <= k < |T| ==> T'[k] == T[if k == i then j else if k == j then i else k];
    assert forall k :: 0 <= k < |T| ==> T[k] == T'[if k == i then j else if k == j then i else k];
  }

  lemma Cancel(x: real, d: real)
    requires x != 0.0
    ensures (1.0 / x) * d == 0.0 <==> d == 0.0
  {
    assert x * ((1.0 / x) * d) == d;
  }

  lemma PivotedDot(T: Matrix, w: nat, p: nat, c: nat, z: Row, i: nat)
    requires IsMatrix(T, |T|, w) && p < |T| && c < w && T[p][c] != 0.0 && |z| == w && i < |T|
    ensures |Pivoted(T, w, p, c)[i]| == w
    ensures Dot(Pivoted(T, w, p, c)[i], z)
      == if i == p then (1.0 / T[p][c]) * Dot(T[p], z) else Dot(T[i], z) - T[i][c] * ((1.0 / T[p][c]) * Dot(T[p], z))
  {
    hide Dot;
    var r := Scale(T[p], 1.0 / T[p][c]);
    DotScale(T[p], 1.0 / T[p][c], z);
    DotMinus(T[i], r, T[i][c], z);
  }

  lemma PivotKeepsKernel(T: Matrix, w: nat, p: nat, c: nat, z: Row)
    requires IsMatrix(T, |T|, w) && p < |T| && c < w && T[p][c] != 0.0 && |z| == w
    ensures Annihilates(Pivoted(T, w, p, c), z) <==> Annihilates(T, z)
  {
    hide Dot, Pivoted;
    var T', d := Pivoted(T, w, p, c), (1.0 / T[p][c]) * Dot(T[p], z);
    forall i | 0 <= i < |T|
      ensures |T'[i]| == w && Dot(T'[i], z) == if i == p then d else Dot(T[i], z) - T[i][c] * d
    {
      PivotedDot(T, w, p, c, z, i);
    }
    Cancel(T[p][c], Dot(T[p], z));
    if Annihilates(T', z) {
      assert Dot(T'[p], z) == 0.0;
    }
    if Annihilates(T, z) {
      assert Dot(T[p], z) == 0.0;
    }
  }
}
