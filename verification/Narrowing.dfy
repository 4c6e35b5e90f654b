/**
  transform_FPArray: when only small items are left to mine, the item array is rewritten in
  place with narrower cells, from the front, over the memory it is read from.
  Memory is bytes; a cell is little-endian.
 */
module Narrowing {
  import opened Numbers
  import opened FiniteSets
  import opened Itemsets
  import opened FPTree
  import opened FPArray
  import opened PatternBase

  function Value(s: seq<Byte>): (v: nat) {
    if s == [] then 0 else s[0] + 256 * Value(s[1..])
  }

  // Cell i of an array of cells of w bytes.
  function CellBytes(mem: seq<Byte>, w: nat, i: nat): seq<Byte>
    requires w * i + w <= |mem|
  {
    mem[w * i..w * i + w]
  }

  lemma {:induction false} ValueBound(s: seq<Byte>)
    ensures Value(s) < Pow256(|s|)
  {
    if s != [] { ValueBound(s[1..]); }
  }

  lemma {:induction false} ValueSplit(s: seq<Byte>, v: nat)
    requires v <= |s|
    ensures exists q: nat :: Value(s) == Value(s[..v]) + Pow256(v) * q
  {
    if v == 0 {
      assert Value(s) == Value(s[..0]) + Pow256(0) * Value(s);
    } else {
      ValueSplit(s[1..], v - 1);
      var q: nat :| Value(s[1..]) == Value(s[1..][..v - 1]) + Pow256(v - 1) * q;
      assert s[..v][1..] == s[1..][..v - 1];
      assert 256 * (Pow256(v - 1) * q) == Pow256(v) * q;
      assert Value(s) == Value(s[..v]) + Pow256(v) * q;
    }
  }

  // Masking with all ones below 256^v keeps the low v bytes.
  lemma LowBytes(s: seq<Byte>, v: nat)
    requires v <= |s|
    ensures Value(s[..v]) == Value(s) % Pow256(v)
  {
    ValueSplit(s, v);
    ValueBound(s[..v]);
    var q: nat :| Value(s) == Value(s[..v]) + Pow256(v) * q;
    DivModUnique(Value(s), Pow256(v), q, Value(s[..v]));
  }

  lemma Offsets(v: nat, w: nat, i: nat, size: nat)
    requires v <= w && i < size
    ensures v * i <= w * i && v * (i + 1) == v * i + v && w * (i + 1) == w * i + w && w * i + w <= w * size && v * (i + 1) <= w * (i + 1)
  {
    MulMonotone(i, v, w);
    MulMonotone(i + 1, v, w);
    MulMonotone(w, i + 1, size);
  }

  method WriteCell(mem: array<Byte>, at: nat, bytes: seq<Byte>)
    requires at + |bytes| <= mem.Length
    modifies mem
    ensures mem[..] == old(mem[..])[..at] + bytes + old(mem[..])[at + |bytes|..]
  {
    var k := 0;
    while k < |bytes|
      invariant 0 <= k <= |bytes|
      invariant mem[..] == old(mem[..])[..at] + bytes[..k] + old(mem[..])[at + k..]
    {
      mem[at + k] := bytes[k];
      k := k + 1;
    }
  }

  // T1 has w bytes, T2 has v.
  method Narrow(mem: array<Byte>, w: nat, v: nat, size: nat)
    requires 0 < v <= w && w * size <= mem.Length
    modifies mem
    ensures forall i :: 0 <= i < size ==> Narrowed(old(mem[..]), mem[..], w, v, i)
  {
    hide Narrowed;
    MulMonotone(size, v, w);
    ghost var before := mem[..];
    var i := 0;
    while i < size
      invariant 0 <= i <= size && v * i <= w * size
      invariant mem[..][v * i..] == before[v * i..]
      invariant forall j :: 0 <= j < i ==> Narrowed(before, mem[..], w, v, j)
    {
      Offsets(v, w, i, size);
      ghost var was := mem[..];
      WriteCell(mem, v * i, mem[w * i..w * i + w][..v]);
      OneMoreNarrowed(before, was, mem[..], w, v, i, size);
      i := i + 1;
    }
  }

  lemma OneMoreNarrowed(before: seq<Byte>, was: seq<Byte>, now: seq<Byte>, w: nat, v: nat, i: nat, size: nat)
    requires 0 < v <= w && i < size && w * size <= |before| == |was| && v * i + v <= |was| && v * i <= w * i && w * i + w <= |was|
    requires was[v * i..] == before[v * i..]
    requires now == was[..v * i] + was[w * i..w * i + w][..v] + was[v * i + v..]
    requires forall j :: 0 <= j < i ==> Narrowed(before, was, w, v, j)
    ensures forall j :: 0 <= j <= i ==> Narrowed(before, now, w, v, j)
    ensures v * (i + 1) == v * i + v && now[v * (i + 1)..] == before[v * (i + 1)..]
  {
    Offsets(v, w, i, size);
    SameTail(before, was, v * i, w * i, w);
    forall j | 0 <= j <= i ensures Narrowed(before, now, w, v, j) {
      Offsets(v, w, j, size);
      if j < i {
        MulMonotone(v, j + 1, i);
        assert Narrowed(before, was, w, v, j);
        CellKept(was, now, v, i, j, CellBytes(before, w, i)[..v]);
      } else {
        assert CellBytes(now, v, i) == CellBytes(before, w, i)[..v];
      }
    }
    TailKept(before, was, now, v * i, CellBytes(before, w, i)[..v]);
  }

  lemma TailKept(before: seq<Byte>, was: seq<Byte>, now: seq<Byte>, at: nat, bytes: seq<Byte>)
    requires |before| == |was| && at + |bytes| <= |was| && was[at..] == before[at..]
    requires now == was[..at] + bytes + was[at + |bytes|..]
    ensures now[at + |bytes|..] == before[at + |bytes|..]
  {
    var n := |bytes|;
    assert was[at + n..] == was[at..][n..] && before[at + n..] == before[at..][n..];
    assert now[at + n..] == was[at + n..];
  }

  lemma SameTail(a: seq<Byte>, b: seq<Byte>, from: nat, at: nat, len: nat)
    requires |a| == |b| && from <= at && at + len <= |a| && a[from..] == b[from..]
    ensures a[at..at + len] == b[at..at + len]
  {
    assert a[at..at + len] == a[from..][at - from..at - from + len];
    assert b[at..at + len] == b[from..][at - from..at - from + len];
  }

  lemma CellKept(was: seq<Byte>, now: seq<Byte>, v: nat, i: nat, j: nat, bytes: seq<Byte>)
    requires j < i && v * j + v <= v * i && v * i + v <= |was| && |bytes| == v
    requires now == was[..v * i] + bytes + was[v * i + v..]
    ensures CellBytes(now, v, j) == CellBytes(was, v, j)
  {
  }

  // Cell i has kept its low bytes.
  ghost predicate Narrowed(before: seq<Byte>, after: seq<Byte>, w: nat, v: nat, i: nat) {
    w * i + w <= |before| && v * i + v <= |after| && v <= w && CellBytes(after, v, i) == CellBytes(before, w, i)[..v]
  }

  /* ---------- prefixes survive ---------- */

  // The array as the mining code sees it.
  function Cells(mem: seq<Byte>, w: nat, size: nat): (cells: seq<int>)
    requires w * size <= |mem|
    ensures |cells| == size
  {
    seq(size, i requires 0 <= i < size => (Offsets(w, w, i, size); Value(CellBytes(mem, w, i))))
  }

  // Of the wide cells only the remainder by m is left.
  ghost predicate Reduced(wide: seq<int>, narrow: seq<int>, m: nat)
    requires m > 0
  {
    |narrow| == |wide| && forall i :: 0 <= i < |wide| ==> narrow[i] == wide[i] % m
  }

  // The mark of the wide cells becomes the mark of the narrow ones, and a prefix of items
  // below that mark reads the same from the same place.
  lemma ReducedReadsUp(wide: seq<int>, narrow: seq<int>, m: nat, mark: int, begin: int, anc: seq<nat>)
    requires m > 0 && Reduced(wide, narrow, m) && mark % m == m - 1
    requires ReadsUp(wide, begin, anc, mark) && forall d :: 0 <= d < |anc| ==> anc[d] < m - 1
    ensures ReadsUp(narrow, begin, anc, m - 1)
  {
    forall d | 0 <= d < |anc| ensures narrow[begin + |anc| - 1 - d] == anc[d] && anc[d] != m - 1 {
      assert wide[begin + |anc| - 1 - d] == anc[d];
      SmallRemainder(anc[d], m);
    }
    assert narrow[begin + |anc|] == m - 1;
  }

  // So the array still serves all items up to the new mark: their prefixes have smaller items only.
  lemma ReducedIsFlattened(tree: FPTree, n: nat, wide: seq<int>, narrow: seq<int>, m: nat, mark: int,
                           list: seq<seq<Entry>>, ids: seq<seq<nat>>)
    requires tree.Valid() && n <= tree.itemno && n <= m && m > 0 && Reduced(wide, narrow, m) && mark % m == m - 1
    requires Flattened(tree.A(), tree.count, n, wide, mark, list, ids)
    ensures Flattened(tree.A(), tree.count, n, narrow, m - 1, list, ids)
  {
    hide Tree, FPTree.Valid, ReadsUp, Reduced, Increasing, Distinct, Ancestors;
    forall x, k | 0 <= x < n && 0 <= k < |ids[x]|
      ensures ReadsUp(narrow, list[x][k].begin, Ancestors(tree.A(), ids[x][k]), m - 1)
    {
      FlattenedFewer(tree.A(), tree.count, n, x + 1, wide, mark, list, ids);
      BaseIsReadable(tree, wide, mark, list, ids, x);
      ReducedReadsUp(wide, narrow, m, mark, list[x][k].begin, CondBase(tree.A(), tree.count, ids[x])[k].items);
    }
  }

  lemma PrefixesSurvive(before: seq<Byte>, after: seq<Byte>, w: nat, v: nat, size: nat, begin: int, anc: seq<nat>)
    requires 0 < v <= w && w * size <= |before| && v * size <= |after|
    requires forall i :: 0 <= i < size ==> Narrowed(before, after, w, v, i)
    requires ReadsUp(Cells(before, w, size), begin, anc, Pow256(w) - 1)
    requires forall d :: 0 <= d < |anc| ==> anc[d] < Pow256(v) - 1
    ensures ReadsUp(Cells(after, v, size), begin, anc, Pow256(v) - 1)
  {
    hide Pow256, Narrowed, Cells, ReadsUp;
    NarrowedIsReduced(before, after, w, v, size);
    MarkNarrows(w, v);
    ReducedReadsUp(Cells(before, w, size), Cells(after, v, size), Pow256(v), Pow256(w) - 1, begin, anc);
  }

  lemma NarrowedIsReduced(before: seq<Byte>, after: seq<Byte>, w: nat, v: nat, size: nat)
    requires 0 < v <= w && w * size <= |before| && v * size <= |after|
    requires forall i :: 0 <= i < size ==> Narrowed(before, after, w, v, i)
    ensures Reduced(Cells(before, w, size), Cells(after, v, size), Pow256(v))
  {
    hide Pow256, Narrowed, Cells;
    forall i | 0 <= i < size ensures Cells(after, v, size)[i] == Cells(before, w, size)[i] % Pow256(v) {
      CellNarrows(before, after, w, v, size, i);
    }
  }

  // The flattened array in place: after narrowing it is a flattened array for the items up to the new mark.
  method NarrowArray(tree: FPTree, n: nat, mem: array<Byte>, w: nat, v: nat, size: nat, list: seq<seq<Entry>>, ghost ids: seq<seq<nat>>)
    requires 0 < v <= w && w * size <= mem.Length && tree.Valid() && n <= tree.itemno && n <= Pow256(v)
    requires Flattened(tree.A(), tree.count, n, Cells(mem[..], w, size), Pow256(w) - 1, list, ids)
    modifies mem
    ensures v * size <= mem.Length
    ensures Flattened(tree.A(), tree.count, n, Cells(mem[..], v, size), Pow256(v) - 1, list, ids)
  {
    hide Pow256, Narrowed, Cells, Flattened, FPTree.Valid;
    ghost var before := mem[..];
    MulMonotone(size, v, w);
    Narrow(mem, w, v, size);
    NarrowedIsReduced(before, mem[..], w, v, size);
    MarkNarrows(w, v);
    ReducedIsFlattened(tree, n, Cells(before, w, size), Cells(mem[..], v, size), Pow256(v), Pow256(w) - 1, list, ids);
  }

  /* ---------- cells in memory ---------- */

  // A number cast to w bytes.
  function Digits(x: int, w: nat): (s: seq<Byte>)
    ensures |s| == w
    decreases w
  {
    if w == 0 then [] else [x % 256] + Digits(x / 256, w - 1)
  }

  lemma {:induction false} ValueOfDigits(x: int, w: nat)
    ensures Value(Digits(x, w)) == x % Pow256(w)
    decreases w
  {
    if w > 0 {
      var y, p := x / 256, Pow256(w - 1);
      ValueOfDigits(y, w - 1);
      assert Digits(x, w)[1..] == Digits(y, w - 1);
      assert 256 * (p * (y / p)) == (256 * p) * (y / p);
      DivModUnique(x, 256 * p, y / p, x % 256 + 256 * (y % p));
    }
  }

  // The array as it is written with cells of type T: what does not fit is cut off by the cast.
  method Store(cells: array<int>, w: nat) returns (mem: array<Byte>)
    requires w > 0
    ensures fresh(mem) && mem.Length == w * cells.Length
    ensures Reduced(cells[..], Cells(mem[..], w, cells.Length), Pow256(w))
  {
    hide Pow256, Digits, Cells;
    var size := cells.Length;
    mem := new Byte[w * size](_ => 0);
    for i := 0 to size
      invariant forall j :: 0 <= j < i ==> Stored(mem[..], w, j, cells[j])
    {
      Offsets(w, w, i, size);
      ghost var was := mem[..];
      WriteCell(mem, w * i, Digits(cells[i], w));
      forall j | 0 <= j <= i ensures Stored(mem[..], w, j, cells[j]) {
        Offsets(w, w, j, size);
        if j < i {
          MulMonotone(w, j + 1, i);
          assert Stored(was, w, j, cells[j]);
          CellKept(was, mem[..], w, i, j, Digits(cells[i], w));
        } else {
          assert mem[..][w * i..w * i + w] == Digits(cells[i], w);
        }
      }
    }
    forall i | 0 <= i < size ensures Cells(mem[..], w, size)[i] == cells[..][i] % Pow256(w) {
      StoredValue(mem[..], w, size, i, cells[i]);
    }
  }

  ghost predicate Stored(mem: seq<Byte>, w: nat, i: nat, x: int) {
    w * i + w <= |mem| && CellBytes(mem, w, i) == Digits(x, w)
  }

  lemma StoredValue(mem: seq<Byte>, w: nat, size: nat, i: nat, x: int)
    requires w * size <= |mem| && i < size && Stored(mem, w, i, x)
    ensures Cells(mem, w, size)[i] == x % Pow256(w)
  {
    ValueOfDigits(x, w);
  }

  // The memory seen as cells of w bytes.
  method View(mem: array<Byte>, w: nat, size: nat) returns (cells: array<int>)
    requires w * size <= mem.Length
    ensures fresh(cells) && cells[..] == Cells(mem[..], w, size)
  {
    hide Cells;
    var view := Cells(mem[..], w, size);
    cells := new int[size](i requires 0 <= i < size => view[i]);
  }

  lemma CellNarrows(before: seq<Byte>, after: seq<Byte>, w: nat, v: nat, size: nat, i: nat)
    requires 0 < v <= w && i < size && w * size <= |before| && v * size <= |after| && Narrowed(before, after, w, v, i)
    ensures Cells(after, v, size)[i] == Cells(before, w, size)[i] % Pow256(v)
  {
    hide Pow256, Value;
    LowBytes(CellBytes(before, w, i), v);
  }

  lemma SmallRemainder(x: nat, m: nat)
    requires x < m
    ensures x % m == x
  {
    DivModUnique(x, m, 0, x);
  }

  lemma {:induction false} MarkNarrows(w: nat, v: nat)
    requires v <= w
    ensures (Pow256(w) - 1) % Pow256(v) == Pow256(v) - 1
    decreases w
  {
    if v == w {
      SmallRemainder(Pow256(v) - 1, Pow256(v));
    } else {
      MarkNarrows(w - 1, v);
      AllOnes(Pow256(w - 1), Pow256(v));
    }
  }

  lemma AllOnes(p: nat, m: nat)
    requires p > 0 && m > 0 && (p - 1) % m == m - 1
    ensures (256 * p - 1) % m == m - 1
  {
    var t := (p - 1) / m;
    assert p == m * (t + 1);
    assert 256 * (m * (t + 1)) == m * (256 * (t + 1));
    assert 256 * p - 1 == m * (256 * (t + 1) - 1) + (m - 1);
    DivModUnique(256 * p - 1, m, 256 * (t + 1) - 1, m - 1);
  }
}
