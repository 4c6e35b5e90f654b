/**
  The cells of fluidanimate: particles in linked chunks of 16, a pool of spare chunks, and
  RebuildGrid, which moves every particle to the chain of its place in the grid while it
  gives the old chunks back.  Chunks are numbered; pointers are numbers, NULL is -1.
 */
module FluidGrid {
  import opened Numbers

  const NULL := -1
  const PARTICLES_PER_CELL := 16

  // Where a pooled chunk is: on the free list, in a chain being built, in one being emptied, or in hand.
  datatype Home = Free(k: nat) | Dest(i: nat, k: nat) | Src(i: nat, k: nat) | Loose

  // How many chunks a chain with this many particles has; the first is always there.
  function Chunks(count: nat): (c: nat)
    ensures c >= 1
  {
    if count == 0 then 1 else (count + PARTICLES_PER_CELL - 1) / PARTICLES_PER_CELL
  }

  /* ---------- what the parts of the memory look like ---------- */

  // The free list, kept as a stack: its last entry is the one the pool hands out next.
  ghost predicate FreeOk(next: seq<int>, head: int, free: seq<nat>, home: seq<Home>, lo: nat) {
    && head == (if free == [] then NULL else free[|free| - 1])
    && forall k :: 0 <= k < |free| ==> FreeEntryOk(next, free, home, lo, k)
  }

  ghost predicate FreeEntryOk(next: seq<int>, free: seq<nat>, home: seq<Home>, lo: nat, k: nat)
    requires k < |free|
  {
    lo <= free[k] < |next| == |home| && home[free[k]] == Free(k) && next[free[k]] == if k == 0 then NULL else free[k - 1]
  }

  // Entry k of a chain and its link.
  ghost predicate LinkOk(next: seq<int>, chain: seq<nat>, k: nat)
    requires k < |chain|
  {
    chain[k] < |next| && next[chain[k]] == if k == |chain| - 1 then NULL else chain[k + 1]
  }

  ghost predicate DestChainOk(next: seq<int>, chain: seq<nat>, home: seq<Home>, i: nat, base: nat, lo: nat) {
    && chain != [] && chain[0] == base + i
    && (forall k :: 0 <= k < |chain| ==> LinkOk(next, chain, k))
    && (forall k :: 1 <= k < |chain| ==> lo <= chain[k] < |home| && home[chain[k]] == Dest(i, k))
  }

  // From position from on; what was before has been given back.
  ghost predicate SrcChainOk(next: seq<int>, chain: seq<nat>, home: seq<Home>, i: nat, from: nat, base: nat, lo: nat) {
    && chain != [] && chain[0] == base + i
    && (forall k :: from <= k < |chain| ==> LinkOk(next, chain, k))
    && (forall k :: 1 <= k && from <= k < |chain| ==> lo <= chain[k] < |home| && home[chain[k]] == Src(i, k))
  }

  // Every pooled chunk is where its home says.
  ghost predicate HomeOk(home: seq<Home>, free: seq<nat>, dest: seq<seq<nat>>, src: seq<seq<nat>>, from: seq<nat>, c: nat)
    requires c < |home|
  {
    match home[c]
    case Free(k) => k < |free| && free[k] == c
    case Dest(i, k) => i < |dest| && 1 <= k < |dest[i]| && dest[i][k] == c
    case Src(i, k) => i < |src| == |from| && 1 <= k && from[i] <= k < |src[i]| && src[i][k] == c
    case Loose => true
  }

  // A chain holds these particles, 16 to a chunk.
  ghost predicate Holds<P>(par: seq<seq<P>>, chain: seq<nat>, list: seq<P>, from: nat) {
    && |chain| == Chunks(|list|)
    && forall j :: PARTICLES_PER_CELL * from <= j < |list| ==> ParticleAt(par, chain, list, j)
  }

  ghost predicate ParticleAt<P>(par: seq<seq<P>>, chain: seq<nat>, list: seq<P>, j: nat)
    requires j < |list|
  {
    && j / PARTICLES_PER_CELL < |chain| && chain[j / PARTICLES_PER_CELL] < |par|
    && j % PARTICLES_PER_CELL < |par[chain[j / PARTICLES_PER_CELL]]|
    && par[chain[j / PARTICLES_PER_CELL]][j % PARTICLES_PER_CELL] == list[j]
  }

  // The whole memory: a value, so that each step can be followed on its own.
  // from[i] counts the chunks of source chain i that are done with.
  datatype Memory = Memory(
    next: seq<int>, head: int, free: seq<nat>, home: seq<Home>,
    dest: seq<seq<nat>>, src: seq<seq<nat>>, from: seq<nat>, destBase: nat, srcBase: nat, lo: nat)

  ghost predicate Shape(m: Memory) {
    && |m.next| == |m.home| >= m.lo && |m.dest| == |m.src| == |m.from|
    && m.lo == 2 * |m.dest|
    && ((m.destBase == 0 && m.srcBase == |m.dest|) || (m.destBase == |m.dest| && m.srcBase == 0))
  }

  ghost predicate MemoryOk(m: Memory) {
    && Shape(m)
    && FreeOk(m.next, m.head, m.free, m.home, m.lo)
    && (forall i :: 0 <= i < |m.dest| ==> DestChainOk(m.next, m.dest[i], m.home, i, m.destBase, m.lo))
    && (forall i :: 0 <= i < |m.src| ==> SrcChainOk(m.next, m.src[i], m.home, i, m.from[i], m.srcBase, m.lo))
    && (forall c :: m.lo <= c < |m.home| ==> HomeOk(m.home, m.free, m.dest, m.src, m.from, c))
  }

  /* ---------- the pool ---------- */

  // The first free chunk is taken out.
  function Taken(m: Memory): Memory
    requires m.free != [] && m.free[|m.free| - 1] < |m.next| == |m.home|
  {
    var c := m.free[|m.free| - 1];
    m.(head := m.next[c], next := m.next[c := NULL], free := m.free[..|m.free| - 1], home := m.home[c := Loose])
  }

  // A chunk that is not in the chain may change its link and its home.
  lemma DestKept(next: seq<int>, chain: seq<nat>, home: seq<Home>, i: nat, base: nat, lo: nat, c: nat, x: int, h: Home)
    requires DestChainOk(next, chain, home, i, base, lo) && |next| == |home|
    requires lo <= c < |next| && base + i < lo && forall k :: home[c] != Dest(i, k)
    ensures DestChainOk(next[c := x], chain, home[c := h], i, base, lo)
  {
    var next' := next[c := x];
    forall k | 0 <= k < |chain| ensures LinkOk(next', chain, k) {
      assert LinkOk(next, chain, k);
    }
  }

  lemma SrcKept(next: seq<int>, chain: seq<nat>, home: seq<Home>, i: nat, from: nat, base: nat, lo: nat, c: nat, x: int, h: Home)
    requires SrcChainOk(next, chain, home, i, from, base, lo) && |next| == |home|
    requires lo <= c < |next| && base + i < lo && forall k :: home[c] != Src(i, k)
    ensures SrcChainOk(next[c := x], chain, home[c := h], i, from, base, lo)
  {
    var next' := next[c := x];
    forall k | from <= k < |chain| ensures LinkOk(next', chain, k) {
      assert LinkOk(next, chain, k);
    }
  }

  lemma TakenOk(m: Memory)
    requires MemoryOk(m) && m.free != []
    ensures m.free[|m.free| - 1] < |m.next| && m.head == m.free[|m.free| - 1] >= m.lo
    ensures MemoryOk(Taken(m)) && Taken(m).home[m.head] == Loose && Taken(m).next[m.head] == NULL
  {
    assert FreeEntryOk(m.next, m.free, m.home, m.lo, |m.free| - 1);
    var m', c := Taken(m), m.free[|m.free| - 1];
    forall i | 0 <= i < |m.dest| ensures DestChainOk(m'.next, m'.dest[i], m'.home, i, m'.destBase, m'.lo) {
      DestKept(m.next, m.dest[i], m.home, i, m.destBase, m.lo, c, NULL, Loose);
    }
    forall i | 0 <= i < |m.src| ensures SrcChainOk(m'.next, m'.src[i], m'.home, i, m'.from[i], m'.srcBase, m'.lo) {
      SrcKept(m.next, m.src[i], m.home, i, m.from[i], m.srcBase, m.lo, c, NULL, Loose);
    }
    forall d | m.lo <= d < |m.home| ensures HomeOk(m'.home, m'.free, m'.dest, m'.src, m'.from, d) {
      assert HomeOk(m.home, m.free, m.dest, m.src, m.from, d);
    }
    forall k | 0 <= k < |m'.free| ensures FreeEntryOk(m'.next, m'.free, m'.home, m'.lo, k) {
      assert FreeEntryOk(m.next, m.free, m.home, m.lo, k);
    }
    FreeTop(m);
  }

  // The link of the first free chunk leads to the second.
  lemma FreeTop(m: Memory)
    requires MemoryOk(m) && m.free != []
    ensures var n := |m.free| - 1; m.free[n] < |m.next| && m.next[m.free[n]] == if n == 0 then NULL else m.free[n - 1]
  {
    assert FreeEntryOk(m.next, m.free, m.home, m.lo, |m.free| - 1);
  }

  // A chunk in hand goes to the front of the free list.
  function Returned(m: Memory, c: nat): Memory
    requires c < |m.next| == |m.home|
  {
    m.(head := c, next := m.next[c := m.head], free := m.free + [c], home := m.home[c := Free(|m.free|)])
  }

  lemma ReturnedOk(m: Memory, c: nat)
    requires MemoryOk(m) && m.lo <= c < |m.home| && m.home[c] == Loose
    ensures MemoryOk(Returned(m, c))
  {
    var m' := Returned(m, c);
    forall i | 0 <= i < |m.dest| ensures DestChainOk(m'.next, m'.dest[i], m'.home, i, m'.destBase, m'.lo) {
      DestKept(m.next, m.dest[i], m.home, i, m.destBase, m.lo, c, m.head, Free(|m.free|));
    }
    forall i | 0 <= i < |m.src| ensures SrcChainOk(m'.next, m'.src[i], m'.home, i, m'.from[i], m'.srcBase, m'.lo) {
      SrcKept(m.next, m.src[i], m.home, i, m.from[i], m.srcBase, m.lo, c, m.head, Free(|m.free|));
    }
    forall d | m.lo <= d < |m.home| ensures HomeOk(m'.home, m'.free, m'.dest, m'.src, m'.from, d) {
      assert HomeOk(m.home, m.free, m.dest, m.src, m.from, d);
    }
    forall k | 0 <= k < |m'.free| ensures FreeEntryOk(m'.next, m'.free, m'.home, m'.lo, k) {
      assert k < |m.free| ==> FreeEntryOk(m.next, m.free, m.home, m.lo, k);
    }
  }

  // A new block of count chunks, linked in the order of memory, becomes the free list.
  function Block(first: nat, count: nat): (b: seq<int>)
    ensures |b| == count
  {
    seq(count, k requires 0 <= k < count => if k == count - 1 then NULL else first + k + 1)
  }

  function Grown(m: Memory, count: nat): Memory {
    var n := |m.next|;
    m.(head := if count == 0 then NULL else n, next := m.next + Block(n, count),
       free := seq(count, k requires 0 <= k < count => n + count - 1 - k),
       home := m.home + seq(count, k requires 0 <= k < count => Free(count - 1 - k)))
  }

  lemma GrownOk(m: Memory, count: nat)
    requires MemoryOk(m) && m.free == [] && count > 0
    ensures MemoryOk(Grown(m, count)) && Grown(m, count).free != []
  {
    var m', n := Grown(m, count), |m.next|;
    forall i | 0 <= i < |m.dest| ensures DestChainOk(m'.next, m'.dest[i], m'.home, i, m'.destBase, m'.lo) {
      assert DestChainOk(m.next, m.dest[i], m.home, i, m.destBase, m.lo);
      forall k | 0 <= k < |m.dest[i]| ensures LinkOk(m'.next, m.dest[i], k) {
        assert LinkOk(m.next, m.dest[i], k);
      }
    }
    forall i | 0 <= i < |m.src| ensures SrcChainOk(m'.next, m'.src[i], m'.home, i, m'.from[i], m'.srcBase, m'.lo) {
      assert SrcChainOk(m.next, m.src[i], m.home, i, m.from[i], m.srcBase, m.lo);
      forall k | m.from[i] <= k < |m.src[i]| ensures LinkOk(m'.next, m.src[i], k) {
        assert LinkOk(m.next, m.src[i], k);
      }
    }
    forall d | m.lo <= d < |m'.home| ensures HomeOk(m'.home, m'.free, m'.dest, m'.src, m'.from, d) {
      if d < n { assert HomeOk(m.home, m.free, m.dest, m.src, m.from, d); }
    }
    forall k | 0 <= k < count ensures FreeEntryOk(m'.next, m'.free, m'.home, m'.lo, k) {
      assert m'.next[m'.free[k]] == Block(n, count)[count - 1 - k];
    }
  }

  /* ---------- chains ---------- */

  // A chunk in hand becomes the last of chain i: cell->next = c.
  function Extended(m: Memory, i: nat, c: nat): Memory
    requires i < |m.dest| && m.dest[i] != [] && m.dest[i][|m.dest[i]| - 1] < |m.next| == |m.home| && c < |m.home|
  {
    var last := m.dest[i][|m.dest[i]| - 1];
    m.(next := m.next[last := c], dest := m.dest[i := m.dest[i] + [c]], home := m.home[c := Dest(i, |m.dest[i]|)])
  }

  // No chunk is twice in chains that are being built.
  lemma DestUnique(m: Memory, i: nat, a: nat, j: nat, b: nat)
    requires MemoryOk(m) && i < |m.dest| && j < |m.dest| && a < |m.dest[i]| && b < |m.dest[j]|
    ensures m.dest[i][a] == m.dest[j][b] <==> i == j && a == b
    ensures m.dest[i][a] < |m.next|
  {
    assert DestChainOk(m.next, m.dest[i], m.home, i, m.destBase, m.lo);
    assert DestChainOk(m.next, m.dest[j], m.home, j, m.destBase, m.lo);
    assert LinkOk(m.next, m.dest[i], a);
  }

  lemma DestNotSrc(m: Memory, i: nat, a: nat, j: nat, b: nat)
    requires MemoryOk(m) && i < |m.dest| && j < |m.src| && a < |m.dest[i]| && m.from[j] <= b < |m.src[j]|
    ensures m.dest[i][a] != m.src[j][b] && m.src[j][b] < |m.next|
  {
    assert DestChainOk(m.next, m.dest[i], m.home, i, m.destBase, m.lo);
    assert SrcChainOk(m.next, m.src[j], m.home, j, m.from[j], m.srcBase, m.lo);
    assert LinkOk(m.next, m.src[j], b);
  }

  lemma ExtendedOk(m: Memory, i0: nat, c: nat)
    requires MemoryOk(m) && i0 < |m.dest| && m.lo <= c < |m.home| && m.home[c] == Loose && m.next[c] == NULL
    ensures m.dest[i0] != [] && m.dest[i0][|m.dest[i0]| - 1] < |m.next|
    ensures MemoryOk(Extended(m, i0, c))
  {
    assert DestChainOk(m.next, m.dest[i0], m.home, i0, m.destBase, m.lo);
    var n := |m.dest[i0]|;
    assert LinkOk(m.next, m.dest[i0], n - 1);
    var last := m.dest[i0][n - 1];
    var m' := Extended(m, i0, c);
    forall i | 0 <= i < |m.dest| ensures DestChainOk(m'.next, m'.dest[i], m'.home, i, m'.destBase, m'.lo) {
      assert DestChainOk(m.next, m.dest[i], m.home, i, m.destBase, m.lo);
      forall k | 0 <= k < |m'.dest[i]| ensures LinkOk(m'.next, m'.dest[i], k) {
        if k < |m.dest[i]| {
          assert LinkOk(m.next, m.dest[i], k);
          DestUnique(m, i, k, i0, n - 1);
        }
      }
    }
    forall i | 0 <= i < |m.src| ensures SrcChainOk(m'.next, m'.src[i], m'.home, i, m'.from[i], m'.srcBase, m'.lo) {
      assert SrcChainOk(m.next, m.src[i], m.home, i, m.from[i], m.srcBase, m.lo);
      forall k | m.from[i] <= k < |m.src[i]| ensures LinkOk(m'.next, m.src[i], k) {
        assert LinkOk(m.next, m.src[i], k);
        DestNotSrc(m, i0, n - 1, i, k);
      }
    }
    forall d | m.lo <= d < |m.home| ensures HomeOk(m'.home, m'.free, m'.dest, m'.src, m'.from, d) {
      assert HomeOk(m.home, m.free, m.dest, m.src, m.from, d);
    }
    forall k | 0 <= k < |m'.free| ensures FreeEntryOk(m'.next, m'.free, m'.home, m'.lo, k) {
      assert FreeEntryOk(m.next, m.free, m.home, m.lo, k);
      LastNotFree(m, i0, k);
    }
  }

  lemma LastNotFree(m: Memory, i: nat, k: nat)
    requires MemoryOk(m) && i < |m.dest| && k < |m.free| && m.dest[i] != []
    ensures m.dest[i][|m.dest[i]| - 1] != m.free[k]
  {
    assert DestChainOk(m.next, m.dest[i], m.home, i, m.destBase, m.lo);
    assert FreeEntryOk(m.next, m.free, m.home, m.lo, k);
  }

  // The walk leaves a chunk of source chain i behind; a pooled one is then in hand.
  function Passed(m: Memory, i: nat): Memory
    requires i < |m.src| == |m.from| && m.from[i] < |m.src[i]| && m.src[i][m.from[i]] < |m.home|
  {
    var c := m.src[i][m.from[i]];
    m.(from := m.from[i := m.from[i] + 1], home := if m.from[i] == 0 then m.home else m.home[c := Loose])
  }

  lemma PassedOk(m: Memory, i0: nat)
    requires MemoryOk(m) && i0 < |m.src| && m.from[i0] < |m.src[i0]|
    ensures m.src[i0][m.from[i0]] < |m.home| && MemoryOk(Passed(m, i0))
    ensures m.from[i0] > 0 ==> m.lo <= m.src[i0][m.from[i0]] && Passed(m, i0).home[m.src[i0][m.from[i0]]] == Loose
    ensures m.from[i0] == 0 ==> m.src[i0][0] == m.srcBase + i0
    ensures m.next[m.src[i0][m.from[i0]]] == if m.from[i0] == |m.src[i0]| - 1 then NULL else m.src[i0][m.from[i0] + 1]
  {
    assert SrcChainOk(m.next, m.src[i0], m.home, i0, m.from[i0], m.srcBase, m.lo);
    assert LinkOk(m.next, m.src[i0], m.from[i0]);
    var m', c := Passed(m, i0), m.src[i0][m.from[i0]];
    forall i | 0 <= i < |m.dest| ensures DestChainOk(m'.next, m'.dest[i], m'.home, i, m'.destBase, m'.lo) {
      assert DestChainOk(m.next, m.dest[i], m.home, i, m.destBase, m.lo);
    }
    forall i | 0 <= i < |m.src| ensures SrcChainOk(m'.next, m'.src[i], m'.home, i, m'.from[i], m'.srcBase, m'.lo) {
      assert SrcChainOk(m.next, m.src[i], m.home, i, m.from[i], m.srcBase, m.lo);
    }
    forall d | m.lo <= d < |m.home| ensures HomeOk(m'.home, m'.free, m'.dest, m'.src, m'.from, d) {
      assert HomeOk(m.home, m.free, m.dest, m.src, m.from, d);
    }
    forall k | 0 <= k < |m'.free| ensures FreeEntryOk(m'.next, m'.free, m'.home, m'.lo, k) {
      assert FreeEntryOk(m.next, m.free, m.home, m.lo, k);
    }
  }

  /* ---------- a new frame ---------- */

  // All source chains have been emptied and nothing is in hand.
  ghost predicate Settled(m: Memory) {
    && |m.src| == |m.from|
    && (forall i :: 0 <= i < |m.from| ==> m.from[i] >= |m.src[i]|)
    && NoneLoose(m)
  }

  ghost predicate NoneLoose(m: Memory) {
    forall c :: m.lo <= c < |m.home| ==> m.home[c] != Loose
  }

  function Heads(base: nat, n: nat): (r: seq<seq<nat>>)
    ensures |r| == n
  {
    seq(n, i => if i >= 0 then [base + i] else [])
  }

  function ClearedHeads(next: seq<int>, base: nat, n: nat): (r: seq<int>)
    ensures |r| == |next|
  {
    seq(|next|, c requires 0 <= c < |next| => if base <= c < base + n then NULL else next[c])
  }

  // The chains change sides: what was built is the source now, and the other heads start new chains.
  function Turned(m: Memory): Memory
    requires |m.home| == |m.next|
  {
    var n := |m.dest|;
    m.(next := ClearedHeads(m.next, m.srcBase, n), dest := Heads(m.srcBase, n), src := m.dest, from := seq(n, _ => 0),
       destBase := m.srcBase, srcBase := m.destBase,
       home := seq(|m.home|, c requires 0 <= c < |m.home| => match m.home[c] case Dest(i, k) => Src(i, k) case h => h))
  }

  lemma TurnedOk(m: Memory)
    requires MemoryOk(m) && Settled(m)
    ensures MemoryOk(Turned(m))
  {
    var m', n := Turned(m), |m.dest|;
    forall i | 0 <= i < n ensures DestChainOk(m'.next, m'.dest[i], m'.home, i, m'.destBase, m'.lo) {
      assert LinkOk(m'.next, m'.dest[i], 0);
    }
    forall i | 0 <= i < n ensures SrcChainOk(m'.next, m'.src[i], m'.home, i, m'.from[i], m'.srcBase, m'.lo) {
      assert DestChainOk(m.next, m.dest[i], m.home, i, m.destBase, m.lo);
      forall k | 0 <= k < |m.dest[i]| ensures LinkOk(m'.next, m.dest[i], k) {
        assert LinkOk(m.next, m.dest[i], k);
      }
    }
    forall d | m.lo <= d < |m.home| ensures HomeOk(m'.home, m'.free, m'.dest, m'.src, m'.from, d) {
      assert HomeOk(m.home, m.free, m.dest, m.src, m.from, d);
    }
    forall k | 0 <= k < |m'.free| ensures FreeEntryOk(m'.next, m'.free, m'.home, m'.lo, k) {
      assert FreeEntryOk(m.next, m.free, m.home, m.lo, k);
    }
  }

  /* ---------- particles ---------- */

  ghost predicate Content<P>(par: seq<seq<P>>, m: Memory, lists: seq<seq<P>>, lists2: seq<seq<P>>) {
    && |lists| == |lists2| == |m.dest| == |m.src| == |m.from| && |par| == |m.next|
    && (forall c :: 0 <= c < |par| ==> |par[c]| == PARTICLES_PER_CELL)
    && (forall i :: 0 <= i < |m.dest| ==> Holds(par, m.dest[i], lists[i], 0))
    && (forall i :: 0 <= i < |m.src| ==> Holds(par, m.src[i], lists2[i], m.from[i]))
  }

  // Chain i has a chunk for the next particle; m is the memory with which it has been extended if need be.
  ghost predicate Room<P>(par: seq<seq<P>>, m: Memory, lists: seq<seq<P>>, lists2: seq<seq<P>>, i0: nat) {
    && |lists| == |lists2| == |m.dest| == |m.src| == |m.from| && |par| == |m.next| && i0 < |lists|
    && (forall c :: 0 <= c < |par| ==> |par[c]| == PARTICLES_PER_CELL)
    && (forall i :: 0 <= i < |m.dest| && i != i0 ==> Holds(par, m.dest[i], lists[i], 0))
    && (forall i :: 0 <= i < |m.src| ==> Holds(par, m.src[i], lists2[i], m.from[i]))
    && |m.dest[i0]| == Chunks(|lists[i0]| + 1) && forall j :: 0 <= j < |lists[i0]| ==> ParticleAt(par, m.dest[i0], lists[i0], j)
  }

  lemma PutOk<P>(par: seq<seq<P>>, m: Memory, lists: seq<seq<P>>, lists2: seq<seq<P>>, i0: nat, q: P)
    requires MemoryOk(m) && Room(par, m, lists, lists2, i0)
    ensures var np, chain := |lists[i0]|, m.dest[i0];
      && np / PARTICLES_PER_CELL == |chain| - 1 && chain[np / PARTICLES_PER_CELL] < |par| && |par[chain[np / PARTICLES_PER_CELL]]| == PARTICLES_PER_CELL
      && Content(par[chain[np / PARTICLES_PER_CELL] := par[chain[np / PARTICLES_PER_CELL]][np % PARTICLES_PER_CELL := q]], m, lists[i0 := lists[i0] + [q]], lists2)
  {
    var np, chain := |lists[i0]|, m.dest[i0];
    DestUnique(m, i0, np / PARTICLES_PER_CELL, i0, np / PARTICLES_PER_CELL);
    var c := chain[np / PARTICLES_PER_CELL];
    var par' := par[c := par[c][np % PARTICLES_PER_CELL := q]];
    var lists' := lists[i0 := lists[i0] + [q]];
    forall i | 0 <= i < |m.dest| ensures Holds(par', m.dest[i], lists'[i], 0) {
      forall j | 0 <= j < |lists'[i]| ensures ParticleAt(par', m.dest[i], lists'[i], j) {
        PutElsewhere(par, m, lists, lists2, i0, q, i, j);
      }
    }
    forall i | 0 <= i < |m.src| ensures Holds(par', m.src[i], lists2[i], m.from[i]) {
      forall j | PARTICLES_PER_CELL * m.from[i] <= j < |lists2[i]| ensures ParticleAt(par', m.src[i], lists2[i], j) {
        assert Holds(par, m.src[i], lists2[i], m.from[i]);
        assert ParticleAt(par, m.src[i], lists2[i], j);
        DestNotSrc(m, i0, np / PARTICLES_PER_CELL, i, j / PARTICLES_PER_CELL);
      }
    }
  }

  lemma PutElsewhere<P>(par: seq<seq<P>>, m: Memory, lists: seq<seq<P>>, lists2: seq<seq<P>>, i0: nat, q: P, i: nat, j: nat)
    requires MemoryOk(m) && Room(par, m, lists, lists2, i0) && i < |m.dest|
    requires j < |lists[i0 := lists[i0] + [q]][i]| && |lists[i0]| / PARTICLES_PER_CELL < |m.dest[i0]| && m.dest[i0][|lists[i0]| / PARTICLES_PER_CELL] < |par|
    ensures var c := m.dest[i0][|lists[i0]| / PARTICLES_PER_CELL];
      ParticleAt(par[c := par[c][|lists[i0]| % PARTICLES_PER_CELL := q]], m.dest[i], lists[i0 := lists[i0] + [q]][i], j)
  {
    var np := |lists[i0]|;
    if i == i0 && j == np {
    } else {
      if i != i0 { assert Holds(par, m.dest[i], lists[i], 0); }
      assert ParticleAt(par, m.dest[i], lists[i], j);
      DestUnique(m, i, j / PARTICLES_PER_CELL, i0, np / PARTICLES_PER_CELL);
      if i == i0 && j / PARTICLES_PER_CELL == np / PARTICLES_PER_CELL { assert j % PARTICLES_PER_CELL != np % PARTICLES_PER_CELL; }
    }
  }

  /* ---------- where a particle belongs ---------- */

  datatype Vec3 = Vec3(x: real, y: real, z: real)

  datatype Particle = Particle(p: Vec3, hv: Vec3, v: Vec3)

  datatype Domain = Domain(nx: nat, ny: nat, nz: nat, min: Vec3, delta: Vec3)

  predicate DomainOk(d: Domain) {
    d.nx > 0 && d.ny > 0 && d.nz > 0 && d.delta.x != 0.0 && d.delta.y != 0.0 && d.delta.z != 0.0
  }

  // The cast to int.
  function Trunc(r: real): int {
    if r >= 0.0 then r.Floor else -((-r).Floor)
  }

  function Clamp(c: int, n: nat): (r: nat)
    requires n > 0
    ensures r < n
  {
    if c < 0 then 0 else if c >= n then n - 1 else c
  }

  lemma IndexInRange(ci: nat, cj: nat, ck: nat, nx: nat, ny: nat, nz: nat)
    requires ci < nx && cj < ny && ck < nz
    ensures 0 <= (ck * ny + cj) * nx + ci < nz * ny * nx
  {
    var row := ck * ny + cj;
    assert row <= (nz - 1) * ny + (ny - 1) by { MulMonotone(ny, ck, nz - 1); }
    assert (nz - 1) * ny + ny == nz * ny;
    MulMonotone(nx, row, nz * ny - 1);
    assert (nz * ny - 1) * nx + nx == nz * ny * nx;
  }

  function NumCells(d: Domain): nat {
    d.nz * d.ny * d.nx
  }

  function IndexOf(d: Domain, q: Particle): (i: nat)
    requires DomainOk(d)
    ensures i < NumCells(d)
  {
    var ci := Clamp(Trunc((q.p.x - d.min.x) / d.delta.x), d.nx);
    var cj := Clamp(Trunc((q.p.y - d.min.y) / d.delta.y), d.ny);
    var ck := Clamp(Trunc((q.p.z - d.min.z) / d.delta.z), d.nz);
    IndexInRange(ci, cj, ck, d.nx, d.ny, d.nz);
    (ck * d.ny + cj) * d.nx + ci
  }

  // x is in slab c of n along one axis; what lies outside belongs to the slab at the border.
  ghost predicate InSlab(c: nat, x: real, min: real, delta: real, n: nat) {
    if x < min then c == 0
    else if x < min + Times(n as real, delta) then min + Times(c as real, delta) <= x < min + Times((c + 1) as real, delta)
    else c == n - 1
  }

  function Times(r: real, delta: real): real {
    r * delta
  }

  lemma TimesQuotient(a: real, delta: real)
    requires delta > 0.0
    ensures Times(a / delta, delta) == a && (a < 0.0 <==> a / delta < 0.0)
  {
  }

  lemma TimesOrder(x: real, y: real, delta: real)
    requires delta > 0.0
    ensures x < y <==> Times(x, delta) < Times(y, delta)
  {
    if x < y {
      assert (y - x) * delta > 0.0;
    } else if y < x {
      assert (x - y) * delta > 0.0;
    }
  }

  lemma SlabOf(x: real, min: real, delta: real, n: nat)
    requires delta > 0.0 && n > 0
    ensures InSlab(Clamp(Trunc((x - min) / delta), n), x, min, delta, n)
  {
    var r := (x - min) / delta;
    TimesQuotient(x - min, delta);
    SlabOfQuotient(r, x, min, delta, n);
  }

  lemma SlabOfQuotient(r: real, x: real, min: real, delta: real, n: nat)
    requires delta > 0.0 && n > 0 && Times(r, delta) == x - min && (x < min <==> r < 0.0)
    ensures InSlab(Clamp(Trunc(r), n), x, min, delta, n)
  {
    hide Times;
    var c: int := r.Floor;
    TimesOrder(r, c as real, delta);
    TimesOrder(r, (c + 1) as real, delta);
    TimesOrder(r, n as real, delta);
    assert c as real <= r < (c + 1) as real;
    assert r < 0.0 ==> Trunc(r) <= 0;
  }

  // A particle in the domain lies in the box of its cell; one outside goes to the nearest cell at the border.
  lemma IndexIsBox(d: Domain, q: Particle) returns (ci: nat, cj: nat, ck: nat)
    requires DomainOk(d) && d.delta.x > 0.0 && d.delta.y > 0.0 && d.delta.z > 0.0
    ensures ci < d.nx && cj < d.ny && ck < d.nz && IndexOf(d, q) == (ck * d.ny + cj) * d.nx + ci
    ensures InSlab(ci, q.p.x, d.min.x, d.delta.x, d.nx)
    ensures InSlab(cj, q.p.y, d.min.y, d.delta.y, d.ny)
    ensures InSlab(ck, q.p.z, d.min.z, d.delta.z, d.nz)
  {
    hide InSlab, Clamp, Trunc;
    SlabOf(q.p.x, d.min.x, d.delta.x, d.nx);
    SlabOf(q.p.y, d.min.y, d.delta.y, d.ny);
    SlabOf(q.p.z, d.min.z, d.delta.z, d.nz);
    ci := Clamp(Trunc((q.p.x - d.min.x) / d.delta.x), d.nx);
    cj := Clamp(Trunc((q.p.y - d.min.y) / d.delta.y), d.ny);
    ck := Clamp(Trunc((q.p.z - d.min.z) / d.delta.z), d.nz);
  }

  // An index belongs to one box only.
  lemma OneBox(ci: nat, cj: nat, ck: nat, ci': nat, cj': nat, ck': nat, nx: nat, ny: nat)
    requires ci < nx && cj < ny && ci' < nx && cj' < ny
    requires (ck * ny + cj) * nx + ci == (ck' * ny + cj') * nx + ci'
    ensures ci == ci' && cj == cj' && ck == ck'
  {
    var row, row' := ck * ny + cj, ck' * ny + cj';
    DivModUnique(row * nx + ci, nx, row, ci);
    DivModUnique(row * nx + ci, nx, row', ci');
    DivModUnique(row, ny, ck, cj);
    DivModUnique(row, ny, ck', cj');
  }

  // The particles of ps that belong to cell i, in their order.
  function Belonging(d: Domain, ps: seq<Particle>, i: nat): seq<Particle>
    requires DomainOk(d)
  {
    if ps == [] then []
    else Belonging(d, ps[..|ps| - 1], i) + if IndexOf(d, ps[|ps| - 1]) == i then [ps[|ps| - 1]] else []
  }

  // All particles of a grid, cell by cell.
  function AllOf(lists: seq<seq<Particle>>): seq<Particle> {
    if lists == [] then [] else AllOf(lists[..|lists| - 1]) + lists[|lists| - 1]
  }

  /* ---------- the simulation's grid ---------- */

  // The loop of cellpool_allocblock.
  method AllocBlock(first: nat, count: nat) returns (links: seq<int>)
    requires count > 0
    ensures links == Block(first, count)
  {
    links := [];
    var i := 0;
    while i < count
      invariant 0 <= i <= count && |links| == i
      invariant forall k :: 0 <= k < i ==> links[k] == if k == count - 1 then NULL else first + k + 1
    {
      links := links + [if i != count - 1 then first + i + 1 else NULL];
      i := i + 1;
    }
  }

  // Chunks that exist keep their particles when more are allocated.
  lemma RoomInMore(par: seq<seq<Particle>>, more: seq<seq<Particle>>, m: Memory, m': Memory, lists: seq<seq<Particle>>, lists2: seq<seq<Particle>>)
    requires Content(par, m, lists, lists2) && m'.dest == m.dest && m'.src == m.src && m'.from == m.from
    requires |m'.next| == |par + more| && forall c :: 0 <= c < |more| ==> |more[c]| == PARTICLES_PER_CELL
    ensures Content(par + more, m', lists, lists2)
  {
    var par' := par + more;
    forall i | 0 <= i < |m.dest| ensures Holds(par', m.dest[i], lists[i], 0) {
      assert Holds(par, m.dest[i], lists[i], 0);
      forall j | 0 <= j < |lists[i]| ensures ParticleAt(par', m.dest[i], lists[i], j) {
        assert ParticleAt(par, m.dest[i], lists[i], j);
      }
    }
    forall i | 0 <= i < |m.src| ensures Holds(par', m.src[i], lists2[i], m.from[i]) {
      assert Holds(par, m.src[i], lists2[i], m.from[i]);
      forall j | PARTICLES_PER_CELL * m.from[i] <= j < |lists2[i]| ensures ParticleAt(par', m.src[i], lists2[i], j) {
        assert ParticleAt(par, m.src[i], lists2[i], j);
      }
    }
  }

  lemma RoomAsIs(par: seq<seq<Particle>>, m: Memory, lists: seq<seq<Particle>>, lists2: seq<seq<Particle>>, i0: nat)
    requires Content(par, m, lists, lists2) && i0 < |lists| && (|lists[i0]| % PARTICLES_PER_CELL != 0 || |lists[i0]| == 0)
    ensures Room(par, m, lists, lists2, i0)
  {
    assert Holds(par, m.dest[i0], lists[i0], 0);
  }

  lemma RoomExtended(par: seq<seq<Particle>>, m: Memory, lists: seq<seq<Particle>>, lists2: seq<seq<Particle>>, i0: nat, c: nat)
    requires Content(par, m, lists, lists2) && i0 < |lists| && |lists[i0]| % PARTICLES_PER_CELL == 0 && |lists[i0]| != 0
    requires m.dest[i0] != [] && m.dest[i0][|m.dest[i0]| - 1] < |m.next| == |m.home| && c < |m.home|
    ensures Room(par, Extended(m, i0, c), lists, lists2, i0)
  {
    var m' := Extended(m, i0, c);
    assert Holds(par, m.dest[i0], lists[i0], 0);
    forall j | 0 <= j < |lists[i0]| ensures ParticleAt(par, m'.dest[i0], lists[i0], j) {
      assert ParticleAt(par, m.dest[i0], lists[i0], j);
    }
  }

  class Grid {
    const d: Domain
    // Contents of a chunk that has not been written yet.
    const blank: Particle
    var cells: nat
    var cells2: nat
    var next: seq<int>
    var par: seq<seq<Particle>>
    var pool: int
    var alloc: nat
    var cnumPars: seq<nat>
    var cnumPars2: seq<nat>
    var lastCells: seq<nat>
    ghost var m: Memory
    ghost var lists: seq<seq<Particle>>
    ghost var lists2: seq<seq<Particle>>

    ghost predicate Linked()
      reads this
    {
      && DomainOk(d) && alloc > 0 && m.next == next && m.head == pool && m.destBase == cells && m.srcBase == cells2
      && Shape(m) && MemoryOk(m) && |m.dest| == NumCells(d) && |m.next| == |par|
    }

    ghost predicate Counted()
      reads this
    {
      && |cnumPars| == |cnumPars2| == |lastCells| == |lists| == |lists2| == |m.dest|
      && (forall i :: 0 <= i < |lists| ==> cnumPars[i] == |lists[i]| && cnumPars2[i] == |lists2[i]|)
    }

    ghost predicate LastOk()
      reads this
    {
      |lastCells| == |m.dest| && forall i :: 0 <= i < |m.dest| ==> m.dest[i] != [] && lastCells[i] == m.dest[i][|m.dest[i]| - 1]
    }

    ghost predicate Mid()
      reads this
    {
      Linked() && Counted() && LastOk() && Content(par, m, lists, lists2)
    }

    // Between frames: cell i holds lists[i], and every pooled chunk is free or in one chain.
    ghost predicate Valid()
      reads this
    {
      Linked() && Counted() && Content(par, m, lists, lists2) && Settled(m)
    }

    // cellpool_init and the empty cells of InitSim.
    constructor (d: Domain, numParticles: nat, blank: Particle)
      requires DomainOk(d)
      ensures Valid() && this.d == d && lists == seq(NumCells(d), _ => [])
    {
      hide MemoryOk, Content, NumCells, Settled;
      var n := NumCells(d);
      var count := if 4 * (numParticles / PARTICLES_PER_CELL) < 1024 then 1024 else 4 * (numParticles / PARTICLES_PER_CELL);
      var links := AllocBlock(2 * n, count);
      var none: seq<nat>, empty: seq<seq<Particle>> := seq(n, _ => 0), seq(n, _ => []);
      StartOk(n);
      GrownOk(Start(n), count);
      this.d, this.blank, cells, cells2, alloc, pool := d, blank, 0, n, count, 2 * n;
      next := seq(2 * n, _ => NULL) + links;
      par := seq(2 * n + count, _ => seq(PARTICLES_PER_CELL, _ => blank));
      cnumPars, cnumPars2, lastCells, lists, lists2 := none, none, none, empty, empty;
      m := Grown(Start(n), count);
      StartContent(seq(2 * n + count, _ => seq(PARTICLES_PER_CELL, _ => blank)), Grown(Start(n), count), n);
    }

    // To the last chunk of a cell; np is how many particles there are in it.
    method Walk(index: nat) returns (cell: nat, np: nat)
      requires Valid() && index < |lists|
      ensures m.dest[index] != [] && cell == m.dest[index][|m.dest[index]| - 1]
      ensures np == if cnumPars[index] == 0 then 0 else (cnumPars[index] - 1) % PARTICLES_PER_CELL + 1
    {
      hide MemoryOk, Content;
      DestAt(par, m, lists, lists2, index);
      cell, np := cells + index, cnumPars[index];
      ghost var k := 0;
      while np > PARTICLES_PER_CELL
        invariant k < |m.dest[index]| && cell == m.dest[index][k] && np == cnumPars[index] - PARTICLES_PER_CELL * k
        invariant k > 0 ==> np > 0
      {
        DestLink(m, index, k);
        cell := next[cell];
        np := np - PARTICLES_PER_CELL;
        k := k + 1;
      }
    }

    // cell->next = cellpool_getcell(&pool), behind the full last chunk of a cell.
    method Extend(index: nat, cell: nat) returns (c: nat)
      requires Linked() && Counted() && Content(par, m, lists, lists2) && index < |lists|
      requires cnumPars[index] % PARTICLES_PER_CELL == 0 && cnumPars[index] != 0
      requires m.dest[index] != [] && cell == m.dest[index][|m.dest[index]| - 1]
      modifies this`next, this`par, this`pool, this`alloc, this`m
      ensures Linked() && Counted() && Room(par, m, lists, lists2, index) && m.dest == old(m.dest)[index := old(m.dest)[index] + [c]]
      ensures m.src == old(m.src) && m.from == old(m.from) && m.srcBase == old(m.srcBase) && m.lo == old(m.lo)
      ensures forall x :: (m.lo <= x < |m.home| && m.home[x] == Loose) ==> (x < |old(m.home)| && old(m.home)[x] == Loose)
    {
      hide MemoryOk, Content, Room;
      c := GetCell();
      ExtendedOk(m, index, c);
      RoomExtended(par, m, lists, lists2, index, c);
      next := next[cell := c];
      m := Extended(m, index, c);
    }

    // The chunk and the slot for the next particle of a cell.
    method FindRoom(index: nat) returns (cell: nat, np: nat)
      requires Valid() && index < |lists|
      modifies this`next, this`par, this`pool, this`alloc, this`m
      ensures Linked() && Counted() && Room(par, m, lists, lists2, index) && Settled(m)
      ensures m.dest[index] != [] && cell == m.dest[index][|m.dest[index]| - 1] && np == cnumPars[index] % PARTICLES_PER_CELL
    {
      hide MemoryOk, Content, Room, Linked, Shape;
      cell, np := Walk(index);
      if np % PARTICLES_PER_CELL == 0 && cnumPars[index] != 0 {
        cell := Extend(index, cell);
        np := np - PARTICLES_PER_CELL;
      } else {
        RoomAsIs(par, m, lists, lists2, index);
      }
    }

    // One turn of the reading loop of InitSim: walk to the last chunk of the cell, and add the particle there.
    method PlaceParticle(q: Particle)
      requires Valid()
      modifies this`next, this`par, this`pool, this`alloc, this`m, this`cnumPars, this`lists
      ensures Valid()
      ensures lists == old(lists)[IndexOf(d, q) := old(lists)[IndexOf(d, q)] + [q]]
    {
      hide MemoryOk, Content, Room, IndexOf;
      var index := IndexOf(d, q);
      var cell, np := FindRoom(index);
      PutOk(par, m, lists, lists2, index, q);
      par := par[cell := par[cell][np := q]];
      lists := lists[index := lists[index] + [q]];
      cnumPars := cnumPars[index := cnumPars[index] + 1];
    }

    // The next block, twice as large as the one before, becomes the pool.
    method GrowPool()
      requires Linked() && Content(par, m, lists, lists2) && pool == NULL
      modifies this`next, this`par, this`pool, this`alloc, this`m
      ensures Linked() && Content(par, m, lists, lists2) && pool != NULL && m == Grown(old(m), old(alloc))
    {
      hide MemoryOk, Content;
      FreeHead(m);
      GrownOk(m, alloc);
      var links := AllocBlock(|next|, alloc);
      var more := seq(alloc, _ => seq(PARTICLES_PER_CELL, _ => blank));
      RoomInMore(par, more, m, Grown(m, alloc), lists, lists2);
      pool := |next|;
      next := next + links;
      par := par + more;
      m := Grown(m, alloc);
      alloc := 2 * alloc;
    }

    // cellpool_getcell
    method GetCell() returns (c: nat)
      requires Linked() && Content(par, m, lists, lists2)
      modifies this`next, this`par, this`pool, this`alloc, this`m
      ensures Linked() && Content(par, m, lists, lists2)
      ensures m.dest == old(m.dest) && m.src == old(m.src) && m.from == old(m.from) && m.lo == old(m.lo)
      ensures m.lo <= c < |m.home| && m.home[c] == Loose && m.next[c] == NULL
      ensures forall x :: (m.lo <= x < |m.home| && m.home[x] == Loose) ==> x == c || (x < |old(m.home)| && old(m.home)[x] == Loose)
    {
      hide MemoryOk, Content;
      FreeHead(m);
      if pool == NULL { GrowPool(); }
      TakenOk(m);
      RoomInMore(par, [], m, Taken(m), lists, lists2);
      assert par + [] == par;
      c := pool;
      pool := next[c];
      next := next[c := NULL];
      m := Taken(m);
    }

    // Another chunk if everything is full; the chunk for the next particle.
    method MakeRoom(index: nat) returns (cell: nat)
      requires Mid() && index < |lists|
      modifies this`next, this`par, this`pool, this`alloc, this`m, this`lastCells
      ensures Linked() && Counted() && LastOk() && Room(par, m, lists, lists2, index) && cell == lastCells[index]
      ensures m.src == old(m.src) && m.from == old(m.from) && m.srcBase == old(m.srcBase) && m.lo == old(m.lo)
      ensures forall x :: (m.lo <= x < |m.home| && m.home[x] == Loose) ==> (x < |old(m.home)| && old(m.home)[x] == Loose)
    {
      hide MemoryOk, Content, Room;
      cell := lastCells[index];
      var np := cnumPars[index];
      if np % PARTICLES_PER_CELL == 0 && np != 0 {
        cell := Extend(index, cell);
        lastCells := lastCells[index := cell];
      } else {
        RoomAsIs(par, m, lists, lists2, index);
      }
    }

    method AddParticle(index: nat, q: Particle)
      requires Mid() && index < |lists|
      modifies this`next, this`par, this`pool, this`alloc, this`m, this`cnumPars, this`lastCells, this`lists
      ensures Mid() && lists == old(lists)[index := old(lists)[index] + [q]]
      ensures m.src == old(m.src) && m.from == old(m.from) && m.srcBase == old(m.srcBase) && m.lo == old(m.lo)
      ensures forall x :: (m.lo <= x < |m.home| && m.home[x] == Loose) ==> (x < |old(m.home)| && old(m.home)[x] == Loose)
    {
      hide MemoryOk, Content, Room;
      var cell := MakeRoom(index);
      var np := cnumPars[index];
      PutOk(par, m, lists, lists2, index, q);
      cnumPars := cnumPars[index := cnumPars[index] + 1];
      par := par[cell := par[cell][np % PARTICLES_PER_CELL := q]];
      lists := lists[index := lists[index] + [q]];
    }

    // A chunk that has been read is given back, unless it is the head of its chain.
    method Release(i: nat, temp: nat)
      requires Mid() && NoneLoose(m) && i < |m.src| && m.from[i] < |m.src[i]| && temp == m.src[i][m.from[i]]
      modifies this`next, this`pool, this`m
      ensures Mid() && NoneLoose(m)
      ensures m.dest == old(m.dest) && m.src == old(m.src) && m.from == old(m.from)[i := old(m.from)[i] + 1]
      ensures m.srcBase == old(m.srcBase) && m.lo == old(m.lo)
    {
      hide MemoryOk;
      PassedOk(m, i);
      PassedContent(par, m, lists, lists2, i);
      HeadOnly(m, i);
      m := Passed(m, i);
      if temp != cells2 + i {
        ReturnedOk(m, temp);
        ReturnedContent(par, m, lists, lists2, temp);
        next := next[temp := pool];
        pool := temp;
        m := Returned(m, temp);
      }
    }

    method ClearHeads(n: nat)
      requires cells + n <= |next| && |lastCells| == n
      modifies this`next, this`lastCells
      ensures next == ClearedHeads(old(next), cells, n)
      ensures |lastCells| == n && forall k :: 0 <= k < n ==> lastCells[k] == cells + k
    {
      var i := 0;
      while i < n
        invariant 0 <= i <= n && |next| == |old(next)| && |lastCells| == n
        invariant forall c :: 0 <= c < |next| ==> next[c] == if cells <= c < cells + i then NULL else old(next)[c]
        invariant forall k :: 0 <= k < i ==> lastCells[k] == cells + k
      {
        next := next[cells + i := NULL];
        lastCells := lastCells[i := cells + i];
        i := i + 1;
      }
    }

    // The swaps and the first loop of RebuildGrid.
    method Turn()
      requires Valid()
      modifies this`cells, this`cells2, this`cnumPars, this`cnumPars2, this`next, this`lastCells, this`m, this`lists, this`lists2
      ensures Mid() && NoneLoose(m) && lists2 == old(lists) && m.src == old(m.dest)
      ensures forall i :: 0 <= i < |lists| ==> lists[i] == [] && m.from[i] == 0
    {
      hide MemoryOk, Content;
      TurnedOk(m);
      TurnedContent(par, m, lists, lists2);
      var n := NumCells(d);
      cells, cells2 := cells2, cells;
      cnumPars, cnumPars2 := seq(n, _ => 0), cnumPars;
      ClearHeads(n);
      lists, lists2 := seq(n, _ => []), lists;
      m := Turned(m);
    }

    // One particle of source cell i to its place; the chunk for the next one.
    method MoveParticle(i: nat, j: nat, cell2: int, ghost ps: seq<Particle>) returns (cell2': int)
      requires Mid() && NoneLoose(m) && i < |m.src| && j < |lists2[i]| && m.from[i] == j / PARTICLES_PER_CELL
      requires |m.src[i]| == Chunks(|lists2[i]|) && j / PARTICLES_PER_CELL < |m.src[i]| && cell2 == m.src[i][j / PARTICLES_PER_CELL]
      requires forall u :: 0 <= u < |lists| ==> lists[u] == Belonging(d, ps + lists2[i][..j], u)
      modifies this`next, this`par, this`pool, this`alloc, this`m, this`cnumPars, this`lastCells, this`lists
      ensures Mid() && NoneLoose(m) && m.src == old(m.src) && m.from == old(m.from)[i := (j + 1) / PARTICLES_PER_CELL] && |lists| == old(|lists|)
      ensures cell2' == if (j + 1) / PARTICLES_PER_CELL < |m.src[i]| then m.src[i][(j + 1) / PARTICLES_PER_CELL] else NULL
      ensures forall u :: 0 <= u < |lists| ==> lists[u] == Belonging(d, ps + lists2[i][..j + 1], u)
    {
      hide MemoryOk, Content, Belonging;
      SrcParticle(par, m, lists, lists2, i, j);
      var q := par[cell2][j % PARTICLES_PER_CELL];
      var index := IndexOf(d, q);
      OneMoreBelongs(d, ps, lists2[i], j);
      AddParticle(index, q);
      cell2' := cell2;
      if j % PARTICLES_PER_CELL == PARTICLES_PER_CELL - 1 {
        SrcLink(m, i);
        cell2' := next[cell2];
        Release(i, cell2);
      }
    }

    // The inner loop of RebuildGrid for one source cell: all its particles to their places, all its chunks but the head to the pool.
    method EmptyCell(i: nat, ghost ps: seq<Particle>)
      requires Mid() && NoneLoose(m) && i < |m.src| && m.from[i] == 0
      requires forall u :: 0 <= u < |lists| ==> lists[u] == Belonging(d, ps, u)
      modifies this`next, this`par, this`pool, this`alloc, this`m, this`cnumPars, this`lastCells, this`lists
      ensures Mid() && NoneLoose(m) && m.src == old(m.src) && m.from == old(m.from)[i := |m.src[i]|]
      ensures |lists| == old(|lists|) && forall u :: 0 <= u < |lists| ==> lists[u] == Belonging(d, ps + lists2[i], u)
    {
      hide MemoryOk, Content, Belonging;
      var cell2: int := cells2 + i;
      var np2, j := cnumPars2[i], 0;
      SrcAt(par, m, lists, lists2, i);
      assert lists2[i][..0] == [] && ps + [] == ps;
      while j < np2
        invariant 0 <= j <= np2 == |lists2[i]|
        invariant Mid() && NoneLoose(m) && m.src == old(m.src) && m.from == old(m.from)[i := j / PARTICLES_PER_CELL] && |lists| == old(|lists|)
        invariant |m.src[i]| == Chunks(np2) && cell2 == if j / PARTICLES_PER_CELL < |m.src[i]| then m.src[i][j / PARTICLES_PER_CELL] else NULL
        invariant forall u :: 0 <= u < |lists| ==> lists[u] == Belonging(d, ps + lists2[i][..j], u)
      {
        cell2 := MoveParticle(i, j, cell2, ps);
        j := j + 1;
      }
      assert lists2[i][..j] == lists2[i];
      LeaveCell(i, cell2);
    }

    // The last chunk of a source cell that was not full.
    method LeaveCell(i: nat, cell2: int)
      requires Mid() && NoneLoose(m) && i < |m.src| && |m.src[i]| - 1 <= m.from[i] <= |m.src[i]|
      requires cell2 == if m.from[i] < |m.src[i]| then m.src[i][m.from[i]] else NULL
      modifies this`next, this`pool, this`m
      ensures Mid() && NoneLoose(m) && m.dest == old(m.dest) && m.src == old(m.src) && m.from == old(m.from)[i := |m.src[i]|]
    {
      hide MemoryOk, Content;
      HeadAt(m, i);
      if cell2 != NULL && cell2 != cells2 + i {
        Release(i, cell2);
      } else if m.from[i] < |m.src[i]| {
        PassedOk(m, i);
        PassedContent(par, m, lists, lists2, i);
        m := Passed(m, i);
      }
    }

    // Particles keep their order: cell after cell, and within a cell.
    method RebuildGrid()
      requires Valid()
      modifies this`cells, this`cells2, this`next, this`par, this`pool, this`alloc, this`m, this`cnumPars, this`cnumPars2, this`lastCells, this`lists, this`lists2
      ensures Valid() && |lists| == |old(lists)| == NumCells(d)
      ensures forall u :: 0 <= u < |lists| ==> lists[u] == Belonging(d, AllOf(old(lists)), u)
      ensures multiset(AllOf(lists)) == multiset(AllOf(old(lists)))
      ensures LastOk()
    {
      hide MemoryOk, Content, Belonging, AllOf;
      Turn();
      NobodyYet(d);
      assert lists2[..0] == [];
      var i := 0;
      while i < NumCells(d)
        invariant 0 <= i <= NumCells(d) == |lists| && Mid() && NoneLoose(m) && lists2 == old(lists) && m.src == old(m.dest)
        invariant forall u :: 0 <= u < i ==> m.from[u] >= |m.src[u]|
        invariant forall u :: i <= u < |m.from| ==> m.from[u] == 0
        invariant forall u :: 0 <= u < |lists| ==> lists[u] == Belonging(d, AllOf(lists2[..i]), u)
      {
        EmptyCell(i, AllOf(lists2[..i]));
        OneMoreCell(lists2, i);
        i := i + 1;
      }
      assert lists2[..i] == lists2;
      AllBelong(d, AllOf(lists2), lists);
    }
  }

  lemma TurnedContent(par: seq<seq<Particle>>, m: Memory, lists: seq<seq<Particle>>, lists2: seq<seq<Particle>>)
    requires Content(par, m, lists, lists2) && |m.home| == |m.next|
    ensures Content(par, Turned(m), seq(|m.dest|, _ => []), lists)
  {
    var m', none: seq<seq<Particle>> := Turned(m), seq(|m.dest|, _ => []);
    forall i | 0 <= i < |m.dest| ensures Holds(par, m'.src[i], lists[i], m'.from[i]) {
      assert Holds(par, m.dest[i], lists[i], 0);
      forall j | 0 <= j < |lists[i]| ensures ParticleAt(par, m'.src[i], lists[i], j) {
        assert ParticleAt(par, m.dest[i], lists[i], j);
      }
    }
    forall i | 0 <= i < |m.dest| ensures Holds(par, m'.dest[i], none[i], 0) {
    }
  }

  lemma SrcAt(par: seq<seq<Particle>>, m: Memory, lists: seq<seq<Particle>>, lists2: seq<seq<Particle>>, i: nat)
    requires MemoryOk(m) && Content(par, m, lists, lists2) && i < |m.src|
    ensures m.src[i] != [] && m.src[i][0] == m.srcBase + i && |m.src[i]| == Chunks(|lists2[i]|)
  {
    assert SrcChainOk(m.next, m.src[i], m.home, i, m.from[i], m.srcBase, m.lo);
    assert Holds(par, m.src[i], lists2[i], m.from[i]);
  }

  // The particle under the walk is still there.
  lemma SrcParticle(par: seq<seq<Particle>>, m: Memory, lists: seq<seq<Particle>>, lists2: seq<seq<Particle>>, i: nat, j: nat)
    requires Content(par, m, lists, lists2) && i < |m.src| && j < |lists2[i]| && m.from[i] == j / PARTICLES_PER_CELL
    ensures j / PARTICLES_PER_CELL < |m.src[i]| && m.src[i][j / PARTICLES_PER_CELL] < |par| && |par[m.src[i][j / PARTICLES_PER_CELL]]| == PARTICLES_PER_CELL
    ensures par[m.src[i][j / PARTICLES_PER_CELL]][j % PARTICLES_PER_CELL] == lists2[i][j]
  {
    assert Holds(par, m.src[i], lists2[i], m.from[i]);
    assert ParticleAt(par, m.src[i], lists2[i], j);
  }

  lemma SrcLink(m: Memory, i: nat)
    requires MemoryOk(m) && i < |m.src| && m.from[i] < |m.src[i]|
    ensures var k, chain := m.from[i], m.src[i];
      chain[k] < |m.next| && m.next[chain[k]] == if k == |chain| - 1 then NULL else chain[k + 1]
  {
    assert SrcChainOk(m.next, m.src[i], m.home, i, m.from[i], m.srcBase, m.lo);
    assert LinkOk(m.next, m.src[i], m.from[i]);
  }

  lemma HeadAt(m: Memory, i: nat)
    requires MemoryOk(m) && i < |m.src|
    ensures m.from[i] < |m.src[i]| ==> (m.src[i][m.from[i]] == m.srcBase + i <==> m.from[i] == 0)
  {
    if m.from[i] < |m.src[i]| { HeadOnly(m, i); }
  }

  lemma OneMoreBelongs(d: Domain, ps: seq<Particle>, list: seq<Particle>, j: nat)
    requires DomainOk(d) && j < |list|
    ensures forall u ::
      Belonging(d, ps + list[..j + 1], u) == Belonging(d, ps + list[..j], u) + if IndexOf(d, list[j]) == u then [list[j]] else []
  {
    assert (ps + list[..j + 1])[..|ps| + j] == ps + list[..j];
  }

  lemma NobodyYet(d: Domain)
    requires DomainOk(d)
    ensures AllOf([]) == [] && forall u :: Belonging(d, [], u) == []
  {
  }

  lemma OneMoreCell(lists: seq<seq<Particle>>, i: nat)
    requires i < |lists|
    ensures AllOf(lists[..i + 1]) == AllOf(lists[..i]) + lists[i]
  {
    assert lists[..i + 1][..i] == lists[..i];
  }

  /* ---------- nothing is lost ---------- */

  lemma {:induction false} AppendOne(lists: seq<seq<Particle>>, i: nat, q: Particle)
    requires i < |lists|
    ensures multiset(AllOf(lists[i := lists[i] + [q]])) == multiset(AllOf(lists)) + multiset{q}
  {
    var n, after := |lists| - 1, lists[i := lists[i] + [q]];
    if i < n {
      AppendOne(lists[..n], i, q);
      assert after[..n] == lists[..n][i := lists[i] + [q]];
    } else {
      assert after[..n] == lists[..n];
    }
  }

  function BelongingAll(d: Domain, ps: seq<Particle>): (r: seq<seq<Particle>>)
    requires DomainOk(d)
    ensures |r| == NumCells(d)
  {
    seq(NumCells(d), u requires 0 <= u < NumCells(d) => Belonging(d, ps, u))
  }

  lemma LastBelongs(d: Domain, ps: seq<Particle>)
    requires DomainOk(d) && ps != []
    ensures var n := |ps| - 1;
      var before, i := BelongingAll(d, ps[..n]), IndexOf(d, ps[n]);
      BelongingAll(d, ps) == before[i := before[i] + [ps[n]]]
  {
    hide IndexOf, NumCells;
    var n := |ps| - 1;
    var before, i := BelongingAll(d, ps[..n]), IndexOf(d, ps[n]);
    var all, put := BelongingAll(d, ps), before[i := before[i] + [ps[n]]];
    forall u | 0 <= u < |all| ensures all[u] == put[u] {
      assert all[u] == Belonging(d, ps, u) && before[u] == Belonging(d, ps[..n], u);
    }
  }

  // Distributing particles over the cells keeps each of them once.
  lemma {:induction false} NoneLost(d: Domain, ps: seq<Particle>)
    requires DomainOk(d)
    ensures multiset(AllOf(BelongingAll(d, ps))) == multiset(ps)
    decreases |ps|
  {
    hide IndexOf, NumCells, AllOf;
    if ps == [] {
      NoParticles(BelongingAll(d, ps));
    } else {
      var n := |ps| - 1;
      NoneLost(d, ps[..n]);
      LastBelongs(d, ps);
      AppendOne(BelongingAll(d, ps[..n]), IndexOf(d, ps[n]), ps[n]);
      assert ps == ps[..n] + [ps[n]];
    }
  }

  lemma AllBelong(d: Domain, ps: seq<Particle>, lists: seq<seq<Particle>>)
    requires DomainOk(d) && |lists| == NumCells(d)
    requires forall u :: 0 <= u < |lists| ==> lists[u] == Belonging(d, ps, u)
    ensures multiset(AllOf(lists)) == multiset(ps)
  {
    hide NumCells, AllOf;
    NoneLost(d, ps);
    assert lists == BelongingAll(d, ps);
  }

  lemma {:induction false} NoParticles(lists: seq<seq<Particle>>)
    requires forall u :: 0 <= u < |lists| ==> lists[u] == []
    ensures AllOf(lists) == []
  {
    if lists != [] { NoParticles(lists[..|lists| - 1]); }
  }

  // No pooled chunks yet.
  function Start(n: nat): Memory {
    Memory(seq(2 * n, _ => NULL), NULL, [], seq(2 * n, _ => Loose), Heads(0, n), Heads(n, n), seq(n, _ => 1), 0, n, 2 * n)
  }

  lemma StartOk(n: nat)
    ensures MemoryOk(Start(n)) && Start(n).free == []
    ensures forall count: nat :: Settled(Grown(Start(n), count))
  {
    var m := Start(n);
    forall i | 0 <= i < n ensures DestChainOk(m.next, m.dest[i], m.home, i, 0, m.lo) {
      assert LinkOk(m.next, m.dest[i], 0);
    }
  }

  lemma StartContent(par: seq<seq<Particle>>, m: Memory, n: nat)
    requires |par| == |m.next| && (forall c :: 0 <= c < |par| ==> |par[c]| == PARTICLES_PER_CELL)
    requires m.dest == Heads(0, n) && m.src == Heads(n, n) && m.from == seq(n, _ => 1)
    ensures Content(par, m, seq(n, _ => []), seq(n, _ => []))
  {
    var none: seq<seq<Particle>> := seq(n, _ => []);
    forall i | 0 <= i < n ensures Holds(par, m.dest[i], none[i], 0) && Holds(par, m.src[i], none[i], 1) {
    }
  }

  lemma DestAt(par: seq<seq<Particle>>, m: Memory, lists: seq<seq<Particle>>, lists2: seq<seq<Particle>>, i: nat)
    requires MemoryOk(m) && Content(par, m, lists, lists2) && i < |m.dest|
    ensures m.dest[i] != [] && m.dest[i][0] == m.destBase + i && |m.dest[i]| == Chunks(|lists[i]|)
  {
    assert DestChainOk(m.next, m.dest[i], m.home, i, m.destBase, m.lo);
    assert Holds(par, m.dest[i], lists[i], 0);
  }

  lemma DestLink(m: Memory, i: nat, k: nat)
    requires MemoryOk(m) && i < |m.dest| && k < |m.dest[i]|
    ensures m.dest[i][k] < |m.next| && m.next[m.dest[i][k]] == if k == |m.dest[i]| - 1 then NULL else m.dest[i][k + 1]
  {
    assert DestChainOk(m.next, m.dest[i], m.home, i, m.destBase, m.lo);
    assert LinkOk(m.next, m.dest[i], k);
  }

  lemma PassedContent(par: seq<seq<Particle>>, m: Memory, lists: seq<seq<Particle>>, lists2: seq<seq<Particle>>, i0: nat)
    requires Content(par, m, lists, lists2) && i0 < |m.src| && m.from[i0] < |m.src[i0]| && m.src[i0][m.from[i0]] < |m.home|
    ensures Content(par, Passed(m, i0), lists, lists2)
  {
    var m' := Passed(m, i0);
    forall i | 0 <= i < |m.src| ensures Holds(par, m'.src[i], lists2[i], m'.from[i]) {
      assert Holds(par, m.src[i], lists2[i], m.from[i]);
    }
  }

  lemma ReturnedContent(par: seq<seq<Particle>>, m: Memory, lists: seq<seq<Particle>>, lists2: seq<seq<Particle>>, c: nat)
    requires Content(par, m, lists, lists2) && c < |m.next| == |m.home|
    ensures Content(par, Returned(m, c), lists, lists2)
  {
  }

  // Only the head of a source chain is not pooled.
  lemma HeadOnly(m: Memory, i: nat)
    requires MemoryOk(m) && i < |m.src| && m.from[i] < |m.src[i]|
    ensures m.src[i][m.from[i]] == m.srcBase + i <==> m.from[i] == 0
  {
    assert SrcChainOk(m.next, m.src[i], m.home, i, m.from[i], m.srcBase, m.lo);
  }

  lemma FreeHead(m: Memory)
    requires MemoryOk(m)
    ensures m.head == NULL <==> m.free == []
  {
    if m.free != [] { assert FreeEntryOk(m.next, m.free, m.home, m.lo, |m.free| - 1); }
  }
}
